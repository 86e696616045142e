/**
 * Form handling shared by the post and recipe actions: the two schemas that
 * check a submitted form, the category clean-up applied after validation, and
 * the rule that decides whether an update keeps or re-allocates the slug.
 */
module Validation {
  import opened Wrappers
  import opened Text
  import opened SlugPattern
  import opened Records

  /** What `formData.get(name)` returns: null, a string, or a file. */
  datatype Entry = Absent | Str(s: string) | FileEntry(file: Upload)

  datatype Field =
    | Title | Slug | Description | Content | Category | Image
    | Ingredients | Instructions | PrepTime | CookTime | Servings

  /** One issue the schema reports against a field. */
  datatype Violation =
    | NotAString(field: Field)   // the value is null or a file where a string is expected
    | TooShort(field: Field)     // below the field's minimum length
    | TooLong(field: Field)      // above the field's maximum length
    | BadSlug                    // "Slug can only contain lowercase letters, numbers, and hyphens."
    | NotAnImage                 // "Only images are allowed."
    | NotAFile                   // "Please upload a valid file."

  /** The fields a post form submits. */
  datatype PostForm = PostForm(
    title: Entry, slug: Entry, description: Entry, content: Entry,
    category: Entry, image: Entry, published: Entry)

  /** The fields a recipe form submits. */
  datatype RecipeForm = RecipeForm(
    title: Entry, slug: Entry, description: Entry, ingredients: Entry,
    instructions: Entry, prepTime: Entry, cookTime: Entry, servings: Entry,
    category: Entry, image: Entry, published: Entry)

  /** A post form that passed the schema. */
  datatype PostInput = PostInput(
    title: string, slug: Option<string>, description: string, content: string,
    category: string, image: Option<Upload>, published: bool)

  /** A recipe form that passed the schema. */
  datatype RecipeInput = RecipeInput(
    title: string, slug: Option<string>, description: string, ingredients: string,
    instructions: string, prepTime: string, cookTime: string, servings: string,
    category: string, image: Option<Upload>, published: bool)

  /** `z.string().min(min)` with an optional `.max(max)`: a null or file value
      fails the type check alone; a string is checked against both bounds. */
  function StringViolations(field: Field, e: Entry, min: nat, max: Option<nat>): (r: set<Violation>)
    ensures NotAString(field) in r <==> !e.Str?
    ensures TooShort(field) in r <==> e.Str? && |e.s| < min
    ensures TooLong(field) in r <==> e.Str? && max.Some? && |e.s| > max.value
    ensures forall v :: v in r ==> v.NotAString? || v.TooShort? || v.TooLong?
    ensures forall v :: v in r ==> v.field == field
  {
    if !e.Str? then {NotAString(field)}
    else
      (if |e.s| < min then {TooShort(field)} else {})
      + (if max.Some? && |e.s| > max.value then {TooLong(field)} else {})
  }

  /** The slug arrives as `formData.get("slug") || null`; the schema accepts
      null and the empty string, and otherwise tests the slug pattern. */
  function SlugViolations(e: Entry): (r: set<Violation>)
    ensures BadSlug in r <==> e.Str? && e.s != "" && !MatchesSlugRegex(e.s)
    ensures NotAString(Slug) in r <==> e.FileEntry?
    ensures forall v :: v in r ==> v == BadSlug || v == NotAString(Slug)
  {
    match e
    case Absent => {}
    case Str(s) => if s == "" || MatchesSlugRegex(s) then {} else {BadSlug}
    case FileEntry(_) => {NotAString(Slug)}
  }

  /** The two refinements on the image: a present value must be a file, and a
      non-empty file must have an `image/` type. A non-empty string fails both. */
  function ImageViolations(e: Entry): (r: set<Violation>)
    ensures NotAnImage in r <==>
      (e.Str? && e.s != "") || (e.FileEntry? && e.file.size != 0 && !("image/" <= e.file.mimeType))
    ensures NotAFile in r <==> e.Str? && e.s != ""
    ensures forall v :: v in r ==> v == NotAnImage || v == NotAFile
  {
    match e
    case Absent => {}
    case Str(s) => if s == "" then {} else {NotAnImage, NotAFile}
    case FileEntry(f) => if f.size == 0 || "image/" <= f.mimeType then {} else {NotAnImage}
  }

  /** A slug entry the schema accepts. */
  predicate SlugAcceptable(e: Entry)
  {
    match e
    case Absent => true
    case Str(s) => s == "" || MatchesSlugRegex(s)
    case FileEntry(_) => false
  }

  /** An image entry the schema accepts: nothing, an empty string, an empty
      file, or a file whose type starts with `image/`. */
  predicate ImageAcceptable(e: Entry)
  {
    match e
    case Absent => true
    case Str(s) => s == ""
    case FileEntry(f) => f.size == 0 || "image/" <= f.mimeType
  }

  /** The slug after `|| null`: absent for a missing or empty entry. */
  function SlugValue(e: Entry): Option<string>
  {
    if e.Str? && e.s != "" then Some(e.s) else None
  }

  /** The image after the schema's transform: a file, or nothing. */
  function ImageValue(e: Entry): Option<Upload>
  {
    if e.FileEntry? then Some(e.file) else None
  }

  /** Every issue the post schema reports. */
  function PostViolations(f: PostForm): set<Violation>
  {
    StringViolations(Title, f.title, 3, None)
    + SlugViolations(f.slug)
    + StringViolations(Description, f.description, 0, Some(200))
    + StringViolations(Content, f.content, 10, None)
    + StringViolations(Category, f.category, 0, None)
    + ImageViolations(f.image)
  }

  /** The post schema's rules, stated field by field. */
  predicate PostFormAcceptable(f: PostForm)
  {
    && f.title.Str? && |f.title.s| >= 3
    && SlugAcceptable(f.slug)
    && f.description.Str? && |f.description.s| <= 200
    && f.content.Str? && |f.content.s| >= 10
    && f.category.Str?
    && ImageAcceptable(f.image)
  }

  /** `PostSchema.safeParse`: the validated fields, or every issue found. */
  function ParsePost(f: PostForm): (r: Result<PostInput, set<Violation>>)
    ensures r.Success? <==> PostFormAcceptable(f)
    ensures r.Failure? ==> r.error != {} && r.error == PostViolations(f)
    ensures r.Success? ==>
      && |r.value.title| >= 3 && |r.value.content| >= 10 && |r.value.description| <= 200
      && (r.value.slug.Some? ==> MatchesSlugRegex(r.value.slug.value))
      && (r.value.image.Some? && r.value.image.value.size != 0 ==> "image/" <= r.value.image.value.mimeType)
    ensures r.Success? ==>
      && r.value.title == f.title.s && r.value.slug == SlugValue(f.slug)
      && r.value.description == f.description.s && r.value.content == f.content.s
      && r.value.category == f.category.s && r.value.image == ImageValue(f.image)
      && r.value.published == (f.published == Str("on"))
  {
    var v := PostViolations(f);
    if v == {} then
      assert NotAString(Title) !in v && NotAString(Content) !in v;
      assert NotAString(Description) !in v && NotAString(Category) !in v;
      assert NotAString(Slug) !in v;
      Success(PostInput(f.title.s, SlugValue(f.slug), f.description.s, f.content.s,
                        f.category.s, ImageValue(f.image), f.published == Str("on")))
    else
      Failure(v)
  }

  /** Every issue the recipe schema reports. */
  function RecipeViolations(f: RecipeForm): set<Violation>
  {
    StringViolations(Title, f.title, 3, None)
    + SlugViolations(f.slug)
    + StringViolations(Description, f.description, 10, None)
    + StringViolations(Ingredients, f.ingredients, 10, None)
    + StringViolations(Instructions, f.instructions, 10, None)
    + StringViolations(PrepTime, f.prepTime, 0, None)
    + StringViolations(CookTime, f.cookTime, 0, None)
    + StringViolations(Servings, f.servings, 0, None)
    + StringViolations(Category, f.category, 0, None)
    + ImageViolations(f.image)
  }

  /** The recipe schema's rules, stated field by field. */
  predicate RecipeFormAcceptable(f: RecipeForm)
  {
    && f.title.Str? && |f.title.s| >= 3
    && SlugAcceptable(f.slug)
    && f.description.Str? && |f.description.s| >= 10
    && f.ingredients.Str? && |f.ingredients.s| >= 10
    && f.instructions.Str? && |f.instructions.s| >= 10
    && f.prepTime.Str? && f.cookTime.Str? && f.servings.Str?
    && f.category.Str?
    && ImageAcceptable(f.image)
  }

  /** `RecipeSchema.safeParse`: the validated fields, or every issue found. */
  function ParseRecipe(f: RecipeForm): (r: Result<RecipeInput, set<Violation>>)
    ensures r.Success? <==> RecipeFormAcceptable(f)
    ensures r.Failure? ==> r.error != {} && r.error == RecipeViolations(f)
    ensures r.Success? ==>
      && |r.value.title| >= 3 && |r.value.description| >= 10
      && |r.value.ingredients| >= 10 && |r.value.instructions| >= 10
      && (r.value.slug.Some? ==> MatchesSlugRegex(r.value.slug.value))
      && (r.value.image.Some? && r.value.image.value.size != 0 ==> "image/" <= r.value.image.value.mimeType)
    ensures r.Success? ==>
      && r.value.title == f.title.s && r.value.slug == SlugValue(f.slug)
      && r.value.description == f.description.s && r.value.ingredients == f.ingredients.s
      && r.value.instructions == f.instructions.s && r.value.prepTime == f.prepTime.s
      && r.value.cookTime == f.cookTime.s && r.value.servings == f.servings.s
      && r.value.category == f.category.s && r.value.image == ImageValue(f.image)
      && r.value.published == (f.published == Str("on"))
  {
    var v := RecipeViolations(f);
    if v == {} then
      assert NotAString(Title) !in v && NotAString(Description) !in v;
      assert NotAString(Ingredients) !in v && NotAString(Instructions) !in v;
      assert NotAString(PrepTime) !in v && NotAString(CookTime) !in v;
      assert NotAString(Servings) !in v && NotAString(Category) !in v;
      assert NotAString(Slug) !in v;
      Success(RecipeInput(f.title.s, SlugValue(f.slug), f.description.s, f.ingredients.s,
                          f.instructions.s, f.prepTime.s, f.cookTime.s, f.servings.s,
                          f.category.s, ImageValue(f.image), f.published == Str("on")))
    else
      Failure(v)
  }

  /** A category value after assignment: left undefined, set to null, or a string. */
  datatype Nullable = Undefined | Null | Value(s: string)

  /** A category in normal form: non-empty, no surrounding whitespace, the
      first letter upper-case and the rest lower-case. */
  predicate IsNormalCategory(c: string)
  {
    && c != []
    && !IsJsWhitespace(c[0]) && !IsJsWhitespace(c[|c| - 1])
    && !('a' <= c[0] <= 'z')
    && forall i :: 1 <= i < |c| ==> !('A' <= c[i] <= 'Z')
  }

  /** The category clean-up: a blank string becomes null, any other string is
      trimmed and capitalised, and an undefined category stays undefined. */
  function NormalizeCategory(raw: Option<string>): (r: Nullable)
    ensures raw.None? <==> r == Undefined
    ensures r == Null <==> raw.Some? && IsBlank(raw.value)
    ensures r.Value? ==> IsNormalCategory(r.s)
    ensures r.Value? ==> LowerCase(r.s) == LowerCase(Trim(raw.value))
  {
    match raw
    case None => Undefined
    case Some(c) =>
      if !IsBlank(c) then
        var t := Trim(c);
        TrimEndsAreNotWhitespace(c);
        CapitalizeProperties(t);
        Value(Capitalize(t))
      else Null
  }

  /** Normalising a normalised category changes nothing, so the clean-up is
      idempotent on every input. */
  lemma NormalizeCategoryFixesNormal(c: string)
    requires IsNormalCategory(c)
    ensures NormalizeCategory(Some(c)) == Value(c)
  {
    TrimOfTrimmed(c);
    CapitalizeFixesCapitalized(c);
  }

  lemma NormalizeCategoryIdempotent(raw: Option<string>)
    ensures NormalizeCategory(raw).Value? ==>
      NormalizeCategory(Some(NormalizeCategory(raw).s)) == NormalizeCategory(raw)
  {
    if NormalizeCategory(raw).Value? {
      NormalizeCategoryFixesNormal(NormalizeCategory(raw).s);
    }
  }

  /** The category column written for a normalised value on create: null and
      undefined both leave the column null. */
  function CategoryColumn(n: Nullable): Option<string>
  {
    if n.Value? then Some(n.s) else None
  }

  /** The slug an update should carry. */
  datatype SlugChoice = KeepCurrent | Reallocate(source: string)

  /** A given slug counts only when it is non-blank. */
  predicate SlugGiven(inputSlug: Option<string>)
  {
    inputSlug.Some? && !IsBlank(inputSlug.value)
  }

  /** The update rule: a given slug different from the current one is
      re-allocated from itself; otherwise a changed title with no given slug is
      re-allocated from the title; otherwise the current slug stays. */
  function UpdateSlugChoice(inputSlug: Option<string>, title: string, current: Row): (r: SlugChoice)
    ensures r == KeepCurrent <==>
      (SlugGiven(inputSlug) ==> inputSlug.value == current.slug)
      && (!SlugGiven(inputSlug) ==> title == current.title)
    ensures r.Reallocate? ==>
      if SlugGiven(inputSlug) then r.source == inputSlug.value else r.source == title
  {
    if SlugGiven(inputSlug) && inputSlug.value != current.slug then Reallocate(inputSlug.value)
    else if title != current.title && !SlugGiven(inputSlug) then Reallocate(title)
    else KeepCurrent
  }

  /** The post form echoes the current slug in a hidden field, so editing a
      post's title alone never changes its slug. */
  lemma PostFormKeepsSlug(title: string, current: Row)
    requires !IsBlank(current.slug)
    ensures UpdateSlugChoice(Some(current.slug), title, current) == KeepCurrent
  {
  }

  /** The recipe form has no slug field, so a changed title re-allocates the
      recipe's slug from the new title. */
  lemma RecipeFormRetitles(title: string, current: Row)
    requires title != current.title
    ensures UpdateSlugChoice(SlugValue(Absent), title, current) == Reallocate(title)
  {
  }
}
