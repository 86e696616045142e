/**
 * The server actions over the content store: create, update, delete and
 * toggle-publish for posts and recipes. Each action is a method on the store
 * that performs its steps in the source's order; its postcondition ties the
 * outcome and the new store to a step function, and the lemmas below state
 * what the steps guarantee. The session is reduced to its `isLoggedIn` flag;
 * id generation, the clock, the blob store's failures and the failure of a
 * row write for a reason other than the slug constraint are parameters.
 */
module Actions {
  import opened Wrappers
  import opened Text
  import opened Records
  import opened Validation
  import opened SlugAllocator
  import opened ImageUpload
  import opened SlugPattern

  /** What a form action reports back (or that it threw). */
  datatype Outcome =
    | Invalid(violations: set<Violation>)  // schema failure, returned as field errors
    | AuthRequired                          // "Authentication required."
    | NotFound                              // "Post not found." / "Recipe not found."
    | SlugInUse                             // unique-constraint violation on the slug
    | BadImageType                          // "Invalid file type" reported on the image field
    | SlugUnavailable                       // allocator exhausted, reported on the title field
    | StoreFailure                          // a failed upload or a failed write, as "Database Error: …"
    | Crashed                               // the allocator's error escaped the action
    | Saved                                 // the row was written; redirect to /admin

  /** The whole store: both tables, the blob store, and the effect log. */
  datatype Snapshot = Snapshot(
    posts: map<Id, Post>,
    recipes: map<Id, Recipe>,
    blobs: set<string>,
    log: seq<Effect>)

  /** The database's unique constraints. */
  predicate ValidSnapshot(s: Snapshot)
  {
    UniqueSlugs(s.posts) && UniqueSlugs(s.recipes)
  }

  /** The store after `handleImageUpload` issued its requests. */
  function AfterUpload(s: Snapshot, effects: seq<Effect>): Snapshot
  {
    s.(blobs := ApplyBlobEffects(s.blobs, effects), log := s.log + effects)
  }

  /** A column assigned a possibly-undefined value on update: undefined keeps
      the column, null clears it. */
  function UpdatedColumn(current: Option<string>, n: Nullable): Option<string>
  {
    match n
    case Undefined => current
    case Null => None
    case Value(v) => Some(v)
  }

  /** The image column after an update: a new URL replaces it, no new image
      keeps it. */
  function UpdatedImage(current: Option<string>, uploaded: Option<string>): Option<string>
  {
    if uploaded.Some? then uploaded else current
  }

  // ---------------------------------------------------------------- posts

  /** `createPost`: validate, clean the category, take the given slug or
      allocate one from the title, upload the image, insert the row. */
  function CreatePostStep(s: Snapshot, form: PostForm, slugify: string -> string, newId: Id,
                          now: int, timestamp: nat, putFails: bool, writeFails: bool): (Outcome, Snapshot)
    requires newId !in s.posts
  {
    match ParsePost(form)
    case Failure(v) => (Invalid(v), s)
    case Success(d) =>
      var slug := if SlugGiven(d.slug) then Success(d.slug.value)
                  else Allocation(s.posts, slugify(d.title), None);
      if slug.Failure? then (Crashed, s)
      else InsertPost(s, d, slug.value, newId, now, timestamp, putFails, writeFails)
  }

  /** The part of `createPost` after the slug is known: the upload, then the
      insert, which the unique constraint refuses when the slug is taken. */
  function InsertPost(s: Snapshot, d: PostInput, slug: string, newId: Id,
                      now: int, timestamp: nat, putFails: bool, writeFails: bool): (Outcome, Snapshot)
    requires newId !in s.posts
  {
    var up := UploadResult(d.image, timestamp, putFails);
    var s1 := AfterUpload(s, UploadEffects(d.image, None, timestamp, putFails, false));
    if up.Failure? || writeFails then (StoreFailure, s1)
    else if SlugTaken(s.posts, None, slug) then (SlugInUse, s1)
    else
      var row := Row(d.title, slug, CategoryColumn(NormalizeCategory(Some(d.category))), up.value,
                     d.published, now, PostBody(Some(d.description), d.content));
      (Saved, s1.(posts := s.posts[newId := row], log := s1.log + [RowInsert(newId)]))
  }

  /** The slug `updatePost` and `updateRecipe` write, or the allocator's error. */
  function UpdateSlug<B>(table: map<Id, Row<B>>, id: Id, inputSlug: Option<string>, title: string,
                         slugify: string -> string): Result<string, AllocationError>
    requires id in table
  {
    match UpdateSlugChoice(inputSlug, title, table[id])
    case KeepCurrent => Success(table[id].slug)
    case Reallocate(source) => Allocation(table, slugify(source), Some(id))
  }

  /** `updatePost`: validate, clean the category, look the post up, decide the
      slug, upload the image (deleting the old one), update the row. */
  function UpdatePostStep(s: Snapshot, id: Id, form: PostForm, slugify: string -> string,
                          timestamp: nat, putFails: bool, writeFails: bool, deleteFails: bool): (Outcome, Snapshot)
  {
    match ParsePost(form)
    case Failure(v) => (Invalid(v), s)
    case Success(d) =>
      if id !in s.posts then (NotFound, s)
      else
        var slug := UpdateSlug(s.posts, id, d.slug, d.title, slugify);
        if slug.Failure? then (Crashed, s)
        else ReplacePost(s, id, d, slug.value, timestamp, putFails, writeFails, deleteFails)
  }

  /** The part of `updatePost` after the slug is known. */
  function ReplacePost(s: Snapshot, id: Id, d: PostInput, slug: string,
                       timestamp: nat, putFails: bool, writeFails: bool, deleteFails: bool): (Outcome, Snapshot)
    requires id in s.posts
  {
    var current := s.posts[id];
    var up := UploadResult(d.image, timestamp, putFails);
    var s1 := AfterUpload(s, UploadEffects(d.image, current.imageUrl, timestamp, putFails, deleteFails));
    if up.Failure? || writeFails then (StoreFailure, s1)
    else if SlugTaken(s.posts, Some(id), slug) then (SlugInUse, s1)
    else
      var row := current.(title := d.title, slug := slug,
                          category := UpdatedColumn(current.category, NormalizeCategory(Some(d.category))),
                          imageUrl := UpdatedImage(current.imageUrl, up.value),
                          published := d.published,
                          body := PostBody(Some(d.description), d.content));
      (Saved, s1.(posts := s.posts[id := row], log := s1.log + [RowUpdate(id)]))
  }

  // -------------------------------------------------------------- recipes

  /** `createRecipe`: check the session, validate (the slug field is not
      read), clean the category, then inside one error handler allocate a slug
      from the title, upload the image and insert the row. */
  function CreateRecipeStep(s: Snapshot, loggedIn: bool, form: RecipeForm, slugify: string -> string,
                            newId: Id, now: int, timestamp: nat, putFails: bool, writeFails: bool): (Outcome, Snapshot)
    requires newId !in s.recipes
  {
    if !loggedIn then (AuthRequired, s)
    else
      match ParseRecipe(form.(slug := Absent))
      case Failure(v) => (Invalid(v), s)
      case Success(d) =>
        var slug := Allocation(s.recipes, slugify(d.title), None);
        if slug.Failure? then (SlugUnavailable, s)
        else InsertRecipe(s, d, slug.value, newId, now, timestamp, putFails, writeFails)
  }

  /** The part of `createRecipe` after the slug is known. */
  function InsertRecipe(s: Snapshot, d: RecipeInput, slug: string, newId: Id,
                        now: int, timestamp: nat, putFails: bool, writeFails: bool): (Outcome, Snapshot)
    requires newId !in s.recipes
  {
    var up := UploadResult(d.image, timestamp, putFails);
    var s1 := AfterUpload(s, UploadEffects(d.image, None, timestamp, putFails, false));
    if up == Failure(InvalidFileType) then (BadImageType, s1)
    else if up.Failure? || writeFails then (StoreFailure, s1)
    else if SlugTaken(s.recipes, None, slug) then (SlugInUse, s1)
    else
      var row := Row(d.title, slug, CategoryColumn(NormalizeCategory(Some(d.category))), up.value,
                     d.published, now,
                     RecipeBody(d.description, d.ingredients, d.instructions,
                                Some(d.prepTime), Some(d.cookTime), Some(d.servings)));
      (Saved, s1.(recipes := s.recipes[newId := row], log := s1.log + [RowInsert(newId)]))
  }

  /** `updateRecipe`: check the session, validate, clean the category, look
      the recipe up, decide the slug, then inside the error handler upload the
      image (deleting the old one) and update the row. */
  function UpdateRecipeStep(s: Snapshot, loggedIn: bool, id: Id, form: RecipeForm, slugify: string -> string,
                            timestamp: nat, putFails: bool, writeFails: bool, deleteFails: bool): (Outcome, Snapshot)
  {
    if !loggedIn then (AuthRequired, s)
    else
      match ParseRecipe(form)
      case Failure(v) => (Invalid(v), s)
      case Success(d) =>
        if id !in s.recipes then (NotFound, s)
        else
          var slug := UpdateSlug(s.recipes, id, d.slug, d.title, slugify);
          if slug.Failure? then (Crashed, s)
          else ReplaceRecipe(s, id, d, slug.value, timestamp, putFails, writeFails, deleteFails)
  }

  /** The part of `updateRecipe` after the slug is known. */
  function ReplaceRecipe(s: Snapshot, id: Id, d: RecipeInput, slug: string,
                         timestamp: nat, putFails: bool, writeFails: bool, deleteFails: bool): (Outcome, Snapshot)
    requires id in s.recipes
  {
    var current := s.recipes[id];
    var up := UploadResult(d.image, timestamp, putFails);
    var s1 := AfterUpload(s, UploadEffects(d.image, current.imageUrl, timestamp, putFails, deleteFails));
    if up == Failure(InvalidFileType) then (BadImageType, s1)
    else if up.Failure? || writeFails then (StoreFailure, s1)
    else if SlugTaken(s.recipes, Some(id), slug) then (SlugInUse, s1)
    else
      var row := current.(title := d.title, slug := slug,
                          category := UpdatedColumn(current.category, NormalizeCategory(Some(d.category))),
                          imageUrl := UpdatedImage(current.imageUrl, up.value),
                          published := d.published,
                          body := RecipeBody(d.description, d.ingredients, d.instructions,
                                             Some(d.prepTime), Some(d.cookTime), Some(d.servings)));
      (Saved, s1.(recipes := s.recipes[id := row], log := s1.log + [RowUpdate(id)]))
  }

  // ------------------------------------------------------ delete / toggle

  /** `deletePost` / `deleteRecipe`: the status code and the table after. */
  function DeleteStep<B>(table: map<Id, Row<B>>, id: Id, loggedIn: bool): (int, map<Id, Row<B>>)
  {
    if id == "" then (400, table)
    else if !loggedIn then (401, table)
    else if id !in table then (404, table)
    else (200, table - {id})
  }

  /** `togglePublishStatus` / `toggleRecipePublishStatus`: the row is set to
      the negation of the status the caller passes, not of the stored one; an
      update of a missing row fails and is reported as 500. */
  function ToggleStep<B>(table: map<Id, Row<B>>, id: Id, currentStatus: bool, loggedIn: bool): (int, map<Id, Row<B>>)
  {
    if !loggedIn then (401, table)
    else if id !in table then (500, table)
    else (200, table[id := table[id].(published := !currentStatus)])
  }

  /** The status the post list's publish button passes: the row's own flag. */
  function PostToggleArgument(isPublished: bool): bool
  {
    isPublished
  }

  /** The status the recipe list's publish button passes, as written: the
      negated flag, which the action negates again. */
  function RecipeToggleArgumentAsWired(isPublished: bool): bool
  {
    !isPublished
  }

  /** The status the recipe list's publish button should pass, as the post
      list does. */
  function RecipeToggleArgument(isPublished: bool): bool
  {
    isPublished
  }

  // ---------------------------------------------------------------- lemmas

  /** Inserting a row whose slug no row holds keeps slugs unique. */
  lemma InsertKeepsUnique<B>(table: map<Id, Row<B>>, id: Id, row: Row<B>)
    requires UniqueSlugs(table) && id !in table
    requires !SlugTaken(table, None, row.slug)
    ensures UniqueSlugs(table[id := row])
  {
    forall a | a in table ensures table[a].slug != row.slug {
      assert table[a].slug in OtherSlugs(table, None);
    }
  }

  /** Replacing a row by one whose slug no other row holds keeps slugs unique. */
  lemma ReplaceKeepsUnique<B>(table: map<Id, Row<B>>, id: Id, row: Row<B>)
    requires UniqueSlugs(table) && id in table
    requires !SlugTaken(table, Some(id), row.slug)
    ensures UniqueSlugs(table[id := row])
  {
    forall a | a in table && a != id ensures table[a].slug != row.slug {
      assert table[a].slug in OtherSlugs(table, Some(id));
    }
  }

  /** Every create and update keeps the slug columns unique: the row is
      written only when no other row holds its slug. */
  lemma InsertPostKeepsInvariant(s: Snapshot, d: PostInput, slug: string, newId: Id,
                                 now: int, timestamp: nat, putFails: bool, writeFails: bool)
    requires ValidSnapshot(s) && newId !in s.posts
    ensures ValidSnapshot(InsertPost(s, d, slug, newId, now, timestamp, putFails, writeFails).1)
  {
    var r := InsertPost(s, d, slug, newId, now, timestamp, putFails, writeFails);
    if r.0 == Saved {
      InsertKeepsUnique(s.posts, newId, r.1.posts[newId]);
    }
  }

  lemma ReplacePostKeepsInvariant(s: Snapshot, id: Id, d: PostInput, slug: string,
                                  timestamp: nat, putFails: bool, writeFails: bool, deleteFails: bool)
    requires ValidSnapshot(s) && id in s.posts
    ensures ValidSnapshot(ReplacePost(s, id, d, slug, timestamp, putFails, writeFails, deleteFails).1)
  {
    var r := ReplacePost(s, id, d, slug, timestamp, putFails, writeFails, deleteFails);
    if r.0 == Saved {
      ReplaceKeepsUnique(s.posts, id, r.1.posts[id]);
    }
  }

  lemma InsertRecipeKeepsInvariant(s: Snapshot, d: RecipeInput, slug: string, newId: Id,
                                   now: int, timestamp: nat, putFails: bool, writeFails: bool)
    requires ValidSnapshot(s) && newId !in s.recipes
    ensures ValidSnapshot(InsertRecipe(s, d, slug, newId, now, timestamp, putFails, writeFails).1)
  {
    var r := InsertRecipe(s, d, slug, newId, now, timestamp, putFails, writeFails);
    if r.0 == Saved {
      InsertKeepsUnique(s.recipes, newId, r.1.recipes[newId]);
    }
  }

  lemma ReplaceRecipeKeepsInvariant(s: Snapshot, id: Id, d: RecipeInput, slug: string,
                                    timestamp: nat, putFails: bool, writeFails: bool, deleteFails: bool)
    requires ValidSnapshot(s) && id in s.recipes
    ensures ValidSnapshot(ReplaceRecipe(s, id, d, slug, timestamp, putFails, writeFails, deleteFails).1)
  {
    var r := ReplaceRecipe(s, id, d, slug, timestamp, putFails, writeFails, deleteFails);
    if r.0 == Saved {
      ReplaceKeepsUnique(s.recipes, id, r.1.recipes[id]);
    }
  }

  /** The slug an update writes is never held by another row: a kept slug is
      the row's own (unique by the constraint), a re-allocated one is free. */
  lemma UpdateSlugIsFree<B>(table: map<Id, Row<B>>, id: Id, inputSlug: Option<string>, title: string,
                            slugify: string -> string)
    requires UniqueSlugs(table) && id in table
    ensures UpdateSlug(table, id, inputSlug, title, slugify).Success? ==>
      !SlugTaken(table, Some(id), UpdateSlug(table, id, inputSlug, title, slugify).value)
  {
    match UpdateSlugChoice(inputSlug, title, table[id])
    case KeepCurrent =>
    case Reallocate(source) =>
      AllocationIsFreeAndFirst(table, slugify(source), Some(id));
  }

  /** With the store's constraint holding, an update never reports a slug
      conflict: the conflict branch is reachable only through a concurrent
      writer, which the sequential model does not have. */
  lemma UpdatePostNeverConflicts(s: Snapshot, id: Id, form: PostForm, slugify: string -> string,
                                 timestamp: nat, putFails: bool, writeFails: bool, deleteFails: bool)
    requires ValidSnapshot(s)
    ensures UpdatePostStep(s, id, form, slugify, timestamp, putFails, writeFails, deleteFails).0 != SlugInUse
  {
    if ParsePost(form).Success? && id in s.posts {
      var d := ParsePost(form).value;
      UpdateSlugIsFree(s.posts, id, d.slug, d.title, slugify);
    }
  }

  lemma UpdateRecipeNeverConflicts(s: Snapshot, loggedIn: bool, id: Id, form: RecipeForm,
                                   slugify: string -> string, timestamp: nat, putFails: bool, writeFails: bool, deleteFails: bool)
    requires ValidSnapshot(s)
    ensures UpdateRecipeStep(s, loggedIn, id, form, slugify, timestamp, putFails, writeFails, deleteFails).0 != SlugInUse
  {
    if loggedIn && ParseRecipe(form).Success? && id in s.recipes {
      var d := ParseRecipe(form).value;
      UpdateSlugIsFree(s.recipes, id, d.slug, d.title, slugify);
    }
  }

  /** A created recipe's slug always comes from the allocator, so creating a
      recipe never reports a slug conflict. */
  lemma CreateRecipeNeverConflicts(s: Snapshot, loggedIn: bool, form: RecipeForm, slugify: string -> string,
                                   newId: Id, now: int, timestamp: nat, putFails: bool, writeFails: bool)
    requires newId !in s.recipes
    ensures CreateRecipeStep(s, loggedIn, form, slugify, newId, now, timestamp, putFails, writeFails).0 != SlugInUse
  {
    if loggedIn && ParseRecipe(form.(slug := Absent)).Success? {
      var d := ParseRecipe(form.(slug := Absent)).value;
      AllocationIsFreeAndFirst(s.recipes, slugify(d.title), None);
    }
  }

  /** Creating a post reports a slug conflict only for a slug typed into the
      form that another post already holds; an allocated slug never clashes. */
  lemma CreatePostConflictsOnlyOnGivenSlug(s: Snapshot, form: PostForm, slugify: string -> string, newId: Id,
                                           now: int, timestamp: nat, putFails: bool, writeFails: bool)
    requires newId !in s.posts
    ensures CreatePostStep(s, form, slugify, newId, now, timestamp, putFails, writeFails).0 == SlugInUse ==>
      ParsePost(form).Success? && SlugGiven(ParsePost(form).value.slug)
      && SlugTaken(s.posts, None, ParsePost(form).value.slug.value)
  {
    if ParsePost(form).Success? {
      var d := ParsePost(form).value;
      AllocationIsFreeAndFirst(s.posts, slugify(d.title), None);
    }
  }

  /** An image that passed the schema also passes the upload's own type
      check, so the recipe actions' "Invalid file type" branch is never taken. */
  lemma ValidatedImagePassesTypeCheck(image: Option<Upload>, timestamp: nat, putFails: bool)
    requires image.Some? && image.value.size != 0 ==> "image/" <= image.value.mimeType
    ensures UploadResult(image, timestamp, putFails) != Failure(InvalidFileType)
  {
  }

  lemma CreateRecipeNeverRejectsImageType(s: Snapshot, loggedIn: bool, form: RecipeForm, slugify: string -> string,
                                          newId: Id, now: int, timestamp: nat, putFails: bool, writeFails: bool)
    requires newId !in s.recipes
    ensures CreateRecipeStep(s, loggedIn, form, slugify, newId, now, timestamp, putFails, writeFails).0 != BadImageType
  {
    if loggedIn && ParseRecipe(form.(slug := Absent)).Success? {
      ValidatedImagePassesTypeCheck(ParseRecipe(form.(slug := Absent)).value.image, timestamp, putFails);
    }
  }

  lemma UpdateRecipeNeverRejectsImageType(s: Snapshot, loggedIn: bool, id: Id, form: RecipeForm,
                                          slugify: string -> string, timestamp: nat, putFails: bool, writeFails: bool, deleteFails: bool)
    ensures UpdateRecipeStep(s, loggedIn, id, form, slugify, timestamp, putFails, writeFails, deleteFails).0 != BadImageType
  {
    if loggedIn && ParseRecipe(form).Success? {
      ValidatedImagePassesTypeCheck(ParseRecipe(form).value.image, timestamp, putFails);
    }
  }

  /** How a post update ends before the upload starts: schema issues, a
      missing post, or an allocator error each leave the store untouched. */
  lemma UpdatePostOutcome(s: Snapshot, id: Id, form: PostForm, slugify: string -> string,
                          timestamp: nat, putFails: bool, writeFails: bool, deleteFails: bool)
    ensures var r := UpdatePostStep(s, id, form, slugify, timestamp, putFails, writeFails, deleteFails);
      && (r.0.Invalid? <==> ParsePost(form).Failure?)
      && (r.0.Invalid? ==> r.0.violations == PostViolations(form))
      && (r.0 == NotFound <==> ParsePost(form).Success? && id !in s.posts)
      && (r.0 == Crashed <==>
            (ParsePost(form).Success? && id in s.posts
             && UpdateSlug(s.posts, id, ParsePost(form).value.slug, ParsePost(form).value.title, slugify).Failure?))
      && (r.0.Invalid? || r.0 == NotFound || r.0 == Crashed ==> r.1 == s)
      && (ParsePost(form).Success? && id in s.posts
            && UpdateSlug(s.posts, id, ParsePost(form).value.slug, ParsePost(form).value.title, slugify).Success? ==>
            r == ReplacePost(s, id, ParsePost(form).value,
                             UpdateSlug(s.posts, id, ParsePost(form).value.slug, ParsePost(form).value.title, slugify).value,
                             timestamp, putFails, writeFails, deleteFails))
  {
    if ParsePost(form).Success? && id in s.posts {
      var d := ParsePost(form).value;
      var slug := UpdateSlug(s.posts, id, d.slug, d.title, slugify);
      if slug.Success? {
        var r := ReplacePost(s, id, d, slug.value, timestamp, putFails, writeFails, deleteFails);
        assert r.0 != NotFound && r.0 != Crashed && !r.0.Invalid?;
      }
    }
  }

  /** What the write phase of a post update leaves behind. Rows change only
      on `Saved`, and then only the edited row: it gets the decided slug and the
      submitted fields, keeps its creation time, its category is the cleaned one
      (a blank one clears it), and its image is the new upload or else the old one.
      The logged effects are the upload's (put, then delete) followed by the
      row write; on any other outcome only blob effects are logged. A failed
      upload or a failed write is a store failure. */
  lemma ReplacePostOutcome(s: Snapshot, id: Id, d: PostInput, slug: string,
                           timestamp: nat, putFails: bool, writeFails: bool, deleteFails: bool)
    requires id in s.posts
    ensures var r := ReplacePost(s, id, d, slug, timestamp, putFails, writeFails, deleteFails);
      var current := s.posts[id];
      var effects := UploadEffects(d.image, current.imageUrl, timestamp, putFails, deleteFails);
      && r.1.recipes == s.recipes
      && r.1.blobs == ApplyBlobEffects(s.blobs, effects)
      && (r.0 == Saved || r.0 == SlugInUse || r.0 == StoreFailure)
      && (r.0 == StoreFailure <==> UploadResult(d.image, timestamp, putFails).Failure? || writeFails)
      && (r.0 != Saved ==> r.1.posts == s.posts && r.1.log == s.log + effects)
      && (r.0 == Saved ==>
            var row := r.1.posts[id];
            && r.1.posts.Keys == s.posts.Keys
            && (forall k :: k in s.posts && k != id ==> r.1.posts[k] == s.posts[k])
            && row.slug == slug && row.title == d.title && row.published == d.published
            && row.createdAt == current.createdAt
            && row.category == UpdatedColumn(current.category, NormalizeCategory(Some(d.category)))
            && row.body == PostBody(Some(d.description), d.content)
            && row.imageUrl == UpdatedImage(current.imageUrl, UploadResult(d.image, timestamp, putFails).value)
            && r.1.log == s.log + effects + [RowUpdate(id)])
  {
    var r := ReplacePost(s, id, d, slug, timestamp, putFails, writeFails, deleteFails);
    var up := UploadResult(d.image, timestamp, putFails);
    var s1 := AfterUpload(s, UploadEffects(d.image, s.posts[id].imageUrl, timestamp, putFails, deleteFails));
    if up.Failure? || writeFails {
      assert r == (StoreFailure, s1);
    } else if SlugTaken(s.posts, Some(id), slug) {
      assert r == (SlugInUse, s1);
    } else {
      assert r.0 == Saved && r.1.log == s1.log + [RowUpdate(id)];
    }
  }

  /** What the write phase of a post creation leaves behind when it does not
      save: the upload's put is logged and stored, the posts are as they were,
      and the failure is a store failure exactly when the upload or the write
      failed. */
  lemma InsertPostOutcome(s: Snapshot, d: PostInput, slug: string, newId: Id,
                          now: int, timestamp: nat, putFails: bool, writeFails: bool)
    requires newId !in s.posts
    ensures var r := InsertPost(s, d, slug, newId, now, timestamp, putFails, writeFails);
      var effects := UploadEffects(d.image, None, timestamp, putFails, false);
      && r.1.recipes == s.recipes
      && r.1.blobs == ApplyBlobEffects(s.blobs, effects)
      && (r.0 == Saved || r.0 == SlugInUse || r.0 == StoreFailure)
      && (r.0 == StoreFailure <==> UploadResult(d.image, timestamp, putFails).Failure? || writeFails)
      && (r.0 == SlugInUse ==> SlugTaken(s.posts, None, slug))
      && (r.0 != Saved ==> r.1.posts == s.posts && r.1.log == s.log + effects)
  {
  }

  /** A saved post creation adds exactly one row, under the new id, with the
      chosen slug, the creation time, the uploaded image (or none) and the
      cleaned category, and logs the insert after the upload's put. */
  lemma InsertPostSavedRow(s: Snapshot, d: PostInput, slug: string, newId: Id,
                           now: int, timestamp: nat, putFails: bool, writeFails: bool)
    requires newId !in s.posts
    requires InsertPost(s, d, slug, newId, now, timestamp, putFails, writeFails).0 == Saved
    ensures var r := InsertPost(s, d, slug, newId, now, timestamp, putFails, writeFails);
      var row := r.1.posts[newId];
      && !writeFails && !SlugTaken(s.posts, None, slug)
      && r.1.posts == s.posts[newId := row]
      && row.slug == slug && row.title == d.title && row.published == d.published
      && row.createdAt == now
      && row.category == CategoryColumn(NormalizeCategory(Some(d.category)))
      && row.imageUrl == UploadResult(d.image, timestamp, putFails).value
      && row.body == PostBody(Some(d.description), d.content)
      && r.1.log == s.log + UploadEffects(d.image, None, timestamp, putFails, false) + [RowInsert(newId)]
  {
  }

  /** What the write phase of a recipe update leaves behind: as for posts,
      only the edited row changes and only on `Saved`; it keeps its creation
      time, gets the decided slug, the submitted fields and the cleaned
      category, and keeps its image unless a new one was stored. The
      "Invalid file type" outcome is reported only when the upload itself
      rejected the file; any other failed upload or failed write is a store
      failure. */
  lemma ReplaceRecipeOutcome(s: Snapshot, id: Id, d: RecipeInput, slug: string,
                             timestamp: nat, putFails: bool, writeFails: bool, deleteFails: bool)
    requires id in s.recipes
    ensures var r := ReplaceRecipe(s, id, d, slug, timestamp, putFails, writeFails, deleteFails);
      var current := s.recipes[id];
      var effects := UploadEffects(d.image, current.imageUrl, timestamp, putFails, deleteFails);
      && r.1.posts == s.posts
      && r.1.blobs == ApplyBlobEffects(s.blobs, effects)
      && (r.0 == Saved || r.0 == SlugInUse || r.0 == StoreFailure || r.0 == BadImageType)
      && (r.0 == BadImageType <==> UploadResult(d.image, timestamp, putFails) == Failure(InvalidFileType))
      && (r.0 == StoreFailure <==>
            UploadResult(d.image, timestamp, putFails) != Failure(InvalidFileType)
            && (UploadResult(d.image, timestamp, putFails).Failure? || writeFails))
      && (r.0 != Saved ==> r.1.recipes == s.recipes && r.1.log == s.log + effects)
      && (r.0 == Saved ==>
            var row := r.1.recipes[id];
            && r.1.recipes.Keys == s.recipes.Keys
            && (forall k :: k in s.recipes && k != id ==> r.1.recipes[k] == s.recipes[k])
            && row.slug == slug && row.title == d.title && row.published == d.published
            && row.createdAt == current.createdAt
            && row.imageUrl == UpdatedImage(current.imageUrl, UploadResult(d.image, timestamp, putFails).value)
            && row.category == UpdatedColumn(current.category, NormalizeCategory(Some(d.category)))
            && row.body == RecipeBody(d.description, d.ingredients, d.instructions,
                                      Some(d.prepTime), Some(d.cookTime), Some(d.servings))
            && r.1.log == s.log + effects + [RowUpdate(id)])
  {
    var r := ReplaceRecipe(s, id, d, slug, timestamp, putFails, writeFails, deleteFails);
    var up := UploadResult(d.image, timestamp, putFails);
    var s1 := AfterUpload(s, UploadEffects(d.image, s.recipes[id].imageUrl, timestamp, putFails, deleteFails));
    if up == Failure(InvalidFileType) {
      assert r == (BadImageType, s1);
    } else if up.Failure? || writeFails {
      assert r == (StoreFailure, s1);
    } else if SlugTaken(s.recipes, Some(id), slug) {
      assert r == (SlugInUse, s1);
    } else {
      assert r.0 == Saved && r.1.log == s1.log + [RowUpdate(id)];
    }
  }

  /** The post editor submits the post's current slug, so saving a post keeps
      its slug even when the title changed (a post whose slug is empty is the
      exception: its slug is re-allocated from the new title). */
  lemma PostEditorKeepsSlug(s: Snapshot, id: Id, form: PostForm, slugify: string -> string,
                            timestamp: nat, putFails: bool, writeFails: bool, deleteFails: bool)
    requires id in s.posts && s.posts[id].slug != ""
    requires form.slug == Str(s.posts[id].slug)
    ensures var r := UpdatePostStep(s, id, form, slugify, timestamp, putFails, writeFails, deleteFails);
      r.0 == Saved ==> r.1.posts[id].slug == s.posts[id].slug
  {
    var current := s.posts[id];
    UpdatePostOutcome(s, id, form, slugify, timestamp, putFails, writeFails, deleteFails);
    if ParsePost(form).Success? {
      var d := ParsePost(form).value;
      assert d.slug == Some(current.slug);
      assert !IsBlank(current.slug) by {
        RegexMatchesShape(current.slug);
        BlankIffAllWhitespace(current.slug);
        assert !IsJsWhitespace(current.slug[0]);
      }
      PostFormKeepsSlug(d.title, current);
      ReplacePostOutcome(s, id, d, current.slug, timestamp, putFails, writeFails, deleteFails);
    }
  }

  /** A slug conflict after an upload leaves the new image in the blob store
      with no row pointing to it; the table is unchanged. */
  lemma ConflictOrphansUpload(s: Snapshot, form: PostForm, slugify: string -> string, newId: Id,
                              now: int, timestamp: nat, putFails: bool, writeFails: bool)
    requires newId !in s.posts
    ensures var r := CreatePostStep(s, form, slugify, newId, now, timestamp, putFails, writeFails);
      r.0 == SlugInUse ==>
        && r.1.posts == s.posts
        && var up := UploadResult(ParsePost(form).value.image, timestamp, putFails);
           up.Success? && (up.value.Some? ==> up.value.value in r.1.blobs)
  {
    var r := CreatePostStep(s, form, slugify, newId, now, timestamp, putFails, writeFails);
    if r.0 == SlugInUse {
      var d := ParsePost(form).value;
      var up := UploadResult(d.image, timestamp, putFails);
      if up.Success? && up.value.Some? {
        UploadStoresImage(s.blobs, d.image, None, timestamp, putFails, false);
      }
    }
  }

  /** The delete outcomes: 400 for an empty id (before the session is
      consulted), 401 without a session, 404 for a missing row, and 200 with
      exactly that row removed. */
  lemma DeleteOutcome<B>(table: map<Id, Row<B>>, id: Id, loggedIn: bool)
    ensures var (status, t) := DeleteStep(table, id, loggedIn);
      && (status == 400 <==> id == "")
      && (status == 401 <==> id != "" && !loggedIn)
      && (status == 404 <==> id != "" && loggedIn && id !in table)
      && (status == 200 <==> id != "" && loggedIn && id in table)
      && (status != 200 ==> t == table)
      && (status == 200 ==> t.Keys == table.Keys - {id} && forall k :: k in t ==> t[k] == table[k])
      && (UniqueSlugs(table) ==> UniqueSlugs(t))
  {
  }

  /** The toggle outcomes: 401 without a session, 500 for a missing row, and
      200 with only the row's `published` flag set to the negated argument. */
  lemma ToggleOutcome<B>(table: map<Id, Row<B>>, id: Id, currentStatus: bool, loggedIn: bool)
    ensures var (status, t) := ToggleStep(table, id, currentStatus, loggedIn);
      && (status == 401 <==> !loggedIn)
      && (status == 500 <==> loggedIn && id !in table)
      && (status == 200 <==> loggedIn && id in table)
      && (status != 200 ==> t == table)
      && (status == 200 ==>
            && t.Keys == table.Keys
            && t[id].published == !currentStatus
            && t[id].(published := table[id].published) == table[id]
            && forall k :: k in t && k != id ==> t[k] == table[k])
      && (UniqueSlugs(table) ==> UniqueSlugs(t))
  {
  }

  /** The post list's publish button flips the stored flag. */
  lemma PostToggleFlips<B>(table: map<Id, Row<B>>, id: Id)
    requires id in table
    ensures ToggleStep(table, id, PostToggleArgument(table[id].published), true).1[id].published
      == !table[id].published
  {
  }

  /** As written, the recipe list's publish button leaves the recipe exactly
      as it was while reporting success. */
  lemma WiredRecipeToggleIsNoOp<B>(table: map<Id, Row<B>>, id: Id)
    requires id in table
    ensures ToggleStep(table, id, RecipeToggleArgumentAsWired(table[id].published), true) == (200, table)
  {
    var t := ToggleStep(table, id, RecipeToggleArgumentAsWired(table[id].published), true).1;
    assert t[id] == table[id];
    assert t == table;
  }

  /** Passing the stored flag, as the post list does, makes the recipe
      button flip it. */
  lemma RecipeToggleFlips<B>(table: map<Id, Row<B>>, id: Id)
    requires id in table
    ensures ToggleStep(table, id, RecipeToggleArgument(table[id].published), true).1[id].published
      == !table[id].published
  {
  }

  // ------------------------------------------------------------ the store

  class Cms {
    var posts: map<Id, Post>
    var recipes: map<Id, Recipe>
    var blobs: set<string>
    var log: seq<Effect>

    function State(): Snapshot
      reads this
    {
      Snapshot(posts, recipes, blobs, log)
    }

    ghost predicate Valid()
      reads this
    {
      ValidSnapshot(State())
    }

    constructor ()
      ensures Valid() && State() == Snapshot(map[], map[], {}, [])
    {
      posts, recipes, blobs, log := map[], map[], {}, [];
    }

    /** `handleImageUpload`: no file or an empty one stores nothing; a
        non-image type throws before any request; otherwise the new image is
        put first and the old URL, if any, is deleted after it, a failed
        delete being ignored. */
    method HandleImageUpload(image: Option<Upload>, currentUrl: Option<string>, timestamp: nat,
                             putFails: bool, deleteFails: bool)
      returns (r: Result<Option<string>, UploadError>)
      modifies this`blobs, this`log
      ensures r == UploadResult(image, timestamp, putFails)
      ensures log == old(log) + UploadEffects(image, currentUrl, timestamp, putFails, deleteFails)
      ensures blobs == ApplyBlobEffects(old(blobs), UploadEffects(image, currentUrl, timestamp, putFails, deleteFails))
    {
      if image.None? || image.value.size == 0 {
        return Success(None);
      }
      if !("image/" <= image.value.mimeType) {
        return Failure(InvalidFileType);
      }
      var blobName := BlobName(timestamp, image.value.name);
      if putFails {
        return Failure(UploadFailed);
      }
      ghost var before := blobs;
      blobs := blobs + {blobName};
      log := log + [BlobPut(blobName)];
      if Truthy(currentUrl) {
        if !deleteFails {
          blobs := blobs - {currentUrl.value};
        }
        log := log + [BlobDelete(currentUrl.value, !deleteFails)];
      }
      ApplyUploadEffects(before, image, currentUrl, timestamp, putFails, deleteFails);
      r := Success(Some(blobName));
    }

    method CreatePost(form: PostForm, slugify: string -> string, newId: Id, now: int,
                      timestamp: nat, putFails: bool, writeFails: bool)
      returns (out: Outcome)
      requires Valid() && newId !in posts
      modifies this
      ensures Valid()
      ensures (out, State()) == CreatePostStep(old(State()), form, slugify, newId, now, timestamp, putFails, writeFails)
    {
      var parsed := ParsePost(form);
      if parsed.Failure? {
        return Invalid(parsed.error);
      }
      var d := parsed.value;
      var slug: string;
      if SlugGiven(d.slug) {
        slug := d.slug.value;
      } else {
        var picked := AllocateSlug(posts, slugify(d.title), None);
        if picked.Failure? {
          return Crashed;
        }
        slug := picked.value;
      }
      InsertPostKeepsInvariant(State(), d, slug, newId, now, timestamp, putFails, writeFails);
      out := InsertPostRow(d, slug, newId, now, timestamp, putFails, writeFails);
    }

    /** The rest of `createPost` once the slug is known: upload, then insert. */
    method InsertPostRow(d: PostInput, slug: string, newId: Id, now: int, timestamp: nat, putFails: bool, writeFails: bool)
      returns (out: Outcome)
      requires newId !in posts
      modifies this
      ensures (out, State()) == InsertPost(old(State()), d, slug, newId, now, timestamp, putFails, writeFails)
    {
      var category := NormalizeCategory(Some(d.category));
      var imageUrl := HandleImageUpload(d.image, None, timestamp, putFails, false);
      if imageUrl.Failure? || writeFails {
        return StoreFailure;
      }
      if SlugTaken(posts, None, slug) {
        return SlugInUse;
      }
      posts := posts[newId := Row(d.title, slug, CategoryColumn(category), imageUrl.value, d.published, now,
                                  PostBody(Some(d.description), d.content))];
      log := log + [RowInsert(newId)];
      out := Saved;
    }

    method UpdatePost(id: Id, form: PostForm, slugify: string -> string, timestamp: nat,
                      putFails: bool, writeFails: bool, deleteFails: bool)
      returns (out: Outcome)
      requires Valid()
      modifies this
      ensures Valid()
      ensures (out, State()) == UpdatePostStep(old(State()), id, form, slugify, timestamp, putFails, writeFails, deleteFails)
    {
      var parsed := ParsePost(form);
      if parsed.Failure? {
        return Invalid(parsed.error);
      }
      var d := parsed.value;
      if id !in posts {
        return NotFound;
      }
      var current := posts[id];
      var slugToUse := current.slug;
      if SlugGiven(d.slug) && d.slug.value != current.slug {
        var picked := AllocateSlug(posts, slugify(d.slug.value), Some(id));
        if picked.Failure? {
          return Crashed;
        }
        slugToUse := picked.value;
      } else if d.title != current.title && !SlugGiven(d.slug) {
        var picked := AllocateSlug(posts, slugify(d.title), Some(id));
        if picked.Failure? {
          return Crashed;
        }
        slugToUse := picked.value;
      }
      ReplacePostKeepsInvariant(State(), id, d, slugToUse, timestamp, putFails, writeFails, deleteFails);
      out := ReplacePostRow(id, d, slugToUse, timestamp, putFails, writeFails, deleteFails);
    }

    /** The rest of `updatePost` once the slug is known: upload (deleting the
        old image), then update. */
    method ReplacePostRow(id: Id, d: PostInput, slug: string, timestamp: nat, putFails: bool, writeFails: bool, deleteFails: bool)
      returns (out: Outcome)
      requires id in posts
      modifies this
      ensures (out, State()) == ReplacePost(old(State()), id, d, slug, timestamp, putFails, writeFails, deleteFails)
    {
      var current := posts[id];
      var category := NormalizeCategory(Some(d.category));
      var imageUrl := HandleImageUpload(d.image, current.imageUrl, timestamp, putFails, deleteFails);
      if imageUrl.Failure? || writeFails {
        return StoreFailure;
      }
      if SlugTaken(posts, Some(id), slug) {
        return SlugInUse;
      }
      posts := posts[id := current.(title := d.title, slug := slug,
                                    category := UpdatedColumn(current.category, category),
                                    imageUrl := UpdatedImage(current.imageUrl, imageUrl.value),
                                    published := d.published,
                                    body := PostBody(Some(d.description), d.content))];
      log := log + [RowUpdate(id)];
      out := Saved;
    }

    method DeletePost(id: Id, loggedIn: bool) returns (status: int)
      requires Valid()
      modifies this`posts, this`log
      ensures Valid()
      ensures (status, posts) == DeleteStep(old(posts), id, loggedIn)
      ensures log == old(log) + if status == 200 then [RowDelete(id)] else []
    {
      if id == "" {
        return 400;
      }
      if !loggedIn {
        return 401;
      }
      if id !in posts {
        return 404;
      }
      posts := posts - {id};
      log := log + [RowDelete(id)];
      status := 200;
    }

    method TogglePublishStatus(id: Id, currentStatus: bool, loggedIn: bool) returns (status: int)
      requires Valid()
      modifies this`posts, this`log
      ensures Valid()
      ensures (status, posts) == ToggleStep(old(posts), id, currentStatus, loggedIn)
      ensures log == old(log) + if status == 200 then [RowUpdate(id)] else []
    {
      if !loggedIn {
        return 401;
      }
      if id !in posts {
        return 500;
      }
      posts := posts[id := posts[id].(published := !currentStatus)];
      log := log + [RowUpdate(id)];
      status := 200;
    }

    method CreateRecipe(loggedIn: bool, form: RecipeForm, slugify: string -> string, newId: Id, now: int,
                        timestamp: nat, putFails: bool, writeFails: bool)
      returns (out: Outcome)
      requires Valid() && newId !in recipes
      modifies this
      ensures Valid()
      ensures (out, State()) == CreateRecipeStep(old(State()), loggedIn, form, slugify, newId, now, timestamp, putFails, writeFails)
    {
      if !loggedIn {
        return AuthRequired;
      }
      var parsed := ParseRecipe(form.(slug := Absent));
      if parsed.Failure? {
        return Invalid(parsed.error);
      }
      var d := parsed.value;
      var picked := AllocateSlug(recipes, slugify(d.title), None);
      if picked.Failure? {
        return SlugUnavailable;
      }
      InsertRecipeKeepsInvariant(State(), d, picked.value, newId, now, timestamp, putFails, writeFails);
      out := InsertRecipeRow(d, picked.value, newId, now, timestamp, putFails, writeFails);
    }

    /** The rest of `createRecipe` once the slug is known: upload, then insert. */
    method InsertRecipeRow(d: RecipeInput, slug: string, newId: Id, now: int, timestamp: nat, putFails: bool, writeFails: bool)
      returns (out: Outcome)
      requires newId !in recipes
      modifies this
      ensures (out, State()) == InsertRecipe(old(State()), d, slug, newId, now, timestamp, putFails, writeFails)
    {
      var category := NormalizeCategory(Some(d.category));
      var imageUrl := HandleImageUpload(d.image, None, timestamp, putFails, false);
      if imageUrl == Failure(InvalidFileType) {
        return BadImageType;
      }
      if imageUrl.Failure? || writeFails {
        return StoreFailure;
      }
      if SlugTaken(recipes, None, slug) {
        return SlugInUse;
      }
      recipes := recipes[newId := Row(d.title, slug, CategoryColumn(category), imageUrl.value, d.published, now,
                                      RecipeBody(d.description, d.ingredients, d.instructions,
                                                 Some(d.prepTime), Some(d.cookTime), Some(d.servings)))];
      log := log + [RowInsert(newId)];
      out := Saved;
    }

    method UpdateRecipe(loggedIn: bool, id: Id, form: RecipeForm, slugify: string -> string, timestamp: nat,
                      putFails: bool, writeFails: bool, deleteFails: bool)
      returns (out: Outcome)
      requires Valid()
      modifies this
      ensures Valid()
      ensures (out, State()) == UpdateRecipeStep(old(State()), loggedIn, id, form, slugify, timestamp, putFails, writeFails, deleteFails)
    {
      if !loggedIn {
        return AuthRequired;
      }
      var parsed := ParseRecipe(form);
      if parsed.Failure? {
        return Invalid(parsed.error);
      }
      var d := parsed.value;
      if id !in recipes {
        return NotFound;
      }
      var current := recipes[id];
      var slugToUse := current.slug;
      if SlugGiven(d.slug) && d.slug.value != current.slug {
        var picked := AllocateSlug(recipes, slugify(d.slug.value), Some(id));
        if picked.Failure? {
          return Crashed;
        }
        slugToUse := picked.value;
      } else if d.title != current.title && !SlugGiven(d.slug) {
        var picked := AllocateSlug(recipes, slugify(d.title), Some(id));
        if picked.Failure? {
          return Crashed;
        }
        slugToUse := picked.value;
      }
      ReplaceRecipeKeepsInvariant(State(), id, d, slugToUse, timestamp, putFails, writeFails, deleteFails);
      out := ReplaceRecipeRow(id, d, slugToUse, timestamp, putFails, writeFails, deleteFails);
    }

    /** The rest of `updateRecipe` once the slug is known: upload (deleting
        the old image), then update. */
    method ReplaceRecipeRow(id: Id, d: RecipeInput, slug: string, timestamp: nat, putFails: bool, writeFails: bool, deleteFails: bool)
      returns (out: Outcome)
      requires id in recipes
      modifies this
      ensures (out, State()) == ReplaceRecipe(old(State()), id, d, slug, timestamp, putFails, writeFails, deleteFails)
    {
      var current := recipes[id];
      var category := NormalizeCategory(Some(d.category));
      var imageUrl := HandleImageUpload(d.image, current.imageUrl, timestamp, putFails, deleteFails);
      if imageUrl == Failure(InvalidFileType) {
        return BadImageType;
      }
      if imageUrl.Failure? || writeFails {
        return StoreFailure;
      }
      if SlugTaken(recipes, Some(id), slug) {
        return SlugInUse;
      }
      recipes := recipes[id := current.(title := d.title, slug := slug,
                                        category := UpdatedColumn(current.category, category),
                                        imageUrl := UpdatedImage(current.imageUrl, imageUrl.value),
                                        published := d.published,
                                        body := RecipeBody(d.description, d.ingredients, d.instructions,
                                                           Some(d.prepTime), Some(d.cookTime), Some(d.servings)))];
      log := log + [RowUpdate(id)];
      out := Saved;
    }

    method DeleteRecipe(id: Id, loggedIn: bool) returns (status: int)
      requires Valid()
      modifies this`recipes, this`log
      ensures Valid()
      ensures (status, recipes) == DeleteStep(old(recipes), id, loggedIn)
      ensures log == old(log) + if status == 200 then [RowDelete(id)] else []
    {
      if id == "" {
        return 400;
      }
      if !loggedIn {
        return 401;
      }
      if id !in recipes {
        return 404;
      }
      recipes := recipes - {id};
      log := log + [RowDelete(id)];
      status := 200;
    }

    method ToggleRecipePublishStatus(id: Id, currentStatus: bool, loggedIn: bool) returns (status: int)
      requires Valid()
      modifies this`recipes, this`log
      ensures Valid()
      ensures (status, recipes) == ToggleStep(old(recipes), id, currentStatus, loggedIn)
      ensures log == old(log) + if status == 200 then [RowUpdate(id)] else []
    {
      if !loggedIn {
        return 401;
      }
      if id !in recipes {
        return 500;
      }
      recipes := recipes[id := recipes[id].(published := !currentStatus)];
      log := log + [RowUpdate(id)];
      status := 200;
    }
  }
}
