/**
 * The public listing pages: the blog index and the recipe index (client
 * components holding the fetched page in state), the recipe list with its
 * memoised category filter, and the home page's three most recent posts.
 */
module Pages {
  import opened Wrappers
  import opened Records
  import opened Sequences
  import opened Excerpt
  import opened Listings
  import ImageUpload

  /** Rows per page on both listing pages. */
  const PageSize: int := 5

  /** `handleCategoryFilter(category)`: no category shows every row of the
      page, otherwise the rows whose category equals it, in order. */
  function CategoryFilter<B>(items: seq<Row<B>>, category: Option<string>): seq<Row<B>>
  {
    if category.None? then items else Filter(items, InCategory(category.value))
  }

  /** `row.category === c`; a missing category never equals a string. */
  function InCategory<B>(c: string): Row<B> -> bool
  {
    (r: Row<B>) => r.category == Some(c)
  }

  /** The filtered rows keep their order, all carry the category, and every
      row of the page that carries it is kept, as often as it occurs. */
  lemma CategoryFilterExact<B>(items: seq<Row<B>>, category: Option<string>)
    ensures var r := CategoryFilter(items, category);
      && IsSubsequence(r, items)
      && (category.None? ==> r == items)
      && (category.Some? ==>
            && (forall i :: 0 <= i < |r| ==> r[i].category == category)
            && (forall x :: multiset(r)[x] == if x.category == category then multiset(items)[x] else 0))
  {
    if category.None? {
      SubsequenceReflexive(items);
    } else {
      FilterIsExact(items, InCategory(category.value));
    }
  }

  lemma {:induction false} SubsequenceReflexive<T>(s: seq<T>)
    ensures IsSubsequence(s, s)
    decreases |s|
  {
    if s != [] {
      SubsequenceReflexive(s[1..]);
    }
  }

  /** The non-empty categories of the fetched rows. */
  function TruthyCategories<B>(items: seq<Row<B>>): seq<string>
  {
    Filter(NonNullCategories(items), (c: string) => c != "")
  }

  /** `Array.from(new Set(items.map(i => i.category).filter(Boolean)))`. */
  function CategoryButtons<B>(items: seq<Row<B>>): seq<string>
  {
    Distinct(TruthyCategories(items))
  }

  /** A button is offered exactly for each non-empty category of the page,
      once, in the order the categories first appear. */
  lemma CategoryButtonsMembers<B>(items: seq<Row<B>>)
    ensures var r := CategoryButtons(items);
      && (forall c :: c in r <==> c != "" && exists i :: 0 <= i < |items| && items[i].category == Some(c))
      && NoDuplicates(r)
      && IsSubsequence(r, TruthyCategories(items))
      && InFirstOccurrenceOrder(r, TruthyCategories(items))
  {
    var t := TruthyCategories(items);
    DistinctProperties(t);
    forall c ensures c in t <==> c in NonNullCategories(items) && c != "" {
      FilterMembers(NonNullCategories(items), (x: string) => x != "", c);
    }
  }

  /** Every category button selects at least one row of the page it was
      built from. */
  lemma OfferedCategoryIsNonEmpty<B>(items: seq<Row<B>>, c: string)
    requires c in CategoryButtons(items)
    ensures CategoryFilter(items, Some(c)) != []
  {
    CategoryButtonsMembers(items);
    var i :| 0 <= i < |items| && items[i].category == Some(c);
    FilterMembers(items, InCategory(c), items[i]);
  }

  /** `post.description || createExcerpt(post.content)`. */
  function DisplayExcerpt(post: Post): string
  {
    var d := post.body.description;
    if d.Some? && d.value != "" then d.value else CreateExcerpt(post.body.content, ListingExcerptLength)
  }

  /** A post with a description shows it verbatim; otherwise the excerpt of
      its content, at most 103 characters and free of tags. */
  lemma DisplayExcerptChoice(post: Post)
    ensures var d := post.body.description;
      && (d.Some? && d.value != "" ==> DisplayExcerpt(post) == d.value)
      && (d.None? || d.value == "" ==>
            && |DisplayExcerpt(post)| <= ListingExcerptLength + 3
            && NoTag(DisplayExcerpt(post)))
  {
    ExcerptHasNoTag(post.body.content, ListingExcerptLength);
  }

  /** The recipe index shows `createExcerpt(recipe.description)`. */
  function RecipeExcerpt(recipe: Recipe): string
  {
    CreateExcerpt(recipe.body.description, ListingExcerptLength)
  }

  /** The pagination bar: hidden for a single page, otherwise the links to
      the previous page, every page, and the next page. */
  datatype Pagination =
    | Hidden
    | Controls(previous: Option<int>, pages: seq<int>, next: Option<int>)

  function PaginationControls(currentPage: int, totalPages: int): Pagination
  {
    if totalPages <= 1 then Hidden
    else
      Controls(
        if currentPage > 1 then Some(currentPage - 1) else None,
        seq(totalPages, i requires 0 <= i < totalPages => i + 1),
        if currentPage < totalPages then Some(currentPage + 1) else None)
  }

  /** The bar appears only for more than one page; Previous exactly after
      the first page and Next exactly before the last; the page links are
      1 to the page count; for a page in range both neighbours are among
      them, so no link leads off the listing. */
  lemma PaginationLaws(currentPage: int, totalPages: int)
    ensures var p := PaginationControls(currentPage, totalPages);
      && (p.Controls? <==> totalPages > 1)
      && (p.Controls? ==>
            && (p.previous.Some? <==> currentPage > 1)
            && (p.next.Some? <==> currentPage < totalPages)
            && |p.pages| == totalPages
            && (forall i :: 0 <= i < |p.pages| ==> p.pages[i] == i + 1)
            && (1 <= currentPage <= totalPages ==>
                  && (p.previous.Some? ==> p.previous.value in p.pages)
                  && (p.next.Some? ==> p.next.value in p.pages)))
  {
    var p := PaginationControls(currentPage, totalPages);
    if p.Controls? && 1 <= currentPage <= totalPages {
      if p.previous.Some? {
        assert p.pages[currentPage - 2] == currentPage - 1;
      }
      if p.next.Some? {
        assert p.pages[currentPage] == currentPage + 1;
      }
    }
  }

  /** The blog index's state. */
  class BlogPage {
    var allPosts: seq<Post>
    var filteredPosts: seq<Post>
    var categories: seq<string>
    var selectedCategory: Option<string>
    var isLoading: bool
    var currentPage: int
    var totalPages: int

    /** The rows shown are drawn from the fetched page, in order, and the
        category buttons are those of the fetched page. */
    ghost predicate Valid()
      reads this
    {
      IsSubsequence(filteredPosts, allPosts) && categories == CategoryButtons(allPosts)
    }

    constructor()
      ensures Valid()
      ensures allPosts == [] && filteredPosts == [] && categories == []
      ensures selectedCategory == None && isLoading && currentPage == 1 && totalPages == 0
    {
      allPosts := [];
      filteredPosts := [];
      categories := [];
      selectedCategory := None;
      isLoading := true;
      currentPage := 1;
      totalPages := 0;
    }

    /** The effect on the `page` query parameter, already parsed. */
    method ReadPageParam(page: int)
      requires Valid()
      modifies this`currentPage
      ensures Valid()
      ensures currentPage == page
    {
      currentPage := page;
    }

    /** The effect on `currentPage`: fetch page `currentPage` of five, show
      all of it, and offer its categories. The selected category is left as
      it was. */
    method FetchData(table: seq<Post>, storeFails: bool)
      requires Valid()
      modifies this`allPosts, this`filteredPosts, this`totalPages, this`categories, this`isLoading
      ensures var r := GetAllPublishedPosts(table, currentPage, PageSize, storeFails);
        && allPosts == r.posts && filteredPosts == r.posts && totalPages == r.totalPages
        && categories == CategoryButtons(r.posts) && !isLoading
      ensures Valid()
    {
      isLoading := true;
      var r := GetAllPublishedPosts(table, currentPage, PageSize, storeFails);
      allPosts := r.posts;
      filteredPosts := r.posts;
      totalPages := r.totalPages;
      categories := CategoryButtons(r.posts);
      SubsequenceReflexive(allPosts);
      isLoading := false;
    }

    method HandleCategoryFilter(category: Option<string>)
      modifies this`selectedCategory, this`filteredPosts
      requires Valid()
      ensures selectedCategory == category
      ensures filteredPosts == CategoryFilter(allPosts, category)
      ensures category.Some? && category.value in categories ==> filteredPosts != []
      ensures Valid()
    {
      selectedCategory := category;
      if category.None? {
        filteredPosts := allPosts;
      } else {
        filteredPosts := Filter(allPosts, InCategory(category.value));
      }
      CategoryFilterExact(allPosts, category);
      if category.Some? && category.value in categories {
        OfferedCategoryIsNonEmpty(allPosts, category.value);
      }
    }

    function Pagination(): Pagination
      reads this
    {
      PaginationControls(currentPage, totalPages)
    }
  }

  /** The arguments the recipe index passes to `getRecipes`. */
  function RecipePageParams(currentPage: int): ListParams
  {
    ListParams(Some(currentPage), Some(PageSize), None, None)
  }

  /** The recipe index lists only published recipes, five per page, newest
      first. */
  lemma RecipePageFetch(table: seq<Recipe>, currentPage: int, storeFails: bool)
    ensures var r := GetRecipes(table, RecipePageParams(currentPage), Some(true), storeFails);
      && |r.items| <= PageSize
      && (forall i :: 0 <= i < |r.items| ==> r.items[i] in table && r.items[i].published)
      && (forall i, j :: 0 <= i < j < |r.items| ==> r.items[i].createdAt >= r.items[j].createdAt)
  {
    ListRowsItems(table, Some(true), RecipePageParams(currentPage), storeFails);
  }

  /** The recipe index's state. */
  class RecipesPage {
    var allRecipes: seq<Recipe>
    var filteredRecipes: seq<Recipe>
    var categories: seq<string>
    var selectedCategory: Option<string>
    var isLoading: bool
    var currentPage: int
    var totalPages: int

    /** As for the blog index. */
    ghost predicate Valid()
      reads this
    {
      IsSubsequence(filteredRecipes, allRecipes) && categories == CategoryButtons(allRecipes)
    }

    constructor()
      ensures Valid()
      ensures allRecipes == [] && filteredRecipes == [] && categories == []
      ensures selectedCategory == None && isLoading && currentPage == 1 && totalPages == 0
    {
      allRecipes := [];
      filteredRecipes := [];
      categories := [];
      selectedCategory := None;
      isLoading := true;
      currentPage := 1;
      totalPages := 0;
    }

    method ReadPageParam(page: int)
      requires Valid()
      modifies this`currentPage
      ensures Valid()
      ensures currentPage == page
    {
      currentPage := page;
    }

    method FetchData(table: seq<Recipe>, storeFails: bool)
      requires Valid()
      modifies this`allRecipes, this`filteredRecipes, this`totalPages, this`categories, this`isLoading
      ensures var r := GetRecipes(table, RecipePageParams(currentPage), Some(true), storeFails);
        && allRecipes == r.items && filteredRecipes == r.items && totalPages == r.totalPages
        && categories == CategoryButtons(r.items) && !isLoading
      ensures Valid()
    {
      isLoading := true;
      var r := GetRecipes(table, RecipePageParams(currentPage), Some(true), storeFails);
      allRecipes := r.items;
      filteredRecipes := r.items;
      totalPages := r.totalPages;
      categories := CategoryButtons(r.items);
      SubsequenceReflexive(allRecipes);
      isLoading := false;
    }

    method HandleCategoryFilter(category: Option<string>)
      modifies this`selectedCategory, this`filteredRecipes
      requires Valid()
      ensures selectedCategory == category
      ensures filteredRecipes == CategoryFilter(allRecipes, category)
      ensures category.Some? && category.value in categories ==> filteredRecipes != []
      ensures Valid()
    {
      selectedCategory := category;
      if category.None? {
        filteredRecipes := allRecipes;
      } else {
        filteredRecipes := Filter(allRecipes, InCategory(category.value));
      }
      CategoryFilterExact(allRecipes, category);
      if category.Some? && category.value in categories {
        OfferedCategoryIsNonEmpty(allRecipes, category.value);
      }
    }

    function Pagination(): Pagination
      reads this
    {
      PaginationControls(currentPage, totalPages)
    }
  }

  /** The `filteredRecipes` memo of the recipe list: a missing or empty
      selection shows every recipe. */
  function ClientFilter(allRecipes: seq<Recipe>, selected: Option<string>): seq<Recipe>
  {
    if selected.None? || selected.value == "" then allRecipes
    else Filter(allRecipes, InCategory(selected.value))
  }

  /** The memo is the page filter, except that an empty selection counts as
      none; the result is always drawn from the full list in order. */
  lemma ClientFilterIsCategoryFilter(allRecipes: seq<Recipe>, selected: Option<string>)
    ensures ClientFilter(allRecipes, selected)
         == CategoryFilter(allRecipes, if selected == Some("") then None else selected)
    ensures IsSubsequence(ClientFilter(allRecipes, selected), allRecipes)
  {
    CategoryFilterExact(allRecipes, if selected == Some("") then None else selected);
  }

  /** The filter buttons of the recipe list: none when there are no
      categories, otherwise "All" (shown as `None`) followed by each category. */
  function ClientButtons(categories: seq<string>): Option<seq<Option<string>>>
  {
    if |categories| > 0 then Some([None] + seq(|categories|, i requires 0 <= i < |categories| => Some(categories[i])))
    else None
  }

  lemma ClientButtonsShownIffCategories(categories: seq<string>)
    ensures ClientButtons(categories).Some? <==> categories != []
    ensures ClientButtons(categories).Some? ==>
      var b := ClientButtons(categories).value;
      |b| == |categories| + 1 && b[0] == None && forall i :: 0 <= i < |categories| ==> b[i + 1] == Some(categories[i])
  {
  }

  /** A `PostCard` on the home page. */
  datatype Card = Card(isOdd: bool, title: string, category: string, excerpt: string, slug: string, imageUrl: string)

  const FallbackImage: string := "/img/stock_photo.jpeg"

  /** The card for the post at `index`. */
  function HomeCard(post: Post, index: nat): Card
  {
    Card(index % 2 != 0, post.title, "Blog", CreateExcerpt(post.body.content, HomeExcerptLength), post.slug,
         if ImageUpload.Truthy(post.imageUrl) then post.imageUrl.value else FallbackImage)
  }

  function HomeCards(posts: seq<Post>): seq<Card>
  {
    seq(|posts|, i requires 0 <= i < |posts| => HomeCard(posts[i], i))
  }

  /** Cards alternate starting with an even one, always say "Blog", fall
      back to the stock image exactly when the post has no image, and carry
      a tag-free excerpt of at most 153 characters. */
  lemma HomeCardsLaws(posts: seq<Post>)
    ensures var cards := HomeCards(posts);
      && |cards| == |posts|
      && (forall i :: 0 <= i < |cards| ==> (cards[i].isOdd <==> i % 2 == 1))
      && (forall i :: 0 <= i && i + 1 < |cards| ==> cards[i].isOdd != cards[i + 1].isOdd)
      && (forall i :: 0 <= i < |cards| ==> cards[i].category == "Blog" && cards[i].title == posts[i].title)
      && (forall i :: 0 <= i < |cards| ==>
            (cards[i].imageUrl == FallbackImage <==> !ImageUpload.Truthy(posts[i].imageUrl) || posts[i].imageUrl.value == FallbackImage))
      && (forall i :: 0 <= i < |cards| ==> |cards[i].excerpt| <= HomeExcerptLength + 3 && NoTag(cards[i].excerpt))
  {
    var cards := HomeCards(posts);
    forall i | 0 <= i < |cards| ensures NoTag(cards[i].excerpt) {
      ExcerptHasNoTag(posts[i].body.content, HomeExcerptLength);
    }
  }

  /** The value the home page holds after `await getAllPublishedPosts()`. */
  datatype JsValue =
    | JsArray(items: seq<Post>)
    | JsObject(page: PublishedPostsPage)

  datatype RenderError = TypeError

  /** `value.slice(0, 3)`: arrays have the method, plain objects do not. */
  function SliceFirstThree(value: JsValue): Result<seq<Post>, RenderError>
  {
    match value
    case JsArray(items) => Success(if |items| <= 3 then items else items[..3])
    case JsObject(_) => Failure(TypeError)
  }

  /** The home page as written: it slices the result object itself. */
  function HomePostsAsWritten(table: seq<Post>, storeFails: bool): Result<seq<Post>, RenderError>
  {
    SliceFirstThree(JsObject(GetAllPublishedPosts(table, 1, PageSize, storeFails)))
  }

  /** As written, the home page fails to render for every store, even one
      full of published posts. */
  lemma HomePageAlwaysFails(table: seq<Post>, storeFails: bool)
    ensures HomePostsAsWritten(table, storeFails) == Failure(TypeError)
  {
  }

  /** The home page as intended: the first three of the page's posts. */
  function HomePosts(table: seq<Post>, storeFails: bool): Result<seq<Post>, RenderError>
  {
    SliceFirstThree(JsArray(GetAllPublishedPosts(table, 1, PageSize, storeFails).posts))
  }

  /** The intended home page renders: at most three posts, the first ones of
      the first listing page, so each is published, has a slug and is newer
      than the ones after it. */
  lemma HomePostsAreTheNewest(table: seq<Post>, storeFails: bool)
    ensures HomePosts(table, storeFails).Success?
    ensures var shown := HomePosts(table, storeFails).value;
      var first := GetAllPublishedPosts(table, 1, PageSize, storeFails).posts;
      && |shown| <= 3 && shown <= first
      && (|first| >= 3 ==> |shown| == 3)
      && (forall i :: 0 <= i < |shown| ==> shown[i] in table && shown[i].published && shown[i].slug != "")
      && (forall i, j :: 0 <= i < j < |shown| ==> shown[i].createdAt >= shown[j].createdAt)
  {
    PublishedPostsRows(table, 1, PageSize, storeFails);
  }
}
