/**
 * The read side of the store: the paged listing queries and the category
 * lists. A table is given as its rows in storage order; the database's
 * `orderBy` is the insertion sort of `Sequences` under the column's order,
 * and `skip`/`take` is `Window`.
 */
module Listings {
  import opened Wrappers
  import opened Text
  import opened Records
  import opened Sequences

  /** Code-point lexicographic order on strings. */
  predicate StrLe(a: string, b: string)
    decreases |a|
  {
    a == [] || (b != [] && (a[0] < b[0] || (a[0] == b[0] && StrLe(a[1..], b[1..]))))
  }

  lemma {:induction false} StrLeTotal(a: string, b: string)
    ensures StrLe(a, b) || StrLe(b, a)
    decreases |a|
  {
    if a != [] && b != [] && a[0] == b[0] {
      StrLeTotal(a[1..], b[1..]);
    }
  }

  lemma {:induction false} StrLeTransitive(a: string, b: string, c: string)
    requires StrLe(a, b) && StrLe(b, c)
    ensures StrLe(a, c)
    decreases |a|
  {
    if a != [] && a[0] == b[0] && b[0] == c[0] {
      StrLeTransitive(a[1..], b[1..], c[1..]);
    }
  }

  lemma {:induction false} StrLeAntisymmetric(a: string, b: string)
    requires StrLe(a, b) && StrLe(b, a)
    ensures a == b
    decreases |a|
  {
    if a != [] {
      StrLeAntisymmetric(a[1..], b[1..]);
      assert a == [a[0]] + a[1..] && b == [b[0]] + b[1..];
    }
  }

  /** The order of JavaScript's default `sort()` on these strings. */
  function StringOrder(): (string, string) -> bool
  {
    (a, b) => StrLe(a, b)
  }

  lemma StringOrderIsTotalPreorder()
    ensures TotalPreorder(StringOrder())
  {
    forall a, b ensures StrLe(a, b) || StrLe(b, a) {
      StrLeTotal(a, b);
    }
    forall a, b, c | StrLe(a, b) && StrLe(b, c) ensures StrLe(a, c) {
      StrLeTransitive(a, b, c);
    }
  }

  /** The columns a listing may be ordered by, and the direction. */
  datatype SortField = Title | Category | CreatedAt | Published
  datatype SortOrder = Asc | Desc

  /** The ascending order of a column; a missing category sorts last, as
      PostgreSQL puts nulls last in ascending order, and `false` precedes
      `true`. */
  predicate AscLe<B>(field: SortField, a: Row<B>, b: Row<B>)
  {
    match field
    case Title => StrLe(a.title, b.title)
    case Category => b.category.None? || (a.category.Some? && StrLe(a.category.value, b.category.value))
    case CreatedAt => a.createdAt <= b.createdAt
    case Published => !a.published || b.published
  }

  /** `orderBy: { [field]: order }`. */
  function RowOrder<B>(field: SortField, order: SortOrder): (Row<B>, Row<B>) -> bool
  {
    if order == Asc then (a, b) => AscLe(field, a, b) else (a, b) => AscLe(field, b, a)
  }

  lemma AscLeIsTotalPreorder<B>(field: SortField, a: Row<B>, b: Row<B>, c: Row<B>)
    ensures AscLe(field, a, b) || AscLe(field, b, a)
    ensures AscLe(field, a, b) && AscLe(field, b, c) ==> AscLe(field, a, c)
  {
    match field
    case Title =>
      StrLeTotal(a.title, b.title);
      if StrLe(a.title, b.title) && StrLe(b.title, c.title) {
        StrLeTransitive(a.title, b.title, c.title);
      }
    case Category =>
      if a.category.Some? && b.category.Some? {
        StrLeTotal(a.category.value, b.category.value);
        if c.category.Some? && StrLe(a.category.value, b.category.value) && StrLe(b.category.value, c.category.value) {
          StrLeTransitive(a.category.value, b.category.value, c.category.value);
        }
      }
    case CreatedAt =>
    case Published =>
  }

  /** Every column order, either way round, is one a sort can use. */
  lemma RowOrderIsTotalPreorder<B(!new)>(field: SortField, order: SortOrder)
    ensures TotalPreorder(RowOrder<B>(field, order))
  {
    var le := RowOrder<B>(field, order);
    forall a, b ensures le(a, b) || le(b, a) {
      AscLeIsTotalPreorder(field, a, b, a);
    }
    forall a, b, c | le(a, b) && le(b, c) ensures le(a, c) {
      if order == Asc {
        AscLeIsTotalPreorder(field, a, b, c);
      } else {
        AscLeIsTotalPreorder(field, c, b, a);
      }
    }
  }

  /** `skip = (page - 1) * limit`. */
  function Skip(page: int, limit: int): int
  {
    (page - 1) * limit
  }

  /** `Math.ceil(n / d)` on whole numbers. */
  function CeilDiv(n: nat, d: nat): nat
    requires d > 0
  {
    (n + d - 1) / d
  }

  /** `CeilDiv(n, d)` is the least number of pages of `d` rows that hold `n`
      rows. */
  lemma CeilDivIsCeiling(n: nat, d: nat)
    requires d > 0
    ensures CeilDiv(n, d) * d >= n
    ensures CeilDiv(n, d) > 0 ==> (CeilDiv(n, d) - 1) * d < n
    ensures CeilDiv(n, d) == 0 <==> n == 0
  {
    var q := CeilDiv(n, d);
    var r := (n + d - 1) % d;
    assert n + d - 1 == q * d + r;
    assert q * d - d == (q - 1) * d;
  }

  /** A page at or after the first holds rows exactly when its number is at
      most the page count. */
  lemma PageInRange(total: nat, page: int, limit: nat)
    requires limit > 0 && page >= 1
    ensures Skip(page, limit) < total <==> page <= CeilDiv(total, limit)
  {
    var q := CeilDiv(total, limit);
    CeilDivIsCeiling(total, limit);
    if page <= q {
      MultiplyMonotone(page - 1, q - 1, limit);
    } else {
      MultiplyMonotone(q, page - 1, limit);
    }
  }

  lemma MultiplyMonotone(a: int, b: int, c: nat)
    requires a <= b
    ensures a * c <= b * c
  {
  }

  /** The result of `getAllPublishedPosts`. */
  datatype PublishedPostsPage = PublishedPostsPage(posts: seq<Post>, totalPosts: nat, totalPages: nat)

  /** The published rows, newest first. */
  function PublishedNewestFirst(table: seq<Post>): seq<Post>
  {
    SortBy(Filter(table, PublishedFilter(Some(true))), RowOrder(CreatedAt, Desc))
  }

  /** `post && typeof post.slug === "string" && post.slug.length > 0`. */
  function SlugFilter(): Post -> bool
  {
    (p: Post) => p.slug != ""
  }

  /** `getAllPublishedPosts(page, limit)`: a negative skip makes the query
      fail, and any failure yields the empty result. */
  function GetAllPublishedPosts(table: seq<Post>, page: int, limit: int, storeFails: bool): PublishedPostsPage
    requires limit > 0
  {
    var skip := Skip(page, limit);
    if storeFails || skip < 0 then PublishedPostsPage([], 0, 0)
    else
      var published := Filter(table, PublishedFilter(Some(true)));
      var window := Window(PublishedNewestFirst(table), skip, limit);
      PublishedPostsPage(Filter(window, SlugFilter()), |published|, CeilDiv(|published|, limit))
  }

  /** The counts of a page of published posts: the count covers every
      published post, rows dropped for an empty slug included, and the page
      count is its ceiling; a failed query or a page before the first gives
      the empty result. */
  lemma PublishedPostsCounts(table: seq<Post>, page: int, limit: int, storeFails: bool)
    requires limit > 0
    ensures var r := GetAllPublishedPosts(table, page, limit, storeFails);
      && (storeFails || page < 1 ==> r == PublishedPostsPage([], 0, 0))
      && (!storeFails && page >= 1 ==>
            && r.totalPosts == |Filter(table, PublishedFilter(Some(true)))|
            && r.totalPages * limit >= r.totalPosts
            && (r.totalPages > 0 ==> (r.totalPages - 1) * limit < r.totalPosts))
  {
    if page < 1 {
      MultiplyMonotone(page - 1, -1, limit);
    } else if !storeFails {
      CeilDivIsCeiling(|Filter(table, PublishedFilter(Some(true)))|, limit);
    }
  }

  /** The rows of a page of published posts: at most `limit`, each a
      published row of the table with a non-empty slug, newest first. */
  lemma PublishedPostsRows(table: seq<Post>, page: int, limit: int, storeFails: bool)
    requires limit > 0
    ensures var r := GetAllPublishedPosts(table, page, limit, storeFails);
      && |r.posts| <= limit
      && (forall i :: 0 <= i < |r.posts| ==> r.posts[i] in table && r.posts[i].published && r.posts[i].slug != "")
      && (forall i, j :: 0 <= i < j < |r.posts| ==> r.posts[i].createdAt >= r.posts[j].createdAt)
  {
    var skip := Skip(page, limit);
    if !(storeFails || skip < 0) {
      RowOrderIsTotalPreorder<PostBody>(CreatedAt, Desc);
      QueryRows(table, PublishedFilter(Some(true)), RowOrder(CreatedAt, Desc), skip, limit);
      SlugFilteredRows(Window(PublishedNewestFirst(table), skip, limit), table);
    }
  }

  /** Dropping the rows without a slug from a newest-first window of
      published rows keeps it newest first and published. */
  lemma SlugFilteredRows(window: seq<Post>, table: seq<Post>)
    requires SortedBy(window, RowOrder(CreatedAt, Desc))
    requires forall i :: 0 <= i < |window| ==> window[i] in table && window[i].published
    ensures var r := Filter(window, SlugFilter());
      && |r| <= |window|
      && (forall i :: 0 <= i < |r| ==> r[i] in table && r[i].published && r[i].slug != "")
      && (forall i, j :: 0 <= i < j < |r| ==> r[i].createdAt >= r[j].createdAt)
  {
    var r := Filter(window, SlugFilter());
    var le := RowOrder<PostBody>(CreatedAt, Desc);
    assert IsSubsequence(r, window) by {
      FilterIsExact(window, SlugFilter());
    }
    SubsequenceOfSortedIsSorted(r, window, le);
    forall i, j | 0 <= i < j < |r| ensures r[i].createdAt >= r[j].createdAt {
      assert le(r[i], r[j]);
    }
    forall i | 0 <= i < |r| ensures r[i] in table && r[i].published && r[i].slug != "" {
      assert SlugFilter()(r[i]);
      SubsequenceIndex(r, window, i);
      var k :| 0 <= k < |window| && window[k] == r[i];
    }
  }

  /** Paging covers every published post: the one at position `i` of the
      newest-first order is on page `i / limit + 1` unless its slug is empty. */
  lemma EveryPublishedPostHasAPage(table: seq<Post>, limit: int, i: nat)
    requires limit > 0 && i < |PublishedNewestFirst(table)|
    requires PublishedNewestFirst(table)[i].slug != ""
    ensures PublishedNewestFirst(table)[i] in GetAllPublishedPosts(table, i / limit + 1, limit, false).posts
  {
    var ordered := PublishedNewestFirst(table);
    var skip := Skip(i / limit + 1, limit);
    PageOfIndex(i, limit);
    var window := Window(ordered, skip, limit);
    assert window[i - skip] == ordered[i];
    FilterMembers(window, SlugFilter(), ordered[i]);
  }

  /** Position `i` lies within the skip window of page `i / limit + 1`. */
  lemma PageOfIndex(i: nat, limit: int)
    requires limit > 0
    ensures 0 <= Skip(i / limit + 1, limit) <= i < Skip(i / limit + 1, limit) + limit
  {
    var q := i / limit;
    assert Skip(q + 1, limit) == q * limit;
    assert i == q * limit + i % limit;
  }

  /** The optional arguments of `getPosts` and `getRecipes`; an absent one
      takes its default. */
  datatype ListParams = ListParams(
    page: Option<int>,
    limit: Option<int>,
    sortBy: Option<SortField>,
    sortOrder: Option<SortOrder>)

  /** The result of `getPosts` and `getRecipes`. */
  datatype ListPage<B> = ListPage(items: seq<Row<B>>, total: nat, totalPages: nat, currentPage: int)

  const DefaultLimit: int := 5

  function OrElse<T>(o: Option<T>, default: T): T
  {
    if o.Some? then o.value else default
  }

  /** The limit a call ends up with. */
  function EffectiveLimit(params: ListParams): int
  {
    OrElse(params.limit, DefaultLimit)
  }

  /** `where.published` is set only when the argument is given. */
  predicate MatchesPublished<B>(published: Option<bool>, row: Row<B>)
  {
    published.None? || row.published == published.value
  }

  function PublishedFilter<B>(published: Option<bool>): Row<B> -> bool
  {
    (r: Row<B>) => MatchesPublished(published, r)
  }

  /** The shared body of `getPosts` and `getRecipes`: the defaults (page 1,
      limit 5, newest first), the filtered, ordered window, a count over the
      same filter, and on failure the empty page reporting page 1. */
  function ListRows<B>(table: seq<Row<B>>, published: Option<bool>, params: ListParams, storeFails: bool): ListPage<B>
    requires EffectiveLimit(params) > 0
  {
    var page := OrElse(params.page, 1);
    var limit := EffectiveLimit(params);
    var order := RowOrder(OrElse(params.sortBy, CreatedAt), OrElse(params.sortOrder, Desc));
    var skip := Skip(page, limit);
    if storeFails || skip < 0 then ListPage([], 0, 0, 1)
    else
      var matching := Filter(table, PublishedFilter(published));
      ListPage(Window(SortBy(matching, order), skip, limit), |matching|, CeilDiv(|matching|, limit), page)
  }

  /** `getPosts(params)`: every post, whatever its status. */
  function GetPosts(table: seq<Post>, params: ListParams, storeFails: bool): ListPage<PostBody>
    requires EffectiveLimit(params) > 0
  {
    ListRows(table, None, params, storeFails)
  }

  /** `getRecipes(params)` with its optional `published` filter. */
  function GetRecipes(table: seq<Recipe>, params: ListParams, published: Option<bool>, storeFails: bool): ListPage<RecipeBody>
    requires EffectiveLimit(params) > 0
  {
    ListRows(table, published, params, storeFails)
  }

  /** The counts of a listing page: the requested page number is echoed,
      the count is over the same filter as the rows, the page count is its
      ceiling, and a page holds rows exactly when its number is at most the
      page count. A failure or a page before the first gives the empty page
      reporting page 1. */
  lemma ListRowsCounts<B(!new)>(table: seq<Row<B>>, published: Option<bool>, params: ListParams, storeFails: bool)
    requires EffectiveLimit(params) > 0
    ensures var r := ListRows(table, published, params, storeFails);
      var page := OrElse(params.page, 1);
      var limit := EffectiveLimit(params);
      && (storeFails || page < 1 ==> r == ListPage([], 0, 0, 1))
      && (!storeFails && page >= 1 ==>
            && r.currentPage == page
            && r.total == |Filter(table, PublishedFilter(published))|
            && r.totalPages * limit >= r.total
            && (r.totalPages > 0 ==> (r.totalPages - 1) * limit < r.total)
            && (r.items != [] <==> page <= r.totalPages))
  {
    var page := OrElse(params.page, 1);
    var limit := EffectiveLimit(params);
    var order := RowOrder<B>(OrElse(params.sortBy, CreatedAt), OrElse(params.sortOrder, Desc));
    if page < 1 {
      MultiplyMonotone(page - 1, -1, limit);
    } else if !storeFails {
      var matching := Filter(table, PublishedFilter(published));
      var skip := Skip(page, limit);
      assert skip >= 0 by { MultiplyMonotone(0, page - 1, limit); }
      SortKeepsLength(matching, order);
      CeilDivIsCeiling(|matching|, limit);
      PageInRange(|matching|, page, limit);
    }
  }

  /** The rows of a listing page: at most `limit`, each a row of the table
      passing the filter, in the requested order. On a page at or after the
      first they are the matching rows at positions `(page - 1) * limit`
      onwards of the ordered matches, `limit` of them when that many remain. */
  lemma ListRowsItems<B(!new)>(table: seq<Row<B>>, published: Option<bool>, params: ListParams, storeFails: bool)
    requires EffectiveLimit(params) > 0
    ensures var r := ListRows(table, published, params, storeFails);
      var order := RowOrder<B>(OrElse(params.sortBy, CreatedAt), OrElse(params.sortOrder, Desc));
      && |r.items| <= EffectiveLimit(params)
      && SortedBy(r.items, order)
      && (forall i :: 0 <= i < |r.items| ==> r.items[i] in table && MatchesPublished(published, r.items[i]))
    ensures var r := ListRows(table, published, params, storeFails);
      var order := RowOrder<B>(OrElse(params.sortBy, CreatedAt), OrElse(params.sortOrder, Desc));
      var sorted := SortBy(Filter(table, PublishedFilter(published)), order);
      var limit := EffectiveLimit(params);
      var skip := Skip(OrElse(params.page, 1), limit);
      !storeFails && OrElse(params.page, 1) >= 1 ==>
        && |r.items| == (if skip >= |sorted| then 0 else if skip + limit <= |sorted| then limit else |sorted| - skip)
        && (forall i :: 0 <= i < |r.items| ==> 0 <= skip + i < |sorted| && r.items[i] == sorted[skip + i])
  {
    var page := OrElse(params.page, 1);
    var limit := EffectiveLimit(params);
    var field := OrElse(params.sortBy, CreatedAt);
    var dir := OrElse(params.sortOrder, Desc);
    var skip := Skip(page, limit);
    if page >= 1 {
      assert skip >= 0 by { MultiplyMonotone(0, page - 1, limit); }
    }
    if !(storeFails || skip < 0) {
      RowOrderIsTotalPreorder<B>(field, dir);
      QueryRows(table, PublishedFilter(published), RowOrder<B>(field, dir), skip, limit);
    }
  }

  /** Paging covers every match: the row at position `i` of the ordered
      matches is on page `i / limit + 1`. */
  lemma EveryMatchHasAPage<B(!new)>(table: seq<Row<B>>, published: Option<bool>, params: ListParams, i: nat)
    requires EffectiveLimit(params) > 0
    requires var order := RowOrder<B>(OrElse(params.sortBy, CreatedAt), OrElse(params.sortOrder, Desc));
      i < |SortBy(Filter(table, PublishedFilter(published)), order)|
    ensures var order := RowOrder<B>(OrElse(params.sortBy, CreatedAt), OrElse(params.sortOrder, Desc));
      var page := params.(page := Some(i / EffectiveLimit(params) + 1));
      SortBy(Filter(table, PublishedFilter(published)), order)[i] in ListRows(table, published, page, false).items
  {
    var limit := EffectiveLimit(params);
    var paged := params.(page := Some(i / limit + 1));
    var order := RowOrder<B>(OrElse(params.sortBy, CreatedAt), OrElse(params.sortOrder, Desc));
    var sorted := SortBy(Filter(table, PublishedFilter(published)), order);
    var skip := Skip(i / limit + 1, limit);
    PageOfIndex(i, limit);
    ListRowsItems(table, published, paged, false);
    var items := ListRows(table, published, paged, false).items;
    assert items[i - skip] == sorted[i];
  }

  /** Without arguments the listings use page 1, limit 5, newest first. */
  lemma ListDefaults<B>(table: seq<Row<B>>, published: Option<bool>, storeFails: bool)
    ensures ListRows(table, published, ListParams(None, None, None, None), storeFails)
         == ListRows(table, published, ListParams(Some(1), Some(5), Some(CreatedAt), Some(Desc)), storeFails)
  {
  }

  /** Without a `published` argument recipes of either status are listed and
      counted; with one, only recipes of that status. */
  lemma RecipeFilterOnlyWhenGiven(table: seq<Recipe>, params: ListParams, published: Option<bool>, storeFails: bool)
    requires EffectiveLimit(params) > 0
    requires !storeFails && OrElse(params.page, 1) >= 1
    ensures published.None? ==> GetRecipes(table, params, published, storeFails).total == |table|
    ensures published.Some? ==> forall r :: r in GetRecipes(table, params, published, storeFails).items ==> r.published == published.value
  {
    ListRowsCounts(table, published, params, storeFails);
    ListRowsItems(table, published, params, storeFails);
    if published.None? {
      FilterAll(table, PublishedFilter(published));
    }
  }

  /** The categories the rows carry, skipping rows without one. */
  function NonNullCategories<B>(table: seq<Row<B>>): (r: seq<string>)
    ensures forall c :: c in r <==> exists i :: 0 <= i < |table| && table[i].category == Some(c)
    decreases |table|
  {
    if table == [] then []
    else
      var rest := NonNullCategories(table[1..]);
      assert forall i :: 0 <= i < |table[1..]| ==> table[1..][i] == table[i + 1];
      if table[0].category.Some? then [table[0].category.value] + rest else rest
  }

  /** `getUniquePostCategories` / `getUniqueRecipeCategories` in the app
      library, and `getPostCategories` / `getRecipeCategories` among the
      actions: the distinct non-null categories, without blank ones, or the
      empty list when the query fails. */
  function NonBlankCategories<B>(table: seq<Row<B>>, storeFails: bool): seq<string>
  {
    if storeFails then []
    else Filter(Distinct(NonNullCategories(table)), (c: string) => !IsBlank(c))
  }

  /** A category is listed exactly when the query succeeds, some row carries
      it and it is not blank, and none is listed twice. */
  lemma NonBlankCategoriesMembers<B>(table: seq<Row<B>>, storeFails: bool)
    ensures var r := NonBlankCategories(table, storeFails);
      && (forall c :: c in r <==>
            !storeFails && (exists i :: 0 <= i < |table| && table[i].category == Some(c)) && !IsBlank(c))
      && NoDuplicates(r)
  {
    if !storeFails {
      var d := Distinct(NonNullCategories(table));
      var p := (c: string) => !IsBlank(c);
      DistinctProperties(NonNullCategories(table));
      FilterIsExact(d, p);
      forall c ensures c in Filter(d, p) <==> c in d && p(c) {
        FilterMembers(d, p, c);
      }
      NoDuplicatesCountsOnce(d);
      SubsequenceKeepsNoDuplicates(Filter(d, p), d);
    }
  }

  /** The `getUniquePostCategories` / `getUniqueRecipeCategories` of the
      second library: the distinct non-null categories, sorted, or the empty
      list when the query fails. */
  function SortedCategories<B>(table: seq<Row<B>>, storeFails: bool): seq<string>
  {
    if storeFails then []
    else SortBy(Distinct(NonNullCategories(table)), StringOrder())
  }

  /** A category is listed exactly when the query succeeds and some row
      carries it (blank ones included), the list is strictly ascending, and
      none is listed twice. */
  lemma SortedCategoriesMembers<B>(table: seq<Row<B>>, storeFails: bool)
    ensures var r := SortedCategories(table, storeFails);
      && (forall c :: c in r <==> !storeFails && exists i :: 0 <= i < |table| && table[i].category == Some(c))
      && NoDuplicates(r)
      && (forall i, j :: 0 <= i < j < |r| ==> StrLe(r[i], r[j]) && r[i] != r[j])
  {
    if !storeFails {
      var d := Distinct(NonNullCategories(table));
      var r := SortedCategories(table, false);
      DistinctProperties(NonNullCategories(table));
      StringOrderIsTotalPreorder();
      SortByCorrect(d, StringOrder());
      PermutationKeepsNoDuplicates(d, r);
      forall c ensures c in r <==> c in d {
        assert c in r <==> c in multiset(r);
      }
    }
  }
}
