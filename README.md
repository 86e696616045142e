# This and That blog: content actions, listings and access gate

A Dafny model of the core of a small blog-and-recipe site written with
Next.js, Prisma and a blob store. The modelled core is:

- **Admin server actions.** Create, update, delete and toggle-publish for
  posts and recipes. They cover form validation, category clean-up, slug
  choice and allocation, image upload, and the status or outcome each
  action reports.
- **Listing queries.** Published posts by page, generic post and recipe
  pages with sorting and defaults, and the distinct-category queries.
- **Public listing pages.** The blog index and the recipe index keep the
  fetched page in component state. The recipe list has a memoised filter.
  The home page shows the three newest posts.
- **The admin middleware.** It sends requests without a session to the
  login page.

The model is organised as follows:

- **Database and blob store.** Both become values:
  - a table is a `map` from id to row, for the actions;
  - a table is a `seq` of rows in storage order, for the queries;
  - the blob store is a set of URLs.
- **Store class.** The store the actions change is the class
  `Actions.Cms`. Each action method is proved against a step function over
  a `Snapshot` of the store, and the lemmas about the step functions state
  what the actions guarantee.
- **Page state.** The listing pages' state is kept in the classes
  `Pages.BlogPage` and `Pages.RecipesPage`.
- **Slug allocator.** The allocator loop is the method
  `SlugAllocator.AllocateSlug`, proved equal to the specification function
  `Allocation`.
- **Parameters.** The clock, new ids, the session flag and `slugify` are
  parameters. So are the failures: of a blob-store request, of a row write
  for a reason other than the slug constraint, and of a listing or category
  query.

Behaviour of the code that a reader might not expect, which the model
follows as written:

- An allocated slug is cut to 255 characters and can end in a hyphen; the
  allocator does not re-check it against the slug pattern.
- Deleting a post or recipe removes only the row. Its image stays in the
  blob store.
- `createPost` and `updatePost` do not check the session. Only the
  middleware guards them.
- When the allocator runs out of attempts, `createRecipe` reports it on the
  title field. In `createPost`, `updatePost` and `updateRecipe` the error
  escapes the action, which the model reports as `Crashed`.

## Model

| member | source | states |
|---|---|---|
| Text.TrimStart | src/app/lib/actions.ts:194-200 | drops exactly the leading run of JavaScript whitespace: the result is a suffix of the input and does not start with whitespace |
| Text.TrimEnd | src/app/lib/actions.ts:194-200 | drops exactly the trailing run of whitespace: the result is a prefix and does not end with whitespace |
| Text.TrimIsInfix | src/app/lib/actions.ts:194-200 | `trim()` returns a contiguous part of the input |
| Text.TrimEndsAreNotWhitespace | src/app/lib/actions.ts:194-200 | a non-empty trimmed string has no whitespace at either end |
| Text.BlankIffAllWhitespace | src/app/lib/actions.ts:194-200 | `s.trim() === ""` holds exactly when every character is whitespace |
| Text.TrimIdempotent | src/app/lib/actions.ts:194-200 | trimming twice is trimming once |
| Text.LowerCase | src/app/lib/actions.ts:198 | lower-casing keeps the length and maps each character |
| Text.CaseMappingLaws | src/app/lib/actions.ts:198 | lower-casing forgets an earlier upper-casing and is idempotent; the results contain no letters of the other case |
| Text.CapitalizeProperties | src/app/lib/actions.ts:198 | a capitalised string has a non-lower-case head and a non-upper-case tail, equals its input up to case, and keeps whitespace in place |
| Text.CapitalizeFixesCapitalized | src/app/lib/actions.ts:198 | capitalising an already capitalised string changes nothing |
| Text.DecimalDigits | src/app/lib/actions.ts:83-85 | `${n}` is a non-empty string of decimal digits (one digit below 10, two below 100, three below 1000) |
| Text.DecimalRoundTrip | src/app/lib/actions.ts:115 | reading a rendered number back gives the number, so distinct counters and timestamps render distinctly |
| SlugPattern.RunFromWord | src/app/lib/actions.ts:29-36 | the matcher for `^[a-z0-9]+(?:-[a-z0-9]+)*$` accepts from its start state exactly the slug-shaped strings |
| SlugPattern.DeadStaysDead | src/app/lib/actions.ts:29-36 | once the matcher rejects, no further input makes it accept |
| SlugPattern.RegexMatchesShape | src/app/lib/actions.ts:29-36 | a string matches the slug pattern iff it is non-empty, uses only `[a-z0-9-]`, does not start or end with a hyphen, and has no double hyphen |
| SlugPattern.NumberedSlugMatches | src/app/lib/actions.ts:83-85 | appending `-<counter>` to a slug that matches the pattern gives a slug that matches it |
| SlugAllocator.Prefix | src/app/lib/actions.ts:73 | `substring(0, n)` clamps n into `[0, length]` and returns a prefix |
| SlugAllocator.FirstFree | src/app/lib/actions.ts:71-90 | the first attempt number at or after `from` whose candidate is free, or 100; every attempt before it is taken |
| SlugAllocator.CandidateShape | src/app/lib/actions.ts:83-85 | a numbered candidate fits 255 characters and ends with `-<counter>`; it is base + suffix whenever both fit |
| SlugAllocator.FirstCandidateIsBase | src/app/lib/actions.ts:68-73 | the first candidate is the base slug cut to 255 characters |
| SlugAllocator.CandidateFits | src/app/lib/actions.ts:91 | every candidate returned fits the 255-character column |
| SlugAllocator.AllocationIsFreeAndFirst | src/app/lib/actions.ts:65-92 | a successful allocation is held by no other row and is the first free candidate; every earlier candidate is taken |
| SlugAllocator.AllocationFailsIffAllTaken | src/app/lib/actions.ts:86-89 | the allocator throws exactly when all 100 candidates are taken |
| SlugAllocator.FirstFreeSkipsTaken | src/app/lib/actions.ts:71-90 | the search may resume from any attempt number before which all candidates are taken |
| SlugAllocator.FreeBaseIsKept | src/app/lib/actions.ts:71-79 | a free base slug is returned unchanged, apart from the 255-character cut |
| SlugAllocator.OwnSlugIsKept | src/app/lib/actions.ts:74-79 | excluding the row's own id lets it keep its own slug |
| SlugAllocator.SecondAllocationDiffers | src/app/lib/actions.ts:65-92 | once a row holds the allocated slug, allocating again from the same base gives a different slug |
| SlugAllocator.AllocateSlug | src/app/lib/actions.ts:65-92 | the while loop returns exactly the specification's allocation: the first free candidate, or the error after 100 attempts; the same code appears at src/app/lib/actions.ts:514-541 |
| Validation.StringViolations | src/app/lib/actions.ts:28 | a null or file value is reported as not a string; a string is reported too short or too long exactly when it breaks the bound |
| Validation.SlugViolations | src/app/lib/actions.ts:29-36 | null and the empty string are accepted; a non-empty string is reported exactly when it does not match the slug pattern |
| Validation.ImageViolations | src/app/lib/actions.ts:42-58 | "Only images are allowed." exactly for a non-empty string or a non-empty file whose type does not start with `image/`; "Please upload a valid file." exactly for a non-empty string |
| Validation.ParsePost | src/app/lib/actions.ts:26-62 | the post schema succeeds iff every field rule holds. It then yields the submitted title, description, content and category, the slug unless empty, the file if one was sent, and `published` exactly when the box sent "on" (src/app/lib/actions.ts:171-179); these satisfy title length ≥ 3, content length ≥ 10, description length ≤ 200, a matching slug or none, and an image-typed file or none. Otherwise it fails with the non-empty set of every violation. |
| Validation.ParseRecipe | src/app/lib/actions.ts:473-511 | the recipe schema succeeds iff every field rule holds and then yields exactly the submitted fields (slug, image and `published` read as for posts), with the same guarantees (description, ingredients and instructions ≥ 10); otherwise it fails with every violation |
| Validation.NormalizeCategory | src/app/lib/actions.ts:194-200 | undefined stays undefined; a blank string becomes null; any other string becomes a normal category equal, up to case, to its trimmed input; the same code appears at src/app/lib/actions.ts:577-583 |
| Validation.NormalizeCategoryFixesNormal | src/app/lib/actions.ts:279-285 | a category already in normal form is kept as it is |
| Validation.NormalizeCategoryIdempotent | src/app/lib/actions.ts:279-285 | cleaning a cleaned category changes nothing |
| Validation.UpdateSlugChoice | src/app/lib/actions.ts:295-301 | the slug is kept iff no differing non-blank slug was given and, when none was given, the title is unchanged. A re-allocation starts from the given slug if there is one, else from the title; the same code appears at src/app/lib/actions.ts:693-700 |
| Validation.PostFormKeepsSlug | src/app/admin/PostForm.tsx:82-84 | the post editor echoes the current slug, so any title edit keeps the slug |
| Validation.RecipeFormRetitles | src/app/lib/actions.ts:697-700 | a recipe form without a slug re-allocates the slug from a changed title |
| ImageUpload.SanitizeName | src/app/lib/actions.ts:115 | every character outside `[a-zA-Z0-9.]` becomes `_`, every other one is kept, and the length is unchanged |
| ImageUpload.SanitizeNameProperties | src/app/lib/actions.ts:115 | the sanitised name uses only safe characters and `_`, sanitising is idempotent, and a safe name is kept as is |
| ImageUpload.UploadOrdering | src/app/lib/actions.ts:101-143 | requests are issued iff a new URL is returned. The put of the new image comes first. A delete of the old URL follows exactly when one was present. |
| ImageUpload.ApplyUploadEffects | src/app/lib/actions.ts:117-133 | after a successful upload the blob store is the old one plus the new image, minus the old URL when its delete succeeded |
| ImageUpload.UploadStoresImage | src/app/lib/actions.ts:124-131 | the new image is stored unless a successful delete of an identical old URL removed it. A failed delete keeps the old image; a successful one removes it. Nothing but the new image is added. |
| Actions.InsertKeepsUnique | src/app/lib/actions.ts:222-236 | inserting a row whose slug no row holds keeps slugs unique |
| Actions.ReplaceKeepsUnique | src/app/lib/actions.ts:309-333 | replacing a row by one whose slug no other row holds keeps slugs unique |
| Actions.InsertPostKeepsInvariant | src/app/lib/actions.ts:203-236 | creating a post keeps the unique-slug constraint on both tables, whatever the outcome |
| Actions.ReplacePostKeepsInvariant | src/app/lib/actions.ts:304-333 | updating a post keeps the unique-slug constraint |
| Actions.InsertRecipeKeepsInvariant | src/app/lib/actions.ts:588-606 | creating a recipe keeps the unique-slug constraint |
| Actions.ReplaceRecipeKeepsInvariant | src/app/lib/actions.ts:704-735 | updating a recipe keeps the unique-slug constraint |
| Actions.UpdateSlugIsFree | src/app/lib/actions.ts:295-301 | the slug an update writes is held by no other row |
| Actions.UpdatePostNeverConflicts | src/app/lib/actions.ts:330-338 | in a store that satisfies the constraint, a post update never reports a slug conflict |
| Actions.UpdateRecipeNeverConflicts | src/app/lib/actions.ts:736-743 | in a store that satisfies the constraint, a recipe update never reports a slug conflict |
| Actions.CreateRecipeNeverConflicts | src/app/lib/actions.ts:588-614 | a created recipe's slug comes from the allocator, so creation never reports a slug conflict |
| Actions.CreatePostConflictsOnlyOnGivenSlug | src/app/lib/actions.ts:202-240 | a post creation reports a slug conflict only for a non-blank slug typed into the form that another post holds |
| Actions.ValidatedImagePassesTypeCheck | src/app/lib/actions.ts:108-110 | an image that passed the schema never fails the upload's own type check |
| Actions.CreateRecipeNeverRejectsImageType | src/app/lib/actions.ts:615-621 | the "Invalid file type" branch of `createRecipe` is unreachable |
| Actions.UpdateRecipeNeverRejectsImageType | src/app/lib/actions.ts:744-750 | the "Invalid file type" branch of `updateRecipe` is unreachable |
| Actions.UpdatePostOutcome | src/app/lib/actions.ts:248-301 | a post update ends as field errors iff the schema fails (with exactly its violations), as not-found iff the post is missing, and as a crash iff the allocator fails; these leave the store unchanged; otherwise it runs the write phase |
| Actions.ReplacePostOutcome | src/app/lib/actions.ts:304-340 | the write phase changes only the edited row and only on success. The row keeps its creation time and gets the submitted title, description, content and flag, the decided slug, the cleaned category (kept when undefined, cleared when blank) and the new image or else the old one. The log is the upload's requests, then the row update. A failed upload or a failed write is reported as "Database Error" (src/app/lib/actions.ts:339). Other outcomes change only the blob store. |
| Actions.InsertPostOutcome | src/app/lib/actions.ts:203-240 | a post creation's write phase saves, reports a slug conflict (only for a taken slug), or reports "Database Error" (a store failure) exactly when the upload or the write failed; when it does not save, the posts are unchanged and only the upload is logged |
| Actions.InsertPostSavedRow | src/app/lib/actions.ts:208-220 | a saved post creation means the write did not fail and the slug was free. It adds exactly one row under the new id. The row holds the chosen slug, the creation time, the uploaded image or none, and the cleaned category. The insert is logged after the upload's put. |
| Actions.ReplaceRecipeOutcome | src/app/lib/actions.ts:702-760 | a recipe update's write phase changes only the edited row and only on success. The row keeps its creation time and old image unless a new one was stored, and gets the submitted title, description, ingredients, instructions, times, servings and flag, the decided slug and the cleaned category. A failed upload other than a rejected type, or a failed write, gives the "Database or File System Error" message (src/app/lib/actions.ts:757). It reports a bad image type exactly when the upload rejected the file |
| Actions.PostEditorKeepsSlug | src/app/lib/actions.ts:293-301 | a post saved from the editor, which resubmits the current non-empty slug, keeps that slug |
| Actions.ConflictOrphansUpload | src/app/lib/actions.ts:206-240 | a slug conflict after an upload leaves the new image in the blob store and the posts unchanged |
| Actions.DeleteOutcome | src/app/lib/actions.ts:346-392 | 400 iff the id is empty (checked before the session), 401 iff there is no session, 404 iff the row is missing, 200 iff the row existed. Only a 200 changes the table, by removing exactly that row; the same code appears at src/app/lib/actions.ts:771-815 |
| Actions.ToggleOutcome | src/app/lib/actions.ts:412-446 | 401 iff there is no session, 500 iff the row is missing, 200 otherwise. On 200 only the row's `published` flag changes, to the negation of the argument; the same code appears at src/app/lib/actions.ts:834-868 |
| Actions.PostToggleFlips | src/app/admin/PostActions.tsx:55 | the post list passes the stored flag, so toggling flips it |
| Actions.WiredRecipeToggleIsNoOp | src/app/admin/RecipeActions.tsx:23 | as written, the recipe list's toggle reports success and leaves the table exactly as it was |
| Actions.RecipeToggleFlips | src/app/admin/RecipeActions.tsx:23 | passing the stored flag makes the recipe toggle flip it |
| Actions.Cms.constructor | src/app/lib/actions.ts:166-245 | the empty store satisfies the unique-slug constraint |
| Actions.Cms.HandleImageUpload | src/app/lib/actions.ts:101-143 | returns the upload result, appends exactly the upload's requests to the log, and applies them to the blob store |
| Actions.Cms.CreatePost | src/app/lib/actions.ts:166-245 | outcome and new store are the creation step of the old store; the constraint is kept |
| Actions.Cms.InsertPostRow | src/app/lib/actions.ts:203-240 | the write phase of `createPost`, step by step |
| Actions.Cms.UpdatePost | src/app/lib/actions.ts:248-343 | outcome and new store are the update step of the old store; the constraint is kept |
| Actions.Cms.ReplacePostRow | src/app/lib/actions.ts:304-340 | the write phase of `updatePost`, step by step |
| Actions.Cms.DeletePost | src/app/lib/actions.ts:346-409 | status and new posts are the delete step; the row delete is logged only on 200 |
| Actions.Cms.TogglePublishStatus | src/app/lib/actions.ts:412-446 | status and new posts are the toggle step; the update is logged only on 200 |
| Actions.Cms.CreateRecipe | src/app/lib/actions.ts:544-638 | outcome and new store are the recipe creation step; the constraint is kept |
| Actions.Cms.InsertRecipeRow | src/app/lib/actions.ts:588-631 | the guarded part of `createRecipe`, step by step |
| Actions.Cms.UpdateRecipe | src/app/lib/actions.ts:641-768 | outcome and new store are the recipe update step; the constraint is kept |
| Actions.Cms.ReplaceRecipeRow | src/app/lib/actions.ts:702-760 | the guarded part of `updateRecipe`, step by step |
| Actions.Cms.DeleteRecipe | src/app/lib/actions.ts:771-831 | status and new recipes are the delete step |
| Actions.Cms.ToggleRecipePublishStatus | src/app/lib/actions.ts:834-868 | status and new recipes are the toggle step |
| Excerpt.NextClose | src/app/blog/page.tsx:12 | the index of the first `>` at or after `i`, or the length: no `>` lies before it |
| Excerpt.StripTags | src/app/blog/page.tsx:12 | removing tags never lengthens the text |
| Excerpt.StripTagsLeavesNoTag | src/app/blog/page.tsx:12 | after `replace(/<[^>]+>/g, "")` no tag remains anywhere in the text |
| Excerpt.StripTagsFixesNoTag | src/app/blog/page.tsx:12 | text without tags is left unchanged |
| Excerpt.StripTagsIdempotent | src/app/blog/page.tsx:12 | stripping twice is stripping once |
| Excerpt.StripKeepsNoClose | src/app/blog/page.tsx:12 | text with no `>` keeps none after stripping |
| Excerpt.NoOpenNoTag | src/app/blog/page.tsx:12 | text with no `<` contains no tag |
| Excerpt.CreateExcerpt | src/app/blog/page.tsx:10-17 | empty content gives `""`. Otherwise the result is the stripped text when it fits, else its first `maxLength` characters followed by `...`. The result is never longer than `maxLength + 3`; the same code appears at src/app/recipes/page.tsx:10-17, src/app/page.tsx:7-14 |
| Excerpt.ExcerptHasNoTag | src/app/blog/page.tsx:10-17 | an excerpt contains no tag, even when cut |
| Middleware.Gate | src/middleware.ts:12-25 | the handler redirects iff the path does not start with `/admin/login` and there is no session; a redirect always goes to `/admin/login` |
| Middleware.AdminPagesNeedSession | src/middleware.ts:17-22 | every admin page other than the login pages is served iff there is a session, and otherwise redirects to the login page |
| Middleware.PublicPathsUntouched | src/middleware.ts:34 | paths outside `/admin` and `/admin/...` are never gated |
| Middleware.LoginPagesAlwaysServed | src/middleware.ts:12-14 | the login page is served with or without a session |
| Middleware.RedirectTargetIsServed | src/middleware.ts:18-21 | the redirect target is always served, so redirects cannot loop |
| Middleware.LoginPrefixCoversSiblings | src/middleware.ts:12 | any path beginning with `/admin/login`, such as `/admin/login-history`, passes ungated |
| Sequences.Filter | src/app/blog/page.tsx:71 | `filter` keeps at most the input's elements, all satisfying the predicate |
| Sequences.FilterIsExact | src/app/blog/page.tsx:71 | the filter result is an in-order subsequence holding every satisfying element as often as the input does, and nothing else |
| Sequences.DistinctProperties | src/app/blog/page.tsx:49-53 | `Array.from(new Set(xs))` has the same members, no duplicates, is a subsequence of the input, and lists each value before any value whose occurrences all come after its first one (first-occurrence order) |
| Sequences.SortByCorrect | src/lib/posts.ts:35-42 | the database order is sorted by the chosen order and is a permutation of its input |
| Sequences.Window | src/lib/posts.ts:40-41 | `skip`/`take` returns the consecutive rows from position `skip`: `take` of them when that many remain, all the remaining ones otherwise, none when `skip` is past the end |
| Sequences.QueryRows | src/lib/posts.ts:35-42 | a filtered, sorted, windowed query returns the ordered matches from position `skip`, `take` of them when that many remain; they are sorted, each from the table and satisfying the filter |
| Listings.StringOrderIsTotalPreorder | src/lib/posts.ts:84 | the string order used for `.sort()` (code-point order; see "Left out") is total and transitive |
| Listings.StrLeAntisymmetric | src/lib/posts.ts:84 | two strings ordered both ways are equal |
| Listings.RowOrderIsTotalPreorder | src/lib/posts.ts:37-39 | every `orderBy` field and direction, with missing categories last when ascending, is a total preorder |
| Listings.CeilDivIsCeiling | src/app/lib/posts.ts:32 | `Math.ceil(total / limit)` pages cover all rows, one page fewer would not, and it is 0 iff there are no rows |
| Listings.PageInRange | src/app/lib/posts.ts:11 | for a page ≥ 1, its skip lies inside the rows iff the page is at most the page count |
| Listings.PublishedPostsCounts | src/app/lib/posts.ts:6-38 | a store error or a page below 1 gives no posts and zero counts; otherwise the total is the number of published rows and the page count is its ceiling |
| Listings.PublishedPostsRows | src/app/lib/posts.ts:12-28 | a page holds at most `limit` posts, each published, from the table, with a non-empty slug, newest first |
| Listings.SlugFilteredRows | src/app/lib/posts.ts:26-28 | dropping the posts without a slug keeps the page newest first, published and drawn from the table |
| Listings.EveryPublishedPostHasAPage | src/app/lib/posts.ts:11-19 | the published post at position i of the newest-first order, if it has a slug, appears on page `i / limit + 1` |
| Listings.ListRowsCounts | src/lib/posts.ts:23-64 | `getPosts` echoes the page, totals the same rows it lists, and gives the ceiling page count. It has items iff the page is in range. A failure or a page below 1 gives an empty first page; `getRecipes` (src/lib/recipes.ts:26-69) does the same over the rows its `published` filter selects |
| Listings.ListRowsItems | src/lib/posts.ts:35-42 | listed rows number at most the limit, are in the requested order, and come from the table and match the filter. On a page ≥ 1 without failure they are exactly the ordered matches from `(page - 1) * limit`, `limit` of them when that many remain; `getRecipes` (src/lib/recipes.ts:33-49) is the same |
| Listings.EveryMatchHasAPage | src/lib/posts.ts:30-42 | paging loses no row: the row at position i of the ordered matches is listed on page `i / limit + 1`; the same code appears at src/lib/recipes.ts:33-49 |
| Listings.ListDefaults | src/lib/posts.ts:24-28 | missing parameters mean page 1, 5 per page, newest first |
| Listings.RecipeFilterOnlyWhenGiven | src/lib/recipes.ts:37-40 | without `published` every recipe is counted; with it every listed recipe carries that flag |
| Listings.NonNullCategories | src/lib/posts.ts:74-83 | the non-null categories are exactly the categories some row holds |
| Listings.NonBlankCategoriesMembers | src/app/lib/actions.ts:871-893 | the post categories offered are exactly the non-blank categories some post holds, each once, and none when the query fails (src/app/lib/actions.ts:891); the same code appears at src/app/lib/actions.ts:896-917, src/app/lib/posts.ts:40-61, src/app/lib/posts.ts:63-84 |
| Listings.SortedCategoriesMembers | src/lib/posts.ts:67-89 | the sorted categories are exactly the non-null categories of the posts, each once, in strictly ascending order, and none when the query fails (src/lib/posts.ts:87); `getUniqueRecipeCategories` (src/lib/recipes.ts:71-92) does the same for recipes |
| Pages.CategoryFilterExact | src/app/blog/page.tsx:64-75 | no category shows the whole page; a category shows exactly the page's rows with that category, in order and with multiplicity |
| Pages.CategoryButtonsMembers | src/app/blog/page.tsx:49-54 | a button is offered for each non-empty category of the fetched page, exactly once, in the order the categories first occur in the page |
| Pages.OfferedCategoryIsNonEmpty | src/app/blog/page.tsx:49-54 | each category button built from a page selects at least one row of that page (src/app/blog/page.tsx:64-75 filters the same rows) |
| Pages.DisplayExcerptChoice | src/app/blog/page.tsx:130-131 | a post with a description shows it verbatim; otherwise a tag-free excerpt of at most 103 characters |
| Pages.PaginationLaws | src/app/blog/page.tsx:175-213 | the bar shows only for more than one page. Previous appears iff past the first page, and Next iff before the last. The links are pages 1 to n. From a page in range, no neighbour link leaves the listing; the same code appears at src/app/recipes/page.tsx:169-208 |
| Pages.BlogPage.constructor | src/app/blog/page.tsx:21-27 | the initial state is empty, loading, on page 1, with no category selected |
| Pages.BlogPage.ReadPageParam | src/app/blog/page.tsx:31-34 | the parsed page parameter becomes the current page |
| Pages.BlogPage.FetchData | src/app/blog/page.tsx:36-62 | fetches page `currentPage` of five published posts, shows all of them with their categories as buttons, stops loading, and keeps the selected category |
| Pages.BlogPage.HandleCategoryFilter | src/app/blog/page.tsx:64-75 | records the selection and shows the category filter of the fetched page. The shown rows stay a subsequence of the page, the buttons stay those of the page, and an offered button never shows an empty list |
| Pages.RecipePageFetch | src/app/recipes/page.tsx:39-43 | the recipe index lists at most five published recipes from the table, newest first |
| Pages.RecipesPage.constructor | src/app/recipes/page.tsx:20-26 | the initial state is empty, loading, on page 1, with no category selected |
| Pages.RecipesPage.ReadPageParam | src/app/recipes/page.tsx:30-33 | the parsed page parameter becomes the current page |
| Pages.RecipesPage.FetchData | src/app/recipes/page.tsx:35-62 | fetches the published recipes of the current page, shows all of them with their categories as buttons, and stops loading |
| Pages.RecipesPage.HandleCategoryFilter | src/app/recipes/page.tsx:64-73 | records the selection and shows the category filter of the fetched page; as for the blog index, an offered button never shows an empty list |
| Pages.ClientFilterIsCategoryFilter | src/app/recipes/RecipeListClient.tsx:18-23 | the memoised filter is the page's category filter with an empty selection treated as none; it keeps the full list's order |
| Pages.ClientButtonsShownIffCategories | src/app/recipes/RecipeListClient.tsx:32 | filter buttons appear iff there are categories: "All" first, then one per category in order |
| Pages.HomeCardsLaws | src/app/page.tsx:26-36 | one card per post. Cards alternate starting with an even one and always say "Blog". The stock image is used exactly when the post has none. Excerpts are tag-free and at most 153 characters. |
| Pages.HomePageAlwaysFails | src/app/page.tsx:18-19 | as written, the home page raises a TypeError for every store |
| Pages.HomePostsAreTheNewest | src/app/page.tsx:18-19 | as intended, the home page renders the first three posts of listing page one: published, with a slug, newest first |

## Left out

- `slugify` is an uninterpreted parameter. Its character rules and the `remove` pattern are not modelled.
- SlugAllocator.AllocateSlug: the check-then-write race between two concurrent requests is not modelled. The model is sequential. This is why the slug-conflict branches of the updates are shown unreachable.
- The database and blob store are reduced to their observable effects. A failed upload and a failed row write other than the unique-slug violation reach the same catch block and are one `StoreFailure` outcome. The text of the recipe actions' message, which quotes the error, is not modelled.
- Actions.DeleteOutcome: the catch branch of the deletes (404 on P2025, 500 otherwise) is not modelled, since it needs a store failure between the existence check and the delete.
- Actions.ToggleOutcome: every failed update is "the row is missing"; other database failures are not distinguished.
- Sessions (iron-session), login, logout, cookie handling, `revalidatePath` and `redirect` are left out. The session is a boolean parameter.
- Blob URLs are taken to be the blob names. Real URLs add a host and a random suffix.
- `Date.now()`, new ids and creation times are parameters. `toLocaleDateString`, `toISOString` and date rendering are left out.
- Listings.GetAllPublishedPosts requires `limit > 0`. Every caller passes 5 (src/app/blog/page.tsx:42, and the default at src/app/lib/posts.ts:8 used by src/app/page.tsx:18). A zero or negative limit is not modelled: it gives `Infinity` or `NaN` page counts, and a negative `take` reads from the end of the list.
- Listings.ListRows requires a positive effective limit. The one caller passes 5 (src/app/recipes/page.tsx:41), and the default is 5.
- `parseInt` of the page parameter is not modelled. A non-numeric page (`NaN`) is left out; the page methods take the parsed integer.
- Text.LowerCase maps ASCII letters only. Full Unicode case mapping is left out. String lengths count code points, not UTF-16 units.
- Listings.StrLe is code-point order. `.sort()` without a comparator compares UTF-16 code units, which orders characters above U+FFFF before those from U+E000 to U+FFFF; the model agrees with it only on text without characters above U+FFFF. The database's collation for `orderBy` on strings is taken to be code-point order too.
- The tie order among equal sort keys is that of a stable insertion sort over storage order. The database's tie order is unspecified.
- The row order of Prisma's `distinct` is taken as first occurrence in storage order.
- The post id is taken to be always present in update forms. `NOT: { id: undefined }` in the allocator is modelled as "exclude nothing".
- The page links' `href` strings, including the `&category=` suffix, are not modelled. Only the page numbers they point to are.
- React rendering, the Lexical editor, the login page and the other admin and detail pages are not part of this model.

## Findings

| source | as written | input that shows it | evidently intended | confidence | as-written member | corrected member |
|---|---|---|---|---|---|---|
| src/app/admin/RecipeActions.tsx:23 | the recipe list passes `!isPublished` to `toggleRecipePublishStatus`, which stores `!currentStatus`, so the stored flag is written back unchanged | any recipe, e.g. a published one: the call passes `false` and the action stores `true` | pass `isPublished` as the post list does, so the flag flips | not executed | Actions.WiredRecipeToggleIsNoOp | Actions.RecipeToggleFlips |
| src/app/page.tsx:18-19 | `getAllPublishedPosts()` returns `{ posts, totalPosts, totalPages }`, and the page calls `.slice(0, 3)` on that object, which has no `slice` method | any store, including one with published posts: the call raises a TypeError | slice `allPosts.posts`, giving the three newest published posts | not executed | Pages.HomePageAlwaysFails | Pages.HomePostsAreTheNewest |
