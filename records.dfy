/**
 * The two content types of the store. Posts and recipes share their
 * listing columns (title, slug, category, image, published flag, creation
 * time); the columns that differ are carried in the body.
 */
module Records {
  import opened Wrappers

  /** A row id as the database generates it (a cuid string). */
  type Id = string

  datatype Row<B> = Row(
    title: string,
    slug: string,
    category: Option<string>,
    imageUrl: Option<string>,
    published: bool,
    createdAt: int,
    body: B)

  datatype PostBody = PostBody(description: Option<string>, content: string)

  datatype RecipeBody = RecipeBody(
    description: string,
    ingredients: string,
    instructions: string,
    prepTime: Option<string>,
    cookTime: Option<string>,
    servings: Option<string>)

  type Post = Row<PostBody>
  type Recipe = Row<RecipeBody>

  /** An uploaded file as the form delivers it. */
  datatype Upload = Upload(name: string, mimeType: string, size: nat)

  /** The unique constraint on the slug column. */
  predicate UniqueSlugs<B>(table: map<Id, Row<B>>)
  {
    forall a, b :: a in table && b in table && a != b ==> table[a].slug != table[b].slug
  }
}
