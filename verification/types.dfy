/**
 The records of the catalog. Users, categories and products arrive as
 static collections; the enriched row is the product joined with its
 category and that category's owner, either of which may be missing.
 */
module Types {
  import opened Wrappers

  datatype User = User(id: int, name: string, sex: string, email: string)

  /** ownerId refers to a User by id. */
  datatype Category = Category(id: int, title: string, icon: string, ownerId: int)

  /** categoryId refers to a Category by id. */
  datatype Product = Product(id: int, name: string, categoryId: int)

  /** A product after the first join: its category, when one matched. */
  datatype ProductWithCategory =
    ProductWithCategory(id: int, name: string, categoryId: int, category: Option<Category>)

  /** A row of the catalog table: the product, its category and the
      category's owner, each relation absent when the lookup failed. */
  datatype ProductWithCategoryAndUser = ProductWithCategoryAndUser(
    id: int,
    name: string,
    categoryId: int,
    category: Option<Category>,
    user: Option<User>)
}
