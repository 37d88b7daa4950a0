/**
 The join performed once, at load time: every product is given the first
 category whose id equals its categoryId, and then the first user whose id
 equals that category's ownerId. A failed lookup leaves the field absent.
 */
module Enrichment {
  import opened Types
  import Seqs

  /* Position j holds the first category with the given id. */
  ghost predicate IsFirstCategory(categories: seq<Category>, id: int, j: int)
  {
    Seqs.FirstMatch(categories, (c: Category) => c.id == id, j)
  }

  /* Position j holds the first user with the given id. */
  ghost predicate IsFirstUser(users: seq<User>, id: int, j: int)
  {
    Seqs.FirstMatch(users, (u: User) => u.id == id, j)
  }

  /** First join: look the product's category up by id. */
  function AttachCategory(categories: seq<Category>, product: Product): (r: ProductWithCategory)
    ensures r.id == product.id && r.name == product.name && r.categoryId == product.categoryId
    ensures r.category.None? <==> forall j :: 0 <= j < |categories| ==> categories[j].id != product.categoryId
    ensures r.category.Some? ==>
              exists j :: IsFirstCategory(categories, product.categoryId, j) && categories[j] == r.category.value
  {
    var found := Seqs.Find(categories, (c: Category) => c.id == product.categoryId);
    ProductWithCategory(product.id, product.name, product.categoryId, found)
  }

  /** Second join: look the owner of the resolved category up by id. Like the
      page's `find` with an optional-chained predicate, the search runs over
      all users even when the category is missing, with a predicate that then
      holds for none of them. */
  function AttachUser(users: seq<User>, product: ProductWithCategory): (r: ProductWithCategoryAndUser)
    ensures r.id == product.id && r.name == product.name && r.categoryId == product.categoryId
    ensures r.category == product.category
    ensures product.category.None? ==> r.user.None?
    ensures product.category.Some? ==>
              (r.user.None? <==> forall j :: 0 <= j < |users| ==> users[j].id != product.category.value.ownerId)
    ensures product.category.Some? && r.user.Some? ==>
              exists j :: IsFirstUser(users, product.category.value.ownerId, j) && users[j] == r.user.value
  {
    var found := Seqs.Find(users, (u: User) => product.category.Some? && product.category.value.ownerId == u.id);
    ProductWithCategoryAndUser(product.id, product.name, product.categoryId, product.category, found)
  }

  /** The product a row was built from. */
  function Strip(row: ProductWithCategoryAndUser): (p: Product)
  {
    Product(row.id, row.name, row.categoryId)
  }

  /** Both joins over the whole product collection, in its order. */
  function Enrich(products: seq<Product>, categories: seq<Category>, users: seq<User>)
    : (r: seq<ProductWithCategoryAndUser>)
    ensures |r| == |products|
    ensures forall i :: 0 <= i < |r| ==> Strip(r[i]) == products[i]
  {
    var withCategories := seq(|products|, i requires 0 <= i < |products| => AttachCategory(categories, products[i]));
    seq(|withCategories|, i requires 0 <= i < |withCategories| => AttachUser(users, withCategories[i]))
  }

  /** Row i of the join resolves the first matching category and, through it,
      the first matching owner; a missing category means a missing owner. */
  lemma EnrichRow(products: seq<Product>, categories: seq<Category>, users: seq<User>, i: int)
    requires 0 <= i < |products|
    ensures var row := Enrich(products, categories, users)[i];
      && (row.category.None? <==> forall j :: 0 <= j < |categories| ==> categories[j].id != products[i].categoryId)
      && (row.category.Some? ==>
            exists j :: IsFirstCategory(categories, products[i].categoryId, j) && categories[j] == row.category.value)
      && (row.category.None? ==> row.user.None?)
      && (row.category.Some? ==>
            (row.user.None? <==> forall j :: 0 <= j < |users| ==> users[j].id != row.category.value.ownerId))
      && (row.category.Some? && row.user.Some? ==>
            exists j :: IsFirstUser(users, row.category.value.ownerId, j) && users[j] == row.user.value)
  {
    var row := Enrich(products, categories, users)[i];
    assert row == AttachUser(users, AttachCategory(categories, products[i]));
  }
}
