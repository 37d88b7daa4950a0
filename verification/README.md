# Product catalog: join, filter and search

A Dafny model of the logic inside the product-catalog page of a small React
application. The page holds three static collections: users, categories and
products. When the module loads, it joins each product with its category and
with that category's owner. It then shows the joined rows in a table that can
be narrowed in two ways: by owner name (or "All"), and by a case-insensitive
substring search on the product name.

The model has these modules:

- `Wrappers`: `Option`, which stands for JavaScript's `undefined`.
- `Seqs`: `Find` and `Filter`, the two array operations the page is built from.
  `Filter` is characterised independently of its definition, by an index
  embedding (`SelectsExactly`). That characterisation is proved in both
  directions: `Filter` satisfies it, and nothing else does.
- `Text`: ASCII lowercasing, plus `Includes`, which is proved equivalent to a
  declarative "occurs at some position" definition (`Contains`).
- `Types`: users, categories, products, and the two joined record shapes.
- `Enrichment`: the two joins. Each join takes the first match, and a failed
  lookup leaves the field absent.
- `View`: the user filter, the search, and the visible rows.
- `CatalogState`: the three-field view state, the operations that change it
  (select user, set query, clear query, reset all), and a run over a
  sequence of page events.
- `Display`: the user-cell colour classes, the clear button, and the choice
  between the table and the "no matching products" message.

The source collections come from modules that are not part of this model.
They are therefore parameters (`seq<Product>`, `seq<Category>`, `seq<User>`),
and the enriched list that the page computes once is the parameter `full`.

A consequence of the code as written: the user filter treats the value
`"All"` as "everything" before it compares names. A user whose name is
literally `All` therefore selects every row, not only that user's rows
(`View.UserKeeps`, `View.FilterByAllIsIdentity`).

## Model

| member | source | states |
|---|---|---|
| Seqs.Find | src/App.tsx:14 | `find` returns None exactly when no element satisfies the predicate; otherwise it returns the element at the first position that does |
| Seqs.Filter | src/App.tsx:26-39 | `filter` returns no more elements than it was given, and every element it returns satisfies the predicate |
| Seqs.FilterSelectsExactly | src/App.tsx:26-39 | `filter` reads exactly the positions whose element satisfies the predicate, in increasing order; its result is an order-preserving subsequence of its input |
| Seqs.SelectsExactlyIsFilter | src/App.tsx:26-39 | any sequence made of exactly the satisfying positions, read in order, equals `filter`'s result, so the characterisation determines the result |
| Seqs.FilterThenFilter | src/App.tsx:26-39 | two sequential filters equal one filter by the conjunction of their predicates |
| Text.Lower | src/App.tsx:35-36 | lowercasing keeps the length and maps each character on its own, ASCII capitals to small letters |
| Text.LowerProperties | src/App.tsx:35-36 | lowercasing keeps the length, leaves no capital letter, does not change an already-lowercase string, and is idempotent |
| Text.LowerIgnoresCase | src/App.tsx:35-36 | two strings that differ only in letter case lowercase to the same string |
| Text.Includes | src/App.tsx:35-36 | `includes` is true exactly when the needle occurs as a contiguous block at some position of the haystack |
| Enrichment.AttachCategory | src/App.tsx:12-15 | keeps the product's id, name and categoryId; the category is None exactly when no category has that id, and otherwise it is the first category with that id |
| Enrichment.AttachUser | src/App.tsx:17-20 | keeps the other fields; with no category the user is None; with a category the user is None exactly when no user has the owner's id, and otherwise it is the first user with that id |
| Enrichment.Enrich | src/App.tsx:12-20 | the join has one row per product, in product order, and each row restricted to the product's fields is that product |
| Enrichment.EnrichRow | src/App.tsx:12-20 | each row of the full join resolves the first matching category and, through its ownerId, the first matching user; a missing category implies a missing user |
| View.UserKeeps | src/App.tsx:26-32 | with the filter "All" every row passes; with any other value a row passes exactly when its user is present and has that exact name, so rows without a user fail |
| View.TitleMatches | src/App.tsx:34-39 | a row passes the search exactly when its lowercased name contains the lowercased query |
| View.FilterByUser | src/App.tsx:26-32 | the user step never adds rows, and each row it keeps passes the user predicate |
| View.SearchProducts | src/App.tsx:34-39 | the search step never adds rows, and each row it keeps has a name containing the query, ignoring case |
| View.Visible | src/App.tsx:26-39 | each visible row passes both the user filter and the search |
| View.FilterByAllIsIdentity | src/App.tsx:26-29 | with the filter "All", the user step returns the working list unchanged |
| View.FilterByUserSelectsOwners | src/App.tsx:30-32 | with any other filter value, the user step keeps exactly the rows whose user is present and has exactly that name, in their original order |
| View.SearchSelectsMatches | src/App.tsx:34-39 | the search keeps exactly the rows whose lowercased name contains the lowercased query, in their original order |
| View.EmptyQueryKeepsAll | src/App.tsx:35-36 | the empty query keeps every row |
| View.SearchIgnoresCase | src/App.tsx:35-36 | changing the letter case of the name or of the query does not change whether the row matches |
| View.VisibleSelectsExactly | src/App.tsx:26-39 | the visible rows are exactly the working-list rows that pass both predicates, in their original order, and form a subsequence of the working list |
| View.StepsCommute | src/App.tsx:26-39 | running the search before the user filter gives the same visible rows |
| CatalogState.Initial | src/App.tsx:23-25 | the page starts with filter "All", an empty query and the full enriched list |
| CatalogState.SelectUser | src/App.tsx:63-75 | choosing a user, or "All", sets only the filter; the query and the working list are unchanged |
| CatalogState.SetQuery | src/App.tsx:90-92 | typing sets only the query |
| CatalogState.ClearQuery | src/App.tsx:106 | the clear button sets the query to the empty string and changes nothing else |
| CatalogState.ResetAll | src/App.tsx:41-45 | reset yields filter "All", an empty query and the full list, whatever the prior state |
| CatalogState.Rows | src/App.tsx:26-39 | the rows shown for a state are no more than its working list, and each passes the state's user filter and search |
| CatalogState.Step | src/App.tsx:63-140 | the "All" link and a user link set only the filter; typing and the clear button set only the query; the reset button restores the initial state; only the reset changes the working list, and only to the full list |
| CatalogState.Run | src/App.tsx:23-140 | after a sequence of events, the working list is the full list if some event was a reset, and the starting list otherwise |
| CatalogState.ResetAllIdempotent | src/App.tsx:41-45 | resetting twice is the same as resetting once |
| CatalogState.ResetShowsEverything | src/App.tsx:41-45 | after a reset, the visible rows are the full enriched list in its order |
| CatalogState.ClearShowsUserRows | src/App.tsx:106 | after a clear, the visible rows are exactly the rows that the user filter lets through |
| CatalogState.ClearUndoesTyping | src/App.tsx:106 | clearing after typing gives the same state as clearing without typing |
| CatalogState.WorkingListIsAlwaysFull | src/App.tsx:23-45 | no sequence of page events replaces the working list with anything other than the full list |
| CatalogState.ShownRowsComeFromFullList | src/App.tsx:23-45 | in every state reachable from the initial one, the shown rows are an order-preserving subsequence of the full enriched list |
| Display.UserCellClasses | src/App.tsx:223-226 | the user cell has `has-text-link` exactly when the user is present with sex "m", and `has-text-danger` exactly when the sex is "f"; it never has both, and has no other class |
| Display.ShowClearButton | src/App.tsx:99 | the clear button is shown exactly when the query is non-empty |
| Display.ExactlyOneShown | src/App.tsx:150-235 | the table condition (some row is visible) and the no-match message condition (no row is visible) are complementary, so exactly one of the two is rendered |
| Display.ClearButtonFollowsQuery | src/App.tsx:99-106 | the clear button is hidden after a clear or a reset, and shown after typing exactly when the typed text is non-empty |
| Display.TableIffSomeRowPasses | src/App.tsx:150-239 | the table appears exactly when some row of the working list passes both the user filter and the search |
| Display.UnmatchedQueryShowsMessage | src/App.tsx:235-238 | a query that occurs in no product name, in any letter case, shows the no-match message |
| Display.MilkExample | src/App.tsx:12-20 | the single product Milk, in the only category Dairy, owned by the only user Anna with sex "f", resolves both relations, and its user cell has exactly the danger class |

## Left out

- JSX markup, the `classNames` helper's string assembly, the stylesheet and the `useState` hook mechanics. State is a plain record with pure transition functions.
- The `./api/*` modules that supply users, products and categories are not part of this model. Their contents are parameters.
- Category links (src/App.tsx:114-132) and sort icons (src/App.tsx:161-200): they have no handlers, so no category filtering or sort order is modelled.
- The `is-active` highlight of the filter links (src/App.tsx:60-62, 72-74): a class name only, with no effect on the rows.
- The text of the category cell (src/App.tsx:219). With a missing category, JavaScript prints `undefined` into it. This is rendering detail.
- Text.Lower: lowercasing is ASCII-only (`A`-`Z` to `a`-`z`). The full Unicode `toLowerCase` mapping is not modelled, and the search properties are stated relative to ASCII lowercasing. Text.LowerProperties and Text.LowerIgnoresCase inherit this restriction.
- Display.ShowClearButton: JavaScript's `length` counts UTF-16 code units, while the model counts characters. The two agree on whether the query is empty, which is all the page uses.
- Enrichment.AttachUser: ids are integers. A user record without an `id` would compare `undefined === undefined` against a product that has no category, and so would match. The record types do not allow that, and the model does not represent it.
