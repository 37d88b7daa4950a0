/**
 The rows the catalog shows, recomputed on every render from the view
 state: first the user filter, then the case-insensitive search on the
 product name. Both steps are order-preserving filters.
 */
module View {
  import opened Types
  import Seqs
  import Text

  /** The user-filter value that selects every row. */
  const All: string := "All"

  /** The user-filter predicate: every row under "All", otherwise the rows
      whose resolved owner has exactly the selected name. */
  function UserKeeps(selected: string, row: ProductWithCategoryAndUser): (r: bool)
    ensures selected == All ==> r
    ensures selected != All ==> (r <==> row.user.Some? && row.user.value.name == selected)
    ensures selected != All && row.user.None? ==> !r
  {
    selected == All || (row.user.Some? && row.user.value.name == selected)
  }

  /** The search predicate: the lowercased product name contains the
      lowercased query. */
  function TitleMatches(name: string, query: string): (r: bool)
    ensures r <==> Text.Contains(Text.Lower(name), Text.Lower(query))
  {
    Text.Includes(Text.Lower(name), Text.Lower(query))
  }

  /** First step of the derivation. */
  function FilterByUser(rows: seq<ProductWithCategoryAndUser>, selected: string)
    : (r: seq<ProductWithCategoryAndUser>)
    ensures |r| <= |rows|
    ensures forall k :: 0 <= k < |r| ==> UserKeeps(selected, r[k])
  {
    Seqs.Filter(rows, (row: ProductWithCategoryAndUser) => UserKeeps(selected, row))
  }

  /** Second step of the derivation. */
  function SearchProducts(rows: seq<ProductWithCategoryAndUser>, query: string)
    : (r: seq<ProductWithCategoryAndUser>)
    ensures |r| <= |rows|
    ensures forall k :: 0 <= k < |r| ==> TitleMatches(r[k].name, query)
  {
    Seqs.Filter(rows, (row: ProductWithCategoryAndUser) => TitleMatches(row.name, query))
  }

  /** The visible rows for a working list, user filter and query. */
  function Visible(rows: seq<ProductWithCategoryAndUser>, selected: string, query: string)
    : (r: seq<ProductWithCategoryAndUser>)
    ensures |r| <= |rows|
    ensures forall k :: 0 <= k < |r| ==> UserKeeps(selected, r[k]) && TitleMatches(r[k].name, query)
  {
    Seqs.FilterTakesFromInput(FilterByUser(rows, selected),
                              (row: ProductWithCategoryAndUser) => TitleMatches(row.name, query));
    SearchProducts(FilterByUser(rows, selected), query)
  }

  /** With the "All" filter the user step returns the working list unchanged. */
  lemma FilterByAllIsIdentity(rows: seq<ProductWithCategoryAndUser>)
    ensures FilterByUser(rows, All) == rows
  {
    Seqs.FilterAllKept(rows, (row: ProductWithCategoryAndUser) => UserKeeps(All, row));
  }

  /** With any other filter the user step keeps exactly the rows whose owner
      is present and has that name, in their original order; rows without an
      owner are dropped. */
  lemma FilterByUserSelectsOwners(rows: seq<ProductWithCategoryAndUser>, selected: string)
    requires selected != All
    ensures Seqs.SelectsExactly(FilterByUser(rows, selected), rows,
                                (row: ProductWithCategoryAndUser) => row.user.Some? && row.user.value.name == selected)
  {
    var p := (row: ProductWithCategoryAndUser) => UserKeeps(selected, row);
    var q := (row: ProductWithCategoryAndUser) => row.user.Some? && row.user.value.name == selected;
    Seqs.FilterCongruent(rows, p, q);
    Seqs.FilterSelectsExactly(rows, q);
  }

  /** The search keeps exactly the rows whose lowercased name contains the
      lowercased query, in their original order. */
  lemma SearchSelectsMatches(rows: seq<ProductWithCategoryAndUser>, query: string)
    ensures Seqs.SelectsExactly(SearchProducts(rows, query), rows,
                                (row: ProductWithCategoryAndUser) => Text.Contains(Text.Lower(row.name), Text.Lower(query)))
  {
    var p := (row: ProductWithCategoryAndUser) => TitleMatches(row.name, query);
    var q := (row: ProductWithCategoryAndUser) => Text.Contains(Text.Lower(row.name), Text.Lower(query));
    Seqs.FilterCongruent(rows, p, q);
    Seqs.FilterSelectsExactly(rows, q);
  }

  /** The empty query keeps every row. */
  lemma EmptyQueryKeepsAll(rows: seq<ProductWithCategoryAndUser>)
    ensures SearchProducts(rows, "") == rows
  {
    forall i | 0 <= i < |rows|
      ensures TitleMatches(rows[i].name, "")
    {
      assert Text.Lower("") == "";
      Text.EmptyIsEverywhere(Text.Lower(rows[i].name));
    }
    Seqs.FilterAllKept(rows, (row: ProductWithCategoryAndUser) => TitleMatches(row.name, ""));
  }

  /** The search does not depend on letter case in the name or the query. */
  lemma SearchIgnoresCase(name: string, name': string, query: string, query': string)
    requires Text.SameIgnoringCase(name, name')
    requires Text.SameIgnoringCase(query, query')
    ensures TitleMatches(name, query) == TitleMatches(name', query')
  {
    Text.LowerIgnoresCase(name, name');
    Text.LowerIgnoresCase(query, query');
  }

  /** The two sequential filters select exactly the rows that pass both
      predicates, in their original order: the visible list is always an
      order-preserving subsequence of the working list. */
  lemma VisibleSelectsExactly(rows: seq<ProductWithCategoryAndUser>, selected: string, query: string)
    ensures Seqs.SelectsExactly(Visible(rows, selected, query), rows,
                                (row: ProductWithCategoryAndUser) => UserKeeps(selected, row) && TitleMatches(row.name, query))
    ensures Seqs.IsSubsequence(Visible(rows, selected, query), rows)
  {
    var p := (row: ProductWithCategoryAndUser) => UserKeeps(selected, row);
    var q := (row: ProductWithCategoryAndUser) => TitleMatches(row.name, query);
    var pq := (row: ProductWithCategoryAndUser) => UserKeeps(selected, row) && TitleMatches(row.name, query);
    Seqs.FilterThenFilter(rows, p, q, pq);
    Seqs.FilterSelectsExactly(rows, pq);
  }

  /** The order of the two steps does not matter. */
  lemma StepsCommute(rows: seq<ProductWithCategoryAndUser>, selected: string, query: string)
    ensures Visible(rows, selected, query) == FilterByUser(SearchProducts(rows, query), selected)
  {
    var p := (row: ProductWithCategoryAndUser) => UserKeeps(selected, row);
    var q := (row: ProductWithCategoryAndUser) => TitleMatches(row.name, query);
    var pq := (row: ProductWithCategoryAndUser) => UserKeeps(selected, row) && TitleMatches(row.name, query);
    Seqs.FilterThenFilter(rows, p, q, pq);
    Seqs.FilterThenFilter(rows, q, p, pq);
  }
}
