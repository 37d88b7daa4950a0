/**
 The rendering decisions that depend on data: the colour class of the user
 cell, whether the search field's clear button appears, and whether the
 table or the "no matching products" message is shown.
 */
module Display {
  import opened Wrappers
  import opened Types
  import Seqs
  import Text
  import View
  import Enrichment
  import opened CatalogState

  const LinkClass: string := "has-text-link"
  const DangerClass: string := "has-text-danger"

  /** The classes of the user cell: one colour for "m", another for "f",
      none when the sex is anything else or the owner is missing. */
  function UserCellClasses(row: Row): (r: set<string>)
    ensures LinkClass in r <==> row.user.Some? && row.user.value.sex == "m"
    ensures DangerClass in r <==> row.user.Some? && row.user.value.sex == "f"
    ensures r <= {LinkClass, DangerClass}
    ensures |r| <= 1
  {
    var sex := if row.user.Some? then Some(row.user.value.sex) else None;
    (if sex == Some("m") then {LinkClass} else {}) + (if sex == Some("f") then {DangerClass} else {})
  }

  /** The clear button is rendered while the query is non-empty. */
  function ShowClearButton(st: ViewState): (r: bool)
    ensures r <==> st.query != ""
  {
    |st.query| > 0
  }

  /** The product table is rendered when the visible list is non-empty. */
  predicate ShowTable(visible: seq<Row>)
  {
    |visible| != 0
  }

  /** The "no matching products" message is rendered when it is empty. */
  predicate ShowNoMatchMessage(visible: seq<Row>)
  {
    |visible| == 0
  }

  /** The two conditions are complementary: for every visible list exactly
      one of the table and the message is rendered. */
  lemma ExactlyOneShown(visible: seq<Row>)
    ensures ShowTable(visible) <==> !ShowNoMatchMessage(visible)
    ensures ShowTable(visible) <==> visible != []
  {
  }

  /** The clear button disappears after a clear or a reset and appears as
      soon as something is typed. */
  lemma ClearButtonFollowsQuery(st: ViewState, text: string, full: seq<Row>)
    ensures !ShowClearButton(ClearQuery(st))
    ensures !ShowClearButton(ResetAll(st, full))
    ensures ShowClearButton(SetQuery(st, text)) <==> |text| > 0
  {
  }

  /** The table appears exactly when some row of the working list passes
      both the user filter and the search; otherwise the message appears. */
  lemma TableIffSomeRowPasses(st: ViewState)
    ensures ShowTable(Rows(st)) <==>
              exists i :: 0 <= i < |st.products| && View.UserKeeps(st.selectedUser, st.products[i])
                                                 && View.TitleMatches(st.products[i].name, st.query)
  {
    var rows := st.products;
    var pq := (row: Row) => View.UserKeeps(st.selectedUser, row) && View.TitleMatches(row.name, st.query);
    View.VisibleSelectsExactly(rows, st.selectedUser, st.query);
    var idx :| Seqs.ExactPositions(Rows(st), rows, pq, idx);
    if |Rows(st)| != 0 {
      assert pq(rows[idx[0]]);
    }
    if exists i :: 0 <= i < |rows| && pq(rows[i]) {
      var i :| 0 <= i < |rows| && pq(rows[i]);
      assert i in idx;
    }
  }

  /** A query that occurs in no product name, in any letter case, shows the
      message and no table. */
  lemma UnmatchedQueryShowsMessage(st: ViewState)
    requires forall i :: 0 <= i < |st.products| ==>
               !Text.Contains(Text.Lower(st.products[i].name), Text.Lower(st.query))
    ensures ShowNoMatchMessage(Rows(st)) && !ShowTable(Rows(st))
  {
    TableIffSomeRowPasses(st);
  }

  /** One product in a dairy category owned by a female user: the row
      resolves both relations and the user cell takes the danger colour. */
  lemma MilkExample()
    ensures var rows := Enrichment.Enrich([Product(1, "Milk", 1)],
                                          [Category(1, "Dairy", "\U{1F34E}", 2)],
                                          [User(2, "Anna", "f", "anna@example.com")]);
      && |rows| == 1
      && rows[0].category == Some(Category(1, "Dairy", "\U{1F34E}", 2))
      && rows[0].user == Some(User(2, "Anna", "f", "anna@example.com"))
      && UserCellClasses(rows[0]) == {DangerClass}
  {
    var categories := [Category(1, "Dairy", "\U{1F34E}", 2)];
    var users := [User(2, "Anna", "f", "anna@example.com")];
    var rows := Enrichment.Enrich([Product(1, "Milk", 1)], categories, users);
    Enrichment.EnrichRow([Product(1, "Milk", 1)], categories, users, 0);
  }
}
