/**
 The catalog component's state and its transitions. The state is the
 selected user name, the search query and the working product list; each
 event handler of the page replaces some of these fields.
 */
module CatalogState {
  import opened Types
  import Seqs
  import View

  type Row = ProductWithCategoryAndUser

  datatype ViewState = ViewState(selectedUser: string, query: string, products: seq<Row>)

  /** The state the component starts in, over the full enriched list. */
  function Initial(full: seq<Row>): (r: ViewState)
    ensures r.selectedUser == View.All && r.query == "" && r.products == full
  {
    ViewState(View.All, "", full)
  }

  /** Choose a user filter; the "All" link chooses View.All. */
  function SelectUser(st: ViewState, name: string): (r: ViewState)
    ensures r.selectedUser == name
    ensures r.query == st.query && r.products == st.products
  {
    st.(selectedUser := name)
  }

  /** Replace the query with the text typed into the search field. */
  function SetQuery(st: ViewState, text: string): (r: ViewState)
    ensures r.query == text
    ensures r.selectedUser == st.selectedUser && r.products == st.products
  {
    st.(query := text)
  }

  /** The clear button empties the query and nothing else. */
  function ClearQuery(st: ViewState): (r: ViewState)
    ensures r.query == ""
    ensures r.selectedUser == st.selectedUser && r.products == st.products
  {
    st.(query := "")
  }

  /** "Reset all filters": back to the initial state, whatever the prior one. */
  function ResetAll(st: ViewState, full: seq<Row>): (r: ViewState)
    ensures r.selectedUser == View.All && r.query == "" && r.products == full
    ensures r == Initial(full)
  {
    ViewState(View.All, "", full)
  }

  /** The rows the table shows in a state. */
  function Rows(st: ViewState): (r: seq<Row>)
    ensures |r| <= |st.products|
    ensures forall k :: 0 <= k < |r| ==>
              View.UserKeeps(st.selectedUser, r[k]) && View.TitleMatches(r[k].name, st.query)
  {
    View.Visible(st.products, st.selectedUser, st.query)
  }

  /** The page's event handlers. */
  datatype Event =
    | ClickAllUsers
    | ClickUser(name: string)
    | TypeInSearch(text: string)
    | ClickClear
    | ClickResetAll

  /** The handler of one event: which field it sets, and that only a reset
      touches the working list, replacing it by the full list. */
  function Step(st: ViewState, e: Event, full: seq<Row>): (r: ViewState)
    ensures e.ClickAllUsers? ==> r.selectedUser == View.All && r.query == st.query
    ensures e.ClickUser? ==> r.selectedUser == e.name && r.query == st.query
    ensures e.TypeInSearch? ==> r.selectedUser == st.selectedUser && r.query == e.text
    ensures e.ClickClear? ==> r.selectedUser == st.selectedUser && r.query == ""
    ensures e.ClickResetAll? ==> r == Initial(full)
    ensures r.products == (if e.ClickResetAll? then full else st.products)
  {
    match e
    case ClickAllUsers => SelectUser(st, View.All)
    case ClickUser(name) => SelectUser(st, name)
    case TypeInSearch(text) => SetQuery(st, text)
    case ClickClear => ClearQuery(st)
    case ClickResetAll => ResetAll(st, full)
  }

  /** The state after handling a sequence of events in order. */
  function Run(st: ViewState, events: seq<Event>, full: seq<Row>): (r: ViewState)
    ensures r.products == (if exists i :: 0 <= i < |events| && events[i].ClickResetAll? then full else st.products)
    decreases |events|
  {
    if |events| == 0 then st
    else
      var rest := events[1..];
      assert (exists i :: 0 <= i < |events| && events[i].ClickResetAll?) <==>
             events[0].ClickResetAll? || exists i :: 0 <= i < |rest| && rest[i].ClickResetAll? by {
        if exists i :: 0 <= i < |events| && events[i].ClickResetAll? {
          var i :| 0 <= i < |events| && events[i].ClickResetAll?;
          if i > 0 {
            assert rest[i - 1] == events[i];
          }
        }
        if exists i :: 0 <= i < |rest| && rest[i].ClickResetAll? {
          var i :| 0 <= i < |rest| && rest[i].ClickResetAll?;
          assert events[i + 1] == rest[i];
        }
      }
      Run(Step(st, events[0], full), rest, full)
  }

  /** Resetting twice is the same as resetting once. */
  lemma ResetAllIdempotent(st: ViewState, full: seq<Row>)
    ensures ResetAll(ResetAll(st, full), full) == ResetAll(st, full)
  {
  }

  /** After a reset every row of the full list is shown, in its order. */
  lemma ResetShowsEverything(st: ViewState, full: seq<Row>)
    ensures Rows(ResetAll(st, full)) == full
  {
    View.FilterByAllIsIdentity(full);
    View.EmptyQueryKeepsAll(full);
  }

  /** Clearing the query shows exactly the rows the user filter lets through. */
  lemma ClearShowsUserRows(st: ViewState)
    ensures Rows(ClearQuery(st)) == View.FilterByUser(st.products, st.selectedUser)
  {
    View.EmptyQueryKeepsAll(View.FilterByUser(st.products, st.selectedUser));
  }

  /** Clearing undoes whatever was typed. */
  lemma ClearUndoesTyping(st: ViewState, text: string)
    ensures ClearQuery(SetQuery(st, text)) == ClearQuery(st)
  {
  }

  /** No event replaces the working list by anything but the full list, so a
      session that starts from the full list keeps it. */
  lemma WorkingListIsAlwaysFull(st: ViewState, events: seq<Event>, full: seq<Row>)
    requires st.products == full
    ensures Run(st, events, full).products == full
  {
  }

  /** In every state reachable from the initial one, the table shows an
      order-preserving subsequence of the full enriched list. */
  lemma ShownRowsComeFromFullList(events: seq<Event>, full: seq<Row>)
    ensures Seqs.IsSubsequence(Rows(Run(Initial(full), events, full)), full)
  {
    var st := Run(Initial(full), events, full);
    WorkingListIsAlwaysFull(Initial(full), events, full);
    View.VisibleSelectsExactly(st.products, st.selectedUser, st.query);
  }
}
