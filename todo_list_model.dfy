/**
 * Values and pure behaviour of the "Todo list" content operation: the state it
 * keeps, the action contexts it receives, the view model it builds, and one
 * function per handler giving the handler's verdict and the next state.
 * The class in todo_list_operation.dfy updates its fields as these functions say.
 */
module TodoListModel {
  import opened Wrappers
  import opened Text

  /** A namespaced identifier (`HUBIdentifier`); two are equal when both parts are. */
  datatype Identifier = Identifier(namespace: string, name: string)

  /**
   * The action identifiers the todo list compares against. The namespace and the
   * name of the "add completed" action are constants defined outside this model,
   * so they are parameters here.
   */
  datatype ActionIdentifiers = ActionIdentifiers(namespace: string, addCompletedName: string) {
    function Add(): Identifier { Identifier(namespace, addCompletedName) }
    function Filter(): Identifier { Identifier(namespace, "filter") }
    function Mark(): Identifier { Identifier(namespace, "mark") }
  }

  /**
   * What a handler reads from an action context. `itemTitle` and `searchText`
   * are the custom-data values under the add action's title key and the search
   * bar's text key; each is None when there is no custom data, no such key, or
   * a value that is not a string. `componentIndex` is the index of the
   * component model that fired the action, None when there is none.
   */
  datatype ActionContext = ActionContext(
    customActionIdentifier: Option<Identifier>,
    itemTitle: Option<string>,
    searchText: Option<string>,
    componentIndex: Option<nat>)

  /**
   * A handler's verdict: Declined is `false`, Consumed is `true`, and Trapped is
   * the run-time trap of the unsigned subtraction `index - 1` when index is 0.
   */
  datatype Handling = Declined | Consumed | Trapped

  /** The operation's fields: item titles, marked indices, filter, pending transition duration. */
  datatype State = State(items: seq<string>, marked: set<nat>, filter: Option<string>, transitionDuration: int)

  datatype Step = Step(handling: Handling, state: State)

  /** The right bar button items: a single "add", or "done" followed by "trash". */
  datatype NavigationButtons = AddButton | DoneAndTrashButtons

  datatype SearchBar = SearchBar(identifier: string, placeholder: string, actionIdentifier: Identifier, actionDelay: int)

  /** One item row: component identifier, title, `marked` custom data, and the action it fires. */
  datatype Row = Row(identifier: string, title: string, marked: bool, actionIdentifier: Identifier)

  datatype ViewModel = ViewModel(
    buttons: NavigationButtons,
    searchBar: Option<SearchBar>,
    rows: seq<Row>,
    transitionDuration: int)

  const SearchBarIdentifier := "searchBar"
  const SearchBarPlaceholder := "Filter your todo items"

  // ---------------------------------------------------------------- filter

  /** A stored filter is absent, or a non-empty lower-case text. */
  predicate ValidFilter(filter: Option<string>) {
    filter.Some? ==> filter.value != "" && Lowercased(filter.value) == filter.value
  }

  /** The filter stored for the text typed into the search bar. */
  function FilterFromText(text: Option<string>): (f: Option<string>)
    ensures ValidFilter(f)
    ensures f == None <==> text == None || text == Some("")
    ensures f.Some? ==> f.value == Lowercased(text.value)
  {
    match text
    case None => None
    case Some(t) =>
      if t == "" then None
      else
        LowercasedIdempotent(t);
        Some(Lowercased(t))
  }

  /** An item is listed when there is no filter or its lower-cased title contains the filter. */
  predicate Shown(item: string, filter: Option<string>) {
    filter.None? || Contains(Lowercased(item), filter.value)
  }

  // ---------------------------------------------------------------- index selection

  /** The indices below `n` that satisfy `keep`, in ascending order. */
  function Select(n: nat, keep: nat -> bool): (r: seq<nat>)
    ensures |r| <= n
    ensures forall j :: 0 <= j < |r| ==> r[j] < n
  {
    if n == 0 then [] else Select(n - 1, keep) + (if keep(n - 1) then [n - 1] else [])
  }

  predicate StrictlyAscending(s: seq<nat>) {
    forall j, k :: 0 <= j < k < |s| ==> s[j] < s[k]
  }

  lemma {:induction false} SelectAscending(n: nat, keep: nat -> bool)
    ensures StrictlyAscending(Select(n, keep))
  {
    if n > 0 {
      SelectAscending(n - 1, keep);
      var prev, r := Select(n - 1, keep), Select(n, keep);
      assert r == prev + (if keep(n - 1) then [n - 1] else []);
      forall j, k | 0 <= j < k < |r|
        ensures r[j] < r[k]
      {
        assert r[j] == prev[j] < n - 1;
        if k == |prev| {
          assert r[k] == n - 1;
        } else {
          assert r[k] == prev[k];
          assert StrictlyAscending(prev);
        }
      }
    }
  }

  lemma {:induction false} SelectMembers(n: nat, keep: nat -> bool)
    ensures forall i: nat :: i in Select(n, keep) <==> i < n && keep(i)
  {
    if n > 0 {
      SelectMembers(n - 1, keep);
    }
  }

  /** When every index below `n` is kept, the selection is 0, 1, ..., n - 1. */
  lemma {:induction false} SelectEverything(n: nat, keep: nat -> bool)
    requires forall i: nat :: i < n ==> keep(i)
    ensures var r := Select(n, keep); |r| == n && forall j :: 0 <= j < n ==> r[j] == j
  {
    if n > 0 {
      SelectEverything(n - 1, keep);
    }
  }

  // ---------------------------------------------------------------- rows

  function ShownIndex(items: seq<string>, filter: Option<string>): nat -> bool {
    (i: nat) => i < |items| && Shown(items[i], filter)
  }

  /** The positions of the listed items, in ascending order. */
  function ShownIndices(items: seq<string>, filter: Option<string>): seq<nat> {
    Select(|items|, ShownIndex(items, filter))
  }

  /** The component identifier `"item-\(index)"`. */
  function ItemIdentifier(index: nat): (r: string)
    ensures |r| > 5 && r[..5] == "item-"
  {
    "item-" + Decimal(index)
  }

  function ItemRow(items: seq<string>, marked: set<nat>, index: nat, actions: ActionIdentifiers): Row
    requires index < |items|
  {
    Row(ItemIdentifier(index), items[index], index in marked, actions.Mark())
  }

  function RowsAt(items: seq<string>, marked: set<nat>, indices: seq<nat>, actions: ActionIdentifiers): seq<Row>
    requires forall j :: 0 <= j < |indices| ==> indices[j] < |items|
  {
    seq(|indices|, j requires 0 <= j < |indices| => ItemRow(items, marked, indices[j], actions))
  }

  function VisibleRows(items: seq<string>, marked: set<nat>, filter: Option<string>, actions: ActionIdentifiers): seq<Row> {
    RowsAt(items, marked, ShownIndices(items, filter), actions)
  }

  /** The view model the operation builds from state `s`. */
  function Render(s: State, actions: ActionIdentifiers): (vm: ViewModel)
    ensures |vm.rows| <= |s.items|
    ensures vm.rows != [] ==> vm.searchBar.Some?
    ensures forall j :: 0 <= j < |vm.rows| ==> vm.rows[j].actionIdentifier == actions.Mark()
  {
    ViewModel(
      if s.marked == {} then AddButton else DoneAndTrashButtons,
      if s.items != [] then Some(SearchBar(SearchBarIdentifier, SearchBarPlaceholder, actions.Filter(), 0)) else None,
      VisibleRows(s.items, s.marked, s.filter, actions),
      s.transitionDuration)
  }

  /**
   * Search bar iff there is an item; a lone "add" button iff nothing is marked;
   * the pending transition duration is handed over as it is.
   */
  lemma RenderChrome(s: State, actions: ActionIdentifiers)
    ensures var vm := Render(s, actions);
      && (vm.searchBar.Some? <==> s.items != [])
      && (vm.buttons == AddButton <==> s.marked == {})
      && (vm.buttons == DoneAndTrashButtons <==> s.marked != {})
      && vm.transitionDuration == s.transitionDuration
  {
  }

  /**
   * The rows are those of the listed items in ascending item order: row `j`
   * shows item `indices[j]`, with identifier `item-<index>`, the item's title
   * and whether its index is marked.
   */
  lemma RowsFollowItems(s: State, actions: ActionIdentifiers)
    ensures var rows, indices := Render(s, actions).rows, ShownIndices(s.items, s.filter);
      && |rows| == |indices| <= |s.items|
      && StrictlyAscending(indices)
      && (forall i: nat :: i in indices <==> i < |s.items| && Shown(s.items[i], s.filter))
      && (forall j :: 0 <= j < |rows| ==>
            && rows[j].identifier == ItemIdentifier(indices[j])
            && rows[j].title == s.items[indices[j]]
            && (rows[j].marked <==> indices[j] in s.marked)
            && rows[j].actionIdentifier == actions.Mark())
  {
    SelectAscending(|s.items|, ShownIndex(s.items, s.filter));
    SelectMembers(|s.items|, ShownIndex(s.items, s.filter));
  }

  /** Item `i` has a row exactly when it passes the filter. */
  lemma RowsExactlyShownItems(s: State, actions: ActionIdentifiers)
    ensures forall i :: 0 <= i < |s.items| ==>
      (ItemRow(s.items, s.marked, i, actions) in Render(s, actions).rows <==> Shown(s.items[i], s.filter))
  {
    var rows, indices := Render(s, actions).rows, ShownIndices(s.items, s.filter);
    SelectMembers(|s.items|, ShownIndex(s.items, s.filter));
    forall i | 0 <= i < |s.items|
      ensures ItemRow(s.items, s.marked, i, actions) in rows <==> Shown(s.items[i], s.filter)
    {
      var row := ItemRow(s.items, s.marked, i, actions);
      if Shown(s.items[i], s.filter) {
        assert i in indices;
        var j :| 0 <= j < |indices| && indices[j] == i;
        assert rows[j] == row;
      }
      if row in rows {
        var j :| 0 <= j < |rows| && rows[j] == row;
        PrefixedInjective("item-", indices[j], i);
        assert i in indices;
      }
    }
  }

  /** Without a filter every item has a row, row `i` showing item `i`. */
  lemma UnfilteredRowsShowEveryItem(s: State, actions: ActionIdentifiers)
    requires s.filter == None
    ensures var rows := Render(s, actions).rows;
      |rows| == |s.items| && forall i :: 0 <= i < |rows| ==> rows[i] == ItemRow(s.items, s.marked, i, actions)
    ensures forall j :: 0 <= j < |s.items| ==> ShownIndices(s.items, s.filter)[j] == j
  {
    SelectEverything(|s.items|, ShownIndex(s.items, s.filter));
  }

  // ---------------------------------------------------------------- handlers

  function AddStep(s: State, context: ActionContext, actions: ActionIdentifiers): (r: Step)
    ensures r.handling != Trapped
    ensures |s.items| <= |r.state.items| <= |s.items| + 1 && r.state.items[..|s.items|] == s.items
    ensures r.state == s.(items := r.state.items)
  {
    if context.customActionIdentifier != Some(actions.Add()) then Step(Declined, s)
    else
      match context.itemTitle
      case Some(title) => Step(Consumed, s.(items := s.items + [title]))
      case None => Step(Consumed, s)
  }

  function FilterStep(s: State, context: ActionContext, actions: ActionIdentifiers): (r: Step)
    ensures r.handling != Trapped
    ensures r.state == s.(filter := r.state.filter)
    ensures r.handling == Consumed ==> ValidFilter(r.state.filter)
  {
    if context.customActionIdentifier != Some(actions.Filter()) then Step(Declined, s)
    else Step(Consumed, s.(filter := FilterFromText(context.searchText)))
  }

  /** `index` in, or out of, the set of marked indices, whichever it was not. */
  function Toggle(marked: set<nat>, index: nat): (r: set<nat>)
    ensures index in r <==> index !in marked
    ensures forall j :: j != index ==> (j in r <==> j in marked)
  {
    if index in marked then marked - {index} else marked + {index}
  }

  function MarkStep(s: State, context: ActionContext, actions: ActionIdentifiers): (r: Step)
    ensures r.state == s.(marked := r.state.marked)
    ensures forall i :: (i in r.state.marked) != (i in s.marked) ==>
      r.handling == Consumed && context.componentIndex.Some? && i + 1 == context.componentIndex.value
  {
    if context.customActionIdentifier != Some(actions.Mark()) then Step(Declined, s)
    else
      match context.componentIndex
      case None => Step(Declined, s)
      case Some(index) =>
        if index == 0 then Step(Trapped, s)
        else Step(Consumed, s.(marked := Toggle(s.marked, index - 1)))
  }

  /** The add, filter and mark handlers are tried in that order; the first that does not decline decides. */
  function ActionStep(s: State, context: ActionContext, actions: ActionIdentifiers): (r: Step)
    ensures r.handling != Consumed ==> r.state == s
    ensures r.state.transitionDuration == s.transitionDuration
    ensures ValidFilter(s.filter) ==> ValidFilter(r.state.filter)
  {
    var added := AddStep(s, context, actions);
    if added.handling != Declined then added
    else
      var filtered := FilterStep(s, context, actions);
      if filtered.handling != Declined then filtered
      else MarkStep(s, context, actions)
  }

  function DoneState(s: State): (r: State)
    ensures r.marked == {} && r.items == s.items && r.filter == s.filter
    ensures r.transitionDuration == s.transitionDuration
  {
    s.(marked := {})
  }

  /** The items whose index is not marked, in their original order (the `flatMap` at delete). */
  function WithoutMarked(items: seq<string>, marked: set<nat>): (r: seq<string>)
    ensures |r| <= |items|
    ensures multiset(r) <= multiset(items)
    ensures MarkedBelow(marked, |items|) == {} ==> r == items
  {
    if items == [] then []
    else
      var last := |items| - 1;
      assert items == items[..last] + [items[last]];
      assert MarkedBelow(marked, last) <= MarkedBelow(marked, |items|);
      assert last in marked ==> last in MarkedBelow(marked, |items|);
      WithoutMarked(items[..last], marked) + (if last in marked then [] else [items[last]])
  }

  function DeleteState(s: State): (r: State)
    ensures r.marked == {} && r.transitionDuration == 1 && r.filter == s.filter
    ensures |r.items| <= |s.items| && multiset(r.items) <= multiset(s.items)
  {
    s.(items := WithoutMarked(s.items, s.marked), marked := {}, transitionDuration := 1)
  }

  // ---------------------------------------------------------------- handler properties

  /**
   * An add action is consumed whether or not it carries a title; with a title
   * it appends exactly that title and changes nothing else, without one it
   * changes nothing.
   */
  lemma AddActionAppendsTitle(s: State, context: ActionContext, actions: ActionIdentifiers)
    ensures var step := AddStep(s, context, actions);
      && (step.handling == Consumed <==> context.customActionIdentifier == Some(actions.Add()))
      && (step.handling == Consumed || step.handling == Declined)
      && (step.handling == Consumed && context.itemTitle.Some? ==>
            step.state.items == s.items + [context.itemTitle.value] &&
            step.state.items[|s.items|] == context.itemTitle.value)
      && (step.handling == Declined || context.itemTitle.None? ==> step.state == s)
      && step.state.marked == s.marked && step.state.filter == s.filter
      && step.state.transitionDuration == s.transitionDuration
  {
  }

  /**
   * A filter action is consumed; it clears the filter when the text is missing
   * or empty and otherwise stores the lower-cased text; nothing else changes.
   */
  lemma FilterActionSetsFilter(s: State, context: ActionContext, actions: ActionIdentifiers)
    requires context.customActionIdentifier == Some(actions.Filter())
    ensures var step := FilterStep(s, context, actions);
      && step.handling == Consumed
      && (step.state.filter == None <==> context.searchText == None || context.searchText == Some(""))
      && (step.state.filter.Some? ==> step.state.filter.value == Lowercased(context.searchText.value))
      && ValidFilter(step.state.filter)
      && step.state == s.(filter := step.state.filter)
  {
  }

  /**
   * A mark action without a component index is declined and changes nothing;
   * with index 0 the subtraction traps; otherwise exactly index - 1 changes
   * membership and nothing else changes.
   */
  lemma MarkActionToggles(s: State, context: ActionContext, actions: ActionIdentifiers)
    requires context.customActionIdentifier == Some(actions.Mark())
    ensures var step := MarkStep(s, context, actions);
      && (step.handling == Declined <==> context.componentIndex == None)
      && (step.handling == Trapped <==> context.componentIndex == Some(0))
      && (step.handling != Consumed ==> step.state == s)
      && (step.handling == Consumed ==>
            var i := context.componentIndex.value - 1;
            && (i in step.state.marked <==> i !in s.marked)
            && (forall j :: j != i ==> (j in step.state.marked <==> j in s.marked))
            && step.state == s.(marked := step.state.marked))
  {
  }

  /** Marking twice with the same context restores the marked set. */
  lemma MarkTwiceRestores(s: State, context: ActionContext, actions: ActionIdentifiers)
    requires MarkStep(s, context, actions).handling == Consumed
    ensures var once := MarkStep(s, context, actions).state;
      MarkStep(once, context, actions) == Step(Consumed, s)
  {
    var i := context.componentIndex.value - 1;
    assert Toggle(Toggle(s.marked, i), i) == s.marked;
  }

  /**
   * Dispatch: the first handler whose identifier matches decides; a context
   * that matches none is declined; whatever is not consumed changes no state.
   */
  lemma DispatchFirstMatch(s: State, context: ActionContext, actions: ActionIdentifiers)
    ensures var id, step := context.customActionIdentifier, ActionStep(s, context, actions);
      && (id == Some(actions.Add()) ==> step == AddStep(s, context, actions))
      && (id != Some(actions.Add()) && id == Some(actions.Filter()) ==> step == FilterStep(s, context, actions))
      && (id != Some(actions.Add()) && id != Some(actions.Filter()) ==> step == MarkStep(s, context, actions))
      && (id !in {Some(actions.Add()), Some(actions.Filter()), Some(actions.Mark())} ==> step == Step(Declined, s))
      && (step.handling != Consumed ==> step.state == s)
  {
  }

  /**
   * The index of the body component that shows row `j`. The operation creates
   * the search bar's builder before the rows' builders and sets no preferred
   * index, so the framework builds the search bar first and the rows after it,
   * in order.
   */
  function ComponentIndex(vm: ViewModel, j: nat): (index: nat)
    ensures index >= j
    ensures vm.searchBar.Some? ==> index == j + 1
  {
    j + (if vm.searchBar.Some? then 1 else 0)
  }

  /**
   * Tapping rendered row `j` fires the mark action with that row's component
   * index; unless the add action shares the mark action's name, this toggles
   * index `j`, the row's position, while the row shows item
   * `ShownIndices(...)[j]`. The two agree exactly when no item before the
   * tapped one is hidden by the filter.
   */
  lemma RowTapTogglesMark(s: State, actions: ActionIdentifiers, j: nat, context: ActionContext)
    requires actions.addCompletedName != "mark"
    requires j < |Render(s, actions).rows|
    requires context.customActionIdentifier == Some(Render(s, actions).rows[j].actionIdentifier)
    requires context.componentIndex == Some(ComponentIndex(Render(s, actions), j))
    ensures ActionStep(s, context, actions) == Step(Consumed, s.(marked := Toggle(s.marked, j)))
    ensures var item := ShownIndices(s.items, s.filter)[j];
      && Render(s, actions).rows[j].title == s.items[item]
      && (j == item <==> forall i :: 0 <= i < item ==> Shown(s.items[i], s.filter))
  {
    assert "filter" != "mark" by { assert "filter"[0] != "mark"[0]; }
    RowPositionMatchesItem(s, j);
  }

  /** In a strictly ascending sequence, entries are at least as far apart as their positions. */
  lemma {:induction false} AscendingGap(idx: seq<nat>, i: nat, j: nat)
    requires StrictlyAscending(idx) && i <= j < |idx|
    ensures idx[j] - idx[i] >= j - i
    decreases j - i
  {
    if i < j {
      AscendingGap(idx, i, j - 1);
    }
  }

  /** If the `j`-th selected index exceeds `j`, some index below it was not kept. */
  lemma {:induction false} HiddenBeforeGap(n: nat, keep: nat -> bool, j: nat)
    requires j < |Select(n, keep)| && Select(n, keep)[j] > j
    ensures exists i :: 0 <= i < Select(n, keep)[j] && !keep(i)
  {
    var idx := Select(n, keep);
    SelectAscending(n, keep);
    if j > 0 && idx[j - 1] > j - 1 {
      HiddenBeforeGap(n, keep, j - 1);
    } else {
      forall m | 0 <= m < |idx|
        ensures idx[m] != j
      {
        if m < j {
          assert m == j - 1 || idx[m] < idx[j - 1];
        } else if m > j {
          assert idx[m] > idx[j];
        }
      }
      SelectMembers(n, keep);
      assert !keep(j);
    }
  }

  /**
   * Row `j` shows item `j` exactly when every item before the one it shows
   * passes the filter.
   */
  lemma RowPositionMatchesItem(s: State, j: nat)
    requires j < |ShownIndices(s.items, s.filter)|
    ensures var item := ShownIndices(s.items, s.filter)[j];
      j == item <==> forall i :: 0 <= i < item ==> Shown(s.items[i], s.filter)
  {
    var keep := ShownIndex(s.items, s.filter);
    var idx := Select(|s.items|, keep);
    SelectAscending(|s.items|, keep);
    SelectMembers(|s.items|, keep);
    AscendingGap(idx, 0, j);
    if idx[j] == j {
      forall i | 0 <= i < j
        ensures Shown(s.items[i], s.filter)
      {
        AscendingGap(idx, 0, i);
        AscendingGap(idx, i, j);
        assert idx[i] == i;
        assert keep(i);
      }
    } else {
      HiddenBeforeGap(|s.items|, keep, j);
    }
  }

  /** Typing into the search bar reaches the filter handler, unless the add action shares its name. */
  lemma SearchBarSetsFilter(s: State, actions: ActionIdentifiers, t: State, context: ActionContext)
    requires actions.addCompletedName != "filter"
    requires Render(s, actions).searchBar.Some?
    requires context.customActionIdentifier == Some(Render(s, actions).searchBar.value.actionIdentifier)
    ensures ActionStep(t, context, actions) == Step(Consumed, t.(filter := FilterFromText(context.searchText)))
  {
  }

  /**
   * The mark index comes from the tapped component's index, not from the
   * item's position: with items "a", "b" and filter "b" the only row shows
   * item 1, yet tapping it (component 1, after the search bar at 0) marks item 0.
   */
  lemma MarkUsesRenderedPosition(actions: ActionIdentifiers, context: ActionContext)
    requires actions.addCompletedName != "mark"
    requires context.customActionIdentifier == Some(actions.Mark())
    requires context.componentIndex == Some(ComponentIndex(Render(State(["a", "b"], {}, Some("b"), 0), actions), 0))
    ensures var s := State(["a", "b"], {}, Some("b"), 0);
      && Render(s, actions).rows == [Row("item-1", "b", false, actions.Mark())]
      && context.componentIndex == Some(1)
      && ActionStep(s, context, actions).state.marked == {0}
  {
    var items: seq<string> := ["a", "b"];
    var keep := ShownIndex(items, Some("b"));
    assert Lowercased("a") == "a";
    assert Lowercased("b") == "b";
    assert "a"[..1] != "b" by { assert "a"[..1][0] != "b"[0]; }
    assert !IsPrefix("b", "a");
    assert !Contains("", "b");
    assert !keep(0);
    assert IsPrefix("b", "b");
    assert keep(1);
    assert Select(2, keep) == [1];
    assert Decimal(1) == "1";
    assert ShownIndices(items, Some("b")) == [1];
    assert ItemIdentifier(1) == "item-1";
    assert "filter" != "mark" by { assert "filter"[0] != "mark"[0]; }
  }

  // ---------------------------------------------------------------- delete

  /** The marked indices that name an item of a list of length `n`. */
  function MarkedBelow(marked: set<nat>, n: nat): set<nat> {
    set i | i in marked && i < n
  }

  /** Delete leaves one item fewer for each marked index below the old length. */
  lemma {:induction false} WithoutMarkedLength(items: seq<string>, marked: set<nat>)
    ensures |WithoutMarked(items, marked)| == |items| - |MarkedBelow(marked, |items|)|
  {
    if items != [] {
      var last := |items| - 1;
      WithoutMarkedLength(items[..last], marked);
      if last in marked {
        assert MarkedBelow(marked, |items|) == MarkedBelow(marked, last) + {last};
      } else {
        assert MarkedBelow(marked, |items|) == MarkedBelow(marked, last);
      }
    }
  }

  function Unmarked(marked: set<nat>): nat -> bool {
    (i: nat) => i !in marked
  }

  /**
   * Delete keeps exactly the unmarked items, in their original relative order:
   * survivor `j` is the item at the `j`-th unmarked index.
   */
  lemma {:induction false} WithoutMarkedKeepsOrder(items: seq<string>, marked: set<nat>)
    ensures var r, kept := WithoutMarked(items, marked), Select(|items|, Unmarked(marked));
      |r| == |kept| && forall j :: 0 <= j < |r| ==> r[j] == items[kept[j]]
  {
    if items != [] {
      var last := |items| - 1;
      var prefix := items[..last];
      WithoutMarkedKeepsOrder(prefix, marked);
      var r0, k0 := WithoutMarked(prefix, marked), Select(last, Unmarked(marked));
      var tail := if last in marked then [] else [items[last]];
      var ktail := if Unmarked(marked)(last) then [last] else [];
      var r, kept := WithoutMarked(items, marked), Select(|items|, Unmarked(marked));
      assert r == r0 + tail;
      assert kept == k0 + ktail;
      assert |tail| == |ktail|;
      forall j | 0 <= j < |r|
        ensures r[j] == items[kept[j]]
      {
        if j < |r0| {
          assert r[j] == r0[j] == prefix[k0[j]];
          assert kept[j] == k0[j];
        } else {
          assert r[j] == items[last] && kept[j] == last;
        }
      }
    }
  }

  /** Delete leaves exactly the items whose index is not marked, each once. */
  lemma DeleteRemovesMarked(s: State)
    ensures var d, kept := DeleteState(s), Select(|s.items|, Unmarked(s.marked));
      && |d.items| == |s.items| - |MarkedBelow(s.marked, |s.items|)|
      && |d.items| == |kept|
      && StrictlyAscending(kept)
      && (forall i: nat :: i in kept <==> i < |s.items| && i !in s.marked)
      && (forall j :: 0 <= j < |d.items| ==> d.items[j] == s.items[kept[j]])
      && d.marked == {} && d.transitionDuration == 1 && d.filter == s.filter
  {
    WithoutMarkedLength(s.items, s.marked);
    WithoutMarkedKeepsOrder(s.items, s.marked);
    SelectAscending(|s.items|, Unmarked(s.marked));
    SelectMembers(|s.items|, Unmarked(s.marked));
  }
}
