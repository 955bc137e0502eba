/**
 * The "Todo list" content operation as an object whose fields its handlers
 * update in place. Calls to the delegate are counted in ghost fields:
 * `rescheduleRequests` for "requires rescheduling", `finishNotifications`
 * for "did finish".
 */
module TodoListOperation {
  import opened Wrappers
  import opened Text
  import opened TodoListModel

  /**
   * The rows of the listed items: walks the items in order and skips those
   * whose lower-cased title does not contain the filter.
   */
  method ItemRows(items: seq<string>, marked: set<nat>, filter: Option<string>, actions: ActionIdentifiers)
    returns (rows: seq<Row>)
    ensures rows == VisibleRows(items, marked, filter, actions)
  {
    rows := [];
    ghost var shown: seq<nat> := [];
    for index := 0 to |items|
      invariant shown == Select(index, ShownIndex(items, filter))
      invariant forall j :: 0 <= j < |shown| ==> shown[j] < |items|
      invariant rows == RowsAt(items, marked, shown, actions)
    {
      var item := items[index];
      var listed := true;
      if filter.Some? && !Contains(Lowercased(item), filter.value) {
        listed := false;
      }
      if listed {
        var row := Row(ItemIdentifier(index), item, index in marked, actions.Mark());
        assert RowsAt(items, marked, shown + [index], actions) == RowsAt(items, marked, shown, actions) + [row];
        rows := rows + [row];
        shown := shown + [index];
      }
    }
  }

  class TodoListContentOperation {
    const actions: ActionIdentifiers
    var filter: Option<string>
    var transitionDuration: int
    var items: seq<string>
    var markedItemIndexes: set<nat>
    ghost var rescheduleRequests: nat
    ghost var finishNotifications: nat

    /** The stored filter is always absent or a non-empty lower-case text. */
    ghost predicate Valid()
      reads this
    {
      ValidFilter(filter)
    }

    function Snapshot(): State
      reads this
    {
      State(items, markedItemIndexes, filter, transitionDuration)
    }

    constructor (actions: ActionIdentifiers)
      ensures Valid() && this.actions == actions
      ensures Snapshot() == State([], {}, None, 0)
      ensures rescheduleRequests == 0 && finishNotifications == 0
    {
      this.actions := actions;
      filter := None;
      transitionDuration := 0;
      items := [];
      markedItemIndexes := {};
      rescheduleRequests := 0;
      finishNotifications := 0;
    }

    /**
     * Builds the view model from the current state, hands over the pending
     * transition duration and resets it to 0; nothing else changes.
     */
    method Perform() returns (viewModel: ViewModel)
      requires Valid()
      modifies this`transitionDuration, this`finishNotifications
      ensures Valid()
      ensures viewModel == Render(old(Snapshot()), actions)
      ensures Snapshot() == old(Snapshot()).(transitionDuration := 0)
      ensures finishNotifications == old(finishNotifications) + 1
    {
      var buttons := DoneAndTrashButtons;
      if markedItemIndexes == {} {
        buttons := AddButton;
      }
      var searchBar := None;
      if items != [] {
        searchBar := Some(SearchBar(SearchBarIdentifier, SearchBarPlaceholder, actions.Filter(), 0));
      }
      var rows := ItemRows(items, markedItemIndexes, filter, actions);
      viewModel := ViewModel(buttons, searchBar, rows, transitionDuration);
      transitionDuration := 0;
      finishNotifications := finishNotifications + 1;
    }

    /**
     * Tries the add, filter and mark handlers in turn and requests a
     * reschedule when one of them consumed the action.
     */
    method ActionPerformed(context: ActionContext) returns (handling: Handling)
      requires Valid()
      modifies this`items, this`filter, this`markedItemIndexes, this`rescheduleRequests
      ensures Valid()
      ensures Step(handling, Snapshot()) == ActionStep(old(Snapshot()), context, actions)
      ensures rescheduleRequests == old(rescheduleRequests) + (if handling == Consumed then 1 else 0)
    {
      var added := HandleAddAction(context);
      if !added {
        var filtered := HandleFilterAction(context);
        if !filtered {
          handling := HandleMarkAction(context);
          if handling != Consumed {
            return;
          }
        }
      }
      handling := Consumed;
      rescheduleRequests := rescheduleRequests + 1;
    }

    method HandleAddAction(context: ActionContext) returns (handled: bool)
      modifies this`items
      ensures Step(if handled then Consumed else Declined, Snapshot()) == AddStep(old(Snapshot()), context, actions)
    {
      if context.customActionIdentifier != Some(actions.Add()) {
        return false;
      }
      if context.itemTitle.Some? {
        items := items + [context.itemTitle.value];
      }
      return true;
    }

    method HandleFilterAction(context: ActionContext) returns (handled: bool)
      requires Valid()
      modifies this`filter
      ensures Valid()
      ensures Step(if handled then Consumed else Declined, Snapshot()) == FilterStep(old(Snapshot()), context, actions)
    {
      if context.customActionIdentifier != Some(actions.Filter()) {
        return false;
      }
      filter := FilterFromText(context.searchText);
      return true;
    }

    method HandleMarkAction(context: ActionContext) returns (handling: Handling)
      modifies this`markedItemIndexes
      ensures Step(handling, Snapshot()) == MarkStep(old(Snapshot()), context, actions)
    {
      if context.customActionIdentifier != Some(actions.Mark()) {
        return Declined;
      }
      if context.componentIndex.None? {
        return Declined;
      }
      var index := context.componentIndex.value;
      if index == 0 {
        // `index - 1` on an unsigned integer traps here
        return Trapped;
      }
      var relativeIndex := index - 1;
      if relativeIndex in markedItemIndexes {
        markedItemIndexes := markedItemIndexes - {relativeIndex};
      } else {
        markedItemIndexes := markedItemIndexes + {relativeIndex};
      }
      return Consumed;
    }

    /** "Done": forgets every mark and requests a reschedule. */
    method HandleDoneButton()
      modifies this`markedItemIndexes, this`rescheduleRequests
      ensures Snapshot() == DoneState(old(Snapshot()))
      ensures rescheduleRequests == old(rescheduleRequests) + 1
    {
      markedItemIndexes := {};
      rescheduleRequests := rescheduleRequests + 1;
    }

    /**
     * "Delete": drops the marked items, forgets every mark, asks for a
     * one-second transition and requests a reschedule.
     */
    method HandleDeleteButton()
      modifies this`items, this`markedItemIndexes, this`transitionDuration, this`rescheduleRequests
      ensures Snapshot() == DeleteState(old(Snapshot()))
      ensures rescheduleRequests == old(rescheduleRequests) + 1
    {
      items := WithoutMarked(items, markedItemIndexes);
      markedItemIndexes := {};
      transitionDuration := 1;
      rescheduleRequests := rescheduleRequests + 1;
    }
  }

  /**
   * The transition duration is reported once: a second `Perform` with no
   * action in between reports 0, and both report the same rows.
   */
  method PerformTwice(operation: TodoListContentOperation) returns (first: ViewModel, second: ViewModel)
    requires operation.Valid()
    modifies operation
    ensures first.transitionDuration == old(operation.transitionDuration)
    ensures second.transitionDuration == 0
    ensures second == first.(transitionDuration := 0)
  {
    first := operation.Perform();
    second := operation.Perform();
  }
}
