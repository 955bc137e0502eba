# Todo list content operation and `Array.split()` (HubFramework demo)

This project models the two pieces of the HubFramework demo app that hold logic
of their own, and proves properties of the model.

- `TodoListContentOperation` is the content operation behind the "Todo list"
  screen. It keeps four fields: the item titles, the set of marked item
  indices, an optional lower-case filter, and a transition duration that is
  used once. Three actions change this state: add, filter and mark. A
  dispatcher sends each action to the first handler whose identifier matches.
  The "done" and "delete" bar buttons also change it. `perform` turns the state
  into a view model: the navigation buttons, an optional search bar, one row
  per listed item, and the pending transition duration, which it then resets.
- `Array.split()` cuts an array into two halves at `count / 2`. An array with
  at most one element stays whole, as a single slice.

Files:

- `wrappers.dfy`: `Option`, for Swift optionals.
- `text.dfy`: the parts of Swift `String` used here. These are
  `lowercased()` (ASCII only), `contains(_:)` and the decimal text of an
  interpolated integer.
- `array_split.dfy`: `Split` over `ArraySlice` values. A slice keeps its start
  index in the parent array, as Swift slices do.
- `todo_list_model.dfy`: the values (state, action context, view model), one
  pure function per handler, the rendering function, and the lemmas about them.
- `todo_list_operation.dfy`: the class `TodoListContentOperation`. Its
  methods update its fields in place and are proved against the functions of
  `todo_list_model.dfy`. It also holds `ItemRows`, the loop that builds the
  item rows.

Modelling choices:

- The add action's identifier uses a namespace and a name that are defined in
  files outside this model. `ActionIdentifiers` takes both as parameters, and
  the constructor receives them. Because dispatch takes the first match, the
  lemmas that route an action to the mark or filter handler require the add
  action's name to differ from "mark" or "filter".
- A handler reads only two custom-data values, so the action context carries
  them directly. `itemTitle` is the string under the add action's title key.
  `searchText` is the string under the search bar's text key. Each is `None`
  when the custom data is missing, the key is missing, or the value is not a
  string.
- At `index - 1` the mark handler subtracts from an unsigned integer. A
  component index of 0 therefore traps at run time. The model returns the
  explicit verdict `Trapped` for this case and changes no state.
- The model keeps the mark index as the source computes it: from the tapped
  component's index, not from the item's position in `items`. The operation
  creates the search bar's builder before the rows' builders and sets no
  preferred index. The framework builds components in creation order by
  default (sources/HUBComponentModelBuilderImplementation.h:16-26, 47-52), so
  row `j` is body component `j + 1`, and the mark action toggles index `j`.
  That row shows the `j`-th listed item. The two indices agree exactly when no
  item before the listed item is hidden by the filter (`RowTapTogglesMark`,
  `RowPositionMatchesItem`). `MarkUsesRenderedPosition` shows a concrete case
  where they differ.
- Delegate calls become ghost counters. `rescheduleRequests` counts
  "requires rescheduling" and `finishNotifications` counts "did finish".
  A request is counted whether or not a delegate is attached.
- `transitionDuration` is an `int`. The source stores a `TimeInterval`, but
  only ever assigns 0 or 1 to it.

## Model

| member | source | states |
|---|---|---|
| `TodoListOperation.TodoListContentOperation.constructor` | demo/sources/TodoListContentOperation.swift:38-41 | a new operation has no items, no marks, no filter and duration 0 |
| `TodoListOperation.TodoListContentOperation.Perform` | demo/sources/TodoListContentOperation.swift:43-83 | the view model is the rendering of the state before the call; afterwards the duration is 0, nothing else changed, and "did finish" was sent once |
| `TodoListOperation.ItemRows` | demo/sources/TodoListContentOperation.swift:63-77 | the loop over the items yields exactly the rows of the listed items, in item order |
| `TodoListModel.Render` | demo/sources/TodoListContentOperation.swift:44-79 | the view model has no more rows than there are items; whenever there is a row there is a search bar before it; every row fires the mark action |
| `TodoListModel.ItemIdentifier` | demo/sources/TodoListContentOperation.swift:70 | a row identifier is `item-` followed by the index's decimal text |
| `TodoListModel.ComponentIndex` | demo/sources/TodoListContentOperation.swift:53-70 | row j is body component j + 1 when the search bar is present (it is created first), and j otherwise |
| `TodoListModel.RenderChrome` | demo/sources/TodoListContentOperation.swift:44-61 | search bar iff there is at least one item; a single "add" button iff nothing is marked, "done" and "trash" otherwise; the duration is handed over unchanged |
| `TodoListModel.RowsFollowItems` | demo/sources/TodoListContentOperation.swift:63-77 | one row per listed item, in strictly ascending item index; an item is listed iff there is no filter or its lower-cased title contains the filter; row for item i has identifier `item-i`, the item's title, `marked` iff i is a marked index, and fires the mark action |
| `TodoListModel.RowsExactlyShownItems` | demo/sources/TodoListContentOperation.swift:63-77 | the row of item i appears among the rows iff item i passes the filter |
| `TodoListModel.UnfilteredRowsShowEveryItem` | demo/sources/TodoListContentOperation.swift:63-77 | without a filter there are as many rows as items, and row i shows item i |
| `TodoListModel.RowPositionMatchesItem` | demo/sources/TodoListContentOperation.swift:63-68 | row j shows item j exactly when every item before the item it shows passes the filter |
| `TodoListOperation.PerformTwice` | demo/sources/TodoListContentOperation.swift:79-80 | the first perform reports the pending duration; a second perform with no action in between reports 0 and otherwise the same view model |
| `TodoListOperation.TodoListContentOperation.ActionPerformed` | demo/sources/TodoListContentOperation.swift:85-95 | the new state and verdict are those of the first-match dispatch; a reschedule is requested exactly when the action was consumed |
| `TodoListModel.ActionStep` | demo/sources/TodoListContentOperation.swift:85-95 | no action changes the transition duration; an action that is not consumed changes no state; a valid filter stays valid |
| `TodoListModel.DispatchFirstMatch` | demo/sources/TodoListContentOperation.swift:85-95 | the add handler decides when its identifier matches, then the filter handler, then the mark handler; an action matching none is declined; an action that is not consumed changes no state |
| `TodoListOperation.TodoListContentOperation.HandleAddAction` | demo/sources/TodoListContentOperation.swift:99-109 | the verdict and the new items are those of `AddStep`; no other field changes |
| `TodoListModel.AddStep` | demo/sources/TodoListContentOperation.swift:99-109 | the add handler never traps; it changes only the items, keeping the old items as a prefix and adding at most one |
| `TodoListModel.AddActionAppendsTitle` | demo/sources/TodoListContentOperation.swift:99-109 | an add action is consumed iff its identifier matches; with a title it appends exactly that title at the end; without one, or when declined, nothing changes; marks, filter and duration never change |
| `TodoListOperation.TodoListContentOperation.HandleFilterAction` | demo/sources/TodoListContentOperation.swift:111-123 | the verdict and the new filter are those of `FilterStep`; the stored filter stays absent or non-empty lower-case |
| `TodoListModel.FilterStep` | demo/sources/TodoListContentOperation.swift:111-123 | the filter handler never traps; it changes only the filter, and a consumed action leaves a filter that is absent or non-empty lower-case |
| `TodoListModel.FilterFromText` | demo/sources/TodoListContentOperation.swift:116-120 | the filter is absent iff the text is missing or empty, otherwise it is the lower-cased text; the result is always absent or non-empty lower-case |
| `TodoListModel.FilterActionSetsFilter` | demo/sources/TodoListContentOperation.swift:111-123 | a filter action is consumed and changes only the filter, to nil for missing or empty text and to the lower-cased text otherwise |
| `TodoListOperation.TodoListContentOperation.HandleMarkAction` | demo/sources/TodoListContentOperation.swift:125-141 | the verdict and the new marks are those of `MarkStep`; no other field changes |
| `TodoListModel.MarkStep` | demo/sources/TodoListContentOperation.swift:125-141 | the mark handler changes only the marks; an index changes membership only when the action is consumed and the index is the component index minus one |
| `TodoListModel.MarkActionToggles` | demo/sources/TodoListContentOperation.swift:125-141 | a mark action without a component index is declined and changes nothing; index 0 traps and changes nothing; otherwise exactly index - 1 flips membership and nothing else changes |
| `TodoListModel.Toggle` | demo/sources/TodoListContentOperation.swift:136-138 | the toggled index changes membership and every other index keeps it |
| `TodoListModel.MarkTwiceRestores` | demo/sources/TodoListContentOperation.swift:134-138 | applying the same consumed mark action twice restores the original state |
| `TodoListModel.RowTapTogglesMark` | demo/sources/TodoListContentOperation.swift:54-137 | tapping rendered row j sends the mark action with row j's component index; unless the add action shares its name, this toggles index j, while the row shows the j-th listed item; the two agree exactly when no item before that one is hidden |
| `TodoListModel.SearchBarSetsFilter` | demo/sources/TodoListContentOperation.swift:58-119 | the action the search bar fires reaches the filter handler, unless the add action shares its name, and sets the filter from the typed text |
| `TodoListModel.MarkUsesRenderedPosition` | demo/sources/TodoListContentOperation.swift:130-137 | with items "a", "b" and filter "b" the only row shows item 1; its component index is 1, and the mark action with that index marks item 0 |
| `TodoListModel.DoneState` | demo/sources/TodoListContentOperation.swift:149 | "done" empties the marks and keeps the items, the filter and the duration |
| `TodoListOperation.TodoListContentOperation.HandleDoneButton` | demo/sources/TodoListContentOperation.swift:148-151 | marks are emptied, items, filter and duration are unchanged, and a reschedule is requested |
| `TodoListOperation.TodoListContentOperation.HandleDeleteButton` | demo/sources/TodoListContentOperation.swift:153-161 | the new state is `DeleteState` of the old one, and a reschedule is requested |
| `TodoListModel.DeleteState` | demo/sources/TodoListContentOperation.swift:154-159 | after "delete" the marks are empty, the duration is 1, the filter is kept, and the items are a sub-multiset of the old ones |
| `TodoListModel.WithoutMarked` | demo/sources/TodoListContentOperation.swift:154-156 | the kept items are a sub-multiset of the items, no longer than them, and equal to them when no index below the length is marked |
| `TodoListModel.DeleteRemovesMarked` | demo/sources/TodoListContentOperation.swift:153-159 | the survivors are exactly the items whose index is not marked, each once and in original order; the new length is the old length minus the number of marked indices below it; marks are emptied, duration is 1, filter unchanged |
| `TodoListModel.WithoutMarkedLength` | demo/sources/TodoListContentOperation.swift:154-156 | removing the marked items leaves the old length minus the number of marked indices below the old length |
| `TodoListModel.WithoutMarkedKeepsOrder` | demo/sources/TodoListContentOperation.swift:154-156 | survivor j is the item at the j-th unmarked index |
| `Text.Lowercased` | demo/sources/TodoListContentOperation.swift:65 | lower-casing keeps the length and leaves no upper-case ASCII letter |
| `Text.LowercasedIdempotent` | demo/sources/TodoListContentOperation.swift:117 | lower-casing a lower-cased text changes nothing, so the stored filter is lower-case |
| `Text.Contains` | demo/sources/TodoListContentOperation.swift:65 | a text contains only needles no longer than itself, and always contains the empty needle |
| `Text.ContainsAt` | demo/sources/TodoListContentOperation.swift:65 | `contains` holds iff the filter occurs as a contiguous slice of the title |
| `Text.Decimal` | demo/sources/TodoListContentOperation.swift:70 | the decimal text of an index is non-empty, all digits, and a single digit exactly for indices below 10 |
| `Text.DecimalInjective` | demo/sources/TodoListContentOperation.swift:70 | distinct item indices give distinct decimal texts, so distinct row identifiers |
| `ArraySplit.Split` | demo/sources/Array+Split.swift:3-16 | joining the slices gives the array back; one slice if `count <= 1` (an empty array gives one empty slice), two otherwise; the slices are consecutive ranges from 0 to `count`; with two slices the first has `count / 2` elements and the second the rest |
| `ArraySplit.SplitHalvesBalanced` | demo/sources/Array+Split.swift:9-14 | with two or more elements both halves are non-empty and the second is as long as the first or one longer |

## Left out

- UIKit: the model keeps only the kind of navigation buttons. The
  `UIBarButtonItem` objects, their selectors and the search bar's component
  name are left out.
- `handleAddButton` only asks the action performer to run the framework's
  "add" action, so it is not modelled. That action and the framework that runs
  it are not part of this model.
- `perform` ignores the view URI, feature info, connectivity state and previous
  error, and so does the model. The delegate and the action performer are weak
  references. The model does not capture whether they are attached; it only
  counts the requests.
- Text.Lowercased: lower-cases ASCII letters only. Swift's `lowercased()` follows
  Unicode case mapping, and that mapping can change the length of a string.
- Foundation's handling of an empty needle in `contains` is not modelled. The
  stored filter is never empty, as `Valid()` states.
- Text.Contains: compares character by character. Foundation's `contains`
  (`range(of:) != nil`) also matches canonically equivalent text, such as a
  precomposed "é" against "e" followed by a combining accent. The model does
  not capture that.
- TodoListModel.SearchBarSetsFilter: the search bar's custom data holds the
  filter action's identifier as a string (`identifierString`). The model stores
  the identifier itself. It assumes the framework parses that string back into
  the same identifier when the search bar fires its action.
- Threading is not modelled. Every call runs on the main thread, one at a time.
- The view components, the floating-point layout helpers, the app bootstrap, the
  live service, the Safari presentation and the static fixtures are not part of
  this model.
