# To-do list store

A model of the list store behind a single-screen React Native to-do app
(`app.js`). The store keeps an ordered list of to-do items, the rows the
current filter mode shows, an "all complete" flag, the pending input text and
a loading flag. Each user action is a handler on the `App` component. A
handler that changes the list builds a new item list, re-sorts it by
descending priority where the app does, and installs the list together with
the view that the filter mode selects from it. The filter handler only
sets the mode and recomputes the view, and the input callback only records the pending text.

Layout, one module per concern of `app.js`:

- `wrappers.dfy` (`Wrappers`): an `Option` type.
- `items.dfy` (`Items`): the `Item` record, the priority bounds 0 and 10,
  key uniqueness, priority order, and the lemmas showing that reordering keeps
  those properties.
- `filters.dfy` (`Filters`): `filterItems` and the three filter modes, with
  the order-preserving subsequence relation `Subseq`.
- `sorting.dfy` (`Sorting`): `sortItems` as an in-place sort of an array.
  It is an insertion sort standing in for the JavaScript engine's
  `Array.prototype.sort`. Its contract says only what every correct sort
  guarantees: the result is in non-increasing priority order and is a
  permutation of the input. `SortedPermutationUnique` shows that ties are the
  only freedom left.
- `updates.dfy` (`ItemUpdates`): the per-item copies the handlers build, as
  functions. One `Edit` value covers the five keyed handlers (text, editing
  flag, completion, move up, move down). It also holds marking every item,
  removal by key, and the ECMAScript `trim` of the pending text.
- `app.dfy` (`TodoApp`): class `App` with the component's state fields and one
  method per handler. `Valid()` is the view invariant
  `view == FilterItems(filter, items)`. The handlers for text, editing,
  completion, marking all, removing, filtering, clearing and moving establish
  it whatever the state before, because each one recomputes the view. Adding
  keeps it, and establishes it unless the input is empty, because an empty
  input returns before anything is installed (`app.js:105`). Loading
  establishes it when a list was parsed and the filter is "ALL", keeps it
  when nothing was parsed, and the input callback does not
  touch the fields it reads.

Five behaviours of the code that are easy to misread:

- Moving up or down really changes the priority. `item.priority++`
  (`app.js:134`) and `item.priority--` (`app.js:148`) change the item before
  it is copied, so the copy carries the new priority. The extra field
  `newPriority` holds the old priority, or the bound 10 / 0 when clamped.
- Adding refuses only the empty string (`app.js:105`). A value of white space
  alone adds an item whose text is empty after trimming (`TrimAllSpace`).
- Toggling "all complete" twice brings the flag back. It does not bring back
  each item's own earlier completion: both calls set every item to the flag
  (`SetAllCompleteTwiceForgets`).
- Keys are clock readings. Nothing in the code makes them unique, so
  uniqueness is a hypothesis: each handler keeps `UniqueKeys` when it held
  before, and adding needs a key not already present.
- After loading, the view is the whole sorted list (`app.js:50`). It equals
  the filter's selection at least while the filter is still "ALL", which is
  the initial mode, and more generally whenever the mode shows every loaded
  item.

## Model

| member | source | states |
|---|---|---|
| Filters.FilterItems | app.js:7-13 | the result has no more items than the list, and an item is in it exactly when it is in the list and the mode shows it |
| Filters.FilterIsSubseq | app.js:7-13 | the selection is an order-preserving subsequence of the list |
| Filters.FilterAll | app.js:9 | "ALL" returns the list unchanged |
| Filters.FilterUnknown | app.js:8-12 | a filter string that names no mode selects nothing |
| Filters.FilterMultiset | app.js:8-12 | each shown item keeps its multiplicity and each hidden item is dropped |
| Filters.FilterPartition | app.js:10-11 | "COMPLETED" and "ACTIVE" together hold every item once, and their sizes add up to the list's |
| Filters.FilterPermutation | app.js:7-13 | reordering the list only reorders the selection |
| Filters.FilterIdempotent | app.js:127-129 | selecting twice with one mode equals selecting once |
| Filters.FilterAllShown | app.js:7-13 | a list whose every item the mode shows is its own selection |
| Filters.FilterNoneShown | app.js:7-13 | a list of which the mode shows nothing has an empty selection |
| Filters.FilterKeepsOrder | app.js:115-116 | the selection from a list in priority order is in priority order |
| Filters.SubseqKeepsUniqueKeys | app.js:118-130 | an order-preserving deletion keeps keys unique |
| Filters.SubseqKeepsOrder | app.js:118-130 | an order-preserving deletion keeps priority order |
| Sorting.SortItems | app.js:15-19 | the array ends up in non-increasing priority order and holds the same items as before |
| Sorting.SortedCopy | app.js:115 | sorting the fresh array a handler builds gives a priority-ordered permutation of its items |
| Sorting.SortedPermutationUnique | app.js:15-19 | with no two equal priorities, any two sorted arrangements of the same items coincide |
| Sorting.SortTwo | app.js:15-19 | two items of different priority sort with the higher one first |
| Sorting.SortedHeadIsMax | app.js:15-19 | the first item of a sorted list has the highest priority |
| Items.PermutationKeepsUniqueKeys | app.js:115 | re-sorting keeps keys unique |
| Items.PermutationKeepsPrioritiesInRange | app.js:142 | re-sorting keeps every priority in [0, 10] |
| Items.UniqueKeysSnoc | app.js:106-114 | appending an item with a fresh key keeps keys unique |
| ItemUpdates.UpdateWhere | app.js:66-95 | same length and keys in the same order; items with another key are unchanged, items with the key become the edited copy; an absent key leaves the list unchanged |
| ItemUpdates.MovePriority | app.js:131-159 | moving up adds one to a priority below 10 and leaves others alone; moving down subtracts one from a priority of at least 1 and leaves others alone |
| ItemUpdates.EditKeepsRange | app.js:134 | no edit takes a priority in [0, 10] out of that range |
| ItemUpdates.UpdateKeepsPrioritiesInRange | app.js:131-159 | a keyed move keeps every priority of the list in [0, 10] |
| ItemUpdates.MoveDownUndoesMoveUp | app.js:131-159 | for a priority in [0, 10), moving up then down restores it |
| ItemUpdates.MoveUpUndoesMoveDown | app.js:131-159 | for a priority in (0, 10], moving down then up restores it |
| ItemUpdates.FilterUpdateCommute | app.js:66-85 | an edit of text, editing flag or priority changes the view exactly as it changes the list |
| ItemUpdates.SetCompleteMovesBetweenViews | app.js:86-95 | after setting completion the targeted item is in "COMPLETED" exactly when the flag is true and in "ACTIVE" exactly when it is false |
| ItemUpdates.SetTextOverrides | app.js:66-75 | a later text edit of the same key overrides an earlier one |
| ItemUpdates.SetTextRestores | app.js:66-75 | with unique keys, writing an item's old text back undoes a text edit |
| ItemUpdates.SetAllComplete | app.js:96-103 | same length and keys; every item gets the flag and changes in nothing else |
| ItemUpdates.SetAllCompleteViews | app.js:96-103 | after marking all with a flag, the matching mode shows the whole list and the other mode shows nothing |
| ItemUpdates.SetAllCompleteTwice | app.js:96-103 | marking all twice equals marking once with the second flag |
| ItemUpdates.SetAllCompleteTwiceForgets | app.js:96-103 | a concrete list whose own completion flags are not restored by marking all complete then all active |
| ItemUpdates.RemoveKey | app.js:118-123 | an item survives exactly when it is in the list and has another key; an absent key leaves the list unchanged |
| ItemUpdates.RemoveMultiset | app.js:119-121 | every copy of an item with the key is removed and every copy of the others is kept |
| ItemUpdates.RemoveIsSubseq | app.js:119-121 | removal is an order-preserving deletion |
| ItemUpdates.SpaceRunEnd | app.js:110 | the leading white-space run: everything before the end is white space, and the character at the end is not |
| ItemUpdates.SpaceRunStart | app.js:110 | the trailing white-space run: everything from the start is white space, and the character before the start is not, unless the run reaches the lower limit |
| ItemUpdates.Trim | app.js:110 | the result is a slice of the text with only white space cut off on either side, and it neither starts nor ends with white space |
| ItemUpdates.TrimAllSpace | app.js:105-110 | a value of white space only trims to the empty text |
| ItemUpdates.TrimUnpadded | app.js:110 | a text that neither starts nor ends with white space trims to itself |
| ItemUpdates.TrimIdempotent | app.js:110 | trimming twice equals trimming once |
| TodoApp.App.constructor | app.js:22-44 | the screen starts loading, with no items, an empty view, filter "ALL", flag false and empty input; the view invariant holds |
| TodoApp.App.Load | app.js:45-57 | a parsed list becomes the sorted list and the whole view, and loading ends; a stored value that is absent or does not parse only ends loading; the view invariant holds afterwards when a list was parsed and the filter is "ALL", and holds exactly when it held before when nothing was parsed |
| TodoApp.App.SetSource | app.js:58-65 | installs the given list and view and nothing else |
| TodoApp.App.Change | app.js:166 | the pending input text becomes the given value |
| TodoApp.App.UpdateText | app.js:66-75 | the list becomes the keyed text edit of the old list, the view is the old view edited the same way when the view matched the filter before, other fields unchanged, view invariant holds |
| TodoApp.App.ToggleEditing | app.js:76-85 | the list becomes the keyed editing-flag edit of the old list, the view is the old view edited the same way when the view matched the filter before, other fields unchanged, view invariant holds |
| TodoApp.App.ToggleComplete | app.js:86-95 | the list becomes the keyed completion edit; each targeted item is in the matching view only; other fields unchanged |
| TodoApp.App.ToggleAllComplete | app.js:96-103 | the flag is negated, every item gets the new flag, the opposite mode shows nothing, other fields unchanged |
| TodoApp.App.AddItem | app.js:104-117 | with empty input nothing changes; otherwise the list gains exactly the new item, is sorted with a sorted view, the input is cleared; keys stay unique for a fresh key and priorities stay in range |
| TodoApp.App.RemoveItem | app.js:118-123 | the list becomes the removal by key, an order-preserving deletion that keeps keys unique, other fields unchanged |
| TodoApp.App.Filter | app.js:124-126 | only the filter mode and the view change, and the view is the new mode's selection |
| TodoApp.App.ClearComplete | app.js:127-130 | the list becomes its active items in order; no item is complete afterwards and the active items are unchanged |
| TodoApp.App.MoveUp | app.js:131-144 | the list is a sorted permutation of the old list with the keyed move-up applied; the view is sorted; priorities stay in [0, 10] and keys stay unique |
| TodoApp.App.MoveDown | app.js:145-159 | the list is a sorted permutation of the old list with the keyed move-down applied; the view is sorted; priorities stay in [0, 10] and keys stay unique |
| TodoApp.App.ActiveCount | app.js:197 | the footer's count of active items plus the number of completed items is the list's length |
| TodoApp.KeepsRangeAndKeys | app.js:131-159 | a keyed edit followed by re-sorting keeps priorities in range and keys unique |

## Left out

- Device storage: the `AsyncStorage` read at start-up and the write in
  `setSource` are external calls. `Load` takes the outcome of the read as an
  `Option`, and the write-back is not modelled. So the round trip through
  storage is not modelled either.
- TodoApp.App.Load: a rejected `AsyncStorage.getItem` promise has no handler
  (`app.js:46`), so loading stays true forever. The model expresses that case
  only by never calling `Load`; `None` stands for an absent or unparsable
  value, which the `catch` at `app.js:51-55` turns into the end of loading.
- `JSON.parse` and `JSON.stringify` are library calls. A stored value that
  parses to something other than an array makes `sortItems` throw, which is
  the `None` case of `Load`. A parsed array is assumed to hold well-formed
  item records.
- `Date.now()` is a clock read. `AddItem` takes the key as a parameter.
- React specifics are not modelled: the batching and asynchrony of
  `setState`, the `ListView.DataSource` and `cloneWithRows`,
  `Keyboard.dismiss`, `render`, the `Header`, `Footer` and `Row` components,
  and the style sheet. `setSource` is plain field assignment.
- Sorting.SortItems: does not fix the relative order of items with equal
  priority. That order depends on the JavaScript engine's sort, which the
  code does not control.
- The in-place change of the old item object by `item.priority++` and
  `item.priority--` is not modelled. The old list is replaced straight away,
  so only the new copy can be observed, and `Item` is a value type.
- An added item has no `editing` field in the code (undefined, which reads
  as false). The model gives it `editing == false` and
  `newPriority == None`.
- Numbers are unbounded integers. JavaScript numbers are doubles, but keys
  from the clock and priorities clamped to [0, 10] stay well inside the
  exactly representable range.
- Strings are sequences of Unicode code points, not UTF-16 code units.
  `IsSpace` lists the ECMAScript white-space and line-terminator characters
  that `trim` removes.
