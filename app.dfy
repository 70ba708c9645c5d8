/** The to-do list screen's state and its event handlers. Each list handler
    builds a new item list, installs it together with the view the current
    filter mode selects from it, and leaves the other state fields alone
    unless it is the handler for them. Adding with an empty input changes
    nothing; the filter and input handlers build no new list. */
module TodoApp {
  import opened Wrappers
  import opened Items
  import opened Filters
  import opened Sorting
  import opened ItemUpdates

  class App {
    /** The full list, in priority order after loading, adding and moving. */
    var items: seq<Item>
    /** The rows on screen: the items the filter mode shows. */
    var view: seq<Item>
    var filter: string
    var allComplete: bool
    /** The pending text of the input field. */
    var value: string
    var loading: bool

    /** The view is always the current filter mode's selection of the list. */
    ghost predicate Valid()
      reads this
    {
      view == FilterItems(filter, items)
    }

    /** The screen starts empty, showing everything, waiting for stored items. */
    constructor ()
      ensures Valid()
      ensures loading && !allComplete && filter == All && value == ""
      ensures items == [] && view == []
    {
      loading := true;
      allComplete := false;
      filter := All;
      value := "";
      items := [];
      view := [];
    }

    /** Installs a new list and view. The write-back of the list to device
        storage is not modelled. */
    method SetSource(newItems: seq<Item>, newView: seq<Item>)
      modifies this`items, this`view
      ensures items == newItems && view == newView
    {
      items := newItems;
      view := newView;
    }

    /** The outcome of reading the stored list at start-up: `Some` with the
        parsed items, or `None` when nothing was stored or it did not parse.
        A parsed list is sorted and shown whole; a failure only ends loading. */
    method Load(stored: Option<seq<Item>>)
      modifies this
      ensures !loading
      ensures filter == old(filter) && allComplete == old(allComplete) && value == old(value)
      ensures stored.Some? ==>
        SortedByPriority(items) && multiset(items) == multiset(stored.value) && view == items
      ensures stored.Some? && UniqueKeys(stored.value) ==> UniqueKeys(items)
      ensures stored.Some? && filter == All ==> Valid()
      ensures stored.None? ==> items == old(items) && view == old(view)
      ensures stored.None? ==> (Valid() <==> old(Valid()))
    {
      if stored.Some? {
        var sorted := SortedCopy(stored.value);
        SetSource(sorted, sorted);
        FilterAll(sorted);
        if UniqueKeys(stored.value) {
          PermutationKeepsUniqueKeys(stored.value, sorted);
        }
      }
      loading := false;
    }

    /** The input field's change callback records the pending text. */
    method Change(v: string)
      modifies this`value
      ensures value == v
    {
      value := v;
    }

    /** Replaces the text of the items with key `key`. */
    method UpdateText(key: int, text: string)
      modifies this
      ensures Valid()
      ensures items == UpdateWhere(old(items), key, SetText(text))
      ensures old(Valid()) ==> view == UpdateWhere(old(view), key, SetText(text))
      ensures filter == old(filter) && allComplete == old(allComplete)
      ensures value == old(value) && loading == old(loading)
    {
      var newItems := UpdateWhere(items, key, SetText(text));
      FilterUpdateCommute(filter, items, key, SetText(text));
      SetSource(newItems, FilterItems(filter, newItems));
    }

    /** Sets the edit-mode flag of the items with key `key`. */
    method ToggleEditing(key: int, editing: bool)
      modifies this
      ensures Valid()
      ensures items == UpdateWhere(old(items), key, SetEditing(editing))
      ensures old(Valid()) ==> view == UpdateWhere(old(view), key, SetEditing(editing))
      ensures filter == old(filter) && allComplete == old(allComplete)
      ensures value == old(value) && loading == old(loading)
    {
      var newItems := UpdateWhere(items, key, SetEditing(editing));
      FilterUpdateCommute(filter, items, key, SetEditing(editing));
      SetSource(newItems, FilterItems(filter, newItems));
    }

    /** Sets the completion flag of the items with key `key`. */
    method ToggleComplete(key: int, complete: bool)
      modifies this
      ensures Valid()
      ensures items == UpdateWhere(old(items), key, SetComplete(complete))
      ensures forall i :: 0 <= i < |items| && items[i].key == key ==>
        (items[i] in FilterItems(Completed, items) <==> complete) &&
        (items[i] in FilterItems(Active, items) <==> !complete)
      ensures filter == old(filter) && allComplete == old(allComplete)
      ensures value == old(value) && loading == old(loading)
    {
      var newItems := UpdateWhere(items, key, SetComplete(complete));
      SetSource(newItems, FilterItems(filter, newItems));
    }

    /** Flips the "all complete" flag and gives every item the new flag. */
    method ToggleAllComplete()
      modifies this
      ensures Valid()
      ensures allComplete == !old(allComplete)
      ensures items == SetAllComplete(old(items), allComplete)
      ensures FilterItems(if allComplete then Active else Completed, items) == []
      ensures filter == old(filter) && value == old(value) && loading == old(loading)
    {
      var complete := !allComplete;
      var newItems := SetAllComplete(items, complete);
      SetAllCompleteViews(items, complete);
      SetSource(newItems, FilterItems(filter, newItems));
      allComplete := complete;
    }

    /** Adds the pending text as a new item with key `now` (the creation time,
        which the caller reads from the clock), re-sorts and clears the input.
        Only the empty text is refused; white space alone adds an item with
        empty text. */
    method AddItem(now: int)
      modifies this
      ensures old(value) == "" ==>
        items == old(items) && view == old(view) && value == old(value)
      ensures old(value) != "" ==>
        Valid() && value == "" &&
        SortedByPriority(items) && SortedByPriority(view) &&
        multiset(items) == multiset(old(items)) + multiset{NewItem(now, old(value))} &&
        |items| == |old(items)| + 1
      ensures old(value) != "" && UniqueKeys(old(items)) && now !in Keys(old(items)) ==>
        UniqueKeys(items)
      ensures old(value) != "" && PrioritiesInRange(old(items)) ==> PrioritiesInRange(items)
      ensures old(Valid()) ==> Valid()
      ensures filter == old(filter) && allComplete == old(allComplete) && loading == old(loading)
    {
      if value == "" {
        return;
      }
      var added := NewItem(now, value);
      var extended := items + [added];
      var newItems := SortedCopy(extended);
      if UniqueKeys(items) && now !in Keys(items) {
        UniqueKeysSnoc(items, added);
        PermutationKeepsUniqueKeys(extended, newItems);
      }
      if PrioritiesInRange(items) {
        assert PrioritiesInRange(extended);
        PermutationKeepsPrioritiesInRange(extended, newItems);
      }
      assert |newItems| == |multiset(newItems)| == |multiset(extended)| == |extended|;
      FilterKeepsOrder(filter, newItems);
      SetSource(newItems, FilterItems(filter, newItems));
      value := "";
    }

    /** Deletes the items with key `key`, keeping the others in order. */
    method RemoveItem(key: int)
      modifies this
      ensures Valid()
      ensures items == RemoveKey(old(items), key)
      ensures Subseq(items, old(items))
      ensures UniqueKeys(old(items)) ==> UniqueKeys(items)
      ensures filter == old(filter) && allComplete == old(allComplete)
      ensures value == old(value) && loading == old(loading)
    {
      var newItems := RemoveKey(items, key);
      RemoveIsSubseq(items, key);
      if UniqueKeys(items) {
        SubseqKeepsUniqueKeys(newItems, items);
      }
      SetSource(newItems, FilterItems(filter, newItems));
    }

    /** Switches the filter mode; the list itself is untouched. */
    method Filter(f: string)
      modifies this
      ensures Valid()
      ensures filter == f && items == old(items)
      ensures allComplete == old(allComplete) && value == old(value) && loading == old(loading)
    {
      SetSource(items, FilterItems(f, items));
      filter := f;
    }

    /** Deletes every completed item, keeping the others in order. */
    method ClearComplete()
      modifies this
      ensures Valid()
      ensures items == FilterItems(Active, old(items))
      ensures Subseq(items, old(items))
      ensures FilterItems(Completed, items) == []
      ensures FilterItems(Active, items) == FilterItems(Active, old(items))
      ensures UniqueKeys(old(items)) ==> UniqueKeys(items)
      ensures filter == old(filter) && allComplete == old(allComplete)
      ensures value == old(value) && loading == old(loading)
    {
      var newItems := FilterItems(Active, items);
      FilterIsSubseq(Active, items);
      FilterIdempotent(Active, items);
      FilterNoneShown(Completed, newItems);
      if UniqueKeys(items) {
        SubseqKeepsUniqueKeys(newItems, items);
      }
      SetSource(newItems, FilterItems(filter, newItems));
    }

    /** Raises the priority of the items with key `key` by one, up to the
        upper bound, and re-sorts. */
    method MoveUp(key: int)
      modifies this
      ensures Valid()
      ensures SortedByPriority(items) && SortedByPriority(view)
      ensures multiset(items) == multiset(UpdateWhere(old(items), key, Edit.MoveUp))
      ensures PrioritiesInRange(old(items)) ==> PrioritiesInRange(items)
      ensures UniqueKeys(old(items)) ==> UniqueKeys(items)
      ensures filter == old(filter) && allComplete == old(allComplete)
      ensures value == old(value) && loading == old(loading)
    {
      var moved := UpdateWhere(items, key, Edit.MoveUp);
      var newItems := SortedCopy(moved);
      KeepsRangeAndKeys(items, moved, newItems, key, Edit.MoveUp);
      FilterKeepsOrder(filter, newItems);
      SetSource(newItems, FilterItems(filter, newItems));
    }

    /** Lowers the priority of the items with key `key` by one, down to the
        lower bound, and re-sorts. */
    method MoveDown(key: int)
      modifies this
      ensures Valid()
      ensures SortedByPriority(items) && SortedByPriority(view)
      ensures multiset(items) == multiset(UpdateWhere(old(items), key, Edit.MoveDown))
      ensures PrioritiesInRange(old(items)) ==> PrioritiesInRange(items)
      ensures UniqueKeys(old(items)) ==> UniqueKeys(items)
      ensures filter == old(filter) && allComplete == old(allComplete)
      ensures value == old(value) && loading == old(loading)
    {
      var moved := UpdateWhere(items, key, Edit.MoveDown);
      var newItems := SortedCopy(moved);
      KeepsRangeAndKeys(items, moved, newItems, key, Edit.MoveDown);
      FilterKeepsOrder(filter, newItems);
      SetSource(newItems, FilterItems(filter, newItems));
    }

    /** The number of items still to do, shown in the footer. */
    function ActiveCount(): (n: nat)
      reads this
      ensures n <= |items|
      ensures n + |FilterItems(Completed, items)| == |items|
    {
      FilterPartition(items);
      |FilterItems(Active, items)|
    }
  }

  /** A keyed edit followed by any reordering keeps priorities in range and
      keys unique. */
  lemma KeepsRangeAndKeys(items: seq<Item>, edited: seq<Item>, sorted: seq<Item>, key: int, e: Edit)
    requires edited == UpdateWhere(items, key, e)
    requires multiset(sorted) == multiset(edited)
    ensures PrioritiesInRange(items) ==> PrioritiesInRange(sorted)
    ensures UniqueKeys(items) ==> UniqueKeys(sorted)
  {
    if PrioritiesInRange(items) {
      UpdateKeepsPrioritiesInRange(items, key, e);
      PermutationKeepsPrioritiesInRange(edited, sorted);
    }
    if UniqueKeys(items) {
      assert UniqueKeys(edited) by {
        forall i, j | 0 <= i < j < |edited| ensures edited[i].key != edited[j].key {
          assert Keys(edited)[i] == Keys(items)[i] && Keys(edited)[j] == Keys(items)[j];
        }
      }
      PermutationKeepsUniqueKeys(edited, sorted);
    }
  }
}
