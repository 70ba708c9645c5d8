/** The per-item transformations behind the store's handlers: editing one
    keyed item, marking every item, deleting by key, and building a new item
    from the pending input text. */
module ItemUpdates {
  import opened Wrappers
  import opened Items
  import opened Filters

  /** What a keyed handler does to the item it targets. */
  datatype Edit =
    | SetText(text: string)
    | SetEditing(editing: bool)
    | SetComplete(complete: bool)
    | MoveUp
    | MoveDown

  /** The copy of `item` a keyed handler builds. Moving up raises the
      priority by one below the upper bound and records the priority it had;
      at or above the bound it records the bound and keeps the priority.
      Moving down is the mirror image at the lower bound. */
  function Apply(item: Item, e: Edit): (r: Item) {
    match e
    case SetText(t) => item.(text := t)
    case SetEditing(b) => item.(editing := b)
    case SetComplete(c) => item.(complete := c)
    case MoveUp =>
      if item.priority < MaxPriority
      then item.(priority := item.priority + 1, newPriority := Some(item.priority))
      else item.(newPriority := Some(MaxPriority))
    case MoveDown =>
      if item.priority >= MinPriority + 1
      then item.(priority := item.priority - 1, newPriority := Some(item.priority))
      else item.(newPriority := Some(MinPriority))
  }

  /** Applies `e` to every item whose key is `key`, leaving the others as they are. */
  function UpdateWhere(items: seq<Item>, key: int, e: Edit): (r: seq<Item>)
    ensures |r| == |items| && Keys(r) == Keys(items)
    ensures forall i :: 0 <= i < |items| && items[i].key != key ==> r[i] == items[i]
    ensures forall i :: 0 <= i < |items| && items[i].key == key ==> r[i] == Apply(items[i], e)
    ensures key !in Keys(items) ==> r == items
  {
    seq(|items|, i requires 0 <= i < |items| =>
      if items[i].key == key then Apply(items[i], e) else items[i])
  }

  /** Moving up adds one to a priority below the upper bound and leaves the
      others alone; moving down subtracts one from a priority of at least one
      and leaves the others alone. */
  lemma MovePriority(item: Item)
    ensures Apply(item, MoveUp).priority
         == if item.priority < MaxPriority then item.priority + 1 else item.priority
    ensures Apply(item, MoveDown).priority
         == if item.priority >= 1 then item.priority - 1 else item.priority
  {
  }

  /** No edit takes a priority out of the clamping bounds. */
  lemma EditKeepsRange(item: Item, e: Edit)
    requires InRange(item.priority)
    ensures InRange(Apply(item, e).priority)
  {
  }

  /** Moving down undoes moving up for a priority strictly below the upper bound. */
  lemma MoveDownUndoesMoveUp(item: Item)
    requires MinPriority <= item.priority < MaxPriority
    ensures Apply(Apply(item, MoveUp), MoveDown).priority == item.priority
  {
  }

  /** Moving up undoes moving down for a priority strictly above the lower bound. */
  lemma MoveUpUndoesMoveDown(item: Item)
    requires MinPriority < item.priority <= MaxPriority
    ensures Apply(Apply(item, MoveDown), MoveUp).priority == item.priority
  {
  }

  /** A keyed edit keeps every priority within the clamping bounds. */
  lemma UpdateKeepsPrioritiesInRange(items: seq<Item>, key: int, e: Edit)
    requires PrioritiesInRange(items)
    ensures PrioritiesInRange(UpdateWhere(items, key, e))
  {
    var r := UpdateWhere(items, key, e);
    forall i | 0 <= i < |r| ensures InRange(r[i].priority) {
      if items[i].key == key {
        EditKeepsRange(items[i], e);
      }
    }
  }

  /** Whether an edit leaves the completion flag, the only field the filter
      modes look at, untouched. */
  predicate KeepsComplete(e: Edit) {
    !e.SetComplete?
  }

  /** A keyed edit of a concatenation edits each part. */
  lemma UpdateAppend(a: seq<Item>, b: seq<Item>, key: int, e: Edit)
    ensures UpdateWhere(a + b, key, e) == UpdateWhere(a, key, e) + UpdateWhere(b, key, e)
  {
    var l := UpdateWhere(a + b, key, e);
    var r := UpdateWhere(a, key, e) + UpdateWhere(b, key, e);
    forall i | 0 <= i < |l| ensures l[i] == r[i] {
      if i >= |a| {
        assert (a + b)[i] == b[i - |a|];
      }
    }
  }

  /** An edit that does not touch completion commutes with filtering: the
      shown items after the edit are the previously shown items, edited. */
  lemma {:induction false} FilterUpdateCommute(filter: string, items: seq<Item>, key: int, e: Edit)
    requires KeepsComplete(e)
    ensures FilterItems(filter, UpdateWhere(items, key, e))
         == UpdateWhere(FilterItems(filter, items), key, e)
  {
    if items != [] {
      var r := UpdateWhere(items, key, e);
      assert r[1..] == UpdateWhere(items[1..], key, e);
      FilterUpdateCommute(filter, items[1..], key, e);
      var head := if Shows(filter, items[0]) then [items[0]] else [];
      var edited := if Shows(filter, r[0]) then [r[0]] else [];
      assert FilterItems(filter, r) == edited + FilterItems(filter, r[1..]);
      assert FilterItems(filter, items) == head + FilterItems(filter, items[1..]);
      UpdateAppend(head, FilterItems(filter, items[1..]), key, e);
      KeepsCompleteKeepsShown(filter, items[0], e);
      assert UpdateWhere(head, key, e) == edited;
    }
  }

  /** An edit that does not touch completion leaves an item shown or hidden. */
  lemma KeepsCompleteKeepsShown(filter: string, x: Item, e: Edit)
    requires KeepsComplete(e)
    ensures Apply(x, e).complete == x.complete
    ensures Shows(filter, Apply(x, e)) == Shows(filter, x)
  {
  }

  /** Completing the item with key `key` puts it in the "COMPLETED" view and
      takes it out of the "ACTIVE" one; un-completing does the opposite. */
  lemma SetCompleteMovesBetweenViews(items: seq<Item>, key: int, c: bool, i: nat)
    requires i < |items| && items[i].key == key
    ensures var r := UpdateWhere(items, key, SetComplete(c));
      (r[i] in FilterItems(Completed, r) <==> c) && (r[i] in FilterItems(Active, r) <==> !c)
  {
  }

  /** A later text edit of the same key overrides an earlier one. */
  lemma SetTextOverrides(items: seq<Item>, key: int, t1: string, t2: string)
    ensures UpdateWhere(UpdateWhere(items, key, SetText(t1)), key, SetText(t2))
         == UpdateWhere(items, key, SetText(t2))
  {
  }

  /** With unique keys, writing an item's old text back undoes a text edit. */
  lemma SetTextRestores(items: seq<Item>, i: nat, t: string)
    requires UniqueKeys(items) && i < |items|
    ensures UpdateWhere(UpdateWhere(items, items[i].key, SetText(t)), items[i].key, SetText(items[i].text))
         == items
  {
    var k := items[i].key;
    var r := UpdateWhere(UpdateWhere(items, k, SetText(t)), k, SetText(items[i].text));
    forall j | 0 <= j < |items| ensures r[j] == items[j] {
    }
  }

  /** Sets every item's completion flag to `c`, changing nothing else. */
  function SetAllComplete(items: seq<Item>, c: bool): (r: seq<Item>)
    ensures |r| == |items| && Keys(r) == Keys(items)
    ensures forall i :: 0 <= i < |items| ==> r[i].complete == c && r[i].(complete := items[i].complete) == items[i]
  {
    seq(|items|, i requires 0 <= i < |items| => items[i].(complete := c))
  }

  /** After marking everything complete the "COMPLETED" view is the whole list
      and the "ACTIVE" view is empty, and the other way round after marking
      everything active. */
  lemma SetAllCompleteViews(items: seq<Item>, c: bool)
    ensures var r := SetAllComplete(items, c);
      FilterItems(if c then Completed else Active, r) == r &&
      FilterItems(if c then Active else Completed, r) == []
  {
    var r := SetAllComplete(items, c);
    forall x | x in r ensures x.complete == c {
      var k :| 0 <= k < |r| && r[k] == x;
    }
    FilterAllShown(if c then Completed else Active, r);
    FilterNoneShown(if c then Active else Completed, r);
  }

  /** Marking everything twice is the same as marking it once with the second flag. */
  lemma SetAllCompleteTwice(items: seq<Item>, c1: bool, c2: bool)
    ensures SetAllComplete(SetAllComplete(items, c1), c2) == SetAllComplete(items, c2)
  {
  }

  /** Marking everything complete and then everything active does not, in
      general, give back each item's own earlier flag. */
  lemma SetAllCompleteTwiceForgets()
    ensures var items := [Item(1, "a", true, 0, false, None), Item(2, "b", false, 0, false, None)];
      SetAllComplete(SetAllComplete(items, true), false) != items
  {
    var items := [Item(1, "a", true, 0, false, None), Item(2, "b", false, 0, false, None)];
    assert SetAllComplete(SetAllComplete(items, true), false)[0].complete != items[0].complete;
  }

  /** The list without the items whose key is `key`, in the original order. */
  function RemoveKey(items: seq<Item>, key: int): (r: seq<Item>)
    ensures |r| <= |items|
    ensures forall x :: x in r <==> x in items && x.key != key
    ensures key !in Keys(items) ==> r == items
  {
    if items == [] then []
    else
      assert Keys(items) == [items[0].key] + Keys(items[1..]);
      (if items[0].key != key then [items[0]] else []) + RemoveKey(items[1..], key)
  }

  /** Removal deletes every copy of the items with the key and keeps every
      copy of the others. */
  lemma {:induction false} RemoveMultiset(items: seq<Item>, key: int, x: Item)
    ensures multiset(RemoveKey(items, key))[x] == if x.key != key then multiset(items)[x] else 0
  {
    if items != [] {
      RemoveMultiset(items[1..], key, x);
      var head := if items[0].key != key then [items[0]] else [];
      assert RemoveKey(items, key) == head + RemoveKey(items[1..], key);
      assert multiset(RemoveKey(items, key)) == multiset(head) + multiset(RemoveKey(items[1..], key));
      assert items == [items[0]] + items[1..];
      assert multiset(items) == multiset{items[0]} + multiset(items[1..]);
    }
  }

  /** Removal keeps the surviving items in their original order. */
  lemma {:induction false} RemoveIsSubseq(items: seq<Item>, key: int)
    ensures Subseq(RemoveKey(items, key), items)
  {
    if items != [] {
      RemoveIsSubseq(items[1..], key);
      var r := RemoveKey(items, key);
      if items[0].key != key {
        assert r[0] == items[0] && r[1..] == RemoveKey(items[1..], key);
      } else {
        assert r == RemoveKey(items[1..], key);
        if r != [] {
          assert Subseq(r, items[1..]);
        }
      }
    }
  }

  /** Whether the JavaScript string trim treats `c` as white space: the
      white-space and line-terminator characters of ECMAScript. */
  predicate IsSpace(c: char) {
    c in {'\t', '\n', '\U{000B}', '\U{000C}', '\r', ' ', '\U{00A0}', '\U{1680}',
          '\U{2028}', '\U{2029}', '\U{202F}', '\U{205F}', '\U{3000}', '\U{FEFF}'}
    || '\U{2000}' <= c <= '\U{200A}'
  }

  /** The end of the run of white space in `s` that starts at `i`. */
  function SpaceRunEnd(s: string, i: nat): (n: nat)
    requires i <= |s|
    ensures i <= n <= |s|
    ensures forall k :: i <= k < n ==> IsSpace(s[k])
    ensures n < |s| ==> !IsSpace(s[n])
    decreases |s| - i
  {
    if i < |s| && IsSpace(s[i]) then SpaceRunEnd(s, i + 1) else i
  }

  /** The start of the run of white space in `s` that ends at `j`, looking no
      further back than `lo`. */
  function SpaceRunStart(s: string, lo: nat, j: nat): (m: nat)
    requires lo <= j <= |s|
    ensures lo <= m <= j
    ensures forall k :: m <= k < j ==> IsSpace(s[k])
    ensures m > lo ==> !IsSpace(s[m - 1])
    decreases j
  {
    if j > lo && IsSpace(s[j - 1]) then SpaceRunStart(s, lo, j - 1) else j
  }

  /** `r` is the slice of `s` starting at `i` and everything of `s` outside
      that slice is white space. */
  predicate IsTrimmedAt(s: string, i: int, r: string) {
    0 <= i <= i + |r| <= |s| && r == s[i..i + |r|]
    && (forall k :: 0 <= k < i ==> IsSpace(s[k]))
    && (forall k :: i + |r| <= k < |s| ==> IsSpace(s[k]))
  }

  /** `s` without leading and trailing white space: the middle slice of `s`
      that starts and ends with a non-space character, everything cut off
      being white space. */
  function Trim(s: string): (r: string)
    ensures exists i :: 0 <= i <= |s| - |r| && IsTrimmedAt(s, i, r)
    ensures r != [] ==> !IsSpace(r[0]) && !IsSpace(r[|r| - 1])
  {
    var i := SpaceRunEnd(s, 0);
    var j := SpaceRunStart(s, i, |s|);
    assert IsTrimmedAt(s, i, s[i..j]);
    s[i..j]
  }

  /** A value made only of white space trims to the empty text. */
  lemma TrimAllSpace(s: string)
    requires forall i :: 0 <= i < |s| ==> IsSpace(s[i])
    ensures Trim(s) == []
  {
  }

  /** A text that neither starts nor ends with white space trims to itself. */
  lemma TrimUnpadded(s: string)
    requires s != [] && !IsSpace(s[0]) && !IsSpace(s[|s| - 1])
    ensures Trim(s) == s
  {
    assert SpaceRunEnd(s, 0) == 0;
    assert SpaceRunStart(s, 0, |s|) == |s|;
  }

  /** Trimming a trimmed text changes nothing. */
  lemma TrimIdempotent(s: string)
    ensures Trim(Trim(s)) == Trim(s)
  {
    if Trim(s) != [] {
      TrimUnpadded(Trim(s));
    }
  }

  /** The item the add handler appends: the pending text trimmed, not
      complete, at the lowest priority, not being edited, with no recorded
      move. */
  function NewItem(key: int, value: string): Item {
    Item(key, Trim(value), false, MinPriority, false, None)
  }
}
