/** Sorting the item list by descending priority. The runtime's own array
    sort is stood in for by an insertion sort; only what every correct sort
    guarantees is promised, so the relative order of equal priorities is left
    open. */
module Sorting {
  import opened Items

  /** Sorts `a` in place so that priorities never increase along it, ending
      with the same items it started with. */
  method SortItems(a: array<Item>)
    modifies a
    ensures SortedByPriority(a[..])
    ensures multiset(a[..]) == multiset(old(a[..]))
  {
    var i := 0;
    while i < a.Length
      invariant 0 <= i <= a.Length
      invariant forall k, l :: 0 <= k < l < i ==> a[k].priority >= a[l].priority
      invariant multiset(a[..]) == multiset(old(a[..]))
    {
      InsertBack(a, i);
      i := i + 1;
    }
  }

  /** Moves `a[i]` left past every item of lower priority, so that the
      sorted prefix `a[..i]` grows to the sorted prefix `a[..i + 1]`. */
  method InsertBack(a: array<Item>, i: nat)
    requires i < a.Length
    requires forall k, l :: 0 <= k < l < i ==> a[k].priority >= a[l].priority
    modifies a
    ensures forall k, l :: 0 <= k < l <= i ==> a[k].priority >= a[l].priority
    ensures multiset(a[..]) == multiset(old(a[..]))
  {
    var j := i;
    while j > 0 && a[j - 1].priority < a[j].priority
      invariant 0 <= j <= i
      invariant forall k, l :: 0 <= k < l <= i && k != j && l != j ==> a[k].priority >= a[l].priority
      invariant forall l :: j < l <= i ==> a[j].priority > a[l].priority
      invariant multiset(a[..]) == multiset(old(a[..]))
    {
      Swap(a, j - 1, j);
      j := j - 1;
    }
  }

  /** Exchanges two neighbouring items. */
  method Swap(a: array<Item>, i: nat, j: nat)
    requires i < j < a.Length
    modifies a
    ensures a[i] == old(a[j]) && a[j] == old(a[i])
    ensures forall k :: 0 <= k < a.Length && k != i && k != j ==> a[k] == old(a[k])
    ensures multiset(a[..]) == multiset(old(a[..]))
  {
    a[i], a[j] := a[j], a[i];
  }

  /** Copies `s` into a fresh array and sorts that, as the handlers do with the
      new list they build before installing it. */
  method SortedCopy(s: seq<Item>) returns (r: seq<Item>)
    ensures SortedByPriority(r)
    ensures multiset(r) == multiset(s)
  {
    var a := new Item[|s|](i requires 0 <= i < |s| => s[i]);
    assert a[..] == s;
    SortItems(a);
    r := a[..];
  }

  /** The first item of a list in priority order has the highest priority. */
  lemma SortedHeadIsMax(s: seq<Item>, x: Item)
    requires SortedByPriority(s) && x in s
    ensures s[0].priority >= x.priority
  {
    var k :| 0 <= k < |s| && s[k] == x;
    if k > 0 {
      assert s[0].priority >= s[k].priority;
    }
  }

  /** No two items share a priority. */
  predicate DistinctPriorities(s: seq<Item>) {
    forall i, j :: 0 <= i < j < |s| ==> s[i].priority != s[j].priority
  }

  /** When no two priorities are equal, the sorted order is fully determined:
      any two sorted arrangements of the same items coincide. Ties are the
      only freedom the sort has. */
  lemma {:induction false} SortedPermutationUnique(a: seq<Item>, b: seq<Item>)
    requires SortedByPriority(a) && SortedByPriority(b)
    requires multiset(a) == multiset(b)
    requires DistinctPriorities(a)
    ensures a == b
    decreases |a|
  {
    if a == [] {
      assert |b| == |multiset(b)| == 0;
    } else {
      SortedHeadsAgree(a, b);
      TailsPermutation(a, b);
      TailKeepsOrder(a);
      TailKeepsOrder(b);
      SortedPermutationUnique(a[1..], b[1..]);
      SameHeadSameTail(a, b);
    }
  }

  /** Removing the same first item from two arrangements of the same items
      leaves two arrangements of the same items. */
  lemma TailsPermutation(a: seq<Item>, b: seq<Item>)
    requires a != [] && b != [] && a[0] == b[0]
    requires multiset(a) == multiset(b)
    ensures multiset(a[1..]) == multiset(b[1..])
  {
    assert a == [a[0]] + a[1..] && b == [b[0]] + b[1..];
    assert multiset(a) == multiset{a[0]} + multiset(a[1..]);
    assert multiset(b) == multiset{a[0]} + multiset(b[1..]);
    forall y ensures multiset(a[1..])[y] == multiset(b[1..])[y] {
      assert multiset(a)[y] == multiset(b)[y];
    }
  }

  lemma SameHeadSameTail(a: seq<Item>, b: seq<Item>)
    requires a != [] && b != [] && a[0] == b[0] && a[1..] == b[1..]
    ensures a == b
  {
    assert a == [a[0]] + a[1..] && b == [b[0]] + b[1..];
  }

  /** Two items of different priorities sort highest first. */
  lemma SortTwo(s: seq<Item>, x: Item, y: Item)
    requires SortedByPriority(s) && multiset(s) == multiset([x, y])
    requires x.priority > y.priority
    ensures s == [x, y]
  {
    SortedPermutationUnique([x, y], s);
  }

  /** Two sorted arrangements of the same items without priority ties start
      with the same item. */
  lemma SortedHeadsAgree(a: seq<Item>, b: seq<Item>)
    requires SortedByPriority(a) && SortedByPriority(b)
    requires multiset(a) == multiset(b)
    requires DistinctPriorities(a) && a != []
    ensures b != [] && a[0] == b[0]
  {
    assert a[0] in multiset(b);
    assert b[0] in multiset(a);
    SortedHeadIsMax(b, a[0]);
    SortedHeadIsMax(a, b[0]);
    var k :| 0 <= k < |a| && a[k] == b[0];
    assert a[k].priority == a[0].priority;
  }

  /** Dropping the first item keeps order and distinctness. */
  lemma TailKeepsOrder(s: seq<Item>)
    requires s != []
    ensures SortedByPriority(s) ==> SortedByPriority(s[1..])
    ensures DistinctPriorities(s) ==> DistinctPriorities(s[1..])
  {
    forall i, j | 0 <= i < j < |s| - 1
      ensures s[1..][i] == s[i + 1] && s[1..][j] == s[j + 1]
    {
    }
  }
}
