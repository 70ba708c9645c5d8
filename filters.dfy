/** The filter modes of the list and the selection of the items a mode shows. */
module Filters {
  import opened Items

  const All: string := "ALL"
  const Completed: string := "COMPLETED"
  const Active: string := "ACTIVE"

  /** Whether the filter mode `filter` shows `item`: every item under "ALL",
      the completed ones under "COMPLETED", the others under "ACTIVE", and
      none under any other string (the selection callback then returns
      nothing, which counts as false). */
  predicate Shows(filter: string, item: Item) {
    if filter == All then true
    else if filter == Completed then item.complete
    else if filter == Active then !item.complete
    else false
  }

  /** `r` is obtained from `s` by deleting elements, keeping the rest in order. */
  predicate Subseq(r: seq<Item>, s: seq<Item>)
    decreases |s|
  {
    if r == [] then true
    else if s == [] then false
    else (r[0] == s[0] && Subseq(r[1..], s[1..])) || Subseq(r, s[1..])
  }

  /** The items that filter mode `filter` shows, in list order. */
  function FilterItems(filter: string, items: seq<Item>): (r: seq<Item>)
    ensures |r| <= |items|
    ensures forall x :: x in r <==> x in items && Shows(filter, x)
  {
    if items == [] then []
    else (if Shows(filter, items[0]) then [items[0]] else []) + FilterItems(filter, items[1..])
  }

  /** The selection keeps the surviving items in their original order. */
  lemma {:induction false} FilterIsSubseq(filter: string, items: seq<Item>)
    ensures Subseq(FilterItems(filter, items), items)
  {
    if items != [] {
      FilterIsSubseq(filter, items[1..]);
      var r := FilterItems(filter, items);
      if Shows(filter, items[0]) {
        assert r[0] == items[0] && r[1..] == FilterItems(filter, items[1..]);
      } else {
        assert r == FilterItems(filter, items[1..]);
        if r != [] {
          assert Subseq(r, items[1..]);
        }
      }
    }
  }

  /** "ALL" shows the whole list unchanged. */
  lemma {:induction false} FilterAll(items: seq<Item>)
    ensures FilterItems(All, items) == items
  {
    if items != [] {
      FilterAll(items[1..]);
      assert items == [items[0]] + items[1..];
    }
  }

  /** A list none of whose items the mode shows has an empty selection. */
  lemma {:induction false} FilterNoneShown(filter: string, items: seq<Item>)
    requires forall x :: x in items ==> !Shows(filter, x)
    ensures FilterItems(filter, items) == []
  {
    if items != [] {
      assert items[0] in items;
      FilterNoneShown(filter, items[1..]);
    }
  }

  /** A string that names no mode shows nothing. */
  lemma FilterUnknown(filter: string, items: seq<Item>)
    requires filter != All && filter != Completed && filter != Active
    ensures FilterItems(filter, items) == []
  {
    FilterNoneShown(filter, items);
  }

  /** Each shown item keeps its multiplicity, each hidden one disappears. */
  lemma {:induction false} FilterMultiset(filter: string, items: seq<Item>, x: Item)
    ensures multiset(FilterItems(filter, items))[x]
         == if Shows(filter, x) then multiset(items)[x] else 0
  {
    if items != [] {
      FilterMultiset(filter, items[1..], x);
      assert items == [items[0]] + items[1..];
    }
  }

  /** "COMPLETED" and "ACTIVE" split the list between them. */
  lemma FilterPartition(items: seq<Item>)
    ensures multiset(FilterItems(Completed, items)) + multiset(FilterItems(Active, items))
         == multiset(items)
    ensures |FilterItems(Completed, items)| + |FilterItems(Active, items)| == |items|
  {
    forall x ensures (multiset(FilterItems(Completed, items)) + multiset(FilterItems(Active, items)))[x]
                  == multiset(items)[x] {
      FilterMultiset(Completed, items, x);
      FilterMultiset(Active, items, x);
    }
    assert multiset(FilterItems(Completed, items)) + multiset(FilterItems(Active, items))
        == multiset(items);
    assert |multiset(FilterItems(Completed, items))| + |multiset(FilterItems(Active, items))|
        == |multiset(items)|;
  }

  /** Reordering the list reorders the selection and nothing more. */
  lemma FilterPermutation(filter: string, a: seq<Item>, b: seq<Item>)
    requires multiset(a) == multiset(b)
    ensures multiset(FilterItems(filter, a)) == multiset(FilterItems(filter, b))
  {
    forall x ensures multiset(FilterItems(filter, a))[x] == multiset(FilterItems(filter, b))[x] {
      FilterMultiset(filter, a, x);
      FilterMultiset(filter, b, x);
    }
  }

  /** A list whose every item the mode shows is its own selection. */
  lemma {:induction false} FilterAllShown(filter: string, items: seq<Item>)
    requires forall x :: x in items ==> Shows(filter, x)
    ensures FilterItems(filter, items) == items
  {
    if items != [] {
      assert items[0] in items;
      FilterAllShown(filter, items[1..]);
      assert items == [items[0]] + items[1..];
    }
  }

  /** Selecting twice with the same mode selects nothing more. */
  lemma FilterIdempotent(filter: string, items: seq<Item>)
    ensures FilterItems(filter, FilterItems(filter, items)) == FilterItems(filter, items)
  {
    FilterAllShown(filter, FilterItems(filter, items));
  }

  /** The selection of a list in priority order is in priority order. */
  lemma FilterKeepsOrder(filter: string, items: seq<Item>)
    requires SortedByPriority(items)
    ensures SortedByPriority(FilterItems(filter, items))
  {
    FilterIsSubseq(filter, items);
    SubseqKeepsOrder(FilterItems(filter, items), items);
  }

  /** A subsequence holds only elements of the list. */
  lemma {:induction false} SubseqMembers(r: seq<Item>, s: seq<Item>)
    requires Subseq(r, s)
    ensures forall x :: x in r ==> x in s
    decreases |s|
  {
    if r != [] {
      if r[0] == s[0] && Subseq(r[1..], s[1..]) {
        SubseqMembers(r[1..], s[1..]);
        assert r == [r[0]] + r[1..];
      } else {
        SubseqMembers(r, s[1..]);
      }
    }
  }

  /** A subsequence of a list in priority order is in priority order. */
  lemma {:induction false} SubseqKeepsOrder(r: seq<Item>, s: seq<Item>)
    requires Subseq(r, s) && SortedByPriority(s)
    ensures SortedByPriority(r)
    decreases |s|
  {
    if r != [] {
      assert SortedByPriority(s[1..]) by {
        forall i, j | 0 <= i < j < |s| - 1 ensures s[1..][i].priority >= s[1..][j].priority {
          assert s[1..][i] == s[i + 1] && s[1..][j] == s[j + 1];
        }
      }
      if r[0] == s[0] && Subseq(r[1..], s[1..]) {
        SubseqKeepsOrder(r[1..], s[1..]);
        SubseqMembers(r[1..], s[1..]);
        forall i, j | 0 <= i < j < |r| ensures r[i].priority >= r[j].priority {
          if i == 0 {
            assert r[j] == r[1..][j - 1] && r[1..][j - 1] in s[1..];
          } else {
            assert r[i] == r[1..][i - 1] && r[j] == r[1..][j - 1];
          }
        }
      } else {
        SubseqKeepsOrder(r, s[1..]);
      }
    }
  }

  /** A subsequence of a key-unique list is key-unique. */
  lemma {:induction false} SubseqKeepsUniqueKeys(r: seq<Item>, s: seq<Item>)
    requires Subseq(r, s) && UniqueKeys(s)
    ensures UniqueKeys(r)
    decreases |s|
  {
    if r != [] {
      assert UniqueKeys(s[1..]) by {
        forall i, j | 0 <= i < j < |s| - 1 ensures s[1..][i].key != s[1..][j].key {
          assert s[1..][i] == s[i + 1] && s[1..][j] == s[j + 1];
        }
      }
      if r[0] == s[0] && Subseq(r[1..], s[1..]) {
        SubseqKeepsUniqueKeys(r[1..], s[1..]);
        SubseqMembers(r[1..], s[1..]);
        forall y | y in r[1..] ensures y.key != r[0].key {
          var k :| 0 <= k < |s[1..]| && s[1..][k] == y;
          assert s[k + 1] == y;
        }
        UniqueKeysCons(r[0], r[1..]);
        assert r == [r[0]] + r[1..];
      } else {
        SubseqKeepsUniqueKeys(r, s[1..]);
      }
    }
  }
}
