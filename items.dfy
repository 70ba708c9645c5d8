/** The to-do item record and the facts about a list of items that the
    store's operations keep. */
module Items {
  import opened Wrappers

  /** One to-do entry. `key` is the creation time in milliseconds, `editing`
      is the row's edit-mode flag, and `newPriority` is the extra field that
      moving an item up or down attaches to it (absent on freshly added items). */
  datatype Item = Item(
    key: int,
    text: string,
    complete: bool,
    priority: int,
    editing: bool,
    newPriority: Option<int>)

  /** The bounds that moving an item up or down clamps its priority to. */
  const MinPriority: int := 0
  const MaxPriority: int := 10

  predicate InRange(p: int) {
    MinPriority <= p <= MaxPriority
  }

  /** Every item's priority lies within the clamping bounds. */
  predicate PrioritiesInRange(s: seq<Item>) {
    forall i :: 0 <= i < |s| ==> InRange(s[i].priority)
  }

  /** The store's display order: no item is preceded by one of lower priority. */
  predicate SortedByPriority(s: seq<Item>) {
    forall i, j :: 0 <= i < j < |s| ==> s[i].priority >= s[j].priority
  }

  /** The keys of the items, in list order. */
  function Keys(s: seq<Item>): (ks: seq<int>)
    ensures |ks| == |s|
    ensures forall i :: 0 <= i < |s| ==> ks[i] == s[i].key
  {
    seq(|s|, i requires 0 <= i < |s| => s[i].key)
  }

  /** No two positions of the list hold items with the same key. */
  predicate UniqueKeys(s: seq<Item>) {
    forall i, j :: 0 <= i < j < |s| ==> s[i].key != s[j].key
  }

  /** Prepending an item whose key no other item has keeps keys unique. */
  lemma {:induction false} UniqueKeysCons(x: Item, s: seq<Item>)
    requires UniqueKeys(s)
    requires forall y :: y in s ==> y.key != x.key
    ensures UniqueKeys([x] + s)
  {
    var t := [x] + s;
    forall i, j | 0 <= i < j < |t| ensures t[i].key != t[j].key {
      if i == 0 {
        assert t[j] == s[j - 1] && s[j - 1] in s;
      } else {
        assert t[i] == s[i - 1] && t[j] == s[j - 1];
      }
    }
  }

  /** Appending an item whose key is fresh keeps keys unique. */
  lemma {:induction false} UniqueKeysSnoc(s: seq<Item>, x: Item)
    requires UniqueKeys(s)
    requires x.key !in Keys(s)
    ensures UniqueKeys(s + [x])
  {
    var t := s + [x];
    forall i, j | 0 <= i < j < |t| ensures t[i].key != t[j].key {
      if j == |s| {
        assert Keys(s)[i] == s[i].key;
      } else {
        assert t[i] == s[i] && t[j] == s[j];
      }
    }
  }

  /** Uniqueness of keys depends only on the multiset of items, so any
      reordering of the list keeps it. */
  lemma {:induction false} PermutationKeepsUniqueKeys(a: seq<Item>, b: seq<Item>)
    requires multiset(a) == multiset(b)
    requires UniqueKeys(a)
    ensures UniqueKeys(b)
    decreases |a|
  {
    if a == [] {
      assert |b| == |multiset(b)| == 0;
    } else {
      assert a[0] in multiset(b);
      var m :| 0 <= m < |b| && b[m] == a[0];
      var rest := DeleteMatching(a, b, m);
      UniqueKeysTail(a);
      PermutationKeepsUniqueKeys(a[1..], rest);
      RestHasOtherKeys(a, rest);
      UniqueKeysInsert(rest, m, a[0]);
    }
  }

  /** Deleting from `b` a copy of `a`'s first item leaves an arrangement of
      the rest of `a`, into which that copy can be put back. */
  lemma DeleteMatching(a: seq<Item>, b: seq<Item>, m: nat) returns (rest: seq<Item>)
    requires multiset(a) == multiset(b) && a != []
    requires m < |b| && b[m] == a[0]
    ensures rest == b[..m] + b[m + 1..]
    ensures multiset(rest) == multiset(a[1..])
    ensures m <= |rest| && b == rest[..m] + [a[0]] + rest[m..]
  {
    rest := b[..m] + b[m + 1..];
    assert b == b[..m] + [b[m]] + b[m + 1..];
    assert multiset(b) == multiset(b[..m]) + multiset{b[m]} + multiset(b[m + 1..]);
    assert a == [a[0]] + a[1..];
    assert multiset(a) == multiset{a[0]} + multiset(a[1..]);
    forall y ensures multiset(rest)[y] == multiset(a[1..])[y] {
      assert multiset(a)[y] == multiset(b)[y];
    }
    assert rest[..m] == b[..m] && rest[m..] == b[m + 1..];
  }

  /** Dropping the first item keeps keys unique. */
  lemma UniqueKeysTail(s: seq<Item>)
    requires s != [] && UniqueKeys(s)
    ensures UniqueKeys(s[1..])
  {
    forall i, j | 0 <= i < j < |s| - 1 ensures s[1..][i].key != s[1..][j].key {
      assert s[1..][i] == s[i + 1] && s[1..][j] == s[j + 1];
    }
  }

  /** Inserting an item whose key no other item has, anywhere, keeps keys unique. */
  lemma UniqueKeysInsert(s: seq<Item>, m: nat, x: Item)
    requires m <= |s| && UniqueKeys(s)
    requires forall y :: y in s ==> y.key != x.key
    ensures UniqueKeys(s[..m] + [x] + s[m..])
  {
    var t := s[..m] + [x] + s[m..];
    forall i, j | 0 <= i < j < |t| ensures t[i].key != t[j].key {
      if i == m {
        assert t[j] == s[j - 1];
      } else if j == m {
        assert t[i] == s[i];
      } else {
        var i' := if i < m then i else i - 1;
        var j' := if j < m then j else j - 1;
        assert t[i] == s[i'] && t[j] == s[j'];
      }
    }
  }

  /** Any arrangement of the tail of a key-unique list avoids the head's key. */
  lemma RestHasOtherKeys(a: seq<Item>, rest: seq<Item>)
    requires a != [] && UniqueKeys(a)
    requires multiset(rest) == multiset(a[1..])
    ensures forall y :: y in rest ==> y.key != a[0].key
  {
    forall y | y in rest ensures y.key != a[0].key {
      assert y in multiset(a[1..]);
      var k :| 0 <= k < |a[1..]| && a[1..][k] == y;
      assert a[k + 1] == y;
    }
  }

  /** Reordering the list keeps every priority within the clamping bounds. */
  lemma PermutationKeepsPrioritiesInRange(a: seq<Item>, b: seq<Item>)
    requires multiset(a) == multiset(b)
    requires PrioritiesInRange(a)
    ensures PrioritiesInRange(b)
  {
    forall i | 0 <= i < |b| ensures InRange(b[i].priority) {
      assert b[i] in multiset(a);
      var k :| 0 <= k < |a| && a[k] == b[i];
    }
  }
}
