/** Grouping into a dictionary of lists, as backend/app/core/vm_performance.py does
    with `defaultdict(list)`, and what it neither loses nor doubles. Items without
    a key are passed over. */
module Grouping {
  import opened Wrappers
  import opened Texts

  /** The members of one group, in their order. */
  function Picked<T, K(==, !new)>(s: seq<T>, key: T -> Option<K>, k: K): seq<T> {
    if s == [] then []
    else
      var x := s[|s| - 1];
      Picked(s[..|s| - 1], key, k) + if key(x) == Some(k) then [x] else []
  }

  /** The items that have a key. */
  function Keyed<T, K(==, !new)>(s: seq<T>, key: T -> Option<K>): seq<T> {
    if s == [] then []
    else
      var x := s[|s| - 1];
      Keyed(s[..|s| - 1], key) + if key(x).Some? then [x] else []
  }

  /** The groups' keys in the order of their first members. */
  function KeysOf<T, K(==, !new)>(s: seq<T>, key: T -> Option<K>): seq<K> {
    if s == [] then []
    else
      var before, k := KeysOf(s[..|s| - 1], key), key(s[|s| - 1]);
      if k.None? || k.value in before then before else before + [k.value]
  }

  predicate Distinct<K(==, !new)>(s: seq<K>) {
    forall i, j :: 0 <= i < j < |s| ==> s[i] != s[j]
  }

  lemma {:induction false} KeysAreDistinct<T, K(!new)>(s: seq<T>, key: T -> Option<K>)
    ensures Distinct(KeysOf(s, key))
  {
    if s != [] { KeysAreDistinct(s[..|s| - 1], key); }
  }

  /** A group exists exactly for the keys that occur, so no group is empty. */
  lemma {:induction false} GroupsAreNotEmpty<T, K(!new)>(s: seq<T>, key: T -> Option<K>, k: K)
    ensures k in KeysOf(s, key) <==> Picked(s, key, k) != []
  {
    if s != [] { GroupsAreNotEmpty(s[..|s| - 1], key, k); }
  }

  /** The groups, by key. */
  function GroupsOf<T, K(==, !new)>(s: seq<T>, key: T -> Option<K>): (groups: map<K, seq<T>>)
    ensures forall k :: k in groups <==> k in KeysOf(s, key)
    ensures forall k :: k in groups ==> groups[k] == Picked(s, key, k)
  {
    map k | k in KeysOf(s, key) :: Picked(s, key, k)
  }

  predicate NoEmptyGroup<T(==), K(==)>(keys: seq<K>, groups: map<K, seq<T>>) {
    forall i :: 0 <= i < |keys| ==> keys[i] in groups && groups[keys[i]] != []
  }

  lemma {:induction false} GroupsAreFilled<T, K(!new)>(s: seq<T>, key: T -> Option<K>)
    ensures NoEmptyGroup(KeysOf(s, key), GroupsOf(s, key))
  {
    var keys := KeysOf(s, key);
    forall i | 0 <= i < |keys| ensures Picked(s, key, keys[i]) != [] && keys[i] in keys {
      GroupsAreNotEmpty(s, key, keys[i]);
    }
  }

  lemma {:induction false} PickedHaveKey<T, K(!new)>(s: seq<T>, key: T -> Option<K>, k: K, i: nat)
    requires i < |Picked(s, key, k)|
    ensures Picked(s, key, k)[i] in s && key(Picked(s, key, k)[i]) == Some(k)
  {
    if s != [] {
      var rest := s[..|s| - 1];
      assert s == rest + [s[|s| - 1]];
      if i < |Picked(rest, key, k)| { PickedHaveKey(rest, key, k, i); }
    }
  }

  /** The source's loop: one list per key, filled in passing. */
  method Group<T, K(==, !new)>(s: seq<T>, key: T -> Option<K>) returns (keys: seq<K>, groups: map<K, seq<T>>)
    ensures keys == KeysOf(s, key)
    ensures groups == GroupsOf(s, key)
  {
    keys, groups := [], map[];
    var i := 0;
    while i < |s|
      invariant 0 <= i <= |s|
      invariant keys == KeysOf(s[..i], key)
      invariant forall k :: k in groups <==> k in keys
      invariant forall k :: k in groups ==> groups[k] == Picked(s[..i], key, k)
    {
      var x := s[i];
      assert s[..i + 1][..i] == s[..i];
      if key(x).Some? {
        var k := key(x).value;
        GroupsAreNotEmpty(s[..i], key, k);
        if k !in groups { keys, groups := keys + [k], groups[k := []]; }
        groups := groups[k := groups[k] + [x]];
      }
      i := i + 1;
    }
    assert s[..i] == s;
  }

  // ---------- Nothing lost, nothing doubled ----------

  function Total<T>(s: seq<T>, amount: T -> real): real {
    if s == [] then 0.0 else Total(s[..|s| - 1], amount) + amount(s[|s| - 1])
  }

  /** The sum over the groups of what their members amount to. */
  function GroupTotal<T, K(==, !new)>(keys: seq<K>, s: seq<T>, key: T -> Option<K>, amount: T -> real): real {
    if keys == [] then 0.0
    else GroupTotal(keys[..|keys| - 1], s, key, amount) + Total(Picked(s, key, keys[|keys| - 1]), amount)
  }

  /** The groups one after the other. */
  function Gathered<T, K(==, !new)>(keys: seq<K>, s: seq<T>, key: T -> Option<K>): seq<T> {
    if keys == [] then [] else Gathered(keys[..|keys| - 1], s, key) + Picked(s, key, keys[|keys| - 1])
  }

  lemma {:induction false} TotalOfAppended<T>(s: seq<T>, x: T, amount: T -> real)
    ensures Total(s + [x], amount) == Total(s, amount) + amount(x)
  {
    assert (s + [x])[..|s|] == s;
  }

  lemma {:induction false} PickedOfAppended<T, K(!new)>(s: seq<T>, x: T, key: T -> Option<K>, k: K)
    ensures Picked(s + [x], key, k) == if key(x) == Some(k) then Picked(s, key, k) + [x] else Picked(s, key, k)
  {
    assert (s + [x])[..|s|] == s;
  }

  lemma {:induction false} NewItemElsewhere<T, K(!new)>(keys: seq<K>, s: seq<T>, key: T -> Option<K>, x: T)
    requires key(x).None? || key(x).value !in keys
    ensures Gathered(keys, s + [x], key) == Gathered(keys, s, key)
  {
    if keys != [] {
      var n := |keys| - 1;
      var k := keys[n];
      assert k in keys;
      PickedOfAppended(s, x, key, k);
      NewItemElsewhere(keys[..n], s, key, x);
    }
  }

  lemma {:induction false} GrownPart<T>(a: seq<T>, b: seq<T>, c: seq<T>, x: T)
    requires multiset(b) == multiset(a) + multiset{x}
    ensures multiset(b + c) == multiset(a + c) + multiset{x}
    ensures multiset(c + b) == multiset(c + a) + multiset{x}
  {}

  lemma {:induction false} NewItemInLast<T, K(!new)>(keys: seq<K>, s: seq<T>, key: T -> Option<K>, x: T, k: K)
    requires key(x) == Some(k) && k !in keys
    ensures multiset(Gathered(keys, s + [x], key) + Picked(s + [x], key, k))
         == multiset(Gathered(keys, s, key) + Picked(s, key, k)) + multiset{x}
  {
    PickedOfAppended(s, x, key, k);
    NewItemElsewhere(keys, s, key, x);
    GrownPart(Picked(s, key, k), Picked(s + [x], key, k), Gathered(keys, s, key), x);
  }

  lemma {:induction false} NewItemInOne<T, K(!new)>(keys: seq<K>, s: seq<T>, key: T -> Option<K>, x: T, i: nat)
    requires Distinct(keys) && i < |keys| && key(x) == Some(keys[i])
    ensures multiset(Gathered(keys, s + [x], key)) == multiset(Gathered(keys, s, key)) + multiset{x}
  {
    var n := |keys| - 1;
    if i == n {
      NewItemInLast(keys[..n], s, key, x, keys[n]);
    } else {
      NewItemInOne(keys[..n], s, key, x, i);
      PickedOfAppended(s, x, key, keys[n]);
      GrownPart(Gathered(keys[..n], s, key), Gathered(keys[..n], s + [x], key), Picked(s, key, keys[n]), x);
    }
  }

  lemma {:induction false} NewKey<T, K(!new)>(keys: seq<K>, s: seq<T>, key: T -> Option<K>, x: T)
    requires key(x).Some? && key(x).value !in keys && Picked(s, key, key(x).value) == []
    ensures Gathered(keys + [key(x).value], s + [x], key) == Gathered(keys, s, key) + [x]
  {
    var k := key(x).value;
    NewItemElsewhere(keys, s, key, x);
    PickedOfAppended(s, x, key, k);
    assert (keys + [k])[..|keys|] == keys;
  }

  /** Grouping is a partition: every keyed item ends up in exactly one group. */
  lemma {:induction false} GroupingIsAPartition<T, K(!new)>(s: seq<T>, key: T -> Option<K>)
    ensures multiset(Gathered(KeysOf(s, key), s, key)) == multiset(Keyed(s, key))
  {
    if s != [] {
      var rest, x := s[..|s| - 1], s[|s| - 1];
      var keys := KeysOf(rest, key);
      assert s == rest + [x];
      GroupingIsAPartition(rest, key);
      if key(x).None? {
        NewItemElsewhere(keys, rest, key, x);
      } else {
        KeysAreDistinct(rest, key);
        GroupsAreNotEmpty(rest, key, key(x).value);
        if key(x).value in keys {
          var i :| 0 <= i < |keys| && keys[i] == key(x).value;
          NewItemInOne(keys, rest, key, x, i);
        } else {
          NewKey(keys, rest, key, x);
        }
      }
    }
  }

  lemma {:induction false} TotalOfTwo<T>(a: seq<T>, b: seq<T>, amount: T -> real)
    ensures Total(a + b, amount) == Total(a, amount) + Total(b, amount)
  {
    if b == [] {
      assert a + b == a;
    } else {
      var n := |b| - 1;
      TotalOfTwo(a, b[..n], amount);
      assert a + b == (a + b[..n]) + [b[n]];
      TotalOfAppended(a + b[..n], b[n], amount);
    }
  }

  lemma {:induction false} GroupTotalIsTotal<T, K(!new)>(keys: seq<K>, s: seq<T>, key: T -> Option<K>,
                                                  amount: T -> real)
    ensures GroupTotal(keys, s, key, amount) == Total(Gathered(keys, s, key), amount)
  {
    if keys != [] {
      var n := |keys| - 1;
      GroupTotalIsTotal(keys[..n], s, key, amount);
      TotalOfTwo(Gathered(keys[..n], s, key), Picked(s, key, keys[n]), amount);
    }
  }

  lemma {:induction false} TotalWithout<T>(s: seq<T>, i: nat, amount: T -> real)
    requires i < |s|
    ensures Total(s, amount) == Total(s[..i] + s[i + 1..], amount) + amount(s[i])
  {
    assert s == (s[..i] + [s[i]]) + s[i + 1..];
    TotalOfTwo(s[..i] + [s[i]], s[i + 1..], amount);
    TotalOfAppended(s[..i], s[i], amount);
    TotalOfTwo(s[..i], s[i + 1..], amount);
  }

  /** A total does not depend on the order. */
  lemma {:induction false} TotalOfPermutation<T>(a: seq<T>, b: seq<T>, amount: T -> real)
    requires multiset(a) == multiset(b)
    ensures Total(a, amount) == Total(b, amount)
    decreases |a|
  {
    assert |a| == |multiset(a)| && |b| == |multiset(b)|;
    if a != [] {
      var k := RemoveFromBoth(a, 0, b);
      TotalWithout(a, 0, amount);
      TotalWithout(b, k, amount);
      TotalOfPermutation(a[..0] + a[0 + 1..], b[..k] + b[k + 1..], amount);
    }
  }

  /** Every quantity that adds up over the items adds up over the groups. */
  lemma {:induction false} GroupingConserves<T, K(!new)>(s: seq<T>, key: T -> Option<K>, amount: T -> real)
    ensures GroupTotal(KeysOf(s, key), s, key, amount) == Total(Keyed(s, key), amount)
  {
    GroupTotalIsTotal(KeysOf(s, key), s, key, amount);
    GroupingIsAPartition(s, key);
    TotalOfPermutation(Gathered(KeysOf(s, key), s, key), Keyed(s, key), amount);
  }
}
