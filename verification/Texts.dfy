/** Text operations of the source language, and one fact about permutations the
    other modules share. */
module Texts {
  import opened Wrappers

  function LowerChar(c: char): char {
    if 'A' <= c <= 'Z' then (c as int + 32) as char else c
  }

  /** Case folding of ASCII letters. */
  function Lower(s: string): (r: string)
    ensures |r| == |s|
    ensures forall k :: 0 <= k < |s| ==> r[k] == LowerChar(s[k])
  {
    seq(|s|, k requires 0 <= k < |s| => LowerChar(s[k]))
  }

  /** The alphabet folds to small letters, and nothing else changes. */
  lemma {:induction false} LettersFold(c: char)
    ensures Lower("ABCDEFGHIJKLMNOPQRSTUVWXYZ") == "abcdefghijklmnopqrstuvwxyz"
    ensures c !in "ABCDEFGHIJKLMNOPQRSTUVWXYZ" ==> LowerChar(c) == c
  {
    if 'A' <= c <= 'Z' { assert "ABCDEFGHIJKLMNOPQRSTUVWXYZ"[c as int - 'A' as int] == c; }
  }

  function IndexOf(s: string, c: char): (i: nat)
    ensures i <= |s|
    ensures i < |s| ==> s[i] == c
    ensures forall k :: 0 <= k < i ==> s[k] != c
  {
    if s == "" || s[0] == c then 0 else 1 + IndexOf(s[1..], c)
  }

  /** The white space that may surround a number. */
  predicate IsBlank(c: char) {
    var n := c as int;
    || 9 <= n <= 13 || n == 0x20 || n == 0x85 || n == 0xA0 || n == 0x1680 || 0x2000 <= n <= 0x200A
    || n == 0x2028 || n == 0x2029 || n == 0x202F || n == 0x205F || n == 0x3000
  }

  lemma {:induction false} BlanksAre(c: char)
    ensures IsBlank(c)
       <==> c as int in {0x09, 0x0A, 0x0B, 0x0C, 0x0D, 0x20, 0x85, 0xA0, 0x1680, 0x2000, 0x2001, 0x2002, 0x2003, 0x2004,
                         0x2005, 0x2006, 0x2007, 0x2008, 0x2009, 0x200A, 0x2028, 0x2029, 0x202F, 0x205F, 0x3000}
  {
  }

  /** Neither missing nor empty. */
  predicate Filled(s: Option<string>) {
    s.Some? && s.value != ""
  }

  /** Python's string order: by code point, a prefix first. */
  predicate TextLe(a: string, b: string) {
    a == "" || (b != "" && (a[0] < b[0] || (a[0] == b[0] && TextLe(a[1..], b[1..]))))
  }

  lemma {:induction false} TextLeTotal(a: string, b: string)
    ensures TextLe(a, b) || TextLe(b, a)
  {
    if a != "" && b != "" { TextLeTotal(a[1..], b[1..]); }
  }

  lemma {:induction false} TextLeAntisymmetric(a: string, b: string)
    requires TextLe(a, b) && TextLe(b, a)
    ensures a == b
  {
    if a != "" && b != "" {
      TextLeAntisymmetric(a[1..], b[1..]);
      assert a == [a[0]] + a[1..] && b == [b[0]] + b[1..];
    }
  }

  lemma {:induction false} TextLeTransitive(a: string, b: string, c: string)
    requires TextLe(a, b) && TextLe(b, c)
    ensures TextLe(a, c)
  {
    if a != "" && a[0] == b[0] == c[0] { TextLeTransitive(a[1..], b[1..], c[1..]); }
  }

  /** A text comes before another if it is its beginning, or smaller where they first differ. */
  lemma {:induction false} TextLeByFirstDifference(a: string, b: string)
    ensures TextLe(a, b) <==> a <= b || exists k :: 0 <= k < |a| && k < |b| && a[..k] == b[..k] && a[k] < b[k]
  {
    if a != "" && b != "" && a[0] == b[0] {
      TextLeByFirstDifference(a[1..], b[1..]);
      assert a <= b <==> a[1..] <= b[1..];
      if k :| 0 <= k < |a| && k < |b| && a[..k] == b[..k] && a[k] < b[k] {
        assert a[1..][..k - 1] == a[..k][1..] && b[1..][..k - 1] == b[..k][1..] && a[1..][k - 1] < b[1..][k - 1];
      }
      if k :| 0 <= k < |a| - 1 && k < |b| - 1 && a[1..][..k] == b[1..][..k] && a[1..][k] < b[1..][k] {
        assert a[..k + 1] == [a[0]] + a[1..][..k] && b[..k + 1] == [b[0]] + b[1..][..k] && a[k + 1] < b[k + 1];
      }
    } else if a != "" && b != "" {
      assert a[..0] == b[..0];
      BeginningsAgree(a, b);
    }
  }

  lemma {:induction false} BeginningsAgree(a: string, b: string)
    requires a != "" && b != ""
    ensures forall k :: 0 < k <= |a| && k <= |b| && a[..k] == b[..k] ==> a[0] == b[0]
  {
    forall k | 0 < k <= |a| && k <= |b| && a[..k] == b[..k] ensures a[0] == b[0] {
      assert a[..k][0] == b[..k][0];
    }
  }

  /** Taking one element out of a sequence and its copy out of a permutation of
      it leaves permutations. */
  lemma {:induction false} RemoveFromBoth<T>(a: seq<T>, i: nat, b: seq<T>) returns (k: nat)
    requires multiset(a) == multiset(b) && i < |a|
    ensures k < |b| && b[k] == a[i]
    ensures multiset(a[..i] + a[i + 1..]) == multiset(b[..k] + b[k + 1..])
  {
    assert a[i] in multiset(b);
    k :| 0 <= k < |b| && b[k] == a[i];
    MultisetWithout(a, i);
    MultisetWithout(b, k);
    EqualWithout(multiset(a[..i] + a[i + 1..]), multiset(b[..k] + b[k + 1..]), a[i]);
  }

  lemma {:induction false} EqualWithout<T>(a: multiset<T>, b: multiset<T>, x: T)
    requires a + multiset{x} == b + multiset{x}
    ensures a == b
  {
    assert a == (a + multiset{x}) - multiset{x};
    assert b == (b + multiset{x}) - multiset{x};
  }

  lemma {:induction false} CountAppended<T>(s: seq<T>, last: T, x: T)
    ensures multiset(s + [last])[x] == multiset(s)[x] + (if last == x then 1 else 0)
  {
  }

  lemma {:induction false} MultisetWithout<T>(a: seq<T>, k: nat)
    requires k < |a|
    ensures multiset(a) == multiset(a[..k] + a[k + 1..]) + multiset{a[k]}
  {
    assert a == a[..k] + ([a[k]] + a[k + 1..]);
  }

  /** The images of a permutation are a permutation of the images. */
  lemma {:induction false} ImagesPermuted<T, U>(a: seq<T>, b: seq<T>, fa: seq<U>, fb: seq<U>, f: T -> U)
    requires multiset(a) == multiset(b) && |fa| == |a| && |fb| == |b|
    requires (forall k :: 0 <= k < |a| ==> fa[k] == f(a[k])) && forall k :: 0 <= k < |b| ==> fb[k] == f(b[k])
    ensures multiset(fa) == multiset(fb)
    decreases |a|
  {
    assert |a| == |multiset(a)| == |multiset(b)| == |b|;
    if a != [] {
      var n := |a| - 1;
      var k := RemoveFromBoth(a, n, b);
      ImagesPermuted(a[..n] + a[n + 1..], b[..k] + b[k + 1..], fa[..n] + fa[n + 1..], fb[..k] + fb[k + 1..], f);
      MultisetWithout(fa, n);
      MultisetWithout(fb, k);
    }
  }

  /** The parts, one after the other. */
  function Joined<T>(parts: seq<seq<T>>): seq<T> {
    if parts == [] then [] else Joined(parts[..|parts| - 1]) + parts[|parts| - 1]
  }

  lemma {:induction false} JoinedNext<T>(parts: seq<seq<T>>, n: nat)
    requires n < |parts|
    ensures Joined(parts[..n + 1]) == Joined(parts[..n]) + parts[n]
  {
    assert parts[..n + 1][..n] == parts[..n];
  }

  lemma {:induction false} MemberOfJoined<T>(parts: seq<seq<T>>, x: T)
    ensures x in Joined(parts) <==> exists k :: 0 <= k < |parts| && x in parts[k]
  {
    if parts != [] {
      MemberOfJoined(parts[..|parts| - 1], x);
    }
  }

  /** The results for all elements, one after the other. */
  function Flat<T, U>(s: seq<T>, f: T -> seq<U>): seq<U> {
    if s == [] then [] else Flat(s[..|s| - 1], f) + f(s[|s| - 1])
  }

  lemma {:induction false} MemberOfFlat<T, U>(s: seq<T>, f: T -> seq<U>, x: U)
    ensures x in Flat(s, f) <==> exists t :: t in s && x in f(t)
  {
    if s != [] {
      var front, last := s[..|s| - 1], s[|s| - 1];
      MemberOfFlat(front, f, x);
      assert s == front + [last];
    }
  }

  lemma {:induction false} Regrouped<T>(a: seq<T>, b: seq<T>, c: seq<T>)
    ensures (a + b) + c == a + (b + c)
  {}

  lemma {:induction false} MiddleOut<T>(a: seq<T>, b: seq<T>, c: seq<T>)
    ensures multiset((a + b) + c) == multiset(a + c) + multiset(b)
  {}

  lemma {:induction false} FlatOfAppended<T, U>(s: seq<T>, x: T, f: T -> seq<U>)
    ensures Flat(s + [x], f) == Flat(s, f) + f(x)
  {
    assert (s + [x])[..|s|] == s;
  }

  lemma {:induction false} FlatOfTwo<T, U>(a: seq<T>, b: seq<T>, f: T -> seq<U>)
    ensures Flat(a + b, f) == Flat(a, f) + Flat(b, f)
  {
    if b == [] {
      assert a + b == a;
    } else {
      var front, last := b[..|b| - 1], b[|b| - 1];
      FlatOfTwo(a, front, f);
      assert a + b == (a + front) + [last];
      FlatOfAppended(a + front, last, f);
      Regrouped(Flat(a, f), Flat(front, f), f(last));
    }
  }

  lemma {:induction false} FlatWithout<T, U>(s: seq<T>, k: nat, f: T -> seq<U>)
    requires k < |s|
    ensures multiset(Flat(s, f)) == multiset(Flat(s[..k] + s[k + 1..], f)) + multiset(f(s[k]))
  {
    var before, after := s[..k], s[k + 1..];
    assert s == (before + [s[k]]) + after;
    FlatOfTwo(before + [s[k]], after, f);
    FlatOfAppended(before, s[k], f);
    FlatOfTwo(before, after, f);
    MiddleOut(Flat(before, f), f(s[k]), Flat(after, f));
  }

  lemma {:induction false} FlatPermuted<T, U>(a: seq<T>, b: seq<T>, f: T -> seq<U>)
    requires multiset(a) == multiset(b)
    ensures multiset(Flat(a, f)) == multiset(Flat(b, f))
    decreases |a|
  {
    assert |a| == |multiset(a)| == |multiset(b)| == |b|;
    if |a| > 0 {
      var i := |a| - 1;
      var k := RemoveFromBoth(a, i, b);
      FlatPermuted(a[..i] + a[i + 1..], b[..k] + b[k + 1..], f);
      FlatWithout(a, i, f);
      FlatWithout(b, k, f);
    }
  }

  /** What holds from some step on holds at the end exactly if some step brought it. */
  lemma {:induction false} BroughtBySomeStep(holds: nat -> bool, brings: nat -> bool, m: nat)
    requires !holds(0)
    requires forall k: nat :: k < m ==> (holds(k + 1) <==> holds(k) || brings(k))
    ensures holds(m) <==> exists k: nat :: k < m && brings(k)
  {
    if m > 0 { BroughtBySomeStep(holds, brings, m - 1); }
  }
}
