/** Windows paths of a VM's files: the storage root they lie on, a CSV folder or an
    SMB share, and the rest below it. */
module StoragePaths {
  import opened Wrappers
  import opened Texts

  const BACKSLASH := '\\'

  /** What strip() removes: the separators of ASCII besides the white space around numbers. */
  predicate IsSpace(c: char) {
    IsBlank(c) || 0x1C <= c as int <= 0x1F
  }

  function TrimStart(s: string): (r: string)
    ensures r == "" || !IsSpace(r[0])
    ensures |r| <= |s| && r == s[|s| - |r|..]
  {
    if s != "" && IsSpace(s[0]) then TrimStart(s[1..]) else s
  }

  function TrimEnd(s: string): (r: string)
    ensures r <= s && (r == "" || !IsSpace(r[|r| - 1]))
    ensures forall k :: |r| <= k < |s| ==> IsSpace(s[k])
  {
    if s != "" && IsSpace(s[|s| - 1]) then TrimEnd(s[..|s| - 1]) else s
  }

  function TrimSlashes(s: string): (r: string)
    ensures r <= s && (r == "" || r[|r| - 1] != BACKSLASH)
    ensures forall k :: |r| <= k < |s| ==> s[k] == BACKSLASH
  {
    if s != "" && s[|s| - 1] == BACKSLASH then TrimSlashes(s[..|s| - 1]) else s
  }

  /** strip(), then no trailing backslashes. */
  function Trim(s: string): string {
    TrimSlashes(TrimEnd(TrimStart(s)))
  }

  datatype Split = Split(root: string, rest: string)

  predicate IsLetter(c: char) {
    'a' <= c <= 'z' || 'A' <= c <= 'Z'
  }

  /** X:\ClusterStorage\ in any case. */
  predicate HasCsvPrefix(s: string) {
    |s| >= 18 && IsLetter(s[0]) && s[1] == ':' && s[2] == BACKSLASH && Lower(s[3..17]) == "clusterstorage" &&
        s[17] == BACKSLASH
  }

  /** Where the name that begins at `from` ends. */
  function NameEnd(s: string, from: nat): (e: nat)
    requires from <= |s|
    ensures from <= e <= |s|
    ensures forall k :: from <= k < e ==> s[k] != BACKSLASH
    ensures e < |s| ==> s[e] == BACKSLASH
  {
    from + IndexOf(s[from..], BACKSLASH)
  }

  function MatchCsv(s: string): Option<Split> {
    if HasCsvPrefix(s) && NameEnd(s, 18) > 18 then Some(Split(s[..NameEnd(s, 18)], s[NameEnd(s, 18)..])) else None
  }

  /** \\server\share */
  function MatchUnc(s: string): Option<Split> {
    if !(|s| >= 2 && s[0] == BACKSLASH && s[1] == BACKSLASH) then None
    else
      var server := NameEnd(s, 2);
      if server == 2 || server == |s| then None
      else
        var share := NameEnd(s, server + 1);
        if share == server + 1 then None else Some(Split(s[..share], s[share..]))
  }

  function MatchStorage(s: string): Option<Split> {
    if MatchCsv(s).Some? then MatchCsv(s) else MatchUnc(s)
  }

  function SplitStoragePath(path: Option<string>): Option<Split> {
    if Filled(path) then MatchStorage(Trim(path.value)) else None
  }

  predicate SameRoot(a: string, b: string) {
    Lower(TrimSlashes(a)) == Lower(TrimSlashes(b))
  }

  /** Below a root: nothing, or a backslash and more. */
  predicate IsRest(rest: string) {
    rest == "" || rest[0] == BACKSLASH
  }

  /** The path is a storage root itself, spelled without anything around it. */
  predicate IsStorageRoot(root: string) {
    MatchStorage(root) == Some(Split(root, "")) && Trim(root) == root
  }

  // ---------------------------------------------------------------- splitting

  lemma {:induction false} SplitJoins(s: string)
    requires MatchStorage(s).Some?
    ensures s == MatchStorage(s).value.root + MatchStorage(s).value.rest
    ensures IsRest(MatchStorage(s).value.rest)
  {
  }

  lemma {:induction false} NameEndLocal(a: string, from: nat, rest: string)
    requires from <= |a| && NameEnd(a, from) == |a| && IsRest(rest)
    ensures NameEnd(a + rest, from) == |a|
  {
    var s := a + rest;
    assert forall k :: from <= k < |a| ==> s[k] == a[k];
    if rest != "" { assert s[|a|] == BACKSLASH; }
  }

  lemma {:induction false} NameEndInside(a: string, from: nat, rest: string)
    requires from <= |a| && NameEnd(a, from) < |a|
    ensures NameEnd(a + rest, from) == NameEnd(a, from)
  {
    var s, e := a + rest, NameEnd(a, from);
    assert forall k :: from <= k <= e ==> s[k] == a[k];
  }

  lemma {:induction false} CsvPrefixLocal(a: string, rest: string)
    requires |a| >= 18
    ensures HasCsvPrefix(a + rest) == HasCsvPrefix(a)
  {
    assert (a + rest)[3..17] == a[3..17];
  }

  /** Anything below a root splits into that root and the rest. */
  lemma {:induction false} BelowRoot(root: string, rest: string)
    requires MatchStorage(root) == Some(Split(root, "")) && IsRest(rest)
    ensures MatchStorage(root + rest) == Some(Split(root, rest))
  {
    var s := root + rest;
    assert s[..|root|] == root && s[|root|..] == rest;
    if MatchCsv(root).Some? {
      CsvPrefixLocal(root, rest);
      assert NameEnd(root, 18) == |root|;
      NameEndLocal(root, 18, rest);
    } else {
      var server := NameEnd(root, 2);
      NameEndInside(root, 2, rest);
      assert NameEnd(root, server + 1) == |root|;
      NameEndLocal(root, server + 1, rest);
      assert s[0] == BACKSLASH && !HasCsvPrefix(s);
    }
  }

  lemma {:induction false} RootNotEmpty(root: string)
    requires IsStorageRoot(root)
    ensures root != "" && !IsSpace(root[0]) && !IsSpace(root[|root| - 1]) && root[|root| - 1] != BACKSLASH
  {
    var t := TrimEnd(TrimStart(root));
    assert TrimSlashes(t) == root;
    assert |t| <= |root|;
    assert t == root;
  }

  lemma {:induction false} TrimStartKeeps(s: string)
    requires s == "" || !IsSpace(s[0])
    ensures TrimStart(s) == s
  {
  }

  lemma {:induction false} TrimEndStopsAt(s: string, n: nat)
    requires 0 < n <= |s| && !IsSpace(s[n - 1])
    ensures n <= |TrimEnd(s)|
  {
  }

  lemma {:induction false} TrimSlashesStopsAt(s: string, n: nat)
    requires 0 < n <= |s| && s[n - 1] != BACKSLASH
    ensures n <= |TrimSlashes(s)|
  {
  }

  /** Trimming stops at a character that is neither white space nor a backslash. */
  lemma {:induction false} TrimStopsAt(s: string, n: nat)
    requires 0 < n <= |s| && !IsSpace(s[0]) && !IsSpace(s[n - 1]) && s[n - 1] != BACKSLASH
    ensures n <= |Trim(s)| && Trim(s) <= s
  {
    TrimStartKeeps(s);
    TrimEndStopsAt(s, n);
    TrimSlashesStopsAt(TrimEnd(s), n);
  }

  /** Trimming a path below a root only shortens the rest. */
  lemma {:induction false} TrimBelowRoot(root: string, rest: string) returns (shorter: string)
    requires root != "" && !IsSpace(root[0]) && !IsSpace(root[|root| - 1]) && root[|root| - 1] != BACKSLASH &&
             IsRest(rest)
    ensures shorter <= rest && IsRest(shorter) && Trim(root + rest) == root + shorter
  {
    TrimStopsAt(root + rest, |root|);
    var t := Trim(root + rest);
    PrefixBelow(root, rest, t);
    shorter := rest[..|t| - |root|];
  }

  lemma {:induction false} PrefixBelow(root: string, rest: string, t: string)
    requires |root| <= |t| && t <= root + rest && IsRest(rest)
    ensures
      var shorter := rest[..|t| - |root|];
      t == root + shorter && shorter <= rest && IsRest(shorter)
  {
    assert t == (root + rest)[..|t|];
  }

  /** A path below a root lies on that root, whatever trimming does to it. */
  lemma {:induction false} LiesOnRoot(root: string, rest: string)
    requires IsStorageRoot(root) && IsRest(rest)
    ensures SplitStoragePath(Some(root + rest)).Some? && SplitStoragePath(Some(root + rest)).value.root == root
  {
    RootNotEmpty(root);
    var shorter := TrimBelowRoot(root, rest);
    BelowRoot(root, shorter);
  }

  /** The ends of a path decide whether trimming changes it. */
  lemma {:induction false} TrimmedByEnds(s: string)
    requires s != "" && !IsSpace(s[0]) && !IsSpace(s[|s| - 1]) && s[|s| - 1] != BACKSLASH
    ensures Trim(s) == s
  {
    TrimStartKeeps(s);
    assert TrimEnd(s) == s;
  }

  lemma {:induction false} TrimmedEnds(s: string)
    requires Trim(s) == s && s != ""
    ensures !IsSpace(s[0]) && !IsSpace(s[|s| - 1]) && s[|s| - 1] != BACKSLASH
  {
    var a := TrimStart(s);
    var b := TrimEnd(a);
    assert |TrimSlashes(b)| <= |b| <= |a| <= |s|;
    assert a == s && b == s;
  }

  /** A trimmed path keeps its rest exactly when moved below another root. */
  lemma {:induction false} RestSurvivesMove(source: string, rest: string, target: string)
    requires IsStorageRoot(source) && IsStorageRoot(target) && IsRest(rest) && Trim(source + rest) == source + rest
    ensures SplitStoragePath(Some(target + rest)) == Some(Split(target, rest))
  {
    RootNotEmpty(source);
    RootNotEmpty(target);
    TrimmedRestEnds(source, rest);
    TrimmedWithRest(target, rest);
    BelowRoot(target, rest);
  }

  lemma {:induction false} TrimmedRestEnds(root: string, rest: string)
    requires root != "" && Trim(root + rest) == root + rest
    ensures rest != "" ==> !IsSpace(rest[|rest| - 1]) && rest[|rest| - 1] != BACKSLASH
  {
    TrimmedEnds(root + rest);
    LastOfRest(root, rest);
  }

  lemma {:induction false} LastOfRest(root: string, rest: string)
    requires root != ""
    ensures (root + rest)[0] == root[0]
    ensures (root + rest)[|root + rest| - 1] == if rest == "" then root[|root| - 1] else rest[|rest| - 1]
  {
  }

  lemma {:induction false} TrimmedWithRest(root: string, rest: string)
    requires root != "" && !IsSpace(root[0]) && !IsSpace(root[|root| - 1]) && root[|root| - 1] != BACKSLASH
    requires rest != "" ==> !IsSpace(rest[|rest| - 1]) && rest[|rest| - 1] != BACKSLASH
    ensures Trim(root + rest) == root + rest
  {
    LastOfRest(root, rest);
    TrimmedByEnds(root + rest);
  }
}
