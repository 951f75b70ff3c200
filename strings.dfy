/**
 * Character-level helpers shared by the signer and the client: searching,
 * ASCII case mapping (PHP's `strtolower`/`strtoupper`, which since PHP 8.2
 * touch only the letters A-Z and a-z), and splitting/joining on a separator.
 */
module Strings {
  import opened Wrappers

  /** Index of the first character of `s` at or after `from` that is in `cs`, or `|s|` when there is none. */
  function Find(s: string, cs: set<char>, from: nat): (r: nat)
    requires from <= |s|
    ensures from <= r <= |s|
    ensures r < |s| ==> s[r] in cs
    ensures forall j :: from <= j < r ==> s[j] !in cs
    decreases |s| - from
  {
    if from == |s| || s[from] in cs then from else Find(s, cs, from + 1)
  }

  /** `Find` returns the one index that satisfies its contract. */
  lemma {:induction false} FindIs(s: string, cs: set<char>, from: nat, r: nat)
    requires from <= r <= |s|
    requires r < |s| ==> s[r] in cs
    requires forall j :: from <= j < r ==> s[j] !in cs
    ensures Find(s, cs, from) == r
    decreases r - from
  {
    if from < r {
      FindIs(s, cs, from + 1, r);
    }
  }

  /** Index of the last occurrence of `c` in `s`, if any. */
  function LastIndexOf(s: string, c: char): (r: Option<nat>)
    ensures r.None? ==> c !in s
    ensures r.Some? ==> r.value < |s| && s[r.value] == c && c !in s[r.value + 1..]
    decreases |s|
  {
    if |s| == 0 then None
    else if s[|s| - 1] == c then Some(|s| - 1)
    else
      var r := LastIndexOf(s[..|s| - 1], c);
      assert r.Some? ==> s[r.value + 1..] == s[..|s| - 1][r.value + 1..] + [s[|s| - 1]];
      r
  }

  // ---------------------------------------------------------------- case

  predicate IsUpper(c: char) { 'A' <= c <= 'Z' }

  predicate IsLower(c: char) { 'a' <= c <= 'z' }

  function LowerChar(c: char): char {
    if IsUpper(c) then (c as int + 32) as char else c
  }

  function UpperChar(c: char): char {
    if IsLower(c) then (c as int - 32) as char else c
  }

  /** `strtolower`: every A-Z becomes its a-z counterpart, every other character is kept. */
  function ToLower(s: string): (r: string)
    ensures |r| == |s|
    ensures forall i :: 0 <= i < |s| ==> !IsUpper(r[i])
    ensures forall i :: 0 <= i < |s| && !IsUpper(s[i]) ==> r[i] == s[i]
    ensures forall i :: 0 <= i < |s| && IsUpper(s[i]) ==> IsLower(r[i]) && r[i] as int == s[i] as int + 32
  {
    seq(|s|, i requires 0 <= i < |s| => LowerChar(s[i]))
  }

  /** `strtoupper`: every a-z becomes its A-Z counterpart, every other character is kept. */
  function ToUpper(s: string): (r: string)
    ensures |r| == |s|
    ensures forall i :: 0 <= i < |s| ==> !IsLower(r[i])
    ensures forall i :: 0 <= i < |s| && !IsLower(s[i]) ==> r[i] == s[i]
    ensures forall i :: 0 <= i < |s| && IsLower(s[i]) ==> IsUpper(r[i]) && r[i] as int == s[i] as int - 32
  {
    seq(|s|, i requires 0 <= i < |s| => UpperChar(s[i]))
  }

  /** Two characters are the same letter up to ASCII case (or simply equal). */
  predicate SameIgnoringCase(x: char, y: char) {
    x == y
    || (IsUpper(x) && y as int == x as int + 32)
    || (IsUpper(y) && x as int == y as int + 32)
  }

  /** `a` and `b` differ at most in the ASCII case of their letters. */
  predicate EqualIgnoringCase(a: string, b: string) {
    |a| == |b| && forall i :: 0 <= i < |a| ==> SameIgnoringCase(a[i], b[i])
  }

  lemma UpperCharSame(x: char, y: char)
    ensures UpperChar(x) == UpperChar(y) <==> SameIgnoringCase(x, y)
  {
  }

  /** Upper-casing identifies exactly the strings that differ only in letter case. */
  lemma {:induction false} ToUpperEqualIff(a: string, b: string)
    ensures ToUpper(a) == ToUpper(b) <==> EqualIgnoringCase(a, b)
  {
    if ToUpper(a) == ToUpper(b) {
      forall i | 0 <= i < |a| ensures SameIgnoringCase(a[i], b[i]) {
        assert ToUpper(a)[i] == ToUpper(b)[i];
        UpperCharSame(a[i], b[i]);
      }
    }
    if EqualIgnoringCase(a, b) {
      forall i | 0 <= i < |a| ensures ToUpper(a)[i] == ToUpper(b)[i] {
        UpperCharSame(a[i], b[i]);
      }
    }
  }

  // ------------------------------------------------------ split and join

  /** The pieces of `s` between occurrences of `sep` (always at least one piece). */
  function Split(s: string, sep: char): (parts: seq<string>)
    ensures |parts| >= 1
    ensures forall i :: 0 <= i < |parts| ==> sep !in parts[i]
    decreases |s|
  {
    var i := Find(s, {sep}, 0);
    if i == |s| then [s] else [s[..i]] + Split(s[i + 1..], sep)
  }

  /** The pieces of `parts` glued together with one `sep` between neighbours. */
  function Join(parts: seq<string>, sep: char): string
    requires |parts| >= 1
    decreases |parts|
  {
    if |parts| == 1 then parts[0] else parts[0] + [sep] + Join(parts[1..], sep)
  }

  /** Splitting undoes joining when no piece contains the separator. */
  lemma {:induction false} SplitJoin(parts: seq<string>, sep: char)
    requires |parts| >= 1
    requires forall i :: 0 <= i < |parts| ==> sep !in parts[i]
    ensures Split(Join(parts, sep), sep) == parts
    decreases |parts|
  {
    var s := Join(parts, sep);
    if |parts| == 1 {
      assert Find(s, {sep}, 0) == |s|;
    } else {
      var rest := Join(parts[1..], sep);
      var n := |parts[0]|;
      assert s == parts[0] + [sep] + rest;
      assert s[n] == sep;
      assert Find(s, {sep}, 0) == n;
      assert s[..n] == parts[0];
      assert s[n + 1..] == rest;
      SplitJoin(parts[1..], sep);
    }
  }
}
