/**
 * Python `str` operations used by the modelled code: whitespace stripping,
 * ASCII lower-casing, prefix/suffix tests, `find`, `split('\n')` and decimal
 * rendering of integers.
 */
module Text {

  import opened Wrappers

  /** `str.isspace()`; it is also the set of characters the regex class `\s`
      matches in a `str` pattern. */
  predicate IsSpace(c: char) {
    ('\U{9}' <= c <= '\U{d}') || ('\U{1c}' <= c <= '\U{20}')
    || c == '\U{85}' || c == '\U{a0}' || c == '\U{1680}'
    || ('\U{2000}' <= c <= '\U{200a}') || c == '\U{2028}' || c == '\U{2029}'
    || c == '\U{202f}' || c == '\U{205f}' || c == '\U{3000}'
  }

  /** No leading and no trailing whitespace: what `strip()` guarantees. */
  predicate Trimmed(s: string) {
    |s| == 0 || (!IsSpace(s[0]) && !IsSpace(s[|s| - 1]))
  }

  predicate AllSpace(s: string) {
    forall k :: 0 <= k < |s| ==> IsSpace(s[k])
  }

  /** `s` contains a non-whitespace character, i.e. `s.strip()` is truthy. */
  predicate HasNonSpace(s: string) {
    |s| > 0 && (!IsSpace(s[0]) || HasNonSpace(s[1..]))
  }

  lemma HasNonSpaceIsNotAllSpace(s: string)
    ensures HasNonSpace(s) <==> !AllSpace(s)
  {
    if |s| > 0 {
      HasNonSpaceIsNotAllSpace(s[1..]);
      assert forall k :: 1 <= k < |s| ==> s[k] == s[1..][k - 1];
    }
  }

  /** A string that `str.strip()` does not reduce to the empty string. */
  type NonBlank = s: string | HasNonSpace(s) witness "x"

  /** `r` is a contiguous piece of `s`. */
  ghost predicate IsInfix(r: string, s: string) {
    exists i, j :: 0 <= i <= j <= |s| && r == s[i..j]
  }

  lemma SliceIsInfix(s: string, i: int, j: int)
    requires 0 <= i <= j <= |s|
    ensures IsInfix(s[i..j], s)
  {
  }

  lemma InfixTransitive(r: string, t: string, s: string)
    requires IsInfix(r, t) && IsInfix(t, s)
    ensures IsInfix(r, s)
  {
    var i1, j1 :| 0 <= i1 <= j1 <= |t| && r == t[i1..j1];
    var i2, j2 :| 0 <= i2 <= j2 <= |s| && t == s[i2..j2];
    SliceOfSlice(s, i2, j2, i1, j1);
  }

  /** A slice of a slice is one slice of the whole. */
  lemma SliceOfSlice(s: string, i: nat, j: nat, a: nat, b: nat)
    requires i <= j <= |s| && a <= b <= j - i
    ensures s[i..j][a..b] == s[i + a..i + b]
  {
    forall k | 0 <= k < b - a
      ensures s[i..j][a..b][k] == s[i + a..i + b][k]
    {
      assert s[i..j][a..b][k] == s[i + a + k];
    }
  }

  lemma InfixReflexive(s: string)
    ensures IsInfix(s, s)
  {
    assert s == s[0..|s|];
  }

  /** Index of the first non-whitespace character at or after `i`
      (the end of a greedy `\s*` that starts at `i`). */
  function SkipSpaces(s: string, i: nat): (j: nat)
    requires i <= |s|
    ensures i <= j <= |s|
    ensures forall k :: i <= k < j ==> IsSpace(s[k])
    ensures j == |s| || !IsSpace(s[j])
    decreases |s| - i
  {
    if i < |s| && IsSpace(s[i]) then SkipSpaces(s, i + 1) else i
  }

  /** Number of whitespace characters at the end of `s`. */
  function TrailingSpaces(s: string): (n: nat)
    ensures n <= |s|
    ensures forall k :: |s| - n <= k < |s| ==> IsSpace(s[k])
    ensures n == |s| || !IsSpace(s[|s| - n - 1])
  {
    if |s| > 0 && IsSpace(s[|s| - 1]) then
      var n := TrailingSpaces(s[..|s| - 1]);
      assert forall k :: |s| - 1 - n <= k < |s| - 1 ==> s[..|s| - 1][k] == s[k];
      n + 1
    else 0
  }

  /** `str.lstrip()` */
  function LStrip(s: string): (r: string)
    ensures r == s[SkipSpaces(s, 0)..]
    ensures |r| == 0 || !IsSpace(r[0])
  {
    s[SkipSpaces(s, 0)..]
  }

  /** `str.rstrip()` */
  function RStrip(s: string): (r: string)
    ensures r == s[..|s| - TrailingSpaces(s)]
    ensures |r| == 0 || !IsSpace(r[|r| - 1])
  {
    s[..|s| - TrailingSpaces(s)]
  }

  /** `str.strip()` */
  function Strip(s: string): (r: string)
    ensures Trimmed(r)
    ensures IsInfix(r, s)
    ensures AllSpace(s) <==> r == []
  {
    StripFacts(s);
    RStrip(LStrip(s))
  }

  lemma StripFacts(s: string)
    ensures Trimmed(RStrip(LStrip(s)))
    ensures IsInfix(RStrip(LStrip(s)), s)
    ensures AllSpace(s) <==> RStrip(LStrip(s)) == []
  {
    var i := SkipSpaces(s, 0);
    var t := LStrip(s);
    var n := TrailingSpaces(t);
    var r := RStrip(t);
    assert r == s[i..|s| - n];
    SliceIsInfix(s, i, |s| - n);
    if |r| > 0 {
      assert r[0] == s[i];
    }
  }

  /** Stripping a string that is already trimmed changes nothing. */
  lemma StripTrimmed(s: string)
    requires Trimmed(s)
    ensures Strip(s) == s
  {
    assert SkipSpaces(s, 0) == 0;
    assert TrailingSpaces(s) == 0;
  }

  /** A trimmed string is blank exactly when it is empty. */
  lemma TrimmedNonEmptyHasNonSpace(s: string)
    requires Trimmed(s) && |s| > 0
    ensures HasNonSpace(s)
  {
  }

  /** `s.strip()` is truthy exactly when `s` has a non-whitespace character. */
  lemma StripNonEmpty(s: string)
    ensures |Strip(s)| > 0 <==> HasNonSpace(s)
  {
    HasNonSpaceIsNotAllSpace(s);
  }

  /** ASCII case mapping of `str.lower()`; it preserves length and position. */
  function LowerChar(c: char): char {
    if 'A' <= c <= 'Z' then (c as int + 32) as char else c
  }

  function Lower(s: string): (r: string)
    ensures |r| == |s|
    ensures forall k :: 0 <= k < |s| ==> r[k] == LowerChar(s[k])
  {
    seq(|s|, k requires 0 <= k < |s| => LowerChar(s[k]))
  }

  lemma LowerSlice(s: string, i: int, j: int)
    requires 0 <= i <= j <= |s|
    ensures Lower(s[i..j]) == Lower(s)[i..j]
  {
  }

  predicate StartsWith(s: string, p: string) {
    |p| <= |s| && s[..|p|] == p
  }

  predicate EndsWith(s: string, p: string) {
    |p| <= |s| && s[|s| - |p|..] == p
  }

  lemma SuffixTransitive(r: string, m: string, t: string)
    requires EndsWith(m, r) && EndsWith(t, m)
    ensures EndsWith(t, r)
  {
    assert t[|t| - |r|..] == m[|m| - |r|..];
  }

  lemma PrefixTransitive(r: string, m: string, t: string)
    requires StartsWith(m, r) && StartsWith(t, m)
    ensures StartsWith(t, r)
  {
    assert t[..|r|] == m[..|r|];
  }

  /** `p` occurs in `s` starting at position `i`. */
  predicate OccursAt(s: string, i: int, p: string) {
    0 <= i && i + |p| <= |s| && s[i..i + |p|] == p
  }

  /** `s.find(p)` for a `p` known to occur: the first occurrence. */
  function Find(s: string, p: string, from: nat): (i: nat)
    requires from <= |s|
    requires exists k :: from <= k && OccursAt(s, k, p)
    ensures from <= i && OccursAt(s, i, p)
    ensures forall k :: from <= k < i ==> !OccursAt(s, k, p)
    decreases |s| - from
  {
    if OccursAt(s, from, p) then from
    else
      assert from < |s|;
      Find(s, p, from + 1)
  }

  /** `s.split(sep)`: the pieces between separators, at least one. */
  function SplitOn(s: string, sep: char): (r: seq<string>)
    ensures |r| >= 1
    ensures forall k :: 0 <= k < |r| ==> IsInfix(r[k], s)
    ensures forall k :: 0 <= k < |r| ==> sep !in r[k]
  {
    if sep !in s then
      InfixReflexive(s);
      [s]
    else
      var i := FirstIndexOf(s, sep, 0);
      var rest := SplitOn(s[i + 1..], sep);
      forall k | 0 <= k < |rest| ensures IsInfix(rest[k], s) {
        SliceIsInfix(s, i + 1, |s|);
        InfixTransitive(rest[k], s[i + 1..], s);
      }
      SliceIsInfix(s, 0, i);
      [s[..i]] + rest
  }

  /** `s.split('\n')` */
  function SplitLines(s: string): (r: seq<string>)
    ensures |r| >= 1
    ensures forall k :: 0 <= k < |r| ==> IsInfix(r[k], s)
  {
    SplitOn(s, '\n')
  }

  /** Position of the first `c` at or after `from`. */
  function FirstIndexOf(s: string, c: char, from: nat): (i: nat)
    requires from <= |s|
    requires c in s[from..]
    ensures from <= i < |s| && s[i] == c
    ensures c !in s[from..i]
    decreases |s| - from
  {
    if s[from] == c then from
    else
      assert s[from..] == [s[from]] + s[from + 1..];
      var i := FirstIndexOf(s, c, from + 1);
      assert s[from..i] == [s[from]] + s[from + 1..i];
      i
  }

  /** `s.rfind(c)`, with `None` for -1. */
  function LastIndexOf(s: string, c: char): (r: Option<nat>)
    ensures r.None? <==> c !in s
    ensures r.Some? ==> r.value < |s| && s[r.value] == c && c !in s[r.value + 1..]
  {
    if |s| == 0 then None
    else if s[|s| - 1] == c then Some(|s| - 1)
    else
      var r := LastIndexOf(s[..|s| - 1], c);
      assert s == s[..|s| - 1] + [s[|s| - 1]];
      if r.Some? then
        assert s[r.value + 1..] == s[..|s| - 1][r.value + 1..] + [s[|s| - 1]];
        r
      else r
  }

  /** `[line.strip() for line in s.split('\n') if line.strip()]` */
  function StrippedLines(s: string): (r: seq<string>)
    ensures forall k :: 0 <= k < |r| ==> Trimmed(r[k]) && |r[k]| > 0 && IsInfix(r[k], s)
  {
    var lines := SplitLines(s);
    StripAndKeepInfix(lines, s);
    StripAndKeep(lines)
  }

  /** `[x.strip() for x in items if x.strip()]`: every kept item is the
      stripped form of some input item, and is non-blank. */
  function StripAndKeep(items: seq<string>): (r: seq<string>)
    ensures AllKept(r, items)
    ensures |r| <= |items|
  {
    if |items| == 0 then []
    else
      var t := Strip(items[0]);
      var rest := StripAndKeep(items[1..]);
      KeptCons(t, rest, items);
      if |t| > 0 then [t] + rest else rest
  }

  /** Every entry of `r` is non-blank, trimmed, and the stripped form of one
      of `items`. */
  predicate AllKept(r: seq<string>, items: seq<string>) {
    forall k :: 0 <= k < |r| ==> Trimmed(r[k]) && |r[k]| > 0 && StrippedFrom(r[k], items)
  }

  lemma KeptCons(t: string, rest: seq<string>, items: seq<string>)
    requires |items| > 0 && t == Strip(items[0]) && AllKept(rest, items[1..])
    ensures AllKept(rest, items)
    ensures |t| > 0 ==> AllKept([t] + rest, items)
  {
    forall k | 0 <= k < |rest| ensures StrippedFrom(rest[k], items) {
      StrippedFromTail(rest[k], items);
    }
    assert StrippedFrom(t, items) by { assert t == Strip(items[0]); }
  }

  /** `x` is the stripped form of one of `items`. */
  predicate StrippedFrom(x: string, items: seq<string>) {
    exists j :: 0 <= j < |items| && x == Strip(items[j])
  }

  lemma StrippedFromTail(x: string, items: seq<string>)
    requires |items| > 0 && StrippedFrom(x, items[1..])
    ensures StrippedFrom(x, items)
  {
    var j :| 0 <= j < |items[1..]| && x == Strip(items[1..][j]);
    assert items[1..][j] == items[j + 1];
  }

  /** Items that are pieces of `s` stay pieces of `s` once stripped and kept. */
  lemma StripAndKeepInfix(items: seq<string>, s: string)
    requires forall k :: 0 <= k < |items| ==> IsInfix(items[k], s)
    ensures forall k :: 0 <= k < |StripAndKeep(items)| ==> IsInfix(StripAndKeep(items)[k], s)
  {
    var r := StripAndKeep(items);
    forall k | 0 <= k < |r| ensures IsInfix(r[k], s) {
      var j :| 0 <= j < |items| && r[k] == Strip(items[j]);
      InfixTransitive(r[k], items[j], s);
    }
  }

  /** Items already trimmed and non-empty pass through unchanged. */
  lemma {:induction false} StripAndKeepClean(items: seq<string>)
    requires forall k :: 0 <= k < |items| ==> Trimmed(items[k]) && |items[k]| > 0
    ensures StripAndKeep(items) == items
  {
    if |items| > 0 {
      StripTrimmed(items[0]);
      StripAndKeepClean(items[1..]);
      assert items == [items[0]] + items[1..];
    }
  }

  /** Decimal rendering of a natural number, as `str(n)` / `f"{n}"`. */
  function NatToString(n: nat): (r: string)
    ensures |r| >= 1
    ensures forall k :: 0 <= k < |r| ==> '0' <= r[k] <= '9'
    decreases n
  {
    var d := ['0' + (n % 10) as char];
    if n < 10 then d else NatToString(n / 10) + d
  }

  /** Decimal rendering is injective, so distinct example numbers are distinct labels. */
  lemma {:induction false} NatToStringInjective(a: nat, b: nat)
    requires NatToString(a) == NatToString(b)
    ensures a == b
    decreases a
  {
    var ra, rb := NatToString(a), NatToString(b);
    assert ra[|ra| - 1] == '0' + (a % 10) as char;
    assert rb[|rb| - 1] == '0' + (b % 10) as char;
    assert a % 10 == b % 10;
    if a >= 10 && b >= 10 {
      assert NatToString(a / 10) == ra[..|ra| - 1];
      assert NatToString(b / 10) == rb[..|rb| - 1];
      NatToStringInjective(a / 10, b / 10);
    }
  }
}
