/** Option and Result, used by every module of the pipeline. */
module Wrappers {

  datatype Option<+T> = None | Some(value: T) {
    /** Python's `d.get(key, default)` once the lookup has produced an Option. */
    function GetOr(default: T): T {
      match this
      case Some(v) => v
      case None => default
    }
  }

  datatype Result<+T, +E> = Ok(value: T) | Err(error: E)
}

/**
 * The fragment of Python's `str` that the scripts use, on `seq<char>`:
 * whitespace, strip, startswith/endswith, `in`, find, replace, join, split,
 * splitlines, partition, ASCII lower-casing and decimal digits.
 */
module Text {
  import opened Wrappers

  /** CPython's `str.isspace()`: what `str.strip()` removes and what `\s`
      matches in a `str` regular expression. */
  predicate IsSpace(c: char) {
    || ('\t' <= c <= '\r')
    || ('\U{1C}' <= c <= ' ')
    || c == '\U{85}' || c == '\U{A0}' || c == '\U{1680}'
    || ('\U{2000}' <= c <= '\U{200A}')
    || c == '\U{2028}' || c == '\U{2029}' || c == '\U{202F}' || c == '\U{205F}'
    || c == '\U{3000}'
  }

  /** The line boundaries of `str.splitlines()`. */
  predicate IsLineBreak(c: char) {
    || c == '\n' || c == '\r' || c == '\U{B}' || c == '\U{C}'
    || ('\U{1C}' <= c <= '\U{1E}')
    || c == '\U{85}' || c == '\U{2028}' || c == '\U{2029}'
  }

  predicate IsDigit(c: char) {
    '0' <= c <= '9'
  }

  /** True when `s.strip()` is empty, i.e. Python's `not s.strip()`. */
  predicate IsBlank(s: string) {
    forall k | 0 <= k < |s| :: IsSpace(s[k])
  }

  predicate NoLineBreak(s: string) {
    forall k | 0 <= k < |s| :: !IsLineBreak(s[k])
  }

  predicate AllDigits(s: string) {
    forall k | 0 <= k < |s| :: IsDigit(s[k])
  }

  // ---------------------------------------------------------------- strip

  function LStrip(s: string): (r: string)
    ensures |r| <= |s| && r == s[|s| - |r|..]
    ensures r == [] || !IsSpace(r[0])
    ensures forall k | 0 <= k < |s| - |r| :: IsSpace(s[k])
  {
    if s != [] && IsSpace(s[0]) then LStrip(s[1..]) else s
  }

  function RStrip(s: string): (r: string)
    ensures |r| <= |s| && r == s[..|r|]
    ensures r == [] || !IsSpace(r[|r| - 1])
    ensures forall k | |r| <= k < |s| :: IsSpace(s[k])
  {
    if s != [] && IsSpace(s[|s| - 1]) then RStrip(s[..|s| - 1]) else s
  }

  /** Where `s.strip()` starts in `s`. */
  function StripStart(s: string): nat
  {
    |s| - |LStrip(s)|
  }

  /** `s.strip()`: the slice of `s` left once whitespace is removed at both
      ends; everything cut off is whitespace and the slice has none at its ends. */
  function Strip(s: string): (r: string)
    ensures StripStart(s) + |r| <= |s| && r == s[StripStart(s)..StripStart(s) + |r|]
    ensures forall k | 0 <= k < StripStart(s) :: IsSpace(s[k])
    ensures forall k | StripStart(s) + |r| <= k < |s| :: IsSpace(s[k])
    ensures r == [] || (!IsSpace(r[0]) && !IsSpace(r[|r| - 1]))
  {
    RStrip(LStrip(s))
  }

  /** A string with no whitespace at either end is its own strip. */
  lemma StripNoEdges(s: string)
    requires s == [] || (!IsSpace(s[0]) && !IsSpace(s[|s| - 1]))
    ensures Strip(s) == s
  {
    if s != [] {
      assert LStrip(s) == s;
      assert RStrip(s) == s;
    }
  }

  /** Equal strings strip alike; stated on its own so that proofs need not
      rewrite under `Strip` in a large context. */
  lemma StripSame(x: string, y: string)
    requires x == y
    ensures Strip(x) == Strip(y)
  {
  }

  lemma StripIdempotent(s: string)
    ensures Strip(Strip(s)) == Strip(s)
  {
    StripNoEdges(Strip(s));
  }

  /** `s.strip()` is empty exactly when `s` is all whitespace. */
  lemma StripEmptyIffBlank(s: string)
    ensures Strip(s) == [] <==> IsBlank(s)
  {
    if Strip(s) != [] {
      assert s[StripStart(s)] == Strip(s)[0];
    }
  }

  /** A non-empty strip is not blank. */
  lemma StrippedNotBlank(s: string)
    ensures Strip(s) != [] ==> !IsBlank(Strip(s))
  {
    StripIdempotent(s);
    StripEmptyIffBlank(Strip(s));
  }

  /** The strip of `s` is determined by where its first and last
      non-whitespace characters are. */
  lemma StripAt(s: string, i: nat, m: nat)
    requires i + m <= |s| && m > 0
    requires forall k | 0 <= k < i :: IsSpace(s[k])
    requires forall k | i + m <= k < |s| :: IsSpace(s[k])
    requires !IsSpace(s[i]) && !IsSpace(s[i + m - 1])
    ensures Strip(s) == s[i..i + m]
  {
    var n := StripStart(s);
    assert n == i;
    var r := Strip(s);
    assert |r| == m;
  }

  lemma PaddedBefore(a: string, s: string, b: string)
    requires IsBlank(a)
    ensures forall k | 0 <= k < |a| + StripStart(s) :: IsSpace((a + s + b)[k])
  {
    var t := a + s + b;
    forall k | 0 <= k < |a| + StripStart(s) ensures IsSpace(t[k]) {
      if k < |a| { assert t[k] == a[k]; } else { assert t[k] == s[k - |a|]; }
    }
  }

  lemma PaddedAfter(a: string, s: string, b: string)
    requires IsBlank(b)
    ensures forall k | |a| + StripStart(s) + |Strip(s)| <= k < |a + s + b| :: IsSpace((a + s + b)[k])
  {
    var t := a + s + b;
    forall k | |a| + StripStart(s) + |Strip(s)| <= k < |t| ensures IsSpace(t[k]) {
      if k < |a| + |s| { assert t[k] == s[k - |a|]; } else { assert t[k] == b[k - |a| - |s|]; }
    }
  }

  /** A string holding `r` at `j` with only whitespace around it strips to `r`. */
  lemma StripAround(t: string, j: nat, r: string)
    requires j + |r| <= |t| && t[j..j + |r|] == r
    requires r == [] || (!IsSpace(r[0]) && !IsSpace(r[|r| - 1]))
    requires forall k | 0 <= k < j :: IsSpace(t[k])
    requires forall k | j + |r| <= k < |t| :: IsSpace(t[k])
    ensures Strip(t) == r
  {
    if r == [] {
      assert IsBlank(t);
      StripEmptyIffBlank(t);
    } else {
      assert t[j] == r[0] && t[j + |r| - 1] == r[|r| - 1];
      StripAt(t, j, |r|);
    }
  }

  /** Whitespace padding around `s` does not change `s.strip()`. */
  lemma StripPadded(a: string, s: string, b: string)
    requires IsBlank(a) && IsBlank(b)
    ensures Strip(a + s + b) == Strip(s)
  {
    var i := StripStart(s);
    PaddedBefore(a, s, b);
    PaddedAfter(a, s, b);
    MiddleSlice(a, s, b, i, i + |Strip(s)|);
    StripAround(a + s + b, |a| + i, Strip(s));
  }

  lemma MiddleSlice(a: string, s: string, b: string, i: nat, j: nat)
    requires i <= j <= |s|
    ensures (a + s + b)[|a| + i..|a| + j] == s[i..j]
  {
    var t := a + s + b;
    forall k | 0 <= k < j - i ensures t[|a| + i..|a| + j][k] == s[i..j][k] {
      assert t[|a| + i + k] == s[i + k];
    }
  }

  // ------------------------------------------------------ prefixes and search

  predicate StartsWith(s: string, p: string) {
    |p| <= |s| && s[..|p|] == p
  }

  predicate EndsWith(s: string, p: string) {
    |p| <= |s| && s[|s| - |p|..] == p
  }

  predicate OccursAt(s: string, p: string, i: int) {
    0 <= i && i + |p| <= |s| && s[i..i + |p|] == p
  }

  /** `s.find(p, start)`: the first occurrence of `p` at or after `start`. */
  function FindFrom(s: string, p: string, start: nat): (r: Option<nat>)
    ensures r.Some? ==> start <= r.value && OccursAt(s, p, r.value)
    ensures r.Some? ==> forall i | start <= i < r.value :: !OccursAt(s, p, i)
    ensures r.None? ==> forall i | start <= i :: !OccursAt(s, p, i)
    decreases |s| - start
  {
    if start + |p| > |s| then None
    else if s[start..start + |p|] == p then Some(start)
    else FindFrom(s, p, start + 1)
  }

  function Find(s: string, p: string): Option<nat> {
    FindFrom(s, p, 0)
  }

  /** Python's `p in s`. */
  predicate Contains(s: string, p: string) {
    Find(s, p).Some?
  }

  lemma ContainsIff(s: string, p: string)
    ensures Contains(s, p) <==> exists i :: OccursAt(s, p, i)
  {
  }

  /** `s` has no occurrence of `p` that starts inside `s` and ends in `t`. */
  predicate NoStraddle(s: string, t: string, p: string) {
    forall i | 0 <= i < |s| :: !OccursAt(s + t, p, i)
  }

  // --------------------------------------------------------------- replace

  /** `s.replace(pat, rep)`: every non-overlapping occurrence, left to right. */
  function Replace(s: string, pat: string, rep: string): string
    requires pat != []
    decreases |s|
  {
    if |s| < |pat| then s
    else if s[..|pat|] == pat then rep + Replace(s[|pat|..], pat, rep)
    else [s[0]] + Replace(s[1..], pat, rep)
  }

  /** Replacing one character by a one-character string works position by position. */
  lemma {:induction false} ReplaceCharAt(s: string, c: char, d: char)
    ensures |Replace(s, [c], [d])| == |s|
    ensures forall k | 0 <= k < |s| :: Replace(s, [c], [d])[k] == (if s[k] == c then d else s[k])
  {
    if |s| > 0 {
      ReplaceCharAt(s[1..], c, d);
      var r := Replace(s, [c], [d]);
      assert s[..1] == [s[0]];
      assert r == [if s[0] == c then d else s[0]] + Replace(s[1..], [c], [d]);
    }
  }

  /** Removing a character (`s.replace(c, "")`) keeps every other character in order. */
  lemma {:induction false} ReplaceCharRemoves(s: string, c: char, x: char)
    ensures c !in Replace(s, [c], [])
    ensures x != c ==> (x in Replace(s, [c], []) <==> x in s)
  {
    if |s| > 0 {
      ReplaceCharRemoves(s[1..], c, x);
      assert s[..1] == [s[0]];
      assert s == [s[0]] + s[1..];
    }
  }

  // ------------------------------------------------------------ join, split

  /** `sep.join(parts)`. */
  function Join(sep: string, parts: seq<string>): string
    decreases |parts|
  {
    if parts == [] then []
    else if |parts| == 1 then parts[0]
    else parts[0] + sep + Join(sep, parts[1..])
  }

  /** A character in neither the separator nor any part is not in the join. */
  lemma {:induction false} JoinExcludes(sep: string, parts: seq<string>, c: char)
    requires c !in sep
    requires forall k | 0 <= k < |parts| :: c !in parts[k]
    ensures c !in Join(sep, parts)
    decreases |parts|
  {
    if |parts| > 1 {
      JoinExcludes(sep, parts[1..], c);
    }
  }

  /** `s.split(sep)` for a non-empty separator. */
  function Split(s: string, sep: string): (r: seq<string>)
    requires sep != []
    ensures |r| >= 1
    decreases |s|
  {
    match Find(s, sep)
    case None => [s]
    case Some(i) => [s[..i]] + Split(s[i + |sep|..], sep)
  }

  /** Splitting `a + sep + b` where the first `sep` is the one shown. */
  lemma SplitAtFirst(a: string, sep: string, b: string)
    requires sep != []
    requires forall i | 0 <= i < |a| :: !OccursAt(a + sep + b, sep, i)
    ensures Split(a + sep + b, sep) == [a] + Split(b, sep)
  {
    var s := a + sep + b;
    assert OccursAt(s, sep, |a|) by { assert s[|a|..|a| + |sep|] == sep; }
    var f := Find(s, sep);
    assert f == Some(|a|);
    assert s[..|a|] == a;
    assert s[|a| + |sep|..] == b;
  }

  /** Splitting on a one-character separator undoes joining on it. */
  lemma {:induction false} SplitJoin(parts: seq<string>, c: char)
    requires parts != []
    requires forall k | 0 <= k < |parts| :: c !in parts[k]
    ensures Split(Join([c], parts), [c]) == parts
  {
    var s := Join([c], parts);
    if |parts| == 1 {
      assert Find(s, [c]).None? by {
        forall i | 0 <= i && i + 1 <= |s| ensures !OccursAt(s, [c], i) {
          assert s[i..i + 1] == [s[i]];
        }
      }
    } else {
      var rest := Join([c], parts[1..]);
      assert s == parts[0] + [c] + rest;
      forall i | 0 <= i < |parts[0]| ensures !OccursAt(s, [c], i) {
        assert s[i] == parts[0][i];
        assert s[i..i + 1] == [s[i]];
      }
      SplitAtFirst(parts[0], [c], rest);
      SplitJoin(parts[1..], c);
      assert parts == [parts[0]] + parts[1..];
    }
  }

  /** Index of the first line break at or after `i`, or `|s|`. */
  function LineEnd(s: string, i: nat): (e: nat)
    requires i <= |s|
    ensures i <= e <= |s|
    ensures forall k | i <= k < e :: !IsLineBreak(s[k])
    ensures e < |s| ==> IsLineBreak(s[e])
    decreases |s| - i
  {
    if i == |s| || IsLineBreak(s[i]) then i else LineEnd(s, i + 1)
  }

  /** `s.splitlines()`: `\r\n` counts as one boundary, no trailing empty line. */
  function SplitLines(s: string): seq<string>
    decreases |s|
  {
    if s == [] then []
    else
      var e := LineEnd(s, 0);
      if e == |s| then [s]
      else
        var w := if s[e] == '\r' && e + 1 < |s| && s[e + 1] == '\n' then 2 else 1;
        [s[..e]] + SplitLines(s[e + w..])
  }

  /** Each line followed by `\n`. */
  function Lines(ls: seq<string>): string
    decreases |ls|
  {
    if ls == [] then [] else ls[0] + "\n" + Lines(ls[1..])
  }

  /** `splitlines()` recovers the lines of a text whose lines end with `\n`. */
  lemma {:induction false} SplitLinesOfLines(ls: seq<string>)
    requires forall k | 0 <= k < |ls| :: NoLineBreak(ls[k])
    ensures SplitLines(Lines(ls)) == ls
  {
    if ls != [] {
      var l := ls[0];
      var rest := Lines(ls[1..]);
      var s := Lines(ls);
      assert s == l + "\n" + rest;
      assert LineEnd(s, 0) == |l| by {
        assert forall k | 0 <= k < |l| :: s[k] == l[k];
        assert s[|l|] == '\n';
        LineEndFirst(s, 0, |l|);
      }
      assert s[..|l|] == l;
      assert s[|l| + 1..] == rest;
      SplitLinesOfLines(ls[1..]);
      assert ls == [l] + ls[1..];
    }
  }

  lemma LineEndFirst(s: string, i: nat, e: nat)
    requires i <= e < |s| && IsLineBreak(s[e])
    requires forall k | i <= k < e :: !IsLineBreak(s[k])
    ensures LineEnd(s, i) == e
  {
  }

  // ------------------------------------------------------- case and digits

  function LowerChar(c: char): char {
    if 'A' <= c <= 'Z' then (c as int + 32) as char else c
  }

  /** `s.lower()` on ASCII letters. */
  function Lower(s: string): (r: string)
    ensures |r| == |s|
    ensures forall k | 0 <= k < |s| :: r[k] == LowerChar(s[k])
  {
    seq(|s|, k requires 0 <= k < |s| => LowerChar(s[k]))
  }

  /** Python's `int(d)` for a string of decimal digits. */
  function DigitsValue(d: string): nat
    requires AllDigits(d)
    decreases |d|
  {
    if d == [] then 0
    else 10 * DigitsValue(d[..|d| - 1]) + (d[|d| - 1] as int - '0' as int)
  }

  /** `str(n)`. */
  function Decimal(n: nat): (r: string)
    ensures r != [] && AllDigits(r)
  {
    if n < 10 then [('0' as int + n) as char]
    else Decimal(n / 10) + [('0' as int + n % 10) as char]
  }

  /** `int(str(n)) == n`. */
  lemma {:induction false} DecimalValue(n: nat)
    ensures DigitsValue(Decimal(n)) == n
  {
    if n >= 10 {
      DecimalValue(n / 10);
      var d := Decimal(n);
      assert d[..|d| - 1] == Decimal(n / 10);
    }
  }

  /** `s * k` (an empty string when `k <= 0`). */
  function Repeat(s: string, k: int): (r: string)
    ensures |r| == if k <= 0 then 0 else k * |s|
    decreases k
  {
    if k <= 0 then [] else s + Repeat(s, k - 1)
  }
}
