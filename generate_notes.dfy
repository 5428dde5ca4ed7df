/**
 * `generate_notes.py`: turning a note title into a safe file-name stem, and
 * serialising a note record into a markdown file with YAML frontmatter.
 */
module GenerateNotes {
  import opened Wrappers
  import opened Text
  import Atomize

  // ------------------------------------------------------------ UTF-8 size

  /** Bytes of the UTF-8 encoding of one code point (section 3 of RFC 3629). */
  function Utf8Len(c: char): (n: nat)
    ensures 1 <= n <= 4
    ensures n == 1 <==> c < '\U{80}'
  {
    if c < '\U{80}' then 1
    else if c < '\U{800}' then 2
    else if c < '\U{10000}' then 3
    else 4
  }

  /** `len(s.encode("utf-8"))`. */
  function Utf8Size(s: string): nat
    decreases |s|
  {
    if s == [] then 0 else Utf8Len(s[0]) + Utf8Size(s[1..])
  }

  lemma {:induction false} Utf8SizeAppend(a: string, b: string)
    ensures Utf8Size(a + b) == Utf8Size(a) + Utf8Size(b)
    decreases |a|
  {
    if a == [] {
      assert a + b == b;
    } else {
      assert (a + b)[0] == a[0];
      assert (a + b)[1..] == a[1..] + b;
      Utf8SizeAppend(a[1..], b);
    }
  }

  /** A slice never encodes to more bytes than the whole string. */
  lemma Utf8SizeSlice(s: string, i: nat, j: nat)
    requires i <= j <= |s|
    ensures Utf8Size(s[i..j]) <= Utf8Size(s)
  {
    assert s == s[..i] + s[i..j] + s[j..];
    Utf8SizeAppend(s[..i] + s[i..j], s[j..]);
    Utf8SizeAppend(s[..i], s[i..j]);
  }

  /**
   * Number of code points of `s` whose whole encoding lies within the first
   * `max` bytes: decoding `s.encode()[:max]` with `errors="ignore"` gives
   * back exactly `s[..FitLen(s, max)]`, the trailing partial sequence being
   * dropped.
   */
  function FitLen(s: string, max: nat): (k: nat)
    ensures k <= |s| && Utf8Size(s[..k]) <= max
    ensures k < |s| ==> Utf8Size(s[..k + 1]) > max
    decreases |s|
  {
    if s == [] || Utf8Len(s[0]) > max then
      assert s != [] ==> s[..1][1..] == [];
      0
    else
      var k := FitLen(s[1..], max - Utf8Len(s[0]));
      assert s[..k + 1][1..] == s[1..][..k];
      assert k + 1 < |s| ==> s[..k + 2][1..] == s[1..][..k + 1];
      k + 1
  }

  /** The kept prefix is the longest one that fits: every longer prefix,
      hence every prefix that would split the next code point, is over. */
  lemma {:induction false} FitLenLongest(s: string, max: nat, j: nat)
    requires FitLen(s, max) < j <= |s|
    ensures Utf8Size(s[..j]) > max
  {
    var k := FitLen(s, max);
    Utf8SizeSlice(s[..j], 0, k + 1);
    assert s[..j][0..k + 1] == s[..k + 1];
  }

  // ------------------------------------------------------- sanitize_filename

  /** `_OBSIDIAN_FORBIDDEN`: the characters Obsidian refuses in file names. */
  const Forbidden: string := "\\/:\"*<>|?"

  const Nul: char := '\U{0}'

  /** The loop over `_OBSIDIAN_FORBIDDEN` after its first `i` characters. */
  function Dashed(s: string, i: nat): string
    requires i <= |Forbidden|
  {
    if i == 0 then s else Replace(Dashed(s, i - 1), [Forbidden[i - 1]], "-")
  }

  /** After `i` rounds, each of the first `i` forbidden characters has become
      `-` and every other character is unchanged, position by position. */
  lemma {:induction false} DashedAt(s: string, i: nat)
    requires i <= |Forbidden|
    ensures |Dashed(s, i)| == |s|
    ensures forall k | 0 <= k < |s| :: Dashed(s, i)[k] == (if s[k] in Forbidden[..i] then '-' else s[k])
  {
    if i > 0 {
      DashedAt(s, i - 1);
      var p := Dashed(s, i - 1);
      ReplaceCharAt(p, Forbidden[i - 1], '-');
      assert Forbidden[..i] == Forbidden[..i - 1] + [Forbidden[i - 1]];
    }
  }

  /** The string before the byte-length check: NUL removed, forbidden
      characters dashed, then stripped. */
  function Cleaned(title: string): string {
    Strip(Dashed(Replace(title, [Nul], []), |Forbidden|))
  }

  /** `sanitize_filename(title, max_bytes)`. */
  function Sanitized(title: string, maxBytes: nat): string {
    var s := Cleaned(title);
    if Utf8Size(s) > maxBytes then Strip(s[..FitLen(s, maxBytes)]) else s
  }

  method SanitizeFilename(title: string, maxBytes: nat) returns (sanitized: string)
    ensures sanitized == Sanitized(title, maxBytes)
  {
    sanitized := Replace(title, [Nul], []);
    ghost var noNul := sanitized;
    for i := 0 to |Forbidden|
      invariant sanitized == Dashed(noNul, i)
    {
      sanitized := Replace(sanitized, [Forbidden[i]], "-");
    }
    sanitized := Strip(sanitized);
    var size := Utf8Size(sanitized);
    if size > maxBytes {
      var truncated := sanitized[..FitLen(sanitized, maxBytes)];
      sanitized := Strip(truncated);
    }
  }

  /** Free of NUL and of every forbidden character. */
  predicate Clean(s: string) {
    forall k | 0 <= k < |s| :: s[k] != Nul && s[k] !in Forbidden
  }

  predicate NoEdgeSpace(s: string) {
    s == [] || (!IsSpace(s[0]) && !IsSpace(s[|s| - 1]))
  }

  lemma CleanSlice(s: string, i: nat, j: nat)
    requires Clean(s) && i <= j <= |s|
    ensures Clean(s[i..j])
  {
    assert forall k | 0 <= k < j - i :: s[i..j][k] == s[i + k];
  }

  lemma CleanedIsClean(title: string)
    ensures Clean(Cleaned(title))
  {
    var n := Replace(title, [Nul], []);
    var d := Dashed(n, |Forbidden|);
    ReplaceCharRemoves(title, Nul, Nul);
    DashedAt(n, |Forbidden|);
    assert Forbidden[..|Forbidden|] == Forbidden;
    forall k | 0 <= k < |d| ensures d[k] != Nul && d[k] !in Forbidden {
      assert n[k] in n;
    }
    CleanSlice(d, StripStart(d), StripStart(d) + |Strip(d)|);
  }

  /** Each forbidden character of the title, NUL aside, becomes `-`; the
      cleaned name is the strip of that. */
  lemma {:induction false} CleanedDashes(title: string)
    ensures var n := Replace(title, [Nul], []);
      && |Dashed(n, |Forbidden|)| == |n|
      && (forall k | 0 <= k < |n| :: Dashed(n, |Forbidden|)[k] == (if n[k] in Forbidden then '-' else n[k]))
      && Cleaned(title) == Strip(Dashed(n, |Forbidden|))
      && Nul !in n
  {
    var n := Replace(title, [Nul], []);
    DashedAt(n, |Forbidden|);
    assert Forbidden[..|Forbidden|] == Forbidden;
    ReplaceCharRemoves(title, Nul, Nul);
  }

  /** The result has no NUL, no forbidden character, no whitespace at either
      end, and encodes to at most `maxBytes` bytes. */
  lemma SanitizedShape(title: string, maxBytes: nat)
    ensures var r := Sanitized(title, maxBytes);
      Clean(r) && NoEdgeSpace(r) && Utf8Size(r) <= maxBytes
  {
    var s := Cleaned(title);
    CleanedIsClean(title);
    if Utf8Size(s) > maxBytes {
      var k := FitLen(s, maxBytes);
      var t := s[..k];
      CleanSlice(s, 0, k);
      var r := Strip(t);
      assert Sanitized(title, maxBytes) == r;
      CleanSlice(t, StripStart(t), StripStart(t) + |r|);
      Utf8SizeSlice(t, StripStart(t), StripStart(t) + |r|);
      assert Utf8Size(r) <= Utf8Size(t) <= maxBytes;
    } else {
      assert Sanitized(title, maxBytes) == s;
      assert s == Strip(Dashed(Replace(title, [Nul], []), |Forbidden|));
    }
  }

  /** When the cleaned name is too long, the result is the strip of the
      longest prefix of whole code points that fits. */
  lemma SanitizedTruncates(title: string, maxBytes: nat)
    requires Utf8Size(Cleaned(title)) > maxBytes
    ensures var s := Cleaned(title);
      exists k | 0 <= k < |s| ::
        && Sanitized(title, maxBytes) == Strip(s[..k])
        && Utf8Size(s[..k]) <= maxBytes
        && forall j | k < j <= |s| :: Utf8Size(s[..j]) > maxBytes
  {
    var s := Cleaned(title);
    var k := FitLen(s, maxBytes);
    assert s[..|s|] == s;
    forall j | k < j <= |s| ensures Utf8Size(s[..j]) > maxBytes {
      FitLenLongest(s, maxBytes, j);
    }
  }

  lemma {:induction false} ReplaceAbsent(s: string, c: char, rep: string)
    requires c !in s
    ensures Replace(s, [c], rep) == s
    decreases |s|
  {
    if |s| >= 1 {
      assert s[..1] == [s[0]];
      assert s[0] in s;
      ReplaceAbsent(s[1..], c, rep);
      assert s == [s[0]] + s[1..];
    }
  }

  /** A clean name is left alone by every step before the size check. */
  lemma CleanIsCleaned(s: string)
    requires Clean(s) && NoEdgeSpace(s)
    ensures Cleaned(s) == s
  {
    assert Nul !in s;
    ReplaceAbsent(s, Nul, []);
    DashedAt(s, |Forbidden|);
    assert Forbidden[..|Forbidden|] == Forbidden;
    assert Dashed(s, |Forbidden|) == s;
    StripNoEdges(s);
  }

  /** Sanitising an already sanitised name changes nothing. */
  lemma SanitizeIdempotent(title: string, maxBytes: nat)
    ensures Sanitized(Sanitized(title, maxBytes), maxBytes) == Sanitized(title, maxBytes)
  {
    var r := Sanitized(title, maxBytes);
    SanitizedShape(title, maxBytes);
    CleanIsCleaned(r);
  }

  // ---------------------------------------------------------- render_note_md

  /** `"  - " + tag` for each tag, in order. */
  function TagLines(tags: seq<string>): (r: seq<string>)
    ensures |r| == |tags|
    ensures forall k | 0 <= k < |tags| :: r[k] == "  - " + tags[k]
    decreases |tags|
  {
    if tags == [] then [] else ["  - " + tags[0]] + TagLines(tags[1..])
  }

  /** `source_doc.replace('"', '\\"')`. */
  function EscapeQuotes(s: string): string {
    Replace(s, "\"", "\\\"")
  }

  /** `render_note_md(note)`: missing fields default to `""` (tags to `[]`);
      the title is not written. */
  function RenderNoteMd(n: Atomize.Note): (r: string)
    ensures StartsWith(r, "---\ntags:\n")
    ensures EndsWith(r, "\n---\n\n" + n.body.GetOr("") + "\n")
  {
    RenderedFrame(Join("\n", TagLines(n.tags.GetOr([]))), n.date.GetOr(""), EscapeQuotes(n.sourceDoc.GetOr("")),
      n.noteType.GetOr(""), n.body.GetOr(""));
    "---\n"
    + "tags:\n" + Join("\n", TagLines(n.tags.GetOr([]))) + "\n"
    + "date: " + n.date.GetOr("") + "\n"
    + "source_doc: " + "\"" + EscapeQuotes(n.sourceDoc.GetOr("")) + "\"" + "\n"
    + "note_type: " + n.noteType.GetOr("") + "\n"
    + "---\n"
    + "\n"
    + n.body.GetOr("") + "\n"
  }

  /** The rendered text opens the block with `tags:` and ends with the
      closing `---`, a blank line and the body. */
  lemma RenderedFrame(j: string, d: string, e: string, t: string, b: string)
    ensures var r := "---\n" + "tags:\n" + j + "\n" + "date: " + d + "\n" + "source_doc: " + "\"" + e + "\"" + "\n"
      + "note_type: " + t + "\n" + "---\n" + "\n" + b + "\n";
      StartsWith(r, "---\ntags:\n") && EndsWith(r, "\n---\n\n" + b + "\n")
  {
    var x := "---\n" + "tags:\n" + j + "\n" + "date: " + d + "\n" + "source_doc: " + "\"" + e + "\"" + "\n"
      + "note_type: " + t;
    var tail := "\n" + "---\n" + "\n" + b + "\n";
    var r := x + "\n" + "---\n" + "\n" + b + "\n";
    assert r == x + tail;
    assert tail == "\n---\n\n" + b + "\n";
    assert r[|r| - |tail|..] == tail;
    assert x[..10] == "---\ntags:\n";
    assert r[..10] == x[..10];
  }
}
