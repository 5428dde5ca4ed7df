/**
 * The frontmatter written by `render_note_md` (generate_notes.py) is read
 * back by `parse_frontmatter` (vault_writer.py): tags, date and note type
 * come back stripped, and the quoted source document exactly.
 */
module RoundTrip {
  import opened Wrappers
  import opened Text
  import opened Frontmatter
  import opened GenerateNotes
  import Atomize

  // ------------------------------------------------------- quote escaping

  lemma EscapeCons(c: char, rest: string)
    ensures EscapeQuotes([c] + rest) == (if c == '"' then "\\\"" else [c]) + EscapeQuotes(rest)
  {
    var s := [c] + rest;
    assert s[..1] == [c];
    assert s[1..] == rest;
  }

  /** The escaped text never starts with a bare quote. */
  lemma EscapeHead(s: string)
    requires s != []
    ensures EscapeQuotes(s) != [] && EscapeQuotes(s)[0] != '"'
    ensures EscapeQuotes(s)[0] == '-' <==> s[0] == '-'
  {
    EscapeCons(s[0], s[1..]);
    assert s == [s[0]] + s[1..];
  }

  /** `replace('\\"', '"')` undoes `replace('"', '\\"')`. */
  lemma {:induction false} UnescapeEscape(s: string)
    ensures Replace(EscapeQuotes(s), "\\\"", "\"") == s
    decreases |s|
  {
    if s != [] {
      var c := s[0];
      var rest := s[1..];
      var e := EscapeQuotes(rest);
      EscapeCons(c, rest);
      assert s == [c] + rest;
      UnescapeEscape(rest);
      var x := EscapeQuotes(s);
      if c == '"' {
        assert x == "\\\"" + e;
        assert x[..2] == "\\\"";
        assert x[2..] == e;
      } else {
        assert x == [c] + e;
        if |x| >= 2 {
          EscapeHead(rest);
          assert x[..2] != "\\\"" by { assert x[1] == e[0]; }
          assert x[1..] == e;
        } else {
          assert e == [];
        }
      }
    }
  }

  /** The quoted value written for `source_doc` is read back exactly. */
  lemma UnquoteQuoted(s: string)
    ensures Unquote("\"" + EscapeQuotes(s) + "\"") == s
  {
    var q := "\"" + EscapeQuotes(s) + "\"";
    assert q[1..|q| - 1] == EscapeQuotes(s);
    assert StartsWith(q, "\"") && EndsWith(q, "\"");
    UnescapeEscape(s);
  }

  /** Escaping adds only backslashes. */
  lemma {:induction false} EscapeChars(s: string)
    ensures forall k | 0 <= k < |EscapeQuotes(s)| :: EscapeQuotes(s)[k] == '\\' || EscapeQuotes(s)[k] in s
    decreases |s|
  {
    if s != [] {
      EscapeCons(s[0], s[1..]);
      EscapeChars(s[1..]);
      assert s == [s[0]] + s[1..];
      var e := EscapeQuotes(s[1..]);
      forall c | c in e ensures c == '\\' || c in s {
        var k :| 0 <= k < |e| && e[k] == c;
        assert e[k] == '\\' || e[k] in s[1..];
      }
    }
  }

  // ----------------------------------------------------- no delimiter inside

  predicate NoDelim(s: string) {
    forall i | 0 <= i < |s| :: !OccursAt(s, Delimiter, i)
  }

  lemma NoDelimOfContains(s: string)
    requires !Contains(s, Delimiter)
    ensures NoDelim(s)
  {
    ContainsIff(s, Delimiter);
  }

  /** An occurrence of `---` is three dashes in a row. */
  lemma OccursDelim(s: string, i: int)
    ensures OccursAt(s, Delimiter, i) <==> 0 <= i && i + 3 <= |s| && s[i] == '-' && s[i + 1] == '-' && s[i + 2] == '-'
  {
    if 0 <= i && i + 3 <= |s| {
      assert s[i..i + 3] == [s[i], s[i + 1], s[i + 2]];
    }
  }

  /** An occurrence across the seam needs a `-` on both sides of it. */
  lemma NoDelimConcat(x: string, y: string)
    requires NoDelim(x) && NoDelim(y)
    requires x == [] || y == [] || x[|x| - 1] != '-' || y[0] != '-'
    ensures NoDelim(x + y)
  {
    var s := x + y;
    forall i | 0 <= i < |s| ensures !OccursAt(s, Delimiter, i) {
      OccursDelim(s, i);
      if i + 3 <= |x| {
        OccursDelim(x, i);
      } else if i >= |x| {
        OccursDelim(y, i - |x|);
      }
    }
  }

  lemma ShortNoDelim(s: string)
    requires |s| < 3
    ensures NoDelim(s)
  {
  }

  /** Escaping neither creates nor removes a run of dashes: a text free of
      `---` stays free of it, and its first one or two dashes are kept. */
  lemma {:induction false} EscapeNoDelim(s: string)
    requires NoDelim(s)
    ensures NoDelim(EscapeQuotes(s))
    ensures |EscapeQuotes(s)| >= 2 && EscapeQuotes(s)[0] == '-' && EscapeQuotes(s)[1] == '-'
      ==> |s| >= 2 && s[0] == '-' && s[1] == '-'
    decreases |s|
  {
    if s != [] {
      var c := s[0];
      var rest := s[1..];
      assert s == [c] + rest;
      assert NoDelim(rest) by {
        forall i | 0 <= i < |rest| ensures !OccursAt(rest, Delimiter, i) {
          OccursDelim(rest, i);
          OccursDelim(s, i + 1);
        }
      }
      OccursDelim(s, 0);
      EscapeNoDelim(rest);
      EscapeCons(c, rest);
      var e := EscapeQuotes(rest);
      var pre: string := if c == '"' then "\\\"" else [c];
      ShortNoDelim(pre);
      if c == '-' && e != [] && e[0] == '-' {
        EscapeHead(rest);
        assert e[0] == '-' && (|e| < 2 || e[1] != '-');
        assert NoDelim(pre + e) by {
          var x := pre + e;
          forall i | 0 <= i < |x| ensures !OccursAt(x, Delimiter, i) {
            OccursDelim(x, i);
            if i > 0 {
              OccursDelim(e, i - 1);
            }
          }
        }
      } else {
        NoDelimConcat(pre, e);
      }
      if e != [] {
        EscapeHead(rest);
      }
    }
  }

  /** `---` never spans a line break, so lines free of it give a text free of it. */
  lemma {:induction false} LinesNoDelim(ls: seq<string>)
    requires forall k | 0 <= k < |ls| :: NoDelim(ls[k])
    ensures NoDelim(Lines(ls))
    decreases |ls|
  {
    if ls != [] {
      LinesNoDelim(ls[1..]);
      NoDelimConcat(ls[0], "\n");
      NoDelimConcat(ls[0] + "\n", Lines(ls[1..]));
    }
  }

  // --------------------------------------------------------- the rendering

  function TagsOf(n: Atomize.Note): seq<string> {
    n.tags.GetOr([])
  }

  function DateLine(n: Atomize.Note): string {
    "date: " + n.date.GetOr("")
  }

  function SourceLine(n: Atomize.Note): string {
    "source_doc: " + "\"" + EscapeQuotes(n.sourceDoc.GetOr("")) + "\""
  }

  function TypeLine(n: Atomize.Note): string {
    "note_type: " + n.noteType.GetOr("")
  }

  /** The lines of the frontmatter block, starting with the empty line the
      opening `---\n` leaves behind. */
  function BlockLines(n: Atomize.Note): seq<string> {
    ["", "tags:"] + TagLines(TagsOf(n)) + [DateLine(n), SourceLine(n), TypeLine(n)]
  }

  function Tail(n: Atomize.Note): string {
    "\n" + "\n" + n.body.GetOr("") + "\n"
  }

  lemma {:induction false} JoinLines(xs: seq<string>)
    requires xs != []
    ensures Join("\n", xs) + "\n" == Lines(xs)
    decreases |xs|
  {
    if |xs| > 1 {
      JoinLines(xs[1..]);
    } else {
      assert Lines(xs[1..]) == [];
    }
  }

  lemma {:induction false} LinesAppend(a: seq<string>, b: seq<string>)
    ensures Lines(a + b) == Lines(a) + Lines(b)
    decreases |a|
  {
    if a == [] {
      assert a + b == b;
    } else {
      assert (a + b)[1..] == a[1..] + b;
      LinesAppend(a[1..], b);
    }
  }

  lemma LinesTwo(x: string, y: string)
    ensures Lines([x, y]) == x + "\n" + (y + "\n")
  {
    assert [x, y][1..] == [y];
    assert [y][1..] == [];
    assert Lines([y]) == y + "\n" + [];
  }

  lemma LinesThree(x: string, y: string, z: string)
    ensures Lines([x, y, z]) == x + "\n" + y + "\n" + z + "\n"
  {
    assert [x, y, z][1..] == [y, z];
    LinesTwo(y, z);
  }

  lemma Reassociate(dl: string, nl: string, tg: string, j: string, dp: string, d: string, sp: string, q: string,
                    e: string, tp: string, t: string, b: string)
    ensures (dl + nl) + (tg + nl) + j + nl + dp + d + nl + sp + q + e + q + nl + tp + t + nl + (dl + nl) + nl + b + nl
      == dl + ((nl + tg + nl) + (j + nl) + ((dp + d) + nl + (sp + q + e + q) + nl + (tp + t) + nl)) + dl + (nl + nl + b + nl)
  {
  }

  /** The pieces of the rendered text, regrouped around the two `---`. */
  lemma Regroup(j: string, d: string, e: string, t: string, b: string)
    ensures "---\n" + "tags:\n" + j + "\n" + "date: " + d + "\n" + "source_doc: " + "\"" + e + "\"" + "\n" + "note_type: " + t + "\n" + "---\n" + "\n" + b + "\n"
      == "---" + (("\n" + "tags:" + "\n") + (j + "\n") + (("date: " + d) + "\n" + ("source_doc: " + "\"" + e + "\"") + "\n" + ("note_type: " + t) + "\n")) + "---" + ("\n" + "\n" + b + "\n")
  {
    assert "---\n" == "---" + "\n";
    assert "tags:\n" == "tags:" + "\n";
    Reassociate("---", "\n", "tags:", j, "date: ", d, "source_doc: ", "\"", e, "note_type: ", t, b);
  }

  /** The rendered note is `---`, the block of `BlockLines`, `---`, then the body. */
  lemma RenderShape(n: Atomize.Note)
    requires TagsOf(n) != []
    ensures RenderNoteMd(n) == Delimiter + Lines(BlockLines(n)) + Delimiter + Tail(n)
  {
    var tl := TagLines(TagsOf(n));
    var keys := [DateLine(n), SourceLine(n), TypeLine(n)];
    JoinLines(tl);
    LinesAppend(["", "tags:"] + tl, keys);
    LinesAppend(["", "tags:"], tl);
    LinesThree(DateLine(n), SourceLine(n), TypeLine(n));
    LinesTwo("", "tags:");
    assert "" + "\n" + ("tags:" + "\n") == "\n" + "tags:" + "\n";
    Regroup(Join("\n", tl), n.date.GetOr(""), EscapeQuotes(n.sourceDoc.GetOr("")), n.noteType.GetOr(""), n.body.GetOr(""));
  }

  // ------------------------------------------------------------ the block

  /** The fields the round trip needs: no line breaks, no `---`. */
  predicate PlainField(s: string) {
    NoLineBreak(s) && !Contains(s, Delimiter)
  }

  /** A value that `parse_frontmatter` would unquote. */
  predicate Quoted(s: string) {
    StartsWith(s, "\"") && EndsWith(s, "\"")
  }

  predicate Renderable(n: Atomize.Note) {
    && TagsOf(n) != []
    && (forall k | 0 <= k < |TagsOf(n)| :: PlainField(TagsOf(n)[k]))
    && PlainField(n.date.GetOr(""))
    && PlainField(n.sourceDoc.GetOr(""))
    && PlainField(n.noteType.GetOr(""))
  }

  lemma PrefixedNoDelim(pre: string, s: string)
    requires |pre| < 3 || NoDelim(pre)
    requires pre == [] || pre[|pre| - 1] != '-'
    requires !Contains(s, Delimiter)
    ensures NoDelim(pre + s)
  {
    if |pre| < 3 {
      ShortNoDelim(pre);
    }
    NoDelimOfContains(s);
    NoDelimConcat(pre, s);
  }

  lemma DashFree(s: string)
    requires '-' !in s
    ensures NoDelim(s)
  {
    forall i | 0 <= i < |s| ensures !OccursAt(s, Delimiter, i) {
      OccursDelim(s, i);
      assert s[i] in s;
    }
  }

  lemma ItemLineNoDelim(t: string)
    requires !Contains(t, Delimiter)
    ensures NoDelim("  - " + t)
  {
    ShortNoDelim("  ");
    ShortNoDelim("- ");
    NoDelimConcat("  ", "- ");
    assert "  " + "- " == "  - ";
    PrefixedNoDelim("  - ", t);
  }

  lemma SourceLineNoDelim(n: Atomize.Note)
    requires PlainField(n.sourceDoc.GetOr(""))
    ensures NoDelim(SourceLine(n))
  {
    var sd := n.sourceDoc.GetOr("");
    DashFree("source_doc: \"");
    assert "source_doc: " + "\"" == "source_doc: \"";
    NoDelimOfContains(sd);
    EscapeNoDelim(sd);
    NoDelimConcat("source_doc: \"", EscapeQuotes(sd));
    ShortNoDelim("\"");
    NoDelimConcat("source_doc: \"" + EscapeQuotes(sd), "\"");
  }

  lemma BlockLinesNoDelim(n: Atomize.Note, k: nat)
    requires Renderable(n) && k < |BlockLines(n)|
    ensures NoDelim(BlockLines(n)[k])
  {
    var ls := BlockLines(n);
    var tl := TagLines(TagsOf(n));
    if k == 0 {
      ShortNoDelim("");
    } else if k == 1 {
      DashFree("tags:");
    } else if k < 2 + |tl| {
      assert ls[k] == tl[k - 2];
      ItemLineNoDelim(TagsOf(n)[k - 2]);
    } else if k == 2 + |tl| {
      DashFree("date: ");
      PrefixedNoDelim("date: ", n.date.GetOr(""));
    } else if k == 3 + |tl| {
      SourceLineNoDelim(n);
    } else {
      DashFree("note_type: ");
      PrefixedNoDelim("note_type: ", n.noteType.GetOr(""));
    }
  }

  lemma BlockNoDelim(n: Atomize.Note)
    requires Renderable(n)
    ensures NoDelim(Lines(BlockLines(n)))
  {
    var ls := BlockLines(n);
    forall k | 0 <= k < |ls| ensures NoDelim(ls[k]) {
      BlockLinesNoDelim(n, k);
    }
    LinesNoDelim(ls);
  }

  lemma NoBreakConcat(x: string, y: string)
    requires NoLineBreak(x) && NoLineBreak(y)
    ensures NoLineBreak(x + y)
  {
    assert forall k | 0 <= k < |x + y| :: (x + y)[k] == if k < |x| then x[k] else y[k - |x|];
  }

  lemma EscapeNoBreak(s: string)
    requires NoLineBreak(s)
    ensures NoLineBreak(EscapeQuotes(s))
  {
    EscapeChars(s);
    var e := EscapeQuotes(s);
    forall k | 0 <= k < |e| ensures !IsLineBreak(e[k]) {
      if e[k] != '\\' {
        var j :| 0 <= j < |s| && s[j] == e[k];
      }
    }
  }

  /** Every line free of line breaks. */
  predicate AllNoBreak(ls: seq<string>) {
    forall k | 0 <= k < |ls| :: NoLineBreak(ls[k])
  }

  lemma AllNoBreakConcat(a: seq<string>, b: seq<string>)
    requires AllNoBreak(a) && AllNoBreak(b)
    ensures AllNoBreak(a + b)
  {
    forall k | 0 <= k < |a + b| ensures NoLineBreak((a + b)[k]) {
      if k >= |a| {
        assert (a + b)[k] == b[k - |a|];
      }
    }
  }

  lemma TagLinesNoBreak(tags: seq<string>)
    requires forall k | 0 <= k < |tags| :: NoLineBreak(tags[k])
    ensures AllNoBreak(TagLines(tags))
  {
    var tl := TagLines(tags);
    forall k | 0 <= k < |tl| ensures NoLineBreak(tl[k]) {
      ItemNoBreak(tags[k]);
    }
  }

  lemma ItemNoBreak(t: string)
    requires NoLineBreak(t)
    ensures NoLineBreak("  - " + t)
  {
    NoBreakConcat("  - ", t);
  }

  lemma SourceLineNoBreak(n: Atomize.Note)
    requires PlainField(n.sourceDoc.GetOr(""))
    ensures NoLineBreak(SourceLine(n))
  {
    var sd := n.sourceDoc.GetOr("");
    EscapeNoBreak(sd);
    NoBreakConcat("source_doc: \"", EscapeQuotes(sd));
    NoBreakConcat("source_doc: \"" + EscapeQuotes(sd), "\"");
  }

  lemma KeyLinesNoBreak(n: Atomize.Note)
    requires Renderable(n)
    ensures AllNoBreak([DateLine(n), SourceLine(n), TypeLine(n)])
  {
    NoBreakConcat("date: ", n.date.GetOr(""));
    SourceLineNoBreak(n);
    NoBreakConcat("note_type: ", n.noteType.GetOr(""));
  }

  /** No line of the block holds a line break. */
  lemma BlockNoBreak(n: Atomize.Note)
    requires Renderable(n)
    ensures AllNoBreak(BlockLines(n))
  {
    var head: seq<string> := ["", "tags:"];
    var tl := TagLines(TagsOf(n));
    assert AllNoBreak(head);
    TagLinesNoBreak(TagsOf(n));
    KeyLinesNoBreak(n);
    AllNoBreakConcat(head, tl);
    AllNoBreakConcat(head + tl, [DateLine(n), SourceLine(n), TypeLine(n)]);
  }

  /** `splitlines()` of the block gives back its lines. */
  lemma BlockSplitLines(n: Atomize.Note)
    requires Renderable(n)
    ensures SplitLines(Lines(BlockLines(n))) == BlockLines(n)
  {
    BlockNoBreak(n);
    SplitLinesOfLines(BlockLines(n));
  }

  /** A block ending in a line break and free of `---` cannot end in a
      partial delimiter. */
  lemma BlockNoStraddle(b: string, t: string)
    requires NoDelim(b) && b != [] && b[|b| - 1] == '\n'
    ensures NoStraddle(b, Delimiter + t, Delimiter)
  {
    var s := b + (Delimiter + t);
    forall i | 0 <= i < |b| ensures !OccursAt(s, Delimiter, i) {
      OccursDelim(s, i);
      OccursDelim(b, i);
    }
  }

  /** Text opening with `---` and a block free of it: the next `---` closes it. */
  lemma DelimitedBlock(b: string, t: string)
    requires NoDelim(b) && b != [] && b[|b| - 1] == '\n'
    ensures FrontmatterOf(Delimiter + b + Delimiter + t) == BlockFrontmatter(b)
  {
    BlockNoStraddle(b, t);
    assert NoStraddle([], Delimiter + b + Delimiter + t, Delimiter);
    OnlyFirstBlock([], b, t);
    assert [] + Delimiter + b + Delimiter + t == Delimiter + b + Delimiter + t;
  }

  /** The second `---` of the rendered text closes the block. */
  lemma RenderedBlock(n: Atomize.Note)
    requires Renderable(n)
    ensures FrontmatterOf(RenderNoteMd(n)) == BlockFrontmatter(Lines(BlockLines(n)))
  {
    RenderShape(n);
    BlockNoDelim(n);
    LinesEndsWithNewline(BlockLines(n));
    DelimitedBlock(Lines(BlockLines(n)), Tail(n));
  }

  lemma {:induction false} LinesEndsWithNewline(ls: seq<string>)
    requires ls != []
    ensures |Lines(ls)| > 0 && Lines(ls)[|Lines(ls)| - 1] == '\n'
    decreases |ls|
  {
    if |ls| > 1 {
      LinesEndsWithNewline(ls[1..]);
    } else {
      assert ls[1..] == [];
    }
  }

  // ------------------------------------------------------------ the parse

  lemma ItemLinesInBlock(lines: seq<string>, tags: seq<string>)
    requires |lines| == |tags|
    requires forall k | 0 <= k < |tags| :: lines[k] == "  - " + tags[k]
    ensures InTagBlock(lines)
  {
    forall k | 0 <= k < |lines| ensures StartsWith(lines[k], ItemPrefix) {
      assert lines[k][..4] == "  - ";
    }
  }

  lemma {:induction false} StripAllSnoc(xs: seq<string>, x: string)
    ensures Atomize.StripAll(xs + [x]) == Atomize.StripAll(xs) + [Strip(x)]
    decreases |xs|
  {
    if xs == [] {
      assert [x][1..] == [];
    } else {
      assert (xs + [x])[1..] == xs[1..] + [x];
      StripAllSnoc(xs[1..], x);
    }
  }

  /** Item lines give back their stripped tags, one per line. */
  lemma {:induction false} ItemTagsOfTagLines(lines: seq<string>, tags: seq<string>)
    requires |lines| == |tags|
    requires forall k | 0 <= k < |tags| :: lines[k] == "  - " + tags[k]
    ensures ItemTags(lines) == Atomize.StripAll(tags)
    decreases |lines|
  {
    if lines != [] {
      var m := |lines|;
      var init, tinit := lines[..m - 1], tags[..m - 1];
      assert forall k | 0 <= k < |tinit| :: init[k] == "  - " + tinit[k];
      ItemTagsOfTagLines(init, tinit);
      assert lines == init + [lines[m - 1]];
      ItemTagsStep(init, lines[m - 1], tags[m - 1]);
      assert tags == tinit + [tags[m - 1]];
      StripAllSnoc(tinit, tags[m - 1]);
    }
  }

  lemma ItemTagsStep(init: seq<string>, last: string, t: string)
    requires last == "  - " + t
    ensures ItemTags(init + [last]) == ItemTags(init) + [Strip(t)]
  {
    var lines := init + [last];
    assert lines[..|lines| - 1] == init;
    ItemLine(t);
  }

  lemma ItemLine(t: string)
    ensures StartsWith("  - " + t, ItemPrefix) && ("  - " + t)[4..] == t
  {
    assert ("  - " + t)[..4] == "  - ";
  }

  lemma FirstColon(k: string, v: string)
    requires ':' !in k
    ensures Find(k + ":" + v, ":") == Some(|k|)
    ensures KeyValue(k + ":" + v, |k|) == (Strip(k), Unquote(Strip(v)))
  {
    var line := k + ":" + v;
    assert OccursAt(line, ":", |k|);
    forall i | 0 <= i < |k| ensures !OccursAt(line, ":", i) {
      assert line[i] == k[i];
      assert line[i..i + 1] == [line[i]];
    }
    assert line[..|k|] == k;
    assert line[|k| + 1..] == v;
  }

  /** A key that `parse_frontmatter` keeps as written. */
  predicate KeyName(k: string) {
    k != [] && k[0] != ' ' && ':' !in k && Strip(k) == k && k != "tags"
  }

  /** A line `k: x` with a plain key sets `k` to the unquoted strip of `x`. */
  lemma KeyLine(st: ParseState, line: string, k: string, x: string)
    requires KeyName(k) && line == k + ": " + x
    ensures Step(st, line) == ParseState(st.values[k := Unquote(Strip(x))], st.tagList, false)
  {
    KeyLineShape(line, k, x);
    KeyLineSets(st, k, " " + x);
    StripLeadingSpace(x);
  }

  lemma KeyLineShape(line: string, k: string, x: string)
    requires KeyName(k) && line == k + ": " + x
    ensures line == k + ":" + (" " + x)
    ensures IsKeyLine(line) && !StartsWith(line, ItemPrefix)
  {
    assert OccursAt(line, ": ", |k|) by { assert line[|k|..|k| + 2] == ": "; }
    ContainsIff(line, ": ");
    assert line[0] == k[0];
  }

  lemma StripLeadingSpace(x: string)
    ensures Strip(" " + x) == Strip(x)
  {
    assert IsBlank(" ") && IsBlank("");
    StripPadded(" ", x, "");
    assert " " + x + "" == " " + x;
  }

  /** The `tags:` line opens an empty list. */
  lemma TagsKeyLine(st: ParseState)
    ensures Step(st, "tags:") == ParseState(st.values, [], true)
  {
    var k := "tags";
    assert "tags:" == k + ":";
    assert !IsSpace(k[0]) && !IsSpace(k[3]) && ':' !in k;
    BareKeyLine(st, k);
  }

  /** A line `k:` with a plain key and nothing after the colon: `tags` opens
      an empty list, any other key is set to the empty string. */
  lemma BareKeyLine(st: ParseState, k: string)
    requires k != [] && !IsSpace(k[0]) && !IsSpace(k[|k| - 1]) && ':' !in k
    ensures Step(st, k + ":") ==
      if k == "tags" then ParseState(st.values, [], true) else ParseState(st.values[k := ""], st.tagList, false)
  {
    var line := k + ":";
    assert line == k + ":" + "";
    FirstColon(k, "");
    StripNoEdges(k);
    assert EndsWith(line, ":") && !StartsWith(line, " ") by {
      assert line[0] == k[0] && line[|line| - 1] == ':';
    }
    assert !StartsWith(line, ItemPrefix) by {
      assert line[0] == k[0] && ItemPrefix[0] == ' ';
    }
  }

  lemma EmptyLine(st: ParseState)
    ensures Step(st, "") == st
  {
    assert !Contains("", ": ");
  }

  /** A key that `parse_frontmatter` keeps as written. */
  lemma PlainKey(k: string)
    requires k != [] && k[0] != ' ' && k[|k| - 1] != ' ' && ':' !in k && k != "tags"
    requires forall i | 0 <= i < |k| :: 'a' <= k[i] <= 'z' || k[i] == '_'
    ensures KeyName(k)
  {
    StripNoEdges(k);
  }

  /** The empty line and the `tags:` block. */
  lemma RunHead(tl: seq<string>)
    requires InTagBlock(tl)
    ensures Run(Start, [""] + (["tags:"] + tl)) == ParseState(map[], ItemTags(tl), true)
  {
    RunAppend(Start, [""], ["tags:"] + tl);
    RunOne(Start, "");
    EmptyLine(Start);
    RunAppend(Start, ["tags:"], tl);
    RunOne(Start, "tags:");
    TagsKeyLine(Start);
    RunTagBlock(ParseState(map[], [], true), tl);
  }

  lemma RunSnoc(st: ParseState, ls: seq<string>, l: string)
    ensures Run(st, ls + [l]) == Step(Run(st, ls), l)
  {
    assert (ls + [l])[..|ls|] == ls;
  }

  lemma RunThree(st: ParseState, l1: string, l2: string, l3: string)
    ensures Run(st, [l1, l2, l3]) == Step(Step(Step(st, l1), l2), l3)
  {
    assert [l1, l2, l3] == [l1, l2] + [l3];
    assert [l1, l2] == [l1] + [l2];
    RunSnoc(st, [l1, l2], l3);
    RunSnoc(st, [l1], l2);
    RunOne(st, l1);
  }

  /** Three key lines set their keys in turn and close any tag list. */
  lemma RunKeys(st: ParseState, k1: string, k2: string, k3: string, x1: string, x2: string, x3: string,
                l1: string, l2: string, l3: string)
    requires KeyName(k1) && KeyName(k2) && KeyName(k3)
    requires l1 == k1 + ": " + x1 && l2 == k2 + ": " + x2 && l3 == k3 + ": " + x3
    ensures Run(st, [l1, l2, l3])
      == ParseState(st.values[k1 := Unquote(Strip(x1))][k2 := Unquote(Strip(x2))][k3 := Unquote(Strip(x3))], st.tagList, false)
  {
    RunThree(st, l1, l2, l3);
    KeyLine(st, l1, k1, x1);
    var s2 := Step(st, l1);
    KeyLine(s2, l2, k2, x2);
    KeyLine(Step(s2, l2), l3, k3, x3);
  }

  function SourceQuoted(n: Atomize.Note): string {
    "\"" + EscapeQuotes(n.sourceDoc.GetOr("")) + "\""
  }

  lemma KeyLinesOf(n: Atomize.Note)
    ensures DateLine(n) == "date" + ": " + n.date.GetOr("")
    ensures SourceLine(n) == "source_doc" + ": " + SourceQuoted(n)
    ensures TypeLine(n) == "note_type" + ": " + n.noteType.GetOr("")
  {
  }

  /** A block of an empty line, `tags:` with its items, then three key lines. */
  lemma RunTagsThenKeys(tags: seq<string>, k1: string, k2: string, k3: string, x1: string, x2: string, x3: string,
                        l1: string, l2: string, l3: string)
    requires KeyName(k1) && KeyName(k2) && KeyName(k3)
    requires l1 == k1 + ": " + x1 && l2 == k2 + ": " + x2 && l3 == k3 + ": " + x3
    ensures Run(Start, ["", "tags:"] + TagLines(tags) + [l1, l2, l3])
      == ParseState(map[][k1 := Unquote(Strip(x1))][k2 := Unquote(Strip(x2))][k3 := Unquote(Strip(x3))],
                    Atomize.StripAll(tags), false)
  {
    var head := [""] + (["tags:"] + TagLines(tags));
    HeadThenKeys(TagLines(tags), [l1, l2, l3]);
    RunAppend(Start, head, [l1, l2, l3]);
    RunHeadTags(tags);
    RunKeys(ParseState(map[], Atomize.StripAll(tags), true), k1, k2, k3, x1, x2, x3, l1, l2, l3);
  }

  lemma HeadThenKeys(tl: seq<string>, keys: seq<string>)
    ensures ["", "tags:"] + tl + keys == ([""] + (["tags:"] + tl)) + keys
  {
  }

  /** The empty line, `tags:` and the item lines of `tags`. */
  lemma RunHeadTags(tags: seq<string>)
    ensures Run(Start, [""] + (["tags:"] + TagLines(tags))) == ParseState(map[], Atomize.StripAll(tags), true)
  {
    var tl := TagLines(tags);
    ItemLinesInBlock(tl, tags);
    ItemTagsOfTagLines(tl, tags);
    RunHead(tl);
  }

  lemma BlockKeys()
    ensures KeyName("date") && KeyName("source_doc") && KeyName("note_type")
  {
    DateKey();
    SourceKey();
    TypeKey();
  }

  lemma DateKey()
    ensures KeyName("date")
  {
    PlainKey("date");
  }

  lemma SourceKey()
    ensures KeyName("source_doc")
  {
    PlainKey("source_doc");
  }

  lemma TypeKey()
    ensures KeyName("note_type")
  {
    PlainKey("note_type");
  }

  /** The parse of the block's lines: the stripped tags, and the three keys. */
  lemma RunBlock(n: Atomize.Note)
    ensures Run(Start, BlockLines(n))
      == ParseState(map[]["date" := Unquote(Strip(n.date.GetOr("")))]
                         ["source_doc" := Unquote(Strip(SourceQuoted(n)))]
                         ["note_type" := Unquote(Strip(n.noteType.GetOr("")))],
                    Atomize.StripAll(TagsOf(n)), false)
  {
    BlockKeys();
    KeyLinesOf(n);
    RunTagsThenKeys(TagsOf(n), "date", "source_doc", "note_type",
                    n.date.GetOr(""), SourceQuoted(n), n.noteType.GetOr(""), DateLine(n), SourceLine(n), TypeLine(n));
  }

  // ------------------------------------------------------------ round trip

  /** What `parse_frontmatter` reads back from `render_note_md`: every tag
      stripped, in order; the date and note type stripped; the source
      document exactly, whatever quotes it holds. A date or note type that
      is itself wrapped in quotes would lose them, so those are excluded. */
  lemma RenderParseRoundTrip(n: Atomize.Note)
    requires Renderable(n)
    requires !Quoted(Strip(n.date.GetOr(""))) && !Quoted(Strip(n.noteType.GetOr("")))
    ensures FrontmatterOf(RenderNoteMd(n))
      == Frontmatter(map["date" := Strip(n.date.GetOr("")),
                         "source_doc" := n.sourceDoc.GetOr(""),
                         "note_type" := Strip(n.noteType.GetOr(""))],
                     Some(Atomize.StripAll(TagsOf(n))))
  {
    RenderedBlock(n);
    BlockSplitLines(n);
    RunBlock(n);
    var q := SourceQuoted(n);
    StripNoEdges(q);
    UnquoteQuoted(n.sourceDoc.GetOr(""));
  }

  /** Tags, date and note type without surrounding whitespace come back
      exactly: the parse undoes the rendering. */
  lemma RenderParseExact(n: Atomize.Note)
    requires Renderable(n)
    requires forall k | 0 <= k < |TagsOf(n)| :: Strip(TagsOf(n)[k]) == TagsOf(n)[k]
    requires Strip(n.date.GetOr("")) == n.date.GetOr("") && !Quoted(n.date.GetOr(""))
    requires Strip(n.noteType.GetOr("")) == n.noteType.GetOr("") && !Quoted(n.noteType.GetOr(""))
    ensures FrontmatterOf(RenderNoteMd(n))
      == Frontmatter(map["date" := n.date.GetOr(""),
                         "source_doc" := n.sourceDoc.GetOr(""),
                         "note_type" := n.noteType.GetOr("")],
                     n.tags)
  {
    RenderParseRoundTrip(n);
    StripAllFixed(TagsOf(n));
    assert n.tags == Some(TagsOf(n));
  }

  lemma StripAllFixed(xs: seq<string>)
    requires forall k | 0 <= k < |xs| :: Strip(xs[k]) == xs[k]
    ensures Atomize.StripAll(xs) == xs
  {
    forall k | 0 <= k < |xs| ensures Atomize.StripAll(xs)[k] == xs[k] {
      Atomize.StripAllAt(xs, k);
    }
  }
}
