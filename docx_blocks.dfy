/**
 * The paragraph- and table-level pieces of `scripts/parse_docx.py`: heading
 * detection, list detection and list rendering, inline-image detection,
 * the run renderer (bold/italic as markdown) and the table renderer
 * (a GitHub Flavored Markdown pipe table).
 *
 * A paragraph is taken as python-docx presents it: a style name, a sequence
 * of runs and the serialised XML of its `w:p` element; its text is the
 * concatenation of its run texts.
 */
module DocxBlocks {
  import opened Wrappers
  import opened Text

  datatype Run = Run(text: string, bold: bool, italic: bool)

  /** A `w:p` body child; `id` stands for the element's identity. */
  datatype Paragraph = Paragraph(id: nat, style: string, runs: seq<Run>, xml: string)

  /** A `w:tbl` body child: rows of cell texts. */
  datatype Table = Table(id: nat, rows: seq<seq<string>>)

  /** `para.text`: the run texts, in order. */
  function RunTexts(runs: seq<Run>): string
    decreases |runs|
  {
    if runs == [] then [] else RunTexts(runs[..|runs| - 1]) + runs[|runs| - 1].text
  }

  function ParaText(p: Paragraph): string {
    RunTexts(p.runs)
  }

  // ------------------------------------------------------------ spans

  /** Length of the run of whitespace starting at `i`. */
  function SpaceRun(s: string, i: nat): (n: nat)
    requires i <= |s|
    ensures i + n <= |s|
    ensures forall k | i <= k < i + n :: IsSpace(s[k])
    ensures i + n == |s| || !IsSpace(s[i + n])
    decreases |s| - i
  {
    if i < |s| && IsSpace(s[i]) then 1 + SpaceRun(s, i + 1) else 0
  }

  /** Length of the run of decimal digits starting at `i`. */
  function DigitRun(s: string, i: nat): (n: nat)
    requires i <= |s|
    ensures i + n <= |s|
    ensures forall k | i <= k < i + n :: IsDigit(s[k])
    ensures i + n == |s| || !IsDigit(s[i + n])
    decreases |s| - i
  {
    if i < |s| && IsDigit(s[i]) then 1 + DigitRun(s, i + 1) else 0
  }

  lemma {:induction false} SpaceRunIs(s: string, i: nat, n: nat)
    requires i + n <= |s|
    requires forall k | i <= k < i + n :: IsSpace(s[k])
    requires i + n == |s| || !IsSpace(s[i + n])
    ensures SpaceRun(s, i) == n
    decreases n
  {
    if n > 0 {
      SpaceRunIs(s, i + 1, n - 1);
    }
  }

  lemma {:induction false} DigitRunIs(s: string, i: nat, n: nat)
    requires i + n <= |s|
    requires forall k | i <= k < i + n :: IsDigit(s[k])
    requires i + n == |s| || !IsDigit(s[i + n])
    ensures DigitRun(s, i) == n
    decreases n
  {
    if n > 0 {
      DigitRunIs(s, i + 1, n - 1);
    }
  }

  // ------------------------------------------------------------ headings

  /** The style name matches `Heading\s+(\d+)` at its start, ignoring case,
      with `w` whitespace characters and the `d` digits the group captures. */
  predicate HeadingShape(style: string, w: nat, d: nat) {
    && 7 + w + d <= |style|
    && Lower(style[..7]) == "heading"
    && w > 0 && (forall k | 7 <= k < 7 + w :: IsSpace(style[k]))
    && d > 0 && (forall k | 7 + w <= k < 7 + w + d :: IsDigit(style[k]))
    && (7 + w + d == |style| || !IsDigit(style[7 + w + d]))
  }

  /** `get_heading_level`: the integer after "Heading" and whitespace. */
  function HeadingLevel(style: string): (r: Option<nat>)
    ensures r.Some? ==> exists w, d :: HeadingShape(style, w, d) && r.value == DigitsValue(style[7 + w..7 + w + d])
  {
    if |style| < 7 || Lower(style[..7]) != "heading" then None
    else
      var w := SpaceRun(style, 7);
      var d := DigitRun(style, 7 + w);
      if w == 0 || d == 0 then None
      else
        assert HeadingShape(style, w, d);
        Some(DigitsValue(style[7 + w..7 + w + d]))
  }

  /** The converse: every style of that shape yields its number. */
  lemma HeadingLevelOfShape(style: string, w: nat, d: nat)
    requires HeadingShape(style, w, d)
    ensures HeadingLevel(style) == Some(DigitsValue(style[7 + w..7 + w + d]))
  {
    SpaceRunIs(style, 7, w);
    DigitRunIs(style, 7 + w, d);
  }

  /** The same, for a style written out as its four parts. */
  lemma HeadingLevelOf(h: string, ws: string, digits: string, rest: string)
    requires Lower(h) == "heading"
    requires ws != [] && IsBlank(ws)
    requires digits != [] && AllDigits(digits)
    requires rest == [] || !IsDigit(rest[0])
    ensures HeadingLevel(h + ws + digits + rest) == Some(DigitsValue(digits))
  {
    var s := h + ws + digits + rest;
    assert s[..7] == h;
    assert s[7 + |ws|..7 + |ws| + |digits|] == digits;
    assert forall k | 7 <= k < 7 + |ws| :: s[k] == ws[k - 7];
    assert forall k | 7 + |ws| <= k < 7 + |ws| + |digits| :: s[k] == digits[k - 7 - |ws|];
    assert 7 + |ws| + |digits| < |s| ==> s[7 + |ws| + |digits|] == rest[0];
    HeadingLevelOfShape(s, |ws|, |digits|);
  }

  /** A style that does not begin with "Heading" (in any case) is no heading. */
  lemma HeadingLevelNeedsPrefix(style: string)
    requires |style| < 7 || Lower(style[..7]) != "heading"
    ensures HeadingLevel(style) == None
  {
  }

  // ---------------------------------------------------------------- lists

  const ListStyles: seq<string> := ["list paragraph", "list bullet", "list number", "list continue"]

  /** The characters of `_BULLET_RE`'s class: four bullets, the operator
      bullet, `-` and `*`. */
  predicate IsBulletChar(c: char) {
    c == '\U{2022}' || c == '\U{2023}' || c == '\U{25E6}' || c == '\U{2043}' || c == '\U{2219}'
    || c == '-' || c == '*'
  }

  /** Length of the `^[bullets]\s` match at the start of `t`, or 0. */
  function BulletPrefix(t: string): (n: nat)
    ensures n == 0 || n == 2
    ensures n == 2 <==> |t| >= 2 && IsBulletChar(t[0]) && IsSpace(t[1])
  {
    if |t| >= 2 && IsBulletChar(t[0]) && IsSpace(t[1]) then 2 else 0
  }

  /** Length of the `^\d+[.)]\s` match at the start of `t`, or 0. */
  function NumberPrefix(t: string): (n: nat)
    ensures n <= |t|
    ensures n > 0 ==> n >= 3 && AllDigits(t[..n - 2]) && (t[n - 2] == '.' || t[n - 2] == ')') && IsSpace(t[n - 1])
    ensures n > 0 <==> exists d | 0 < d && d + 1 < |t| :: NumberAt(t, d)
  {
    var d := DigitRun(t, 0);
    if d > 0 && d + 1 < |t| && (t[d] == '.' || t[d] == ')') && IsSpace(t[d + 1]) then
      assert t[..d] == t[0..d];
      assert NumberAt(t, d);
      d + 2
    else
      NoNumberAt(t, d);
      0
  }

  /** `t` opens with `d` digits, then `.` or `)`, then whitespace. */
  predicate NumberAt(t: string, d: nat)
    requires d + 1 < |t|
  {
    AllDigits(t[..d]) && (t[d] == '.' || t[d] == ')') && IsSpace(t[d + 1])
  }

  /** Only the full run of leading digits can be followed by the marker. */
  lemma NoNumberAt(t: string, run: nat)
    requires run == DigitRun(t, 0)
    requires !(run > 0 && run + 1 < |t| && (t[run] == '.' || t[run] == ')') && IsSpace(t[run + 1]))
    ensures forall d | 0 < d && d + 1 < |t| :: !NumberAt(t, d)
  {
  }

  /** `is_list_item`: a list style, or text that opens with a bullet or a number. */
  predicate IsListItem(p: Paragraph) {
    || (exists k | 0 <= k < |ListStyles| :: Contains(Lower(p.style), ListStyles[k]))
    || BulletPrefix(ParaText(p)) > 0
    || NumberPrefix(ParaText(p)) > 0
  }

  /** A list item is a paragraph whose lower-cased style names a list style,
      or whose text opens with a bullet and whitespace, or with digits, `.`
      or `)`, and whitespace. */
  lemma IsListItemIff(p: Paragraph)
    ensures IsListItem(p) <==>
      || (exists k | 0 <= k < |ListStyles| :: Contains(Lower(p.style), ListStyles[k]))
      || (|ParaText(p)| >= 2 && IsBulletChar(ParaText(p)[0]) && IsSpace(ParaText(p)[1]))
      || (exists d | 0 < d && d + 1 < |ParaText(p)| :: NumberAt(ParaText(p), d))
  {
  }

  /** `re.search(r"\d+$", style)` as a number: the digits that end the name
      (or end it just before a final newline). */
  function TrailingNumber(style: string): (r: Option<nat>)
    ensures r.Some? <==>
      || (style != [] && IsDigit(style[|style| - 1]))
      || (|style| >= 2 && style[|style| - 1] == '\n' && IsDigit(style[|style| - 2]))
    ensures r.Some? ==> exists i, e :: (0 <= i < e <= |style| && AllDigits(style[i..e])
      && (i == 0 || !IsDigit(style[i - 1]))
      && (e == |style| || (e == |style| - 1 && style[e] == '\n')) && r.value == DigitsValue(style[i..e]))
  {
    var e := if style != [] && style[|style| - 1] == '\n' then |style| - 1 else |style|;
    var n := TrailingDigits(style[..e]);
    if n == 0 then None
    else
      assert style[..e][e - n..] == style[e - n..e];
      assert e - n == 0 || style[..e][e - n - 1] == style[e - n - 1];
      Some(DigitsValue(style[e - n..e]))
  }

  /** Length of the run of digits at the end of `s`. */
  function TrailingDigits(s: string): (n: nat)
    ensures n <= |s| && AllDigits(s[|s| - n..])
    ensures n == |s| || !IsDigit(s[|s| - n - 1])
    decreases |s|
  {
    if s != [] && IsDigit(s[|s| - 1]) then 1 + TrailingDigits(s[..|s| - 1]) else 0
  }

  /** `"  " * indent_level`, the indent level being the trailing number minus one. */
  function ListIndent(style: string): string {
    match TrailingNumber(style)
    case Some(k) => Repeat("  ", k - 1)
    case None => []
  }

  /** `para_to_list_markdown`: the rendered text, stripped, with at most one
      bullet marker and then at most one number marker removed, behind an
      indented `- `; empty when nothing is left. */
  function ListMarkdown(p: Paragraph): (r: string)
    ensures r != [] ==> !IsBlank(r) && exists body :: body != [] && Strip(body) == body && r == ListIndent(p.style) + "- " + body
  {
    var t0 := Strip(RunsMd(p.runs));
    var t1 := t0[BulletPrefix(t0)..];
    var body := Strip(t1[NumberPrefix(t1)..]);
    if body == [] then []
    else
      StripIdempotent(t1[NumberPrefix(t1)..]);
      ListLineNotBlank(ListIndent(p.style), body);
      ListIndent(p.style) + "- " + body
  }

  /** The line is empty exactly when the rendered text strips to nothing;
      otherwise it is the indent, `- ` and what is left once one bullet
      marker and then one number marker are cut off and the rest stripped. */
  lemma ListMarkdownIs(p: Paragraph)
    ensures var t0 := Strip(RunsMd(p.runs));
      var t1 := t0[BulletPrefix(t0)..];
      && (ListMarkdown(p) == [] <==> t0 == [])
      && (t0 != [] ==> ListMarkdown(p) == ListIndent(p.style) + "- " + Strip(t1[NumberPrefix(t1)..]))
  {
    var t0 := Strip(RunsMd(p.runs));
    MarkersLeaveText(t0);
    NothingLeftOfNothing(t0);
  }

  lemma ListLineNotBlank(indent: string, body: string)
    requires body != [] && !IsSpace(body[|body| - 1])
    ensures !IsBlank(indent + "- " + body)
  {
    var r := indent + "- " + body;
    assert r[|r| - 1] == body[|body| - 1];
  }

  /** An empty text stays empty when the markers are removed. */
  lemma NothingLeftOfNothing(t0: string)
    ensures t0 == [] ==>
      var t1 := t0[BulletPrefix(t0)..];
      Strip(t1[NumberPrefix(t1)..]) == []
  {
    if t0 == [] {
      var t1 := t0[BulletPrefix(t0)..];
      assert t1 == [];
      assert t1[NumberPrefix(t1)..] == [];
      StripSame(t1[NumberPrefix(t1)..], []);
    }
  }

  /** Removing the markers from a text that does not end in whitespace
      leaves something that does not strip to nothing. */
  lemma MarkersLeaveText(t0: string)
    ensures t0 != [] && !IsSpace(t0[|t0| - 1]) ==>
      var t1 := t0[BulletPrefix(t0)..];
      Strip(t1[NumberPrefix(t1)..]) != []
  {
    if t0 != [] && !IsSpace(t0[|t0| - 1]) {
      var t1 := t0[BulletPrefix(t0)..];
      var t2 := t1[NumberPrefix(t1)..];
      assert t1 != [] && t1[|t1| - 1] == t0[|t0| - 1];
      assert t2 != [] && t2[|t2| - 1] == t0[|t0| - 1];
    }
  }

  /** A plain paragraph "• x" renders as "- x" behind the style's indent. */
  lemma ListMarkdownOfBullet(p: Paragraph, g: char, x: string)
    requires PlainRuns(p.runs)
    requires IsBulletChar(g) && ParaText(p) == [g, ' '] + x
    requires x != [] && Strip(x) == x && NumberPrefix(x) == 0
    ensures ListMarkdown(p) == ListIndent(p.style) + "- " + x
  {
    RunsMdPlain(p.runs);
    var t0 := [g, ' '] + x;
    assert !IsSpace(x[|x| - 1]) by { StripEdges(x); }
    assert t0[0] == g && t0[1] == ' ' && t0[|t0| - 1] == x[|x| - 1];
    StripNoEdges(t0);
    assert BulletPrefix(t0) == 2;
    assert t0[2..] == x;
    assert x[0..] == x;
    ListMarkdownIs(p);
  }

  /** A plain paragraph "12. x" renders as "- x" behind the style's indent. */
  lemma ListMarkdownOfNumber(p: Paragraph, digits: string, x: string)
    requires PlainRuns(p.runs)
    requires digits != [] && AllDigits(digits) && ParaText(p) == digits + ". " + x
    requires x != [] && Strip(x) == x
    ensures ListMarkdown(p) == ListIndent(p.style) + "- " + x
  {
    RunsMdPlain(p.runs);
    var t0 := digits + ". " + x;
    NumberedText(digits, x);
    assert t0[0..] == t0;
    ListMarkdownIs(p);
  }

  /** "12. x" is already stripped, has no bullet and a number marker of the
      digits plus two characters, after which `x` is left. */
  lemma NumberedText(digits: string, x: string)
    requires digits != [] && AllDigits(digits)
    requires x != [] && Strip(x) == x
    ensures var t0 := digits + ". " + x;
      && Strip(t0) == t0 && BulletPrefix(t0) == 0
      && NumberPrefix(t0) == |digits| + 2 && t0[|digits| + 2..] == x
  {
    var t0 := digits + ". " + x;
    NumberedStripped(digits, x);
    NumberPrefixOf(digits, x);
    assert t0[|digits| + 2..] == x;
  }

  lemma NumberedStripped(digits: string, x: string)
    requires digits != [] && AllDigits(digits)
    requires x != [] && Strip(x) == x
    ensures Strip(digits + ". " + x) == digits + ". " + x
  {
    var t0 := digits + ". " + x;
    assert !IsSpace(x[|x| - 1]) by { StripEdges(x); }
    assert t0[0] == digits[0];
    assert t0[|t0| - 1] == x[|x| - 1];
    StripNoEdges(t0);
  }

  lemma NumberPrefixOf(digits: string, x: string)
    requires digits != [] && AllDigits(digits)
    ensures NumberPrefix(digits + ". " + x) == |digits| + 2
  {
    var t := digits + ". " + x;
    assert forall k | 0 <= k < |digits| :: t[k] == digits[k];
    assert t[|digits|] == '.' && t[|digits| + 1] == ' ';
    DigitRunIs(t, 0, |digits|);
  }

  lemma StripEdges(s: string)
    requires s != [] && Strip(s) == s
    ensures !IsSpace(s[0]) && !IsSpace(s[|s| - 1])
  {
  }

  // --------------------------------------------------------------- images

  /** `has_inline_image`: the paragraph's XML holds a drawing or a picture. */
  predicate HasInlineImage(xml: string) {
    Contains(xml, "w:drawing") || Contains(xml, "pic:pic")
  }

  /** The XML holds an image exactly when one of the two element names
      occurs somewhere in it. */
  lemma HasInlineImageIff(xml: string)
    ensures HasInlineImage(xml) <==> exists i :: OccursAt(xml, "w:drawing", i) || OccursAt(xml, "pic:pic", i)
  {
    ContainsIff(xml, "w:drawing");
    ContainsIff(xml, "pic:pic");
  }

  // ----------------------------------------------------------------- runs

  /** One run as markdown: empty runs vanish, bold and italic wrap the text. */
  function RunMd(r: Run): string {
    if r.text == [] then []
    else if r.bold && r.italic then "***" + r.text + "***"
    else if r.bold then "**" + r.text + "**"
    else if r.italic then "*" + r.text + "*"
    else r.text
  }

  /** The run renderer's result: the runs' markdown, in order, unseparated. */
  function RunsMd(runs: seq<Run>): string
    decreases |runs|
  {
    if runs == [] then [] else RunsMd(runs[..|runs| - 1]) + RunMd(runs[|runs| - 1])
  }

  predicate PlainRuns(runs: seq<Run>) {
    forall k | 0 <= k < |runs| :: !runs[k].bold && !runs[k].italic
  }

  /** `runs_to_markdown`. */
  method RunsToMarkdown(runs: seq<Run>) returns (md: string)
    ensures md == RunsMd(runs)
  {
    md := [];
    for i := 0 to |runs|
      invariant md == RunsMd(runs[..i])
    {
      var text := runs[i].text;
      if text != [] {
        if runs[i].bold && runs[i].italic {
          text := "***" + text + "***";
        } else if runs[i].bold {
          text := "**" + text + "**";
        } else if runs[i].italic {
          text := "*" + text + "*";
        }
        md := md + text;
      }
      assert runs[..i + 1][..i] == runs[..i];
    }
    assert runs[..|runs|] == runs;
  }

  /** Rendering distributes over concatenation of the runs. */
  lemma {:induction false} RunsMdAppend(a: seq<Run>, b: seq<Run>)
    ensures RunsMd(a + b) == RunsMd(a) + RunsMd(b)
    decreases |b|
  {
    if b == [] {
      assert a + b == a;
    } else {
      var b' := b[..|b| - 1];
      var ab := a + b;
      assert ab[..|ab| - 1] == a + b';
      assert ab[|ab| - 1] == b[|b| - 1];
      calc {
        RunsMd(ab);
        RunsMd(a + b') + RunMd(b[|b| - 1]);
        { RunsMdAppend(a, b'); }
        RunsMd(a) + RunsMd(b') + RunMd(b[|b| - 1]);
        RunsMd(a) + RunsMd(b);
      }
    }
  }

  /** Without bold or italic the rendering is the paragraph text. */
  lemma {:induction false} RunsMdPlain(runs: seq<Run>)
    requires PlainRuns(runs)
    ensures RunsMd(runs) == RunTexts(runs)
    decreases |runs|
  {
    if runs != [] {
      RunsMdPlain(runs[..|runs| - 1]);
    }
  }

  /** The rendering is empty exactly when the paragraph text is. */
  lemma {:induction false} RunsMdEmptyIff(runs: seq<Run>)
    ensures RunsMd(runs) == [] <==> RunTexts(runs) == []
    decreases |runs|
  {
    if runs != [] {
      RunsMdEmptyIff(runs[..|runs| - 1]);
    }
  }

  // --------------------------------------------------------------- tables

  /** A cell: stripped, then each `\n` turned into a space. */
  function CellMd(c: string): (r: string)
    ensures '\n' !in r
  {
    ReplaceCharAt(Strip(c), '\n', ' ');
    Replace(Strip(c), "\n", " ")
  }

  /** The cell keeps every character of its stripped text but `\n`, which
      becomes a space. */
  lemma CellMdAt(c: string)
    ensures |CellMd(c)| == |Strip(c)|
    ensures forall k | 0 <= k < |Strip(c)| :: CellMd(c)[k] == (if Strip(c)[k] == '\n' then ' ' else Strip(c)[k])
  {
    ReplaceCharAt(Strip(c), '\n', ' ');
  }

  function Cells(row: seq<string>): (r: seq<string>)
    ensures |r| == |row|
    ensures forall k | 0 <= k < |r| :: r[k] == CellMd(row[k])
  {
    seq(|row|, k requires 0 <= k < |row| => CellMd(row[k]))
  }

  /** `"| " + " | ".join(cells) + " |"`. */
  function RowMd(cells: seq<string>): string {
    "| " + Join(" | ", cells) + " |"
  }

  function Dashes(k: nat): (r: seq<string>)
    ensures |r| == k && forall j | 0 <= j < k :: r[j] == "---"
  {
    seq(k, _ => "---")
  }

  /** Every row with its cells converted. */
  function ConvertRows(rows: seq<seq<string>>): (r: seq<seq<string>>)
    ensures |r| == |rows| && forall k | 0 <= k < |r| :: r[k] == Cells(rows[k])
  {
    seq(|rows|, k requires 0 <= k < |rows| => Cells(rows[k]))
  }

  function RowsMd(rows: seq<seq<string>>): (r: seq<string>)
    ensures |r| == |rows| && forall k | 0 <= k < |r| :: r[k] == RowMd(rows[k])
  {
    seq(|rows|, k requires 0 <= k < |rows| => RowMd(rows[k]))
  }

  /** The lines of the table: header, separator of as many `---` cells as
      the header has, then the other rows in order. */
  function TableLines(rows: seq<seq<string>>): (r: seq<string>)
    ensures |r| == if rows == [] then 0 else |rows| + 1
  {
    var cs := ConvertRows(rows);
    if cs == [] then []
    else [RowMd(cs[0]), RowMd(Dashes(|cs[0]|))] + RowsMd(cs[1..])
  }

  /** `table_to_markdown`'s result. */
  function TableMd(rows: seq<seq<string>>): string {
    Join("\n", TableLines(rows))
  }

  method ConvertRow(row: seq<string>) returns (cells: seq<string>)
    ensures cells == Cells(row)
  {
    cells := [];
    for j := 0 to |row|
      invariant |cells| == j
      invariant forall k | 0 <= k < j :: cells[k] == CellMd(row[k])
    {
      cells := cells + [CellMd(row[j])];
    }
  }

  /** `table_to_markdown`. */
  method TableToMarkdown(t: Table) returns (md: string)
    ensures md == TableMd(t.rows)
  {
    var rows := ConvertTable(t);
    if rows == [] {
      return [];
    }
    var lines := RenderLines(rows);
    md := Join("\n", lines);
  }

  /** The first loop of `table_to_markdown`: every row's cells, converted. */
  method ConvertTable(t: Table) returns (rows: seq<seq<string>>)
    ensures rows == ConvertRows(t.rows)
  {
    rows := [];
    for i := 0 to |t.rows|
      invariant |rows| == i
      invariant forall k | 0 <= k < i :: rows[k] == Cells(t.rows[k])
    {
      var cells := ConvertRow(t.rows[i]);
      rows := rows + [cells];
    }
  }

  /** The header line, the separator line, then one line per further row. */
  method RenderLines(rows: seq<seq<string>>) returns (lines: seq<string>)
    requires rows != []
    ensures lines == [RowMd(rows[0]), RowMd(Dashes(|rows[0]|))] + RowsMd(rows[1..])
  {
    var header := rows[0];
    lines := [RowMd(header), RowMd(Dashes(|header|))];
    for i := 1 to |rows|
      invariant |lines| == i + 1
      invariant lines[..2] == [RowMd(header), RowMd(Dashes(|header|))]
      invariant forall k | 2 <= k < i + 1 :: lines[k] == RowMd(rows[k - 1])
    {
      lines := lines + [RowMd(rows[i])];
    }
  }

  /** No rendered line breaks: every line is free of `\n`. */
  lemma TableLinesOneLine(rows: seq<seq<string>>)
    ensures forall k | 0 <= k < |TableLines(rows)| :: '\n' !in TableLines(rows)[k]
  {
    var ls := TableLines(rows);
    forall k | 0 <= k < |ls| ensures '\n' !in ls[k] {
      var cells := if k == 1 then Dashes(|rows[0]|) else Cells(rows[if k == 0 then 0 else k - 1]);
      TableLineAt(rows, k);
      forall j | 0 <= j < |cells| ensures '\n' !in cells[j] {
        if k == 1 { assert cells[j] == "---"; }
      }
      JoinExcludes(" | ", cells, '\n');
    }
  }

  /** Line `k` renders the header (0), the separator (1) or row `k - 1`. */
  lemma TableLineAt(rows: seq<seq<string>>, k: nat)
    requires k < |TableLines(rows)|
    ensures TableLines(rows)[k] == RowMd(if k == 1 then Dashes(|rows[0]|) else Cells(rows[if k == 0 then 0 else k - 1]))
  {
    var cs := ConvertRows(rows);
    var head := [RowMd(cs[0]), RowMd(Dashes(|cs[0]|))];
    var tail := RowsMd(cs[1..]);
    assert TableLines(rows) == head + tail;
    if k >= 2 {
      ConcatAt(head, tail, k);
      assert tail[k - 2] == RowMd(cs[k - 1]);
    }
  }

  lemma ConcatAt<T>(a: seq<T>, b: seq<T>, k: nat)
    requires |a| <= k < |a| + |b|
    ensures (a + b)[k] == b[k - |a|]
  {
  }

  /** Splitting the rendering on `\n` gives back the header, the separator
      and one line per further row; no rows render as the empty string. */
  lemma TableMdLines(rows: seq<seq<string>>)
    ensures rows == [] <==> TableMd(rows) == []
    ensures rows != [] ==> Split(TableMd(rows), "\n") == TableLines(rows)
  {
    if rows != [] {
      TableLinesOneLine(rows);
      SplitJoin(TableLines(rows), '\n');
      assert TableMd(rows)[0] == '|';
    }
  }

  /** A rendered table never reads as blank text. */
  lemma TableMdNotBlank(rows: seq<seq<string>>)
    requires rows != []
    ensures !IsBlank(TableMd(rows)) && TableMd(rows)[0] == '|'
  {
    assert TableMd(rows)[0] == '|';
  }
}
