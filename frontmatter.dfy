/**
 * `parse_frontmatter` of `vault_writer.py`: a line-by-line reader for the
 * YAML block between the first two `---` of a note.
 */
module Frontmatter {
  import opened Wrappers
  import opened Text

  /** The parsed block: scalar keys, and the `tags` list when it is non-empty.
      A key named `tags` never lands among the scalar values. */
  datatype Frontmatter = Frontmatter(values: map<string, string>, tags: Option<seq<string>>) {
    /** `fm.get(key, default)` for a scalar key. */
    function Get(key: string, default: string): string {
      if key in values then values[key] else default
    }
  }

  /** The loop's variables: `result`, `tag_list`, `in_tags`. */
  datatype ParseState = ParseState(values: map<string, string>, tagList: seq<string>, inTags: bool)

  const Start := ParseState(map[], [], false)

  const Delimiter := "---"

  const ItemPrefix := "  - "

  /** A line the parser treats as `key: value`. */
  predicate IsKeyLine(line: string) {
    Contains(line, ": ") || (EndsWith(line, ":") && !StartsWith(line, " "))
  }

  /** A value wrapped in double quotes loses them and has `\"` turned into `"`;
      a lone `"` becomes empty, as `value[1:-1]` does. */
  function Unquote(v: string): string {
    if StartsWith(v, "\"") && EndsWith(v, "\"") then
      Replace(if |v| >= 2 then v[1..|v| - 1] else [], "\\\"", "\"")
    else v
  }

  /** `line.partition(":")`, both sides stripped, the value unquoted. */
  function KeyValue(line: string, p: nat): (string, string)
    requires p < |line|
  {
    (Strip(line[..p]), Unquote(Strip(line[p + 1..])))
  }

  /** One iteration of the loop over the block's lines. */
  function Step(st: ParseState, line: string): (r: ParseState)
    ensures "tags" !in st.values ==> "tags" !in r.values
  {
    if StartsWith(line, ItemPrefix) && st.inTags then
      st.(tagList := st.tagList + [Strip(line[4..])])
    else if IsKeyLine(line) then
      match Find(line, ":")
      case None => st.(inTags := false)
      case Some(p) =>
        var (key, value) := KeyValue(line, p);
        if key == "tags" then ParseState(st.values, [], true)
        else ParseState(st.values[key := value], st.tagList, false)
    else st
  }

  /** The loop run over `lines` from state `st`. */
  function Run(st: ParseState, lines: seq<string>): (r: ParseState)
    ensures "tags" !in st.values ==> "tags" !in r.values
    decreases |lines|
  {
    if lines == [] then st else Step(Run(st, lines[..|lines| - 1]), lines[|lines| - 1])
  }

  /** The dictionary built from one frontmatter block. */
  function BlockFrontmatter(block: string): (fm: Frontmatter)
    ensures "tags" !in fm.values
    ensures fm.tags.Some? ==> fm.tags.value != []
  {
    var st := Run(Start, SplitLines(block));
    Frontmatter(st.values, if st.tagList == [] then None else Some(st.tagList))
  }

  /** `parse_frontmatter(content)`. */
  function FrontmatterOf(content: string): Frontmatter {
    var parts := Split(content, Delimiter);
    if |parts| < 3 then Frontmatter(map[], None) else BlockFrontmatter(parts[1])
  }

  method ParseFrontmatter(content: string) returns (fm: Frontmatter)
    ensures fm == FrontmatterOf(content)
  {
    var parts := Split(content, Delimiter);
    if |parts| < 3 {
      return Frontmatter(map[], None);
    }
    var lines := SplitLines(parts[1]);
    var result: map<string, string> := map[];
    var tagList: seq<string> := [];
    var inTags := false;
    for i := 0 to |lines|
      invariant ParseState(result, tagList, inTags) == Run(Start, lines[..i])
    {
      assert lines[..i + 1][..i] == lines[..i];
      result, tagList, inTags := ReadLine(result, tagList, inTags, lines[i]);
    }
    assert lines[..|lines|] == lines;
    fm := Frontmatter(result, if tagList == [] then None else Some(tagList));
  }

  /** The body of the loop over the block's lines. */
  method ReadLine(result0: map<string, string>, tagList0: seq<string>, inTags0: bool, line: string)
    returns (result: map<string, string>, tagList: seq<string>, inTags: bool)
    ensures ParseState(result, tagList, inTags) == Step(ParseState(result0, tagList0, inTags0), line)
  {
    result, tagList, inTags := result0, tagList0, inTags0;
    if StartsWith(line, ItemPrefix) && inTags {
      tagList := tagList + [Strip(line[4..])];
    } else if Contains(line, ": ") || (EndsWith(line, ":") && !StartsWith(line, " ")) {
      inTags := false;
      var colon := Find(line, ":");
      if colon.Some? {
        var key := Strip(line[..colon.value]);
        var value := Strip(line[colon.value + 1..]);
        value := Unquote(value);
        assert (key, value) == KeyValue(line, colon.value);
        if key == "tags" {
          inTags := true;
          tagList := [];
        } else {
          result := result[key := value];
        }
      }
    }
  }

  // ------------------------------------------------------------------ lemmas

  lemma {:induction false} RunAppend(st: ParseState, a: seq<string>, b: seq<string>)
    ensures Run(st, a + b) == Run(Run(st, a), b)
    decreases |b|
  {
    if b == [] {
      assert a + b == a;
    } else {
      var ab := a + b;
      assert ab[..|ab| - 1] == a + b[..|b| - 1];
      assert ab[|ab| - 1] == b[|b| - 1];
      RunAppend(st, a, b[..|b| - 1]);
    }
  }

  lemma RunOne(st: ParseState, line: string)
    ensures Run(st, [line]) == Step(st, line)
  {
    assert [line][..0] == [];
  }

  /** With at most one `---` in the content there is no block: the result is empty. */
  lemma {:induction false} NoClosingDelimiter(content: string)
    requires forall p | Find(content, Delimiter) == Some(p) :: FindFrom(content, Delimiter, p + 3).None?
    ensures FrontmatterOf(content) == Frontmatter(map[], None)
  {
    match Find(content, Delimiter)
    case None =>
    case Some(p) =>
      assert OccursAt(content, Delimiter, p);
      var rest := content[p + 3..];
      assert Find(rest, Delimiter).None? by {
        forall i | 0 <= i ensures !OccursAt(rest, Delimiter, i) {
          if OccursAt(rest, Delimiter, i) {
            assert content[p + 3 + i..p + 3 + i + 3] == rest[i..i + 3];
            assert OccursAt(content, Delimiter, p + 3 + i);
          }
        }
      }
      assert Split(rest, Delimiter) == [rest];
      assert Split(content, Delimiter) == [content[..p]] + Split(rest, Delimiter);
  }

  /** Only the text between the first and second `---` is read: whatever
      follows the second one does not matter. */
  lemma OnlyFirstBlock(a: string, b: string, c: string)
    requires NoStraddle(a, Delimiter + b + Delimiter + c, Delimiter)
    requires NoStraddle(b, Delimiter + c, Delimiter)
    ensures FrontmatterOf(a + Delimiter + b + Delimiter + c) == BlockFrontmatter(b)
  {
    var bc := b + Delimiter + c;
    assert a + Delimiter + bc == a + (Delimiter + b + Delimiter + c);
    SplitAtFirst(a, Delimiter, bc);
    assert b + Delimiter + c == b + (Delimiter + c);
    SplitAtFirst(b, Delimiter, c);
    assert a + Delimiter + b + Delimiter + c == a + Delimiter + bc;
  }

  /** A line the parser ignores: neither a tag item nor a key line. */
  predicate Ignored(line: string) {
    !StartsWith(line, ItemPrefix) && !IsKeyLine(line)
  }

  /** Lines that may follow `tags:` without ending its list. */
  predicate InTagBlock(lines: seq<string>) {
    forall k | 0 <= k < |lines| :: StartsWith(lines[k], ItemPrefix) || Ignored(lines[k])
  }

  /** `line[4:].strip()` for each item line, ignored lines skipped. */
  function ItemTags(lines: seq<string>): seq<string>
    decreases |lines|
  {
    if lines == [] then []
    else
      var last := lines[|lines| - 1];
      var before := ItemTags(lines[..|lines| - 1]);
      if StartsWith(last, ItemPrefix) then before + [Strip(last[4..])] else before
  }

  /** Inside the tag list every item appends its stripped text and every
      other non-key line is skipped; the list stays open. */
  lemma {:induction false} RunTagBlock(st: ParseState, lines: seq<string>)
    requires st.inTags && InTagBlock(lines)
    ensures Run(st, lines) == st.(tagList := st.tagList + ItemTags(lines))
    decreases |lines|
  {
    if lines != [] {
      var init := lines[..|lines| - 1];
      assert InTagBlock(init) by {
        forall k | 0 <= k < |init| ensures StartsWith(init[k], ItemPrefix) || Ignored(init[k]) {
          assert init[k] == lines[k];
        }
      }
      RunTagBlock(st, init);
    }
  }

  /** A `tags` key line followed by items (and ignored lines) yields exactly
      the stripped items: the inline value and any earlier list are dropped. */
  lemma TagsAfterKey(st: ParseState, keyLine: string, p: nat, lines: seq<string>)
    requires !(StartsWith(keyLine, ItemPrefix) && st.inTags) && IsKeyLine(keyLine)
    requires Find(keyLine, ":") == Some(p) && p < |keyLine|
    requires KeyValue(keyLine, p).0 == "tags"
    requires InTagBlock(lines)
    ensures Run(st, [keyLine] + lines) == ParseState(st.values, ItemTags(lines), true)
  {
    RunAppend(st, [keyLine], lines);
    RunOne(st, keyLine);
    RunTagBlock(ParseState(st.values, [], true), lines);
  }

  /** A key line `k: v` with no colon in `k` sets `Strip(k)` to the stripped,
      unquoted `v`, which may itself hold colons; an earlier value of the
      same key is overwritten. */
  lemma KeyLineSets(st: ParseState, k: string, v: string)
    requires ':' !in k
    requires IsKeyLine(k + ":" + v) && !(StartsWith(k + ":" + v, ItemPrefix) && st.inTags)
    requires Strip(k) != "tags"
    ensures Step(st, k + ":" + v) == ParseState(st.values[Strip(k) := Unquote(Strip(v))], st.tagList, false)
  {
    var line := k + ":" + v;
    assert OccursAt(line, ":", |k|);
    forall i | 0 <= i < |k| ensures !OccursAt(line, ":", i) {
      assert line[i] == k[i];
      assert line[i..i + 1] == [line[i]];
    }
    assert Find(line, ":") == Some(|k|);
    assert line[..|k|] == k;
    assert line[|k| + 1..] == v;
  }
}
