/**
 * `parse_docx_to_json` in `scripts/parse_docx.py`: the heading-depth
 * offset, the paragraph walk that grows a list of sections while appending
 * to the current one, the placement of tables, and the file checks.
 *
 * `Walk` specifies the walk from each step's effect and each step's
 * injection-map lookup. `Lookups` says which key paragraph `i`'s step looks
 * up: with `lag == 0` the key `i`, as the script does (and key
 * `len(paragraphs)` after the last paragraph); with `lag == 1` the key of
 * the tables that follow the previous paragraph, which puts every table
 * where the body has it (`CorrectedKeepsBodyOrder`).
 */
module DocxWalk {
  import opened Wrappers
  import opened Text
  import opened DocxBlocks
  import opened DocxLayout

  /** One entry of `result["sections"]`; `heading == None` is the
      pre-heading section. */
  datatype Section = Section(heading: Option<string>, level: int, paragraphs: seq<string>)

  // ------------------------------------------------------ heading offset

  /** The heading levels of the paragraphs that have one, in order. */
  function HeadingLevels(ps: seq<Paragraph>): (ls: seq<nat>)
    ensures forall k | 0 <= k < |ps| && HeadingLevel(ps[k].style).Some? :: HeadingLevel(ps[k].style).value in ls
    ensures forall l | l in ls :: exists k | 0 <= k < |ps| :: HeadingLevel(ps[k].style) == Some(l)
    decreases |ps|
  {
    if ps == [] then []
    else
      var rest := HeadingLevels(ps[..|ps| - 1]);
      assert forall k | 0 <= k < |ps| - 1 :: ps[..|ps| - 1][k] == ps[k];
      match HeadingLevel(ps[|ps| - 1].style)
      case Some(l) => rest + [l]
      case None => rest
  }

  function MinOf(ls: seq<nat>): (m: nat)
    requires ls != []
    ensures m in ls && forall l | l in ls :: m <= l
    decreases |ls|
  {
    if |ls| == 1 then ls[0]
    else
      var m := MinOf(ls[1..]);
      assert forall l | l in ls :: l == ls[0] || l in ls[1..];
      if ls[0] <= m then ls[0] else m
  }

  /** `heading_depth_offset`: the smallest heading level minus one, over all
      paragraphs (0 without headings). Subtracting it maps every heading
      level to 1 or more and the smallest to exactly 1. */
  function HeadingDepthOffset(ps: seq<Paragraph>): (off: int)
    ensures off >= -1
    ensures HeadingLevels(ps) == [] ==> off == 0
    ensures forall k | 0 <= k < |ps| && HeadingLevel(ps[k].style).Some? :: HeadingLevel(ps[k].style).value - off >= 1
    ensures HeadingLevels(ps) != [] ==>
      exists k | 0 <= k < |ps| :: HeadingLevel(ps[k].style).Some? && HeadingLevel(ps[k].style).value - off == 1
  {
    var levels := HeadingLevels(ps);
    var minLevel := if levels != [] then MinOf(levels) else 1;
    minLevel - 1
  }

  // ------------------------------------------------ one paragraph's step

  /** What a paragraph's step does after any table injection. */
  datatype Effect =
    | Skip                                    // empty paragraph, no image
    | Anchor                                  // opens the pre-heading section if needed, adds nothing
    | Emit(item: string)                      // adds `item` to the current section, opening one if needed
    | NewSection(heading: string, level: int) // starts a new current section

  function ParaEffect(p: Paragraph, off: int): Effect {
    var text := Strip(ParaText(p));
    if text == [] then
      if HasInlineImage(p.xml) then Emit("[image]") else Skip
    else
      match HeadingLevel(p.style)
      case Some(level) => NewSection(text, level - off)
      case None =>
        if HasInlineImage(p.xml) then Emit("[image]") else TextEffect(p)
  }

  /** A body paragraph without an image: a list item adds its list line, any
      other paragraph its rendered runs, and nothing is added when that is
      empty (or blank); either way a section is open afterwards. */
  function TextEffect(p: Paragraph): (e: Effect)
    ensures e.Emit? || e == Anchor
    ensures e.Emit? ==> !IsBlank(e.item)
  {
    if IsListItem(p) then
      var content := ListMarkdown(p);
      if content != [] then Emit(content) else Anchor
    else
      var content := RunsMd(p.runs);
      StripEmptyIffBlank(content);
      if Strip(content) != [] then Emit(content) else Anchor
  }

  /** A paragraph with an image yields exactly one "[image]" when it is
      empty or not a heading; an empty one without an image yields nothing. */
  lemma ParaEffectImage(p: Paragraph, off: int)
    ensures var e := ParaEffect(p, off);
      && (HasInlineImage(p.xml) && (Strip(ParaText(p)) == [] || HeadingLevel(p.style).None?) ==> e == Emit("[image]"))
      && (Strip(ParaText(p)) == [] && !HasInlineImage(p.xml) ==> e == Skip)
  {
  }

  lemma ParaEffectOpens(p: Paragraph, off: int)
    ensures ParaEffect(p, off).NewSection? <==> Strip(ParaText(p)) != [] && HeadingLevel(p.style).Some?
  {
    if Strip(ParaText(p)) != [] && !HasInlineImage(p.xml) && HeadingLevel(p.style).None? {
      assert ParaEffect(p, off) == TextEffect(p);
    }
  }

  lemma ParaEffectOpened(p: Paragraph, off: int)
    ensures var e := ParaEffect(p, off);
      e.NewSection? ==> e == NewSection(Strip(ParaText(p)), HeadingLevel(p.style).value - off)
  {
  }

  /** A section is opened exactly for a non-empty heading paragraph, headed
      by its stripped text, which is never blank, at its level less the offset. */
  lemma ParaEffectHeading(p: Paragraph, off: int)
    ensures var e := ParaEffect(p, off); var text := Strip(ParaText(p));
      && (e.NewSection? <==> text != [] && HeadingLevel(p.style).Some?)
      && (e.NewSection? ==> e == NewSection(text, HeadingLevel(p.style).value - off) && !IsBlank(text))
  {
    ParaEffectOpens(p, off);
    ParaEffectOpened(p, off);
    StrippedNotBlank(ParaText(p));
  }

  /** Every string a step adds is non-blank. */
  lemma ParaEffectNotBlank(p: Paragraph, off: int)
    ensures ParaEffect(p, off).Emit? ==> !IsBlank(ParaEffect(p, off).item)
  {
    if Strip(ParaText(p)) == [] || HeadingLevel(p.style).Some? || HasInlineImage(p.xml) {
      assert "[image]"[0] == '[';
    }
  }

  /** The strings a step adds to the output. */
  function Items(e: Effect): seq<string> {
    if e.Emit? then [e.item] else []
  }

  // --------------------------------------------------- the section list

  /** `current_section`, created as the pre-heading section when missing. */
  function EnsureOpen(ss: seq<Section>): (r: seq<Section>)
    ensures r != []
  {
    if ss == [] then [Section(None, 0, [])] else ss
  }

  /** Appending to `current_section["paragraphs"]`, which is the last section. */
  function AddItems(ss: seq<Section>, xs: seq<string>): (r: seq<Section>)
    requires ss != []
    ensures |r| == |ss| && r[..|ss| - 1] == ss[..|ss| - 1]
  {
    var last := ss[|ss| - 1];
    ss[..|ss| - 1] + [last.(paragraphs := last.paragraphs + xs)]
  }

  function Apply(ss: seq<Section>, e: Effect): seq<Section> {
    match e
    case Skip => ss
    case Anchor => EnsureOpen(ss)
    case Emit(x) => AddItems(EnsureOpen(ss), [x])
    case NewSection(h, l) => ss + [Section(Some(h), l, [])]
  }

  /** `table_injections[key]` when the key is present. */
  function Lookup(inj: map<int, seq<string>>, key: int): Option<seq<string>> {
    if key in inj then Some(inj[key]) else None
  }

  /** The injection block for a lookup: nothing on a miss, otherwise the
      tables appended to the current section, opened first if needed. */
  function Inject(ss: seq<Section>, t: Option<seq<string>>): seq<Section> {
    match t
    case None => ss
    case Some(xs) => AddItems(EnsureOpen(ss), xs)
  }

  /** The paragraphs' effects, in order. */
  function Effects(ps: seq<Paragraph>, off: int): (es: seq<Effect>)
    ensures |es| == |ps|
  {
    seq(|ps|, k requires 0 <= k < |ps| => ParaEffect(ps[k], off))
  }

  /** The lookups of steps `0 .. n - 1`: step `i` looks up key `i - lag`. */
  function Lookups(inj: map<int, seq<string>>, lag: nat, n: nat): (ts: seq<Option<seq<string>>>)
    ensures |ts| == n
    decreases n
  {
    if n == 0 then [] else Lookups(inj, lag, n - 1) + [Lookup(inj, n - 1 - lag)]
  }

  lemma {:induction false} LookupsAt(inj: map<int, seq<string>>, lag: nat, n: nat, i: nat)
    requires i < n
    ensures Lookups(inj, lag, n)[i] == Lookup(inj, i - lag)
    decreases n
  {
    if i < n - 1 {
      LookupsAt(inj, lag, n - 1, i);
    }
  }

  /** The sections after the first `i` steps, each injecting its lookup's
      tables and then applying its paragraph's effect. */
  function WalkPrefix(es: seq<Effect>, ts: seq<Option<seq<string>>>, i: nat): seq<Section>
    requires i <= |es| && i <= |ts|
    decreases i
  {
    if i == 0 then []
    else Apply(Inject(WalkPrefix(es, ts, i - 1), ts[i - 1]), es[i - 1])
  }

  /** All steps, then the end-of-document injection. */
  function Walk(es: seq<Effect>, ts: seq<Option<seq<string>>>, end: Option<seq<string>>): seq<Section>
    requires |ts| == |es|
  {
    Inject(WalkPrefix(es, ts, |es|), end)
  }

  /** `result["sections"]` together with `current_section`, which is always
      the last section when there is one. */
  class SectionList {
    var sections: seq<Section>
    var current: Option<nat>

    ghost predicate Valid()
      reads this
    {
      if sections == [] then current == None else current == Some(|sections| - 1)
    }

    constructor ()
      ensures Valid() && sections == []
    {
      sections := [];
      current := None;
    }

    /** Appends a new section and makes it current. */
    method OpenSection(heading: Option<string>, level: int)
      requires Valid()
      modifies this
      ensures Valid() && sections == old(sections) + [Section(heading, level, [])]
    {
      sections := sections + [Section(heading, level, [])];
      current := Some(|sections| - 1);
    }

    /** Creates the pre-heading section when there is no current section. */
    method EnsureCurrent()
      requires Valid()
      modifies this
      ensures Valid() && sections == EnsureOpen(old(sections))
    {
      if current == None {
        OpenSection(None, 0);
      }
    }

    /** `current_section["paragraphs"].append(item)`. */
    method Append(item: string)
      requires Valid() && sections != []
      modifies this
      ensures Valid() && sections == AddItems(old(sections), [item])
    {
      var c := current.value;
      sections := sections[c := sections[c].(paragraphs := sections[c].paragraphs + [item])];
    }
  }

  lemma AddItemsNil(ss: seq<Section>)
    requires ss != []
    ensures AddItems(ss, []) == ss
  {
    var last := ss[|ss| - 1];
    assert last.paragraphs + [] == last.paragraphs;
    assert ss == ss[..|ss| - 1] + [last];
  }

  lemma AddItemsSnoc(ss: seq<Section>, xs: seq<string>, x: string)
    requires ss != []
    ensures AddItems(AddItems(ss, xs), [x]) == AddItems(ss, xs + [x])
  {
    var last := ss[|ss| - 1];
    assert last.paragraphs + xs + [x] == last.paragraphs + (xs + [x]);
    var r := AddItems(ss, xs);
    assert r[|r| - 1] == last.(paragraphs := last.paragraphs + xs);
  }

  /** Appends each table of `mds` to the current section, creating the
      pre-heading section first if there is none. */
  method InjectTables(list: SectionList, mds: seq<string>)
    requires list.Valid()
    modifies list
    ensures list.Valid() && list.sections == AddItems(EnsureOpen(old(list.sections)), mds)
  {
    list.EnsureCurrent();
    ghost var base := list.sections;
    AddItemsNil(base);
    for j := 0 to |mds|
      invariant list.Valid()
      invariant list.sections == AddItems(base, mds[..j])
    {
      AddItemsSnoc(base, mds[..j], mds[j]);
      assert mds[..j + 1] == mds[..j] + [mds[j]];
      list.Append(mds[j]);
    }
    assert mds[..|mds|] == mds;
  }

  /** The branches of a paragraph's step, in the script's order: empty
      text, heading, image, list item, regular paragraph. */
  method ClassifyParagraph(para: Paragraph, off: int) returns (e: Effect)
    ensures e == ParaEffect(para, off)
  {
    var text := Strip(ParaText(para));
    if text == [] {
      if HasInlineImage(para.xml) {
        return Emit("[image]");
      }
      return Skip;
    }
    var level := HeadingLevel(para.style);
    if level.Some? {
      return NewSection(text, level.value - off);
    }
    if HasInlineImage(para.xml) {
      return Emit("[image]");
    }
    if IsListItem(para) {
      var content := ListMarkdown(para);
      if content != [] {
        return Emit(content);
      }
      return Anchor;
    }
    var content := RunsToMarkdown(para.runs);
    if Strip(content) != [] {
      return Emit(content);
    }
    return Anchor;
  }

  /** What the step does to `result["sections"]` and `current_section`. */
  method ApplyEffect(list: SectionList, e: Effect)
    requires list.Valid()
    modifies list
    ensures list.Valid() && list.sections == Apply(old(list.sections), e)
  {
    match e {
      case Skip =>
      case Anchor =>
        list.EnsureCurrent();
      case Emit(item) =>
        list.EnsureCurrent();
        list.Append(item);
      case NewSection(heading, level) =>
        list.OpenSection(Some(heading), level);
    }
  }

  /** `es` holds the effect of each paragraph of `ps`. */
  predicate Classified(es: seq<Effect>, ps: seq<Paragraph>, off: int) {
    |es| == |ps| && forall i {:trigger ps[i]} | 0 <= i < |ps| :: es[i] == ParaEffect(ps[i], off)
  }

  /** `ts` holds the lookup of each step's own index. */
  predicate LookedUp(ts: seq<Option<seq<string>>>, inj: map<int, seq<string>>) {
    forall i {:trigger ts[i]} | 0 <= i < |ts| :: ts[i] == Lookup(inj, i)
  }

  /** One iteration of the paragraph loop: the injection block for the
      paragraph's own index, then the paragraph's step. */
  method StepAt(list: SectionList, ps: seq<Paragraph>, inj: map<int, seq<string>>, off: int, i: nat,
                ghost es: seq<Effect>, ghost ts: seq<Option<seq<string>>>)
    requires i < |ps| && Classified(es, ps, off) && |ts| == |ps| && LookedUp(ts, inj)
    requires list.Valid() && list.sections == WalkPrefix(es, ts, i)
    modifies list
    ensures list.Valid() && list.sections == WalkPrefix(es, ts, i + 1)
  {
    ghost var before := list.sections;
    if i in inj {
      InjectTables(list, inj[i]);
    }
    assert list.sections == Inject(before, ts[i]);
    var e := ClassifyParagraph(ps[i], off);
    ApplyEffect(list, e);
  }

  /** What the walk reads: each paragraph's effect and each step's lookup. */
  lemma {:induction false} StepInputs(ps: seq<Paragraph>, inj: map<int, seq<string>>, off: int)
    ensures Classified(Effects(ps, off), ps, off) && LookedUp(Lookups(inj, 0, |ps|), inj)
  {
    forall i | 0 <= i < |ps| ensures Lookups(inj, 0, |ps|)[i] == Lookup(inj, i) {
      LookupsAt(inj, 0, |ps|, i);
    }
  }

  /** The paragraph loop: paragraph `i`'s step injects key `i`, then applies its effect. */
  method WalkSteps(list: SectionList, ps: seq<Paragraph>, inj: map<int, seq<string>>, off: int,
                   ghost es: seq<Effect>, ghost ts: seq<Option<seq<string>>>)
    requires Classified(es, ps, off) && |ts| == |ps| && LookedUp(ts, inj)
    requires list.Valid() && list.sections == []
    modifies list
    ensures list.Valid() && list.sections == WalkPrefix(es, ts, |ps|)
  {
    for i := 0 to |ps|
      invariant list.Valid()
      invariant list.sections == WalkPrefix(es, ts, i)
    {
      StepAt(list, ps, inj, off, i, es, ts);
    }
  }

  /** The paragraph loop and the end-of-document block, as written. */
  method WalkParagraphs(ps: seq<Paragraph>, inj: map<int, seq<string>>, off: int) returns (sections: seq<Section>)
    ensures sections == Walk(Effects(ps, off), Lookups(inj, 0, |ps|), Lookup(inj, |ps|))
  {
    var list := new SectionList();
    StepInputs(ps, inj, off);
    WalkSteps(list, ps, inj, off, Effects(ps, off), Lookups(inj, 0, |ps|));
    if |ps| in inj {
      InjectTables(list, inj[|ps|]);
    }
    sections := list.sections;
  }

  // --------------------------------------------------------- the file

  datatype ParseError = FileNotFound | NotDocx

  /** The path as far as the script looks at it: whether it exists, and its
      final component (`Path.name`). */
  datatype FileRef = FileRef(present: bool, name: string)

  datatype ParsedDoc = ParsedDoc(sourceFile: string, headingDepthOffset: int, sections: seq<Section>)

  /** Index of the last `c` in `s` (`s.rfind(c)`). */
  function LastIndexOf(s: string, c: char): (r: Option<nat>)
    ensures r.Some? ==> r.value < |s| && s[r.value] == c && forall k | r.value < k < |s| :: s[k] != c
    ensures r.None? ==> c !in s
    decreases |s|
  {
    if s == [] then None
    else if s[|s| - 1] == c then Some(|s| - 1)
    else LastIndexOf(s[..|s| - 1], c)
  }

  /** `PurePath.suffix`: from the last dot of the name, unless that dot is
      its first or last character. */
  function Suffix(name: string): string {
    match LastIndexOf(name, '.')
    case Some(i) => if 0 < i < |name| - 1 then name[i..] else []
    case None => []
  }

  /** `p.suffix.lower() == ".docx"` exactly when the name is longer than
      ".docx" and ends with it in any case. */
  lemma SuffixIsDocx(name: string)
    ensures Lower(Suffix(name)) == ".docx" <==> |name| > 5 && Lower(name[|name| - 5..]) == ".docx"
  {
    if |name| > 5 && Lower(name[|name| - 5..]) == ".docx" {
      var i := |name| - 5;
      assert name[i] == '.';
      forall k | i < k < |name| ensures name[k] != '.' {
        assert LowerChar(name[k]) == Lower(name[i..])[k - i];
      }
      assert LastIndexOf(name, '.') == Some(i);
    }
  }

  /** The document `parse_docx_to_json` returns for a `.docx` file. */
  function Parsed(name: string, body: seq<BodyNode>): ParsedDoc {
    var ps := ParasOf(body);
    var off := HeadingDepthOffset(ps);
    var inj := Injections(body);
    ParsedDoc(name, off, Walk(Effects(ps, off), Lookups(inj, 0, |ps|), Lookup(inj, |ps|)))
  }

  /** `table_injections` as the tables of `body` determine it. */
  function Injections(body: seq<BodyNode>): map<int, seq<string>> {
    map key | -1 <= key < |ParasOf(body)| && Keyed(body, TablesOf(body), key) != [] :: Keyed(body, TablesOf(body), key)
  }

  lemma InjectionsAre(inj: map<int, seq<string>>, body: seq<BodyNode>)
    requires InjectionsOf(inj, body, TablesOf(body))
    ensures inj == Injections(body)
  {
    forall key | key in inj ensures -1 <= key < |ParasOf(body)| {
      KeyedRange(body, TablesOf(body), key);
    }
    assert inj.Keys == Injections(body).Keys;
  }

  /** `parse_docx_to_json`: a missing file, then a name without the `.docx`
      suffix, are errors; otherwise the parsed document. */
  method ParseDocxToJson(file: FileRef, body: seq<BodyNode>) returns (r: Result<ParsedDoc, ParseError>)
    requires UniqueIds(body)
    ensures !file.present ==> r == Err(FileNotFound)
    ensures file.present && Lower(Suffix(file.name)) != ".docx" ==> r == Err(NotDocx)
    ensures file.present && Lower(Suffix(file.name)) == ".docx" ==> r == Ok(Parsed(file.name, body))
  {
    if !file.present {
      return Err(FileNotFound);
    }
    if Lower(Suffix(file.name)) != ".docx" {
      return Err(NotDocx);
    }
    var ps := ParasOf(body);
    var levels := HeadingLevels(ps);
    var minLevel := if levels != [] then MinOf(levels) else 1;
    var offset := minLevel - 1;
    var posMap := PositionMap(ps);
    PositionMapAgrees(body);
    var inj := BuildInjections(body, posMap);
    InjectionsAre(inj, body);
    var sections := WalkParagraphs(ps, inj, offset);
    return Ok(ParsedDoc(file.name, offset, sections));
  }
}
