/**
 * What `parse_docx_to_json` produces, stated against the document: the
 * shape of the section list, the headings it opens, the content it holds,
 * and where the tables land.
 */
module DocxOutput {
  import opened Wrappers
  import opened Text
  import opened DocxBlocks
  import opened DocxLayout
  import opened DocxWalk

  /** The tables an injection block adds. */
  function Tabs(t: Option<seq<string>>): seq<string> {
    if t.Some? then t.value else []
  }

  // -------------------------------------------------------- section shape

  /** Only the first section may be the pre-heading one, and it has level 0. */
  predicate PreambleFirst(ss: seq<Section>) {
    forall k | 0 <= k < |ss| && ss[k].heading.None? :: k == 0 && ss[k].level == 0
  }

  lemma AddItemsShape(ss: seq<Section>, xs: seq<string>)
    requires ss != []
    ensures var r := AddItems(ss, xs);
      forall k | 0 <= k < |r| :: r[k].heading == ss[k].heading && r[k].level == ss[k].level
  {
    var r := AddItems(ss, xs);
    forall k | 0 <= k < |r| ensures r[k].heading == ss[k].heading && r[k].level == ss[k].level {
      if k < |ss| - 1 {
        assert r[k] == r[..|ss| - 1][k];
      }
    }
  }

  lemma StepPreambleFirst(ss: seq<Section>, t: Option<seq<string>>, e: Effect)
    requires PreambleFirst(ss)
    ensures PreambleFirst(Inject(ss, t)) && PreambleFirst(Apply(Inject(ss, t), e))
  {
    if t.Some? {
      AddItemsShape(EnsureOpen(ss), t.value);
    }
    var m := Inject(ss, t);
    if e.Emit? {
      AddItemsShape(EnsureOpen(m), [e.item]);
    }
  }

  lemma {:induction false} WalkPrefixPreambleFirst(es: seq<Effect>, ts: seq<Option<seq<string>>>, i: nat)
    requires i <= |es| && i <= |ts|
    ensures PreambleFirst(WalkPrefix(es, ts, i))
  {
    if i > 0 {
      WalkPrefixPreambleFirst(es, ts, i - 1);
      StepPreambleFirst(WalkPrefix(es, ts, i - 1), ts[i - 1], es[i - 1]);
    }
  }

  /** At most one section has no heading; it has level 0 and comes first. */
  lemma WalkPreambleFirst(es: seq<Effect>, ts: seq<Option<seq<string>>>, end: Option<seq<string>>)
    requires |ts| == |es|
    ensures PreambleFirst(Walk(es, ts, end))
  {
    WalkPrefixPreambleFirst(es, ts, |es|);
    StepPreambleFirst(WalkPrefix(es, ts, |es|), end, Skip);
  }

  // ------------------------------------------------------------- headings

  /** The headings and levels of the sections that have one, in order. */
  function Heads(ss: seq<Section>): seq<(string, int)>
    decreases |ss|
  {
    if ss == [] then []
    else
      var s := ss[|ss| - 1];
      Heads(ss[..|ss| - 1]) + (if s.heading.Some? then [(s.heading.value, s.level)] else [])
  }

  /** The section a step opens, if any, as a heading and a level. */
  function EffectHead(e: Effect): seq<(string, int)> {
    if e.NewSection? then [(e.heading, e.level)] else []
  }

  /** The heading and level of each step that opens a section, in order. */
  function NewHeads(es: seq<Effect>): seq<(string, int)>
    decreases |es|
  {
    if es == [] then [] else NewHeads(es[..|es| - 1]) + EffectHead(es[|es| - 1])
  }

  /** A non-empty paragraph with a heading style, as its stripped text and
      its level less the offset. */
  function ParaHead(p: Paragraph, off: int): seq<(string, int)> {
    var text := Strip(ParaText(p));
    if text != [] && HeadingLevel(p.style).Some? then [(text, HeadingLevel(p.style).value - off)] else []
  }

  /** The heading paragraphs of `ps` as `ParaHead` gives them, in order. */
  function HeadsOf(ps: seq<Paragraph>, off: int): seq<(string, int)>
    decreases |ps|
  {
    if ps == [] then [] else HeadsOf(ps[..|ps| - 1], off) + ParaHead(ps[|ps| - 1], off)
  }

  lemma {:induction false} HeadsAddItems(ss: seq<Section>, xs: seq<string>)
    requires ss != []
    ensures Heads(AddItems(ss, xs)) == Heads(ss)
  {
    var r := AddItems(ss, xs);
    assert r[..|r| - 1] == ss[..|ss| - 1];
  }

  lemma HeadsStep(ss: seq<Section>, t: Option<seq<string>>, e: Effect)
    ensures Heads(Inject(ss, t)) == Heads(ss)
    ensures Heads(Apply(Inject(ss, t), e)) == Heads(ss) + EffectHead(e)
  {
    if ss == [] {
      assert Heads(EnsureOpen(ss)) == Heads([]) + [];
    }
    if t.Some? {
      HeadsAddItems(EnsureOpen(ss), t.value);
    }
    var m := Inject(ss, t);
    if m == [] {
      assert Heads(EnsureOpen(m)) == Heads([]) + [];
    }
    match e
    case Skip =>
    case Anchor =>
    case Emit(x) => HeadsAddItems(EnsureOpen(m), [x]);
    case NewSection(h, l) =>
      assert (m + [Section(Some(h), l, [])])[..|m|] == m;
  }

  lemma {:induction false} WalkPrefixHeads(es: seq<Effect>, ts: seq<Option<seq<string>>>, i: nat)
    requires i <= |es| && i <= |ts|
    ensures Heads(WalkPrefix(es, ts, i)) == NewHeads(es[..i])
  {
    if i > 0 {
      WalkPrefixHeads(es, ts, i - 1);
      HeadsStep(WalkPrefix(es, ts, i - 1), ts[i - 1], es[i - 1]);
      assert es[..i][..i - 1] == es[..i - 1];
    }
  }

  /** Tables do not open sections: the headed sections are those the
      paragraph steps open, in order. */
  lemma WalkHeads(es: seq<Effect>, ts: seq<Option<seq<string>>>, end: Option<seq<string>>)
    requires |ts| == |es|
    ensures Heads(Walk(es, ts, end)) == NewHeads(es)
  {
    WalkPrefixHeads(es, ts, |es|);
    HeadsStep(WalkPrefix(es, ts, |es|), end, Skip);
    assert es[..|es|] == es;
  }

  /** A step opens a section exactly for a non-empty heading paragraph, with
      its stripped text and its offset level. */
  lemma EffectHeads(p: Paragraph, off: int)
    ensures EffectHead(ParaEffect(p, off)) == ParaHead(p, off)
  {
    ParaEffectHeading(p, off);
  }

  lemma {:induction false} EffectsHeads(ps: seq<Paragraph>, off: int)
    ensures NewHeads(Effects(ps, off)) == HeadsOf(ps, off)
    decreases |ps|
  {
    if ps != [] {
      var es := Effects(ps, off);
      var p := ps[|ps| - 1];
      EffectsHeads(ps[..|ps| - 1], off);
      assert es[..|es| - 1] == Effects(ps[..|ps| - 1], off);
      EffectHeads(p, off);
    }
  }

  /** Each non-empty heading paragraph opens exactly one section, in
      document order, headed by its stripped text with its level less the
      offset; no other section has a heading. */
  lemma ParsedHeads(name: string, body: seq<BodyNode>)
    ensures var ps := ParasOf(body);
      Heads(Parsed(name, body).sections) == HeadsOf(ps, HeadingDepthOffset(ps))
  {
    var ps := ParasOf(body);
    var off := HeadingDepthOffset(ps);
    var inj := Injections(body);
    WalkHeads(Effects(ps, off), Lookups(inj, 0, |ps|), Lookup(inj, |ps|));
    EffectsHeads(ps, off);
  }

  lemma {:induction false} HeadsHas(ss: seq<Section>, k: nat)
    requires k < |ss| && ss[k].heading.Some?
    ensures (ss[k].heading.value, ss[k].level) in Heads(ss)
    decreases |ss|
  {
    if k < |ss| - 1 {
      HeadsHas(ss[..|ss| - 1], k);
      assert ss[..|ss| - 1][k] == ss[k];
    }
  }

  /** Every heading `ParaHead` gives is non-blank, at a level of 1 or more
      when the offset maps the paragraph's level there. */
  lemma ParaHeadLevel(p: Paragraph, off: int)
    requires HeadingLevel(p.style).Some? ==> HeadingLevel(p.style).value - off >= 1
    ensures forall h | h in ParaHead(p, off) :: h.1 >= 1 && !IsBlank(h.0)
  {
    var text := Strip(ParaText(p));
    StripIdempotent(ParaText(p));
    StripEmptyIffBlank(text);
  }

  lemma {:induction false} HeadsOfLevels(ps: seq<Paragraph>, off: int, h: (string, int))
    requires forall k | 0 <= k < |ps| && HeadingLevel(ps[k].style).Some? :: HeadingLevel(ps[k].style).value - off >= 1
    requires h in HeadsOf(ps, off)
    ensures h.1 >= 1 && !IsBlank(h.0)
    decreases |ps|
  {
    var p := ps[|ps| - 1];
    var ps' := ps[..|ps| - 1];
    if h in HeadsOf(ps', off) {
      assert forall k | 0 <= k < |ps'| :: ps'[k] == ps[k];
      HeadsOfLevels(ps', off, h);
    } else {
      ParaHeadLevel(p, off);
    }
  }

  /** Every section with a heading has a non-blank heading and a level of 1 or more. */
  predicate HeadedLevels(ss: seq<Section>) {
    forall k | 0 <= k < |ss| && ss[k].heading.Some? :: ss[k].level >= 1 && !IsBlank(ss[k].heading.value)
  }

  lemma LevelsFromHeads(ss: seq<Section>, ps: seq<Paragraph>, off: int)
    requires Heads(ss) == HeadsOf(ps, off)
    requires forall k | 0 <= k < |ps| && HeadingLevel(ps[k].style).Some? :: HeadingLevel(ps[k].style).value - off >= 1
    ensures HeadedLevels(ss)
  {
    forall k | 0 <= k < |ss| && ss[k].heading.Some? ensures ss[k].level >= 1 && !IsBlank(ss[k].heading.value) {
      HeadsHas(ss, k);
      HeadsOfLevels(ps, off, (ss[k].heading.value, ss[k].level));
    }
  }

  /** In a parsed document every section with a heading has a non-blank
      heading and a level of 1 or more. */
  lemma ParsedLevels(name: string, body: seq<BodyNode>)
    ensures HeadedLevels(Parsed(name, body).sections)
  {
    var ps := ParasOf(body);
    ParsedHeads(name, body);
    LevelsFromHeads(Parsed(name, body).sections, ps, HeadingDepthOffset(ps));
  }

  /** The pre-heading section, if any, is the first one and has level 0. */
  lemma ParsedPreambleFirst(name: string, body: seq<BodyNode>)
    ensures PreambleFirst(Parsed(name, body).sections)
  {
    var ps := ParasOf(body);
    var inj := Injections(body);
    WalkPreambleFirst(Effects(ps, HeadingDepthOffset(ps)), Lookups(inj, 0, |ps|), Lookup(inj, |ps|));
  }

  // -------------------------------------------------------------- content

  /** The sections' content strings, section by section. */
  function Flatten(ss: seq<Section>): seq<string>
    decreases |ss|
  {
    if ss == [] then [] else Flatten(ss[..|ss| - 1]) + ss[|ss| - 1].paragraphs
  }

  lemma {:induction false} FlattenAddItems(ss: seq<Section>, xs: seq<string>)
    requires ss != []
    ensures Flatten(AddItems(ss, xs)) == Flatten(ss) + xs
  {
    var r := AddItems(ss, xs);
    assert r[..|r| - 1] == ss[..|ss| - 1];
  }

  lemma FlattenStep(ss: seq<Section>, t: Option<seq<string>>, e: Effect)
    ensures Flatten(Inject(ss, t)) == Flatten(ss) + Tabs(t)
    ensures Flatten(Apply(Inject(ss, t), e)) == Flatten(ss) + Tabs(t) + Items(e)
  {
    if ss == [] {
      assert Flatten(EnsureOpen(ss)) == Flatten([]) + [];
    }
    if t.Some? {
      FlattenAddItems(EnsureOpen(ss), t.value);
    }
    var m := Inject(ss, t);
    if m == [] {
      assert Flatten(EnsureOpen(m)) == Flatten([]) + [];
    }
    match e
    case Skip =>
    case Anchor =>
    case Emit(x) => FlattenAddItems(EnsureOpen(m), [x]);
    case NewSection(h, l) =>
      assert (m + [Section(Some(h), l, [])])[..|m|] == m;
  }

  /** The content of the first `i` steps: each step's injected tables, then
      what its paragraph adds. */
  function Emitted(es: seq<Effect>, ts: seq<Option<seq<string>>>, i: nat): seq<string>
    requires i <= |es| && i <= |ts|
    decreases i
  {
    if i == 0 then [] else Emitted(es, ts, i - 1) + Tabs(ts[i - 1]) + Items(es[i - 1])
  }

  lemma {:induction false} WalkPrefixContent(es: seq<Effect>, ts: seq<Option<seq<string>>>, i: nat)
    requires i <= |es| && i <= |ts|
    ensures Flatten(WalkPrefix(es, ts, i)) == Emitted(es, ts, i)
  {
    if i > 0 {
      WalkPrefixContent(es, ts, i - 1);
      FlattenStep(WalkPrefix(es, ts, i - 1), ts[i - 1], es[i - 1]);
    }
  }

  /** The walk's content in section order is each paragraph's output
      preceded by the tables its step injects, then the tables of the
      end-of-document block. */
  lemma WalkContent(es: seq<Effect>, ts: seq<Option<seq<string>>>, end: Option<seq<string>>)
    requires |ts| == |es|
    ensures Flatten(Walk(es, ts, end)) == Emitted(es, ts, |es|) + Tabs(end)
  {
    WalkPrefixContent(es, ts, |es|);
    FlattenStep(WalkPrefix(es, ts, |es|), end, Skip);
  }

  /** The content of the first `i` steps depends only on those steps. */
  lemma {:induction false} EmittedAgree(es1: seq<Effect>, ts1: seq<Option<seq<string>>>,
                                        es2: seq<Effect>, ts2: seq<Option<seq<string>>>, i: nat)
    requires i <= |es1| && i <= |ts1| && i <= |es2| && i <= |ts2|
    requires es1[..i] == es2[..i] && ts1[..i] == ts2[..i]
    ensures Emitted(es1, ts1, i) == Emitted(es2, ts2, i)
  {
    if i > 0 {
      assert es1[i - 1] == es1[..i][i - 1] && es2[i - 1] == es2[..i][i - 1];
      assert ts1[i - 1] == ts1[..i][i - 1] && ts2[i - 1] == ts2[..i][i - 1];
      assert es1[..i - 1] == es1[..i][..i - 1] && es2[..i - 1] == es2[..i][..i - 1];
      assert ts1[..i - 1] == ts1[..i][..i - 1] && ts2[..i - 1] == ts2[..i][..i - 1];
      EmittedAgree(es1, ts1, es2, ts2, i - 1);
    }
  }

  // ----------------------------------------------------- non-blank content

  predicate ContentNotBlank(ss: seq<Section>) {
    forall k, j | 0 <= k < |ss| && 0 <= j < |ss[k].paragraphs| :: !IsBlank(ss[k].paragraphs[j])
  }

  predicate AllNotBlank(xs: seq<string>) {
    forall j | 0 <= j < |xs| :: !IsBlank(xs[j])
  }

  /** Every string the steps add is non-blank. */
  predicate EffectsNotBlank(es: seq<Effect>) {
    forall k | 0 <= k < |es| && es[k].Emit? :: !IsBlank(es[k].item)
  }

  /** Every table the lookups find is non-blank. */
  predicate TablesNotBlank(ts: seq<Option<seq<string>>>) {
    forall k | 0 <= k < |ts| && ts[k].Some? :: AllNotBlank(ts[k].value)
  }

  lemma AddItemsNotBlank(ss: seq<Section>, xs: seq<string>)
    requires ss != [] && ContentNotBlank(ss) && AllNotBlank(xs)
    ensures ContentNotBlank(AddItems(ss, xs))
  {
    var r := AddItems(ss, xs);
    var n := |ss| - 1;
    assert r[n].paragraphs == ss[n].paragraphs + xs;
    forall k, j | 0 <= k < |r| && 0 <= j < |r[k].paragraphs| ensures !IsBlank(r[k].paragraphs[j]) {
      if k < n {
        assert r[k] == r[..n][k] == ss[..n][k] == ss[k];
      } else if j >= |ss[n].paragraphs| {
        assert r[k].paragraphs[j] == xs[j - |ss[n].paragraphs|];
      }
    }
  }

  lemma StepNotBlank(ss: seq<Section>, t: Option<seq<string>>, e: Effect)
    requires ContentNotBlank(ss)
    requires t.Some? ==> AllNotBlank(t.value)
    requires e.Emit? ==> !IsBlank(e.item)
    ensures ContentNotBlank(Apply(Inject(ss, t), e))
  {
    if t.Some? {
      AddItemsNotBlank(EnsureOpen(ss), t.value);
    }
    if e.Emit? {
      AddItemsNotBlank(EnsureOpen(Inject(ss, t)), [e.item]);
    }
  }

  lemma {:induction false} WalkPrefixNotBlank(es: seq<Effect>, ts: seq<Option<seq<string>>>, i: nat)
    requires i <= |es| && i <= |ts| && EffectsNotBlank(es) && TablesNotBlank(ts)
    ensures ContentNotBlank(WalkPrefix(es, ts, i))
  {
    if i > 0 {
      WalkPrefixNotBlank(es, ts, i - 1);
      StepNotBlank(WalkPrefix(es, ts, i - 1), ts[i - 1], es[i - 1]);
    }
  }

  /** A walk adds only non-blank strings when its steps and tables do. */
  lemma WalkNotBlank(es: seq<Effect>, ts: seq<Option<seq<string>>>, end: Option<seq<string>>)
    requires |ts| == |es| && EffectsNotBlank(es) && TablesNotBlank(ts)
    requires end.Some? ==> AllNotBlank(end.value)
    ensures ContentNotBlank(Walk(es, ts, end))
  {
    WalkPrefixNotBlank(es, ts, |es|);
    StepNotBlank(WalkPrefix(es, ts, |es|), end, Skip);
  }

  lemma EffectsOfNotBlank(ps: seq<Paragraph>, off: int)
    ensures EffectsNotBlank(Effects(ps, off))
  {
    forall k | 0 <= k < |ps| ensures Effects(ps, off)[k].Emit? ==> !IsBlank(Effects(ps, off)[k].item) {
      ParaEffectNotBlank(ps[k], off);
    }
  }

  lemma {:induction false} KeyedNotBlank(body: seq<BodyNode>, ts: seq<Table>, key: int)
    ensures AllNotBlank(Keyed(body, ts, key))
    decreases |ts|
  {
    if ts != [] {
      var t := ts[|ts| - 1];
      KeyedNotBlank(body, ts[..|ts| - 1], key);
      if TableMd(t.rows) != [] {
        TableMdLines(t.rows);
        TableMdNotBlank(t.rows);
      }
    }
  }

  /** Every content string of a parsed document is non-blank. */
  lemma ParsedNotBlank(name: string, body: seq<BodyNode>)
    ensures ContentNotBlank(Parsed(name, body).sections)
  {
    var inj := Injections(body);
    var ps := ParasOf(body);
    var off := HeadingDepthOffset(ps);
    var ts := Lookups(inj, 0, |ps|);
    forall key | key in inj ensures AllNotBlank(inj[key]) {
      KeyedNotBlank(body, TablesOf(body), key);
    }
    forall k | 0 <= k < |ts| && ts[k].Some? ensures AllNotBlank(ts[k].value) {
      LookupsAt(inj, 0, |ps|, k);
    }
    EffectsOfNotBlank(ps, off);
    WalkNotBlank(Effects(ps, off), ts, Lookup(inj, |ps|));
  }
}
