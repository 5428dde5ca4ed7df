/**
  Where `parse_docx` puts a table, compared with where the document has it.

  The script files every table under the index of the last paragraph before
  it (`find_table_insert_position`) and then, while walking the paragraphs,
  injects key `i` at the start of paragraph `i`'s step and key `n` after the
  last paragraph. So a table lands before the paragraph it follows, and a
  table that precedes every paragraph (key -1) is never injected at all.
  Looking key `i - 1` up at step `i` and key `n - 1` at the end (`lag` 1 in
  `DocxWalk.Lookups`) reproduces the body order exactly.
*/
module DocxPlacement {
  import opened Wrappers
  import opened Text
  import opened DocxBlocks
  import opened DocxLayout
  import opened DocxWalk
  import opened DocxOutput

  /** A table's contribution: its markdown, unless that is empty. */
  function TableOut(t: Table): seq<string> {
    if TableMd(t.rows) != [] then [TableMd(t.rows)] else []
  }

  /** The body's content in document order, paragraph `k` contributing the
      items of `es[k]`: the reference the walk is compared with. */
  function BodyOut(body: seq<BodyNode>, es: seq<Effect>): seq<string>
    requires |ParasOf(body)| <= |es|
    decreases |body|
  {
    if body == [] then []
    else
      var b' := body[..|body| - 1];
      var x := body[|body| - 1];
      BodyOut(b', es)
        + match x
          case ParaNode(_) => Items(es[|ParasOf(b')|])
          case TableNode(t) => TableOut(t)
          case OtherNode => []
  }

  /** The tables of every key, as `Placed` reads them off the body. */
  function PlacedMap(body: seq<BodyNode>): map<int, seq<string>> {
    map key | -1 <= key < |ParasOf(body)| && Placed(body, key) != [] :: Placed(body, key)
  }

  /** Only keys -1 .. n-1 hold tables. */
  lemma {:induction false} PlacedRange(body: seq<BodyNode>, key: int)
    requires Placed(body, key) != []
    ensures -1 <= key < |ParasOf(body)|
    decreases |body|
  {
    var b' := body[..|body| - 1];
    if Placed(b', key) != [] {
      PlacedRange(b', key);
    }
  }

  /** The script's injection map is the placement read off the body. */
  lemma {:induction false} InjectionsArePlaced(body: seq<BodyNode>)
    requires UniqueIds(body)
    ensures Injections(body) == PlacedMap(body)
  {
    forall key | -1 <= key < |ParasOf(body)| ensures Keyed(body, TablesOf(body), key) == Placed(body, key) {
      KeyedIsPlaced(body, key);
    }
  }

  lemma {:induction false} PlacedMapLookup(body: seq<BodyNode>, key: int)
    ensures Tabs(Lookup(PlacedMap(body), key)) == Placed(body, key)
  {
    if Placed(body, key) != [] {
      PlacedRange(body, key);
    }
  }

  lemma {:induction false} PlacedSnoc(body: seq<BodyNode>, key: int)
    requires body != []
    ensures var b' := body[..|body| - 1]; var x := body[|body| - 1];
      Placed(body, key) == Placed(b', key) + (if x.TableNode? && |ParasOf(b')| - 1 == key then TableOut(x.t) else [])
  {
  }

  lemma {:induction false} ParasSnoc(body: seq<BodyNode>)
    requires body != []
    ensures var b' := body[..|body| - 1]; var x := body[|body| - 1];
      ParasOf(body) == ParasOf(b') + (if x.ParaNode? then [x.p] else [])
  {
  }

  lemma {:induction false} EmittedSnoc(es: seq<Effect>, ts: seq<Option<seq<string>>>, i: nat)
    requires i < |es| && i < |ts|
    ensures Emitted(es, ts, i + 1) == Emitted(es, ts, i) + Tabs(ts[i]) + Items(es[i])
  {
  }

  /** Step `k` of `ts` injects the tables placed after paragraph `k - 1`. */
  predicate LaggedSchedule(body: seq<BodyNode>, ts: seq<Option<seq<string>>>) {
    && |ParasOf(body)| <= |ts|
    && forall k | 0 <= k < |ParasOf(body)| :: Tabs(ts[k]) == Placed(body, k - 1)
  }

  /** Those steps, followed by the tables after the last paragraph, give the body's content in order. */
  predicate InOrder(body: seq<BodyNode>, es: seq<Effect>, ts: seq<Option<seq<string>>>)
    requires |ParasOf(body)| <= |es| && |ParasOf(body)| <= |ts|
  {
    Emitted(es, ts, |ParasOf(body)|) + Placed(body, |ParasOf(body)| - 1) == BodyOut(body, es)
  }

  lemma {:induction false} ScheduleSnoc(body: seq<BodyNode>, ts: seq<Option<seq<string>>>)
    requires body != [] && LaggedSchedule(body, ts)
    ensures LaggedSchedule(body[..|body| - 1], ts)
  {
    var b' := body[..|body| - 1];
    ParasSnoc(body);
    forall k | 0 <= k < |ParasOf(b')| ensures Tabs(ts[k]) == Placed(b', k - 1) {
      PlacedSnoc(body, k - 1);
    }
  }

  lemma {:induction false} ParaInOrder(body: seq<BodyNode>, es: seq<Effect>, ts: seq<Option<seq<string>>>)
    requires body != [] && body[|body| - 1].ParaNode?
    requires |ParasOf(body)| <= |es| && |ParasOf(body)| <= |ts|
    requires Tabs(ts[|ParasOf(body)| - 1]) == Placed(body, |ParasOf(body)| - 2)
    requires InOrder(body[..|body| - 1], es, ts)
    ensures InOrder(body, es, ts)
  {
    var b' := body[..|body| - 1];
    var n, n' := |ParasOf(body)|, |ParasOf(b')|;
    assert n == n' + 1 by {
      ParasSnoc(body);
    }
    EmittedSnoc(es, ts, n');
    assert Tabs(ts[n']) == Placed(b', n' - 1) by {
      PlacedSnoc(body, n' - 1);
    }
    assert Placed(body, n - 1) == [] by {
      PlacedSnoc(body, n');
      if Placed(b', n') != [] {
        PlacedRange(b', n');
      }
    }
    assert BodyOut(body, es) == BodyOut(b', es) + Items(es[n']);
  }

  /** What a last node other than a paragraph adds to the body's content. */
  function NodeTail(x: BodyNode): seq<string> {
    if x.TableNode? then TableOut(x.t) else []
  }

  lemma {:induction false} OtherSnoc(body: seq<BodyNode>, es: seq<Effect>)
    requires body != [] && !body[|body| - 1].ParaNode?
    requires |ParasOf(body)| <= |es|
    ensures var b' := body[..|body| - 1]; var n := |ParasOf(b')|;
      && |ParasOf(body)| == n
      && Placed(body, n - 1) == Placed(b', n - 1) + NodeTail(body[|body| - 1])
      && BodyOut(body, es) == BodyOut(b', es) + NodeTail(body[|body| - 1])
  {
    ParasSnoc(body);
    PlacedSnoc(body, |ParasOf(body[..|body| - 1])| - 1);
  }

  lemma {:induction false} OtherInOrder(body: seq<BodyNode>, es: seq<Effect>, ts: seq<Option<seq<string>>>)
    requires body != [] && !body[|body| - 1].ParaNode?
    requires |ParasOf(body)| <= |es| && |ParasOf(body)| <= |ts|
    requires InOrder(body[..|body| - 1], es, ts)
    ensures InOrder(body, es, ts)
  {
    var b' := body[..|body| - 1];
    OtherSnoc(body, es);
    var n := |ParasOf(b')|;
    AppendTail(Emitted(es, ts, n), Placed(b', n - 1), BodyOut(b', es), NodeTail(body[|body| - 1]),
      Placed(body, n - 1), BodyOut(body, es));
  }

  lemma AppendTail(e: seq<string>, p: seq<string>, b: seq<string>, t: seq<string>, p2: seq<string>, b2: seq<string>)
    requires e + p == b && p2 == p + t && b2 == b + t
    ensures e + p2 == b2
  {
    assert e + (p + t) == (e + p) + t;
  }

  /** The lagged schedule puts every table right after the paragraph it follows. */
  lemma {:induction false} LaggedInOrder(body: seq<BodyNode>, es: seq<Effect>, ts: seq<Option<seq<string>>>)
    requires |ParasOf(body)| <= |es|
    requires LaggedSchedule(body, ts)
    ensures InOrder(body, es, ts)
    decreases |body|
  {
    if body != [] {
      ScheduleSnoc(body, ts);
      assert |ParasOf(body[..|body| - 1])| <= |ParasOf(body)| by {
        ParasSnoc(body);
      }
      LaggedInOrder(body[..|body| - 1], es, ts);
      if body[|body| - 1].ParaNode? {
        ParaInOrder(body, es, ts);
      } else {
        OtherInOrder(body, es, ts);
      }
    }
  }

  // ------------------------------------------------------- the two schedules

  /** `parse_docx` with the lagged lookups: the corrected placement. */
  function CorrectedParsed(name: string, body: seq<BodyNode>): ParsedDoc {
    var ps := ParasOf(body);
    var off := HeadingDepthOffset(ps);
    var inj := Injections(body);
    ParsedDoc(name, off, Walk(Effects(ps, off), Lookups(inj, 1, |ps|), Lookup(inj, |ps| - 1)))
  }

  /** Looking up the placement map at step `k` gives the tables placed
      after paragraph `k - lag`. */
  lemma {:induction false} LookupsPlaced(body: seq<BodyNode>, pm: map<int, seq<string>>, lag: nat, n: nat)
    requires pm == PlacedMap(body)
    ensures forall k | 0 <= k < n :: Tabs(Lookups(pm, lag, n)[k]) == Placed(body, k - lag)
  {
    forall k | 0 <= k < n ensures Tabs(Lookups(pm, lag, n)[k]) == Placed(body, k - lag) {
      LookupsAt(pm, lag, n, k);
      PlacedMapLookup(body, k - lag);
    }
  }

  lemma {:induction false} LaggedLookups(body: seq<BodyNode>)
    requires UniqueIds(body)
    ensures var n := |ParasOf(body)|; var inj := Injections(body);
      && LaggedSchedule(body, Lookups(inj, 1, n))
      && Tabs(Lookup(inj, n - 1)) == Placed(body, n - 1)
  {
    var n := |ParasOf(body)|;
    InjectionsArePlaced(body);
    var pm := PlacedMap(body);
    LookupsPlaced(body, pm, 1, n);
    PlacedMapLookup(body, n - 1);
  }

  /** With the lagged lookups every table and paragraph comes out in the
      order the document body has them, and nothing is lost. */
  lemma {:induction false} CorrectedKeepsBodyOrder(name: string, body: seq<BodyNode>)
    requires UniqueIds(body)
    ensures var ps := ParasOf(body);
      Flatten(CorrectedParsed(name, body).sections) == BodyOut(body, Effects(ps, HeadingDepthOffset(ps)))
  {
    var ps := ParasOf(body);
    var n := |ps|;
    var es := Effects(ps, HeadingDepthOffset(ps));
    var inj := Injections(body);
    var ts, end := Lookups(inj, 1, n), Lookup(inj, n - 1);
    assert CorrectedParsed(name, body).sections == Walk(es, ts, end);
    LaggedLookups(body);
    LaggedInOrder(body, es, ts);
    assert Emitted(es, ts, n) + Placed(body, n - 1) == BodyOut(body, es);
    WalkContent(es, ts, end);
  }

  /** The correction moves tables only: headings and the section shape are as before. */
  lemma {:induction false} CorrectedHeads(name: string, body: seq<BodyNode>)
    ensures var ps := ParasOf(body);
      && Heads(CorrectedParsed(name, body).sections) == HeadsOf(ps, HeadingDepthOffset(ps))
      && PreambleFirst(CorrectedParsed(name, body).sections)
  {
    var ps := ParasOf(body);
    var off := HeadingDepthOffset(ps);
    var inj := Injections(body);
    WalkHeads(Effects(ps, off), Lookups(inj, 1, |ps|), Lookup(inj, |ps| - 1));
    EffectsHeads(ps, off);
    WalkPreambleFirst(Effects(ps, off), Lookups(inj, 1, |ps|), Lookup(inj, |ps| - 1));
  }

  /** As written, step `k` injects the tables placed after paragraph `k`, and
      nothing comes after the last paragraph's step: a table lands before the
      paragraph it follows, and a table before every paragraph is dropped. */
  lemma {:induction false} AsWrittenContent(name: string, body: seq<BodyNode>)
    requires UniqueIds(body)
    ensures var ps := ParasOf(body); var n := |ps|; var ts := Lookups(Injections(body), 0, n);
      && Flatten(Parsed(name, body).sections) == Emitted(Effects(ps, HeadingDepthOffset(ps)), ts, n)
      && forall k | 0 <= k < n :: Tabs(ts[k]) == Placed(body, k)
  {
    var ps := ParasOf(body);
    var n := |ps|;
    InjectionsArePlaced(body);
    var pm := PlacedMap(body);
    LookupsPlaced(body, pm, 0, n);
    assert Lookup(pm, n) == None;
    WalkContent(Effects(ps, HeadingDepthOffset(ps)), Lookups(pm, 0, n), Lookup(pm, n));
  }

  lemma {:induction false} OneImageEffects(body: seq<BodyNode>, p: Paragraph)
    requires ParasOf(body) == [p]
    requires Strip(ParaText(p)) == [] && HasInlineImage(p.xml)
    ensures Effects(ParasOf(body), HeadingDepthOffset(ParasOf(body))) == [Emit("[image]")]
  {
    var ps := ParasOf(body);
    var off := HeadingDepthOffset(ps);
    ParaEffectImage(p, off);
  }

  lemma EmittedOne(es: seq<Effect>, ts: seq<Option<seq<string>>>, x: string)
    requires es == [Emit(x)] && |ts| == 1
    ensures Emitted(es, ts, 1) == Tabs(ts[0]) + [x]
  {
    assert Emitted(es, ts, 0) == [];
  }

  /** A body with one paragraph, which emits `[image]`: the script's content. */
  lemma {:induction false} OneImageAsWritten(name: string, body: seq<BodyNode>, p: Paragraph)
    requires UniqueIds(body) && ParasOf(body) == [p]
    requires Strip(ParaText(p)) == [] && HasInlineImage(p.xml)
    ensures Flatten(Parsed(name, body).sections) == Placed(body, 0) + ["[image]"]
  {
    var ps := ParasOf(body);
    var es := Effects(ps, HeadingDepthOffset(ps));
    OneImageEffects(body, p);
    var ts := Lookups(Injections(body), 0, 1);
    AsWrittenContent(name, body);
    EmittedOne(es, ts, "[image]");
  }

  /** The same body, with the lagged lookups: its content in body order. */
  lemma {:induction false} OneImageCorrected(name: string, body: seq<BodyNode>, p: Paragraph)
    requires UniqueIds(body) && ParasOf(body) == [p]
    requires Strip(ParaText(p)) == [] && HasInlineImage(p.xml)
    ensures Flatten(CorrectedParsed(name, body).sections) == BodyOut(body, [Emit("[image]")])
  {
    OneImageEffects(body, p);
    CorrectedKeepsBodyOrder(name, body);
  }

  /** The shape of a paragraph followed by a table. */
  lemma {:induction false} ParaThenTable(p: Paragraph, t: Table)
    requires t.rows != []
    ensures var body := [ParaNode(p), TableNode(t)];
      && UniqueIds(body) && ParasOf(body) == [p]
      && Placed(body, 0) == [TableMd(t.rows)]
      && BodyOut(body, [Emit("[image]")]) == ["[image]", TableMd(t.rows)]
  {
    var body := [ParaNode(p), TableNode(t)];
    var b1 := body[..1];
    assert b1 == [ParaNode(p)] && b1[..0] == [];
    assert UniqueIds(body) by {
      assert !Clash(body[0], body[1]);
    }
    TableMdNotBlank(t.rows);
    assert ParasOf(b1) == [p] by {
      ParasSnoc(b1);
    }
    assert ParasOf(body) == [p] by {
      ParasSnoc(body);
    }
    assert Placed(body, 0) == [TableMd(t.rows)] by {
      PlacedSnoc(b1, 0);
      PlacedSnoc(body, 0);
    }
    assert BodyOut(b1, [Emit("[image]")]) == ["[image]"];
  }

  /** The shape of a table followed by a paragraph. */
  lemma {:induction false} TableThenPara(p: Paragraph, t: Table)
    requires t.rows != []
    ensures var body := [TableNode(t), ParaNode(p)];
      && UniqueIds(body) && ParasOf(body) == [p]
      && Placed(body, 0) == []
      && BodyOut(body, [Emit("[image]")]) == [TableMd(t.rows), "[image]"]
  {
    var body := [TableNode(t), ParaNode(p)];
    var b1 := body[..1];
    assert b1 == [TableNode(t)] && b1[..0] == [];
    assert UniqueIds(body) by {
      assert !Clash(body[0], body[1]);
    }
    TableMdNotBlank(t.rows);
    assert ParasOf(b1) == [] by {
      ParasSnoc(b1);
    }
    assert ParasOf(body) == [p] by {
      ParasSnoc(body);
    }
    assert Placed(body, 0) == [] by {
      PlacedSnoc(b1, 0);
      PlacedSnoc(body, 0);
    }
    assert BodyOut(b1, [Emit("[image]")]) == [TableMd(t.rows)];
  }

  /** A table's markdown starts with `|`, so it never reads as the image marker. */
  lemma TableIsNotImage(rows: seq<seq<string>>)
    requires rows != []
    ensures TableMd(rows) != "[image]"
  {
    TableMdNotBlank(rows);
    assert "[image]"[0] == '[';
  }

  /** An image paragraph followed by a table: the script emits the table first. */
  lemma {:induction false} TableBeforeItsParagraph(name: string, p: Paragraph, t: Table)
    requires Strip(ParaText(p)) == [] && HasInlineImage(p.xml) && t.rows != []
    ensures var body := [ParaNode(p), TableNode(t)];
      && Flatten(Parsed(name, body).sections) == [TableMd(t.rows), "[image]"]
      && Flatten(CorrectedParsed(name, body).sections) == ["[image]", TableMd(t.rows)]
      && TableMd(t.rows) != "[image]"
  {
    var body := [ParaNode(p), TableNode(t)];
    ParaThenTable(p, t);
    OneImageAsWritten(name, body, p);
    OneImageCorrected(name, body, p);
    TableIsNotImage(t.rows);
  }

  /** A table before the first paragraph: the script drops it. */
  lemma {:induction false} LeadingTableLost(name: string, p: Paragraph, t: Table)
    requires Strip(ParaText(p)) == [] && HasInlineImage(p.xml) && t.rows != []
    ensures var body := [TableNode(t), ParaNode(p)];
      && Flatten(Parsed(name, body).sections) == ["[image]"]
      && Flatten(CorrectedParsed(name, body).sections) == [TableMd(t.rows), "[image]"]
  {
    var body := [TableNode(t), ParaNode(p)];
    TableThenPara(p, t);
    OneImageAsWritten(name, body, p);
    OneImageCorrected(name, body, p);
  }
}
