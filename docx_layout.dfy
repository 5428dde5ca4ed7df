/**
 * Where `scripts/parse_docx.py` puts tables: the document body as an
 * ordered list of children, the paragraph position map, the search for the
 * last paragraph before a table, and the map from insertion key to the
 * tables' markdown.
 */
module DocxLayout {
  import opened Text
  import opened DocxBlocks

  /** A child of `w:body`; anything but `w:p` and `w:tbl` is `OtherNode`. */
  datatype BodyNode = ParaNode(p: Paragraph) | TableNode(t: Table) | OtherNode

  /** `doc.paragraphs`: the body's paragraphs, in order. */
  function ParasOf(body: seq<BodyNode>): (ps: seq<Paragraph>)
    ensures |ps| <= |body|
    decreases |body|
  {
    if body == [] then []
    else ParasOf(body[..|body| - 1]) + (if body[|body| - 1].ParaNode? then [body[|body| - 1].p] else [])
  }

  /** `doc.tables`: the body's tables, in order. */
  function TablesOf(body: seq<BodyNode>): (ts: seq<Table>)
    ensures |ts| <= |body|
    decreases |body|
  {
    if body == [] then []
    else TablesOf(body[..|body| - 1]) + (if body[|body| - 1].TableNode? then [body[|body| - 1].t] else [])
  }

  /** The same element identity used twice: two paragraphs or two tables
      sharing an id. */
  predicate Clash(x: BodyNode, y: BodyNode) {
    || (x.ParaNode? && y.ParaNode? && x.p.id == y.p.id)
    || (x.TableNode? && y.TableNode? && x.t.id == y.t.id)
  }

  /** Every body child is a distinct element. */
  predicate UniqueIds(body: seq<BodyNode>) {
    forall i, j | 0 <= i < j < |body| :: !Clash(body[i], body[j])
  }

  /** The prefix of a body holds a prefix of its paragraphs. */
  lemma {:induction false} ParasOfPrefix(body: seq<BodyNode>, j: nat)
    requires j <= |body|
    ensures |ParasOf(body[..j])| <= |ParasOf(body)|
    ensures ParasOf(body)[..|ParasOf(body[..j])|] == ParasOf(body[..j])
    decreases |body|
  {
    if j < |body| {
      assert body[..|body| - 1][..j] == body[..j];
      ParasOfPrefix(body[..|body| - 1], j);
    } else {
      assert body[..j] == body;
    }
  }

  // ------------------------------------------------------- position map

  /** `build_para_position_map`: each paragraph's id to its position; a
      later paragraph with the same id wins. */
  function PositionMap(ps: seq<Paragraph>): (m: map<nat, nat>)
    ensures forall k | 0 <= k < |ps| :: ps[k].id in m && m[ps[k].id] < |ps|
    decreases |ps|
  {
    if ps == [] then map[] else PositionMap(ps[..|ps| - 1])[ps[|ps| - 1].id := |ps| - 1]
  }

  /** Every paragraph child of `body` is mapped to its position among the
      paragraphs. */
  predicate PositionsAgree(body: seq<BodyNode>, posMap: map<nat, nat>) {
    forall j | 0 <= j < |body| && body[j].ParaNode? ::
      body[j].p.id in posMap && posMap[body[j].p.id] == |ParasOf(body[..j])|
  }

  /** With distinct elements, the position map sends each paragraph to its
      position. */
  lemma PositionMapAgrees(body: seq<BodyNode>)
    requires UniqueIds(body)
    ensures PositionsAgree(body, PositionMap(ParasOf(body)))
  {
    forall j | 0 <= j < |body| && body[j].ParaNode?
      ensures body[j].p.id in PositionMap(ParasOf(body))
      ensures PositionMap(ParasOf(body))[body[j].p.id] == |ParasOf(body[..j])|
    {
      PositionAt(body, j);
    }
  }

  lemma {:induction false} PositionAt(body: seq<BodyNode>, j: nat)
    requires UniqueIds(body)
    requires j < |body| && body[j].ParaNode?
    ensures body[j].p.id in PositionMap(ParasOf(body))
    ensures PositionMap(ParasOf(body))[body[j].p.id] == |ParasOf(body[..j])|
    decreases |body|
  {
    var m := |body| - 1;
    var b' := body[..m];
    var ps := ParasOf(body);
    var ps' := ParasOf(b');
    if body[m].ParaNode? {
      assert ps == ps' + [body[m].p];
      assert ps[..|ps| - 1] == ps';
      assert PositionMap(ps) == PositionMap(ps')[body[m].p.id := |ps'|];
    } else {
      assert ps == ps';
    }
    if j < m {
      assert UniqueIds(b');
      PositionAt(b', j);
      assert b'[j] == body[j] && b'[..j] == body[..j];
      if body[m].ParaNode? {
        assert !Clash(body[j], body[m]);
      }
    } else {
      assert body[..j] == b';
    }
  }

  // ------------------------------------------------- table insert position

  predicate IsTableWithId(x: BodyNode, tid: nat) {
    x.TableNode? && x.t.id == tid
  }

  /** Index of the first table child with id `tid`, or `|body|`. */
  function FirstTable(body: seq<BodyNode>, tid: nat): (r: nat)
    ensures r <= |body|
    ensures forall k | 0 <= k < r :: !IsTableWithId(body[k], tid)
    ensures r < |body| ==> IsTableWithId(body[r], tid)
    decreases |body|
  {
    if body == [] then 0
    else if IsTableWithId(body[0], tid) then 0
    else 1 + FirstTable(body[1..], tid)
  }

  /** The insertion key of the table with id `tid`: the position of the last
      paragraph before it, or -1. */
  function TableKey(body: seq<BodyNode>, tid: nat): (k: int)
    ensures -1 <= k < |ParasOf(body)|
  {
    ParasOfPrefix(body, FirstTable(body, tid));
    |ParasOf(body[..FirstTable(body, tid)])| - 1
  }

  /** `find_table_insert_position`: walks the body children, remembering the
      position of the last paragraph seen, until it meets the table. */
  method FindTableInsertPosition(body: seq<BodyNode>, tid: nat, posMap: map<nat, nat>) returns (pos: int)
    requires PositionsAgree(body, posMap)
    ensures pos == TableKey(body, tid)
  {
    var last := -1;
    var found := false;
    var idx := -1;
    var j := 0;
    while j < |body|
      invariant j <= FirstTable(body, tid) && j <= |body|
      invariant !found
      invariant idx == |ParasOf(body[..j])| - 1
      invariant last == idx
    {
      assert body[..j + 1][..j] == body[..j];
      match body[j] {
        case ParaNode(p) =>
          idx := if p.id in posMap then posMap[p.id] else idx;
          if !found {
            last := idx;
          }
        case TableNode(t) =>
          if t.id == tid {
            found := true;
            break;
          }
        case OtherNode =>
      }
      j := j + 1;
    }
    pos := last;
  }

  // ------------------------------------------------------- injection map

  /** The markdown of the tables among `ts` whose key is `key` and whose
      markdown is non-empty, in the order of `ts`. */
  function Keyed(body: seq<BodyNode>, ts: seq<Table>, key: int): seq<string>
    decreases |ts|
  {
    if ts == [] then []
    else
      var t := ts[|ts| - 1];
      Keyed(body, ts[..|ts| - 1], key)
        + (if TableKey(body, t.id) == key && TableMd(t.rows) != [] then [TableMd(t.rows)] else [])
  }

  /** `table_injections[key]`, or nothing when the key is absent. */
  function InjOf(inj: map<int, seq<string>>, key: int): seq<string> {
    if key in inj then inj[key] else []
  }

  /** The injection map holds exactly the keys with tables to place, each
      with its tables' markdown in `doc.tables` order. */
  ghost predicate InjectionsOf(inj: map<int, seq<string>>, body: seq<BodyNode>, ts: seq<Table>) {
    forall key :: (key in inj <==> Keyed(body, ts, key) != []) && InjOf(inj, key) == Keyed(body, ts, key)
  }

  /** `inj.setdefault(at, []).append(md)` when `md` is non-empty. */
  function SetDefaultAppend(inj: map<int, seq<string>>, at: int, md: string): map<int, seq<string>> {
    if md != [] then inj[at := InjOf(inj, at) + [md]] else inj
  }

  /** The map the loop below builds from the tables `ts`, taken in order. */
  function BuiltInjections(body: seq<BodyNode>, ts: seq<Table>): map<int, seq<string>>
    decreases |ts|
  {
    if ts == [] then map[]
    else
      var t := ts[|ts| - 1];
      SetDefaultAppend(BuiltInjections(body, ts[..|ts| - 1]), TableKey(body, t.id), TableMd(t.rows))
  }

  /** The loop that fills `table_injections` with `setdefault(...).append(...)`. */
  method BuildInjections(body: seq<BodyNode>, posMap: map<nat, nat>) returns (inj: map<int, seq<string>>)
    requires PositionsAgree(body, posMap)
    ensures InjectionsOf(inj, body, TablesOf(body))
  {
    var tables := TablesOf(body);
    inj := map[];
    var k := 0;
    while k < |tables|
      invariant k <= |tables|
      invariant inj == BuiltInjections(body, tables[..k])
    {
      assert tables[..k + 1][..k] == tables[..k];
      inj := InjectTable(inj, body, tables[k], posMap);
      k := k + 1;
    }
    assert tables[..|tables|] == tables;
    InjectionsKeyed(body, tables);
  }

  /** One turn of that loop: the table's key and markdown, then the append. */
  method InjectTable(inj0: map<int, seq<string>>, body: seq<BodyNode>, t: Table, posMap: map<nat, nat>)
    returns (inj: map<int, seq<string>>)
    requires PositionsAgree(body, posMap)
    ensures inj == SetDefaultAppend(inj0, TableKey(body, t.id), TableMd(t.rows))
  {
    var at := FindTableInsertPosition(body, t.id, posMap);
    var md := TableToMarkdown(t);
    inj := SetDefaultAppend(inj0, at, md);
  }

  /** The map built from `ts` holds exactly the keys with tables to place,
      each with its tables' markdown in order. */
  lemma {:induction false} InjectionsKeyed(body: seq<BodyNode>, ts: seq<Table>)
    ensures InjectionsOf(BuiltInjections(body, ts), body, ts)
    decreases |ts|
  {
    if ts != [] {
      var init := ts[..|ts| - 1];
      var t := ts[|ts| - 1];
      InjectionsKeyed(body, init);
      assert ts == init + [t];
      InjectStep(BuiltInjections(body, init), body, init, t, TableKey(body, t.id), TableMd(t.rows));
    }
  }

  /** One more table keeps the map in step with the tables seen. */
  lemma InjectStep(inj: map<int, seq<string>>, body: seq<BodyNode>, ts: seq<Table>, t: Table, at: int, md: string)
    requires InjectionsOf(inj, body, ts)
    requires at == TableKey(body, t.id) && md == TableMd(t.rows)
    ensures InjectionsOf(SetDefaultAppend(inj, at, md), body, ts + [t])
  {
    assert (ts + [t])[..|ts|] == ts;
    var inj' := SetDefaultAppend(inj, at, md);
    forall key ensures (key in inj' <==> Keyed(body, ts + [t], key) != []) && InjOf(inj', key) == Keyed(body, ts + [t], key) {
      assert Keyed(body, ts + [t], key) == Keyed(body, ts, key) + (if at == key && md != [] then [md] else []);
    }
  }

  /** Keys run from -1 (a table ahead of every paragraph) to the position of
      the last paragraph: never `len(doc.paragraphs)`. */
  lemma {:induction false} KeyedRange(body: seq<BodyNode>, ts: seq<Table>, key: int)
    requires Keyed(body, ts, key) != []
    ensures -1 <= key < |ParasOf(body)|
    decreases |ts|
  {
    var t := ts[|ts| - 1];
    if TableKey(body, t.id) != key || TableMd(t.rows) == [] {
      KeyedRange(body, ts[..|ts| - 1], key);
    }
  }

  // ------------------------------------------- keys in document order

  /** The tables' markdown as the body order places them: each non-empty
      table whose preceding paragraphs number `key + 1`. */
  function Placed(body: seq<BodyNode>, key: int): seq<string>
    decreases |body|
  {
    if body == [] then []
    else
      var b' := body[..|body| - 1];
      var x := body[|body| - 1];
      Placed(b', key)
        + (if x.TableNode? && |ParasOf(b')| - 1 == key && TableMd(x.t.rows) != [] then [TableMd(x.t.rows)] else [])
  }

  /** Extending a body past a table keeps that table's key. */
  lemma FirstTableStable(body: seq<BodyNode>, j: nat, tid: nat)
    requires j <= |body| && FirstTable(body[..j], tid) < j
    ensures FirstTable(body, tid) == FirstTable(body[..j], tid)
    ensures body[..FirstTable(body, tid)] == body[..j][..FirstTable(body[..j], tid)]
  {
    var f := FirstTable(body[..j], tid);
    assert IsTableWithId(body[..j][f], tid);
    assert forall k | 0 <= k < f :: body[..j][k] == body[k];
  }

  /** Each table of a body is found in it. */
  lemma {:induction false} TablesFound(body: seq<BodyNode>)
    ensures forall t | t in TablesOf(body) :: FirstTable(body, t.id) < |body|
    decreases |body|
  {
    if body != [] {
      var m := |body| - 1;
      var b' := body[..m];
      TablesFound(b');
      forall t | t in TablesOf(body) ensures FirstTable(body, t.id) < |body| {
        if t in TablesOf(b') {
          FirstTableStable(body, m, t.id);
        } else {
          assert body[m] == TableNode(t);
          assert IsTableWithId(body[m], t.id);
        }
      }
    }
  }

  /** Keys of tables already in a prefix do not change as the body grows. */
  lemma {:induction false} KeyedStable(body: seq<BodyNode>, j: nat, ts: seq<Table>, key: int)
    requires j <= |body|
    requires forall t | t in ts :: FirstTable(body[..j], t.id) < j
    ensures Keyed(body, ts, key) == Keyed(body[..j], ts, key)
    decreases |ts|
  {
    if ts != [] {
      var t := ts[|ts| - 1];
      FirstTableStable(body, j, t.id);
      var f := FirstTable(body, t.id);
      assert body[..j][..f] == body[..f];
      KeyedStable(body, j, ts[..|ts| - 1], key);
    }
  }

  /** With distinct elements, the injection lists are the tables placed by
      body order: the key-`k` list holds, in body order, the non-empty tables
      that follow exactly `k + 1` paragraphs. */
  lemma {:induction false} KeyedIsPlaced(body: seq<BodyNode>, key: int)
    requires UniqueIds(body)
    ensures Keyed(body, TablesOf(body), key) == Placed(body, key)
    decreases |body|
  {
    if body != [] {
      UniquePrefix(body);
      KeyedIsPlaced(body[..|body| - 1], key);
      KeyedPrefix(body, key);
      if body[|body| - 1].TableNode? {
        KeyedLastTable(body, key);
      } else {
        KeyedLastOther(body, key);
      }
    }
  }

  lemma UniquePrefix(body: seq<BodyNode>)
    requires UniqueIds(body) && body != []
    ensures UniqueIds(body[..|body| - 1])
  {
  }

  /** The tables of all but the last child keep their keys in the whole body. */
  lemma KeyedPrefix(body: seq<BodyNode>, key: int)
    requires body != []
    ensures var b' := body[..|body| - 1];
      Keyed(body, TablesOf(b'), key) == Keyed(b', TablesOf(b'), key)
  {
    var m := |body| - 1;
    TablesFound(body[..m]);
    KeyedStable(body, m, TablesOf(body[..m]), key);
  }

  /** A last child that is a table adds its markdown under the key of the
      paragraphs before it. */
  lemma KeyedLastTable(body: seq<BodyNode>, key: int)
    requires UniqueIds(body) && body != [] && body[|body| - 1].TableNode?
    ensures var b' := body[..|body| - 1];
      var t := body[|body| - 1].t;
      Keyed(body, TablesOf(body), key)
        == Keyed(body, TablesOf(b'), key)
          + (if |ParasOf(b')| - 1 == key && TableMd(t.rows) != [] then [TableMd(t.rows)] else [])
  {
    LastTableFirst(body);
    TablesSnoc(body);
  }

  lemma KeyedLastOther(body: seq<BodyNode>, key: int)
    requires body != [] && !body[|body| - 1].TableNode?
    ensures Keyed(body, TablesOf(body), key) == Keyed(body, TablesOf(body[..|body| - 1]), key)
  {
    assert TablesOf(body) == TablesOf(body[..|body| - 1]);
  }

  lemma TablesSnoc(body: seq<BodyNode>)
    requires body != [] && body[|body| - 1].TableNode?
    ensures var ts := TablesOf(body);
      ts != [] && ts[..|ts| - 1] == TablesOf(body[..|body| - 1]) && ts[|ts| - 1] == body[|body| - 1].t
  {
  }

  /** With distinct elements, a table ending the body is found at its end. */
  lemma LastTableFirst(body: seq<BodyNode>)
    requires UniqueIds(body) && body != [] && body[|body| - 1].TableNode?
    ensures FirstTable(body, body[|body| - 1].t.id) == |body| - 1
  {
    var m := |body| - 1;
    forall k | 0 <= k < m ensures !IsTableWithId(body[k], body[m].t.id) {
      assert !Clash(body[k], body[m]);
    }
    assert IsTableWithId(body[m], body[m].t.id);
  }
}
