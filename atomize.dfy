/**
  The checks `atomize.py` runs on the atom plan it gets back: the structural
  validation of `validate_atom_plan`, the canonical-tag and wikilink warnings,
  the code-fence stripping in front of `json.loads`, the tag flattening of
  `load_tags` and the proposed-tag collection of `write_proposed_tags`.

  A note is the JSON object of the plan with its values already of the types
  the plan format names; a field is `None` when its key is absent.
*/
module Atomize {
  import opened Wrappers
  import opened Text
  import opened Sorting

  /** An entry of `proposed_tags` / `proposed_new_tags`; compared as a whole, like a dict. */
  type TagEntry = map<string, string>

  datatype Note = Note(
    id: Option<string>,
    title: Option<string>,
    noteType: Option<string>,
    tags: Option<seq<string>>,
    sourceDoc: Option<string>,
    date: Option<string>,
    body: Option<string>,
    proposedNewTags: Option<seq<TagEntry>>)

  datatype Plan = Plan(notes: Option<seq<Note>>, proposedTags: Option<seq<TagEntry>>)

  // ------------------------------------------------------ validate_atom_plan

  /** A key of `REQUIRED_ATOM_FIELDS`. */
  datatype Field = Body | Date | Id | NoteType | ProposedNewTags | SourceDoc | Tags | Title

  function FieldName(f: Field): string {
    match f
    case Body => "body"
    case Date => "date"
    case Id => "id"
    case NoteType => "note_type"
    case ProposedNewTags => "proposed_new_tags"
    case SourceDoc => "source_doc"
    case Tags => "tags"
    case Title => "title"
  }

  /** The required fields, in ascending order of their names. */
  const RequiredFields: seq<Field> := [Body, Date, Id, NoteType, ProposedNewTags, SourceDoc, Tags, Title]

  const NoteTypes: set<string> := {"atomic", "moc", "source"}

  /** `f in note.keys()`. */
  predicate Present(n: Note, f: Field) {
    match f
    case Body => n.body.Some?
    case Date => n.date.Some?
    case Id => n.id.Some?
    case NoteType => n.noteType.Some?
    case ProposedNewTags => n.proposedNewTags.Some?
    case SourceDoc => n.sourceDoc.Some?
    case Tags => n.tags.Some?
    case Title => n.title.Some?
  }

  /** Every name strictly below every later one. */
  predicate Increasing(fs: seq<Field>) {
    forall j, k | 0 <= j < k < |fs| :: StrLe(FieldName(fs[j]), FieldName(fs[k])) && FieldName(fs[j]) != FieldName(fs[k])
  }

  /** Strictly ascending neighbours make a strictly ascending list. */
  lemma {:induction false} ChainIncreasing(fs: seq<Field>)
    requires forall k | 0 <= k < |fs| - 1 :: StrLe(FieldName(fs[k]), FieldName(fs[k + 1])) && FieldName(fs[k]) != FieldName(fs[k + 1])
    ensures Increasing(fs)
    decreases |fs|
  {
    if |fs| > 1 {
      ChainIncreasing(fs[1..]);
      forall k | 1 <= k < |fs| ensures StrLe(FieldName(fs[0]), FieldName(fs[k])) && FieldName(fs[0]) != FieldName(fs[k]) {
        if k > 1 {
          var a, b, c := FieldName(fs[0]), FieldName(fs[1]), FieldName(fs[k]);
          assert StrLe(b, c) && b != c by { assert fs[1..][0] == fs[1] && fs[1..][k - 1] == fs[k]; }
          StrLeTransitive(a, b, c);
          if a == c { StrLeAntisymmetric(a, b); }
        }
      }
    }
  }

  lemma RequiredFieldsIncreasing()
    ensures Increasing(RequiredFields)
  {
    var fs := RequiredFields;
    forall k | 0 <= k < |fs| - 1 ensures StrLe(FieldName(fs[k]), FieldName(fs[k + 1])) && FieldName(fs[k]) != FieldName(fs[k + 1]) {
      if k == 0 { assert StrLe("body", "date") && "body" != "date"; }
      else if k == 1 { assert StrLe("date", "id") && "date" != "id"; }
      else if k == 2 { assert StrLe("id", "note_type") && "id" != "note_type"; }
      else if k == 3 { assert StrLe("note_type", "proposed_new_tags") && "note_type" != "proposed_new_tags"; }
      else if k == 4 { assert StrLe("proposed_new_tags", "source_doc") && "proposed_new_tags" != "source_doc"; }
      else if k == 5 { assert StrLe("source_doc", "tags") && "source_doc" != "tags"; }
      else { assert StrLe("tags", "title") && "tags" != "title"; }
    }
    ChainIncreasing(fs);
  }

  /** `REQUIRED_ATOM_FIELDS - set(note.keys())`, listed in sorted order. */
  function MissingFields(n: Note): seq<Field> {
    Opt(n.body.None?, Body) + Opt(n.date.None?, Date) + Opt(n.id.None?, Id) + Opt(n.noteType.None?, NoteType)
    + Opt(n.proposedNewTags.None?, ProposedNewTags) + Opt(n.sourceDoc.None?, SourceDoc) + Opt(n.tags.None?, Tags)
    + Opt(n.title.None?, Title)
  }

  /** `[f]` when `c` holds, else nothing. */
  function Opt(c: bool, f: Field): (r: seq<Field>)
    ensures |r| <= 1 && (forall g :: g in r <==> c && g == f)
  {
    if c then [f] else []
  }

  /** A field is reported missing exactly when the note lacks it. */
  lemma MissingFieldsAre(n: Note)
    ensures forall f :: f in MissingFields(n) <==> !Present(n, f)
  {
  }


  /** The position of `f` in `RequiredFields`. */
  function Rank(f: Field): (k: nat)
    ensures k < |RequiredFields| && RequiredFields[k] == f
  {
    match f
    case Body => 0
    case Date => 1
    case Id => 2
    case NoteType => 3
    case ProposedNewTags => 4
    case SourceDoc => 5
    case Tags => 6
    case Title => 7
  }

  /** Fields listed in the order of `RequiredFields`. */
  predicate RankIncreasing(fs: seq<Field>) {
    forall j, k | 0 <= j < k < |fs| :: Rank(fs[j]) < Rank(fs[k])
  }

  lemma RankedIsIncreasing(fs: seq<Field>)
    requires RankIncreasing(fs)
    ensures Increasing(fs)
  {
    RequiredFieldsIncreasing();
    forall j, k | 0 <= j < k < |fs| ensures StrLe(FieldName(fs[j]), FieldName(fs[k])) && FieldName(fs[j]) != FieldName(fs[k]) {
      assert RequiredFields[Rank(fs[j])] == fs[j] && RequiredFields[Rank(fs[k])] == fs[k];
    }
  }

  /** Appending a field of higher rank than all before keeps the order. */
  lemma RankSnoc(a: seq<Field>, c: bool, f: Field)
    requires RankIncreasing(a) && forall g | g in a :: Rank(g) < Rank(f)
    ensures RankIncreasing(a + Opt(c, f)) && forall g | g in a + Opt(c, f) :: Rank(g) <= Rank(f)
  {
    var r := a + Opt(c, f);
    forall j, k | 0 <= j < k < |r| ensures Rank(r[j]) < Rank(r[k]) {
      if k >= |a| {
        assert r[j] in a && r[k] == f;
      }
    }
  }

  /** The missing fields come in ascending order of name, each once, as
      `sorted` of a set lists them. */
  lemma MissingFieldsSorted(n: Note)
    ensures Increasing(MissingFields(n))
  {
    var p1 := Opt(n.body.None?, Body);
    RankSnoc([], n.body.None?, Body);
    assert [] + p1 == p1;
    var p2 := p1 + Opt(n.date.None?, Date);
    RankSnoc(p1, n.date.None?, Date);
    var p3 := p2 + Opt(n.id.None?, Id);
    RankSnoc(p2, n.id.None?, Id);
    var p4 := p3 + Opt(n.noteType.None?, NoteType);
    RankSnoc(p3, n.noteType.None?, NoteType);
    var p5 := p4 + Opt(n.proposedNewTags.None?, ProposedNewTags);
    RankSnoc(p4, n.proposedNewTags.None?, ProposedNewTags);
    var p6 := p5 + Opt(n.sourceDoc.None?, SourceDoc);
    RankSnoc(p5, n.sourceDoc.None?, SourceDoc);
    var p7 := p6 + Opt(n.tags.None?, Tags);
    RankSnoc(p6, n.tags.None?, Tags);
    var p8 := p7 + Opt(n.title.None?, Title);
    RankSnoc(p7, n.title.None?, Title);
    assert MissingFields(n) == p8;
    RankedIsIncreasing(p8);
  }


  datatype PlanError =
    | MissingNotes
    | MissingFieldsOf(noteId: string, missing: seq<Field>)
    | InvalidNoteType(noteId: string, noteType: Option<string>)
    | WrongTagCount(noteId: string, count: nat)
    | DuplicateId(noteId: string)
    | WrongMocCount(count: nat)

  /** `note.get("id", f"<note[{i}]>")`. */
  function NoteId(n: Note, i: nat): string {
    n.id.GetOr("<note[" + Decimal(i) + "]>")
  }

  predicate ValidType(n: Note) {
    n.noteType.Some? && n.noteType.value in NoteTypes
  }

  /** `len(note.get("tags", []))`. */
  function TagCount(n: Note): nat {
    |n.tags.GetOr([])|
  }

  predicate IsMoc(n: Note) {
    n.noteType == Some("moc")
  }

  /** The ids `seen_ids` holds before note `i` is checked. */
  function SeenIds(notes: seq<Note>, i: nat): set<string>
    requires i <= |notes|
  {
    set j | 0 <= j < i :: NoteId(notes[j], j)
  }

  /** The errors one note adds, in the order the loop body appends them. */
  function NoteErrors(n: Note, i: nat, seen: set<string>): seq<PlanError> {
    var id := NoteId(n, i);
    MissingCheck(n, id) + TypeCheck(n, id) + CountCheck(n, id) + (if id in seen then [DuplicateId(id)] else [])
  }

  function MissingCheck(n: Note, id: string): seq<PlanError> {
    if MissingFields(n) != [] then [MissingFieldsOf(id, MissingFields(n))] else []
  }

  function TypeCheck(n: Note, id: string): seq<PlanError> {
    if !ValidType(n) then [InvalidNoteType(id, n.noteType)] else []
  }

  function CountCheck(n: Note, id: string): seq<PlanError> {
    if !(2 <= TagCount(n) <= 5) then [WrongTagCount(id, TagCount(n))] else []
  }

  /** `errors` after the first `i` notes. */
  function NotesErrors(notes: seq<Note>, i: nat): seq<PlanError>
    requires i <= |notes|
    decreases i
  {
    if i == 0 then [] else NotesErrors(notes, i - 1) + NoteErrors(notes[i - 1], i - 1, SeenIds(notes, i - 1))
  }

  /** `moc_count` after the first `i` notes. */
  function MocCount(notes: seq<Note>, i: nat): nat
    requires i <= |notes|
    decreases i
  {
    if i == 0 then 0 else MocCount(notes, i - 1) + (if IsMoc(notes[i - 1]) then 1 else 0)
  }

  /** What `validate_atom_plan` returns. */
  function PlanErrors(plan: Plan): seq<PlanError> {
    match plan.notes
    case None => [MissingNotes]
    case Some(notes) =>
      NotesErrors(notes, |notes|)
        + (if MocCount(notes, |notes|) != 1 then [WrongMocCount(MocCount(notes, |notes|))] else [])
  }

  /** One pass of the loop body, without the counter and the set. */
  method CheckNote(note: Note, i: nat, seen: set<string>) returns (noteId: string, es: seq<PlanError>)
    ensures noteId == NoteId(note, i)
    ensures es == NoteErrors(note, i, seen)
  {
    noteId := if note.id.Some? then note.id.value else "<note[" + Decimal(i) + "]>";
    es := [];
    var missing := MissingFields(note);
    if missing != [] {
      es := es + [MissingFieldsOf(noteId, missing)];
    }
    assert es == MissingCheck(note, noteId);
    if !(note.noteType.Some? && note.noteType.value in NoteTypes) {
      es := es + [InvalidNoteType(noteId, note.noteType)];
    }
    assert es == MissingCheck(note, noteId) + TypeCheck(note, noteId);
    var count := if note.tags.Some? then |note.tags.value| else 0;
    if !(2 <= count <= 5) {
      es := es + [WrongTagCount(noteId, count)];
    }
    assert es == MissingCheck(note, noteId) + TypeCheck(note, noteId) + CountCheck(note, noteId);
    if noteId in seen {
      es := es + [DuplicateId(noteId)];
    }
  }

  method ValidateAtomPlan(plan: Plan) returns (errors: seq<PlanError>)
    ensures errors == PlanErrors(plan)
  {
    if plan.notes.None? {
      return [MissingNotes];
    }
    var notes := plan.notes.value;
    var seen: set<string> := {};
    var mocCount := 0;
    errors := [];
    for i := 0 to |notes|
      invariant errors == NotesErrors(notes, i)
      invariant seen == SeenIds(notes, i)
      invariant mocCount == MocCount(notes, i)
    {
      var note := notes[i];
      var noteId, es := CheckNote(note, i, seen);
      errors := errors + es;
      if note.noteType == Some("moc") {
        mocCount := mocCount + 1;
      }
      seen := seen + {noteId};
      assert SeenIds(notes, i + 1) == SeenIds(notes, i) + {NoteId(notes[i], i)};
    }
    if mocCount != 1 {
      errors := errors + [WrongMocCount(mocCount)];
    }
  }

  /** A note that passes every per-note check. */
  predicate NoteOk(n: Note) {
    HasAllFields(n) && ValidType(n) && 2 <= TagCount(n) <= 5
  }

  /** The first `i` notes have pairwise distinct ids. */
  predicate DistinctIds(notes: seq<Note>, i: nat)
    requires i <= |notes|
  {
    forall j, k | 0 <= j < k < i :: NoteId(notes[j], j) != NoteId(notes[k], k)
  }

  lemma NoteErrorsEmpty(n: Note, i: nat, seen: set<string>)
    ensures NoteErrors(n, i, seen) == [] <==> NoteOk(n) && NoteId(n, i) !in seen
  {
    MissingFieldsEmpty(n);
  }

  lemma DistinctStep(notes: seq<Note>, i: nat)
    requires 0 < i <= |notes|
    ensures DistinctIds(notes, i) <==> DistinctIds(notes, i - 1) && NoteId(notes[i - 1], i - 1) !in SeenIds(notes, i - 1)
  {
    var id := NoteId(notes[i - 1], i - 1);
    if id in SeenIds(notes, i - 1) {
      var j :| 0 <= j < i - 1 && NoteId(notes[j], j) == id;
      assert !DistinctIds(notes, i);
    }
  }

  lemma {:induction false} NotesErrorsEmpty(notes: seq<Note>, i: nat)
    requires i <= |notes|
    ensures NotesErrors(notes, i) == [] <==> (forall k | 0 <= k < i :: NoteOk(notes[k])) && DistinctIds(notes, i)
  {
    if i > 0 {
      var n := notes[i - 1];
      NotesErrorsEmpty(notes, i - 1);
      NoteErrorsEmpty(n, i - 1, SeenIds(notes, i - 1));
      DistinctStep(notes, i);
      assert NotesErrors(notes, i) == NotesErrors(notes, i - 1) + NoteErrors(n, i - 1, SeenIds(notes, i - 1));
      assert (forall k | 0 <= k < i :: NoteOk(notes[k])) <==> (forall k | 0 <= k < i - 1 :: NoteOk(notes[k])) && NoteOk(n);
    }
  }

  /** The plan is accepted exactly when it has notes, each note has every
      required field, a valid type and two to five tags, the ids are
      distinct and there is exactly one MOC. */
  lemma PlanValidIff(plan: Plan)
    ensures PlanErrors(plan) == [] <==>
      && plan.notes.Some?
      && (forall k | 0 <= k < |plan.notes.value| :: NoteOk(plan.notes.value[k]))
      && DistinctIds(plan.notes.value, |plan.notes.value|)
      && MocCount(plan.notes.value, |plan.notes.value|) == 1
  {
    if plan.notes.Some? {
      NotesErrorsEmpty(plan.notes.value, |plan.notes.value|);
    }
  }

  /** Every one of the eight required keys is present. */
  predicate HasAllFields(n: Note) {
    && n.id.Some? && n.title.Some? && n.noteType.Some? && n.tags.Some?
    && n.sourceDoc.Some? && n.date.Some? && n.body.Some? && n.proposedNewTags.Some?
  }

  /** No field is reported missing exactly when all eight are present. */
  lemma MissingFieldsEmpty(n: Note)
    ensures MissingFields(n) == [] <==> HasAllFields(n)
  {
    var r := MissingFields(n);
    MissingFieldsAre(n);
    if r != [] {
      assert r[0] in r;
    }
    if n.id.None? { assert Id in r; }
    if n.title.None? { assert Title in r; }
    if n.noteType.None? { assert NoteType in r; }
    if n.tags.None? { assert Tags in r; }
    if n.sourceDoc.None? { assert SourceDoc in r; }
    if n.date.None? { assert Date in r; }
    if n.body.None? { assert Body in r; }
    if n.proposedNewTags.None? { assert ProposedNewTags in r; }
  }

  /** An error the per-note checks can report. */
  predicate PerNote(e: PlanError) {
    !e.MissingNotes? && !e.WrongMocCount?
  }

  lemma {:induction false} NotesErrorsPerNote(notes: seq<Note>, i: nat)
    requires i <= |notes|
    ensures forall k | 0 <= k < |NotesErrors(notes, i)| :: PerNote(NotesErrors(notes, i)[k])
  {
    if i > 0 {
      NotesErrorsPerNote(notes, i - 1);
      NoteErrorsPerNote(notes[i - 1], i - 1, SeenIds(notes, i - 1));
    }
  }

  lemma NoteErrorsPerNote(n: Note, i: nat, seen: set<string>)
    ensures forall k | 0 <= k < |NoteErrors(n, i, seen)| :: PerNote(NoteErrors(n, i, seen)[k])
  {
    var id := NoteId(n, i);
    var es := NoteErrors(n, i, seen);
    assert es == MissingCheck(n, id) + TypeCheck(n, id) + CountCheck(n, id) + (if id in seen then [DuplicateId(id)] else []);
  }

  /** A plan without `notes` gets exactly the one error, and only such a plan gets it. */
  lemma MissingNotesOnly(plan: Plan)
    ensures plan.notes.None? ==> PlanErrors(plan) == [MissingNotes]
    ensures MissingNotes in PlanErrors(plan) <==> plan.notes.None?
  {
    if plan.notes.Some? {
      NotesErrorsPerNote(plan.notes.value, |plan.notes.value|);
    }
  }

  /** The MOC-count error is reported once, last, and exactly when the plan
      does not have one MOC. */
  lemma MocErrorLast(notes: seq<Note>)
    ensures var r := PlanErrors(Plan(Some(notes), None));
      && (forall k | 0 <= k < |r| - 1 :: PerNote(r[k]))
      && (r != [] && r[|r| - 1].WrongMocCount? <==> MocCount(notes, |notes|) != 1)
      && (MocCount(notes, |notes|) != 1 ==> r[|r| - 1] == WrongMocCount(MocCount(notes, |notes|)))
  {
    NotesErrorsPerNote(notes, |notes|);
  }

  /** The number of `DuplicateId` errors in `es`. */
  function DuplicateCount(es: seq<PlanError>): nat {
    if es == [] then 0
    else (if es[0].DuplicateId? then 1 else 0) + DuplicateCount(es[1..])
  }

  lemma {:induction false} DuplicateCountAppend(a: seq<PlanError>, b: seq<PlanError>)
    ensures DuplicateCount(a + b) == DuplicateCount(a) + DuplicateCount(b)
    decreases |a|
  {
    if a == [] {
      assert a + b == b;
    } else {
      assert (a + b)[1..] == a[1..] + b;
      DuplicateCountAppend(a[1..], b);
    }
  }

  /** The field, type and tag-count checks report no duplicate. */
  lemma ChecksNoDuplicates(n: Note, id: string)
    ensures DuplicateCount(MissingCheck(n, id) + TypeCheck(n, id) + CountCheck(n, id)) == 0
  {
    var m, t, c := MissingCheck(n, id), TypeCheck(n, id), CountCheck(n, id);
    assert DuplicateCount(m) == 0 by { if m != [] { assert m[1..] == []; } }
    assert DuplicateCount(t) == 0 by { if t != [] { assert t[1..] == []; } }
    assert DuplicateCount(c) == 0 by { if c != [] { assert c[1..] == []; } }
    DuplicateCountAppend(m, t);
    DuplicateCountAppend(m + t, c);
  }

  /** A note adds one `DuplicateId` error when its id was seen, none otherwise. */
  lemma NoteDuplicates(n: Note, i: nat, seen: set<string>)
    ensures DuplicateCount(NoteErrors(n, i, seen)) == if NoteId(n, i) in seen then 1 else 0
  {
    var id := NoteId(n, i);
    var head := MissingCheck(n, id) + TypeCheck(n, id) + CountCheck(n, id);
    var tail := if id in seen then [DuplicateId(id)] else [];
    ChecksNoDuplicates(n, id);
    DuplicateCountAppend(head, tail);
    assert DuplicateCount(tail) == if id in seen then 1 else 0;
  }

  /** The id set grows by one exactly when the note's id is new. */
  lemma SeenIdsGrow(notes: seq<Note>, i: nat)
    requires i < |notes|
    ensures |SeenIds(notes, i + 1)| == |SeenIds(notes, i)| + if NoteId(notes[i], i) in SeenIds(notes, i) then 0 else 1
  {
    SeenIdsStep(notes, i);
  }

  lemma SeenIdsStep(notes: seq<Note>, i: nat)
    requires i < |notes|
    ensures SeenIds(notes, i + 1) == SeenIds(notes, i) + {NoteId(notes[i], i)}
  {
  }

  /** The number of notes among the first `i` whose id an earlier note already had. */
  function RepeatedIds(notes: seq<Note>, i: nat): nat
    requires i <= |notes|
    decreases i
  {
    if i == 0 then 0
    else RepeatedIds(notes, i - 1) + if NoteId(notes[i - 1], i - 1) in SeenIds(notes, i - 1) then 1 else 0
  }

  /** One `DuplicateId` error per note whose id an earlier note already had:
      the duplicates reported plus the distinct ids make up all the notes. */
  lemma DuplicatesCounted(notes: seq<Note>, i: nat)
    requires i <= |notes|
    ensures DuplicateCount(NotesErrors(notes, i)) + |SeenIds(notes, i)| == i
  {
    DuplicatesReported(notes, i);
    RepeatedPlusDistinct(notes, i);
  }

  /** Every note is either the first with its id or a repeat. */
  lemma RepeatedPlusDistinct(notes: seq<Note>, i: nat)
    requires i <= |notes|
    ensures RepeatedIds(notes, i) + |SeenIds(notes, i)| == i
  {
    if i == 0 {
      assert SeenIds(notes, 0) == {};
    } else {
      RepeatedPlusDistinct(notes, i - 1);
      SeenIdsGrow(notes, i - 1);
    }
  }

  /** Each repeated id is reported once, and nothing else is a `DuplicateId`. */
  lemma DuplicatesReported(notes: seq<Note>, i: nat)
    requires i <= |notes|
    ensures DuplicateCount(NotesErrors(notes, i)) == RepeatedIds(notes, i)
  {
    if i == 0 {
      assert NotesErrors(notes, 0) == [];
    } else {
      DuplicatesReported(notes, i - 1);
      DuplicatesStep(notes, i);
    }
  }

  /** Note `i - 1` adds one duplicate exactly when its id was seen before. */
  lemma DuplicatesStep(notes: seq<Note>, i: nat)
    requires 0 < i <= |notes|
    ensures DuplicateCount(NotesErrors(notes, i)) ==
      DuplicateCount(NotesErrors(notes, i - 1)) + if NoteId(notes[i - 1], i - 1) in SeenIds(notes, i - 1) then 1 else 0
  {
    var seen := SeenIds(notes, i - 1);
    assert NotesErrors(notes, i) == NotesErrors(notes, i - 1) + NoteErrors(notes[i - 1], i - 1, seen);
    DuplicateCountAppend(NotesErrors(notes, i - 1), NoteErrors(notes[i - 1], i - 1, seen));
    NoteDuplicates(notes[i - 1], i - 1, seen);
  }

  // ----------------------------------------------------------- validate_tags

  /** The `notes` list the warning passes walk: `plan.get("notes", [])`. */
  function PlanNotes(plan: Plan): seq<Note> {
    plan.notes.GetOr([])
  }

  /** `note.get("id", "<unknown>")`. */
  function ReportedId(n: Note): string {
    n.id.GetOr("<unknown>")
  }

  /** `note.get("tags", [])`. */
  function TagsOf(n: Note): seq<string> {
    n.tags.GetOr([])
  }

  datatype TagWarning = NonCanonical(noteId: string, tag: string)

  /** The warnings for the first `j` tags of one note. */
  function TagWarnings(id: string, tags: seq<string>, valid: set<string>, j: nat): seq<TagWarning>
    requires j <= |tags|
    decreases j
  {
    if j == 0 then []
    else TagWarnings(id, tags, valid, j - 1) + (if tags[j - 1] !in valid then [NonCanonical(id, tags[j - 1])] else [])
  }

  /** The warnings for the first `i` notes. */
  function NotesTagWarnings(notes: seq<Note>, valid: set<string>, i: nat): seq<TagWarning>
    requires i <= |notes|
    decreases i
  {
    if i == 0 then []
    else NotesTagWarnings(notes, valid, i - 1) + TagWarnings(ReportedId(notes[i - 1]), TagsOf(notes[i - 1]), valid, |TagsOf(notes[i - 1])|)
  }

  method ValidateTags(plan: Plan, valid: set<string>) returns (warnings: seq<TagWarning>)
    ensures warnings == NotesTagWarnings(PlanNotes(plan), valid, |PlanNotes(plan)|)
  {
    var notes := if plan.notes.Some? then plan.notes.value else [];
    warnings := [];
    for i := 0 to |notes|
      invariant warnings == NotesTagWarnings(notes, valid, i)
    {
      var note := notes[i];
      var noteId := if note.id.Some? then note.id.value else "<unknown>";
      var tags := if note.tags.Some? then note.tags.value else [];
      for j := 0 to |tags|
        invariant warnings == NotesTagWarnings(notes, valid, i) + TagWarnings(noteId, tags, valid, j)
      {
        if tags[j] !in valid {
          warnings := warnings + [NonCanonical(noteId, tags[j])];
        }
      }
    }
  }

  /** One note's warnings are its non-canonical tags, in order. */
  lemma {:induction false} TagWarningsAre(id: string, tags: seq<string>, valid: set<string>, j: nat)
    requires j <= |tags|
    ensures forall w :: w in TagWarnings(id, tags, valid, j) <==> w.noteId == id && w.tag in tags[..j] && w.tag !in valid
  {
    if j > 0 {
      TagWarningsAre(id, tags, valid, j - 1);
      assert tags[..j] == tags[..j - 1] + [tags[j - 1]];
    }
  }

  /** A warning names a note and one of its tags that is not canonical, and
      every such pair is warned about. */
  lemma NotesTagWarningsAre(notes: seq<Note>, valid: set<string>, i: nat)
    requires i <= |notes|
    ensures forall w :: w in NotesTagWarnings(notes, valid, i) <==>
      exists k | 0 <= k < i :: w.noteId == ReportedId(notes[k]) && w.tag in TagsOf(notes[k]) && w.tag !in valid
  {
    if i > 0 {
      var n := notes[i - 1];
      NotesTagWarningsAre(notes, valid, i - 1);
      TagWarningsAre(ReportedId(n), TagsOf(n), valid, |TagsOf(n)|);
      assert TagsOf(n)[..|TagsOf(n)|] == TagsOf(n);
      forall w | w in NotesTagWarnings(notes, valid, i)
        ensures exists k | 0 <= k < i :: w.noteId == ReportedId(notes[k]) && w.tag in TagsOf(notes[k]) && w.tag !in valid
      {
        if w !in NotesTagWarnings(notes, valid, i - 1) {
          assert w.noteId == ReportedId(notes[i - 1]) && w.tag in TagsOf(notes[i - 1]) && w.tag !in valid;
        }
      }
    }
  }

  /** `validate_tags` is silent exactly when every tag of every note is canonical. */
  lemma NoTagWarningsIff(plan: Plan, valid: set<string>)
    ensures var notes := PlanNotes(plan);
      NotesTagWarnings(notes, valid, |notes|) == [] <==> forall k, t | 0 <= k < |notes| && t in TagsOf(notes[k]) :: t in valid
  {
    var notes := PlanNotes(plan);
    var ws := NotesTagWarnings(notes, valid, |notes|);
    NotesTagWarningsAre(notes, valid, |notes|);
    if ws != [] {
      assert ws[0] in ws;
    }
    forall k, t | 0 <= k < |notes| && t in TagsOf(notes[k]) && t !in valid ensures ws != [] {
      assert NonCanonical(ReportedId(notes[k]), t) in ws;
    }
  }

  // ------------------------------------------------------ validate_wikilinks

  /** The end of the run of characters other than `]` that starts at `i`. */
  function RunEnd(s: string, i: nat): (e: nat)
    requires i <= |s|
    ensures i <= e <= |s|
    ensures forall k | i <= k < e :: s[k] != ']'
    ensures e < |s| ==> s[e] == ']'
    decreases |s| - i
  {
    if i == |s| || s[i] == ']' then i else RunEnd(s, i + 1)
  }

  /** `\[\[([^\]]+)\]\]` matches at `i`: two `[`, a non-empty run without `]`,
      and two `]` right after the run (the run is greedy and cannot give back
      a character that would have to be a `]`). */
  predicate LinkAt(s: string, i: nat)
    requires i <= |s|
  {
    i + 2 <= |s| && s[i] == '[' && s[i + 1] == '['
    && var e := RunEnd(s, i + 2); e > i + 2 && e + 2 <= |s| && s[e + 1] == ']'
  }

  /** The groups `finditer` yields from position `i` on: each match is taken
      where it starts first, and the search resumes after it. */
  function Links(s: string, i: nat): seq<string>
    requires i <= |s|
    decreases |s| - i
  {
    if i == |s| then []
    else if LinkAt(s, i) then
      var e := RunEnd(s, i + 2);
      [s[i + 2..e]] + Links(s, e + 2)
    else Links(s, i + 1)
  }

  /** Each target is non-empty, has no `]`, and sits between `[[` and `]]` in the body. */
  lemma LinksAreBracketed(s: string, i: nat)
    requires i <= |s|
    ensures forall t | t in Links(s, i) :: t != [] && ']' !in t && exists p | i <= p :: OccursAt(s, "[[" + t + "]]", p)
    decreases |s| - i
  {
    if i < |s| {
      if LinkAt(s, i) {
        var e := RunEnd(s, i + 2);
        var t := s[i + 2..e];
        LinksAreBracketed(s, e + 2);
        assert s[i..e + 2] == "[[" + t + "]]";
        assert OccursAt(s, "[[" + t + "]]", i);
        assert forall k | 0 <= k < |t| :: t[k] == s[i + 2 + k];
      } else {
        LinksAreBracketed(s, i + 1);
      }
    }
  }

  /** A body without `[[` has no wikilinks. */
  lemma {:induction false} NoOpenerNoLinks(s: string, i: nat)
    requires i <= |s|
    requires !Contains(s, "[[")
    ensures Links(s, i) == []
    decreases |s| - i
  {
    if i < |s| {
      assert !OccursAt(s, "[[", i);
      if !LinkAt(s, i) {
        NoOpenerNoLinks(s, i + 1);
      }
    }
  }

  /** `{note.get("title", "") for note in notes}`. */
  function Titles(notes: seq<Note>): set<string> {
    set k | 0 <= k < |notes| :: notes[k].title.GetOr("")
  }

  /** `note.get("body", "")`. */
  function BodyOf(n: Note): string {
    n.body.GetOr("")
  }

  datatype LinkError = Orphaned(noteId: string, target: string)

  /** `match.group(1).strip()` for every wikilink of note `n`, in order. */
  function Targets(n: Note): seq<string> {
    StripAll(Links(BodyOf(n), 0))
  }

  function StripAll(xs: seq<string>): (r: seq<string>)
    ensures |r| == |xs|
  {
    if xs == [] then [] else [Strip(xs[0])] + StripAll(xs[1..])
  }

  lemma {:induction false} StripAllAt(xs: seq<string>, k: nat)
    requires k < |xs|
    ensures StripAll(xs)[k] == Strip(xs[k])
  {
    if k > 0 {
      StripAllAt(xs[1..], k - 1);
    }
  }

  /** The errors for the first `j` targets of one note. */
  function LinkErrors(id: string, targets: seq<string>, titles: set<string>, j: nat): seq<LinkError>
    requires j <= |targets|
    decreases j
  {
    if j == 0 then []
    else LinkErrors(id, targets, titles, j - 1) + (if targets[j - 1] !in titles then [Orphaned(id, targets[j - 1])] else [])
  }

  /** The errors for the first `i` notes. */
  function NotesLinkErrors(notes: seq<Note>, titles: set<string>, i: nat): seq<LinkError>
    requires i <= |notes|
    decreases i
  {
    if i == 0 then []
    else
      var n := notes[i - 1];
      NotesLinkErrors(notes, titles, i - 1) + LinkErrors(ReportedId(n), Targets(n), titles, |Targets(n)|)
  }

  /** The inner loop over one note's `finditer` matches. */
  method CheckLinks(noteId: string, links: seq<string>, titles: set<string>) returns (errors: seq<LinkError>)
    ensures errors == LinkErrors(noteId, StripAll(links), titles, |links|)
  {
    ghost var targets := StripAll(links);
    errors := [];
    var j := 0;
    while j < |links|
      invariant j <= |links|
      invariant errors == LinkErrors(noteId, targets, titles, j)
    {
      // `m.group(1).strip()`
      var target := Strip(links[j]);
      StripAllAt(links, j);
      if target !in titles {
        errors := errors + [Orphaned(noteId, target)];
      }
      j := j + 1;
    }
  }

  method ValidateWikilinks(plan: Plan) returns (errors: seq<LinkError>)
    ensures var notes := PlanNotes(plan); errors == NotesLinkErrors(notes, Titles(notes), |notes|)
  {
    var notes := if plan.notes.Some? then plan.notes.value else [];
    var titles := Titles(notes);
    errors := [];
    for i := 0 to |notes|
      invariant errors == NotesLinkErrors(notes, titles, i)
    {
      var note := notes[i];
      var noteId := if note.id.Some? then note.id.value else "<unknown>";
      var body := if note.body.Some? then note.body.value else "";
      var es := CheckLinks(noteId, Links(body, 0), titles);
      errors := errors + es;
    }
  }

  /** One note's errors are its targets that name no title. */
  lemma {:induction false} LinkErrorsAre(id: string, targets: seq<string>, titles: set<string>, j: nat)
    requires j <= |targets|
    ensures forall e :: e in LinkErrors(id, targets, titles, j) <==> e.noteId == id && e.target in targets[..j] && e.target !in titles
  {
    if j > 0 {
      LinkErrorsAre(id, targets, titles, j - 1);
      assert targets[..j] == targets[..j - 1] + [targets[j - 1]];
    }
  }

  /** `e` reports a wikilink of note `n` whose stripped target is no title. */
  predicate OrphanOf(n: Note, titles: set<string>, e: LinkError) {
    e.noteId == ReportedId(n) && e.target in Targets(n) && e.target !in titles
  }

  /** An orphan error names a note and the stripped target of one of its
      wikilinks that is no note's title, and every such link is reported. */
  lemma NotesLinkErrorsAre(notes: seq<Note>, titles: set<string>, i: nat)
    requires i <= |notes|
    ensures forall e :: e in NotesLinkErrors(notes, titles, i) <==> exists k | 0 <= k < i :: OrphanOf(notes[k], titles, e)
  {
    if i > 0 {
      var n := notes[i - 1];
      NotesLinkErrorsAre(notes, titles, i - 1);
      LinkErrorsAre(ReportedId(n), Targets(n), titles, |Targets(n)|);
      assert Targets(n)[..|Targets(n)|] == Targets(n);
      forall e | e in NotesLinkErrors(notes, titles, i) ensures exists k | 0 <= k < i :: OrphanOf(notes[k], titles, e) {
        if e !in NotesLinkErrors(notes, titles, i - 1) {
          assert OrphanOf(notes[i - 1], titles, e);
        }
      }
    }
  }

  /** `validate_wikilinks` is silent exactly when every wikilink target,
      stripped, is the title of a note of the plan. */
  lemma NoLinkErrorsIff(plan: Plan)
    ensures var notes := PlanNotes(plan);
      NotesLinkErrors(notes, Titles(notes), |notes|) == [] <==>
      forall k, t | 0 <= k < |notes| && t in Targets(notes[k]) :: t in Titles(notes)
  {
    var notes := PlanNotes(plan);
    var es := NotesLinkErrors(notes, Titles(notes), |notes|);
    NotesLinkErrorsAre(notes, Titles(notes), |notes|);
    if es != [] {
      assert es[0] in es;
    }
    forall k, t | 0 <= k < |notes| && t in Targets(notes[k]) && t !in Titles(notes) ensures es != [] {
      var e := Orphaned(ReportedId(notes[k]), t);
      assert OrphanOf(notes[k], Titles(notes), e);
      assert e in es;
    }
  }

  /** Stripping cannot bring in a `]`. */
  lemma StripKeepsOut(t: string, c: char)
    requires c !in t
    ensures c !in Strip(t)
  {
  }

  /** Every stripped target of a note is free of `]`. */
  lemma TargetsHaveNoBracket(n: Note)
    ensures forall x | x in Targets(n) :: ']' !in x
  {
    var links := Links(BodyOf(n), 0);
    LinksAreBracketed(BodyOf(n), 0);
    forall x | x in Targets(n) ensures ']' !in x {
      var m :| 0 <= m < |links| && Targets(n)[m] == x;
      StripAllAt(links, m);
      assert links[m] in links;
      StripKeepsOut(links[m], ']');
    }
  }

  /** No reported target contains `]`. */
  lemma OrphanTargetsHaveNoBracket(plan: Plan)
    ensures var notes := PlanNotes(plan);
      forall e | e in NotesLinkErrors(notes, Titles(notes), |notes|) :: ']' !in e.target
  {
    var notes := PlanNotes(plan);
    NotesLinkErrorsAre(notes, Titles(notes), |notes|);
    forall e | e in NotesLinkErrors(notes, Titles(notes), |notes|) ensures ']' !in e.target {
      var k :| 0 <= k < |notes| && OrphanOf(notes[k], Titles(notes), e);
      TargetsHaveNoBracket(notes[k]);
    }
  }

  /** A note whose body has no `[[` contributes no error. */
  lemma NoOpenerNoErrors(n: Note, titles: set<string>)
    requires !Contains(BodyOf(n), "[[")
    ensures NotesLinkErrors([n], titles, 1) == []
  {
    NoOpenerNoLinks(BodyOf(n), 0);
  }

  // ------------------------------------------------ extract_json fence strip

  /** Where the content the fence regex captures starts and where its closing
      fence is, when the stripped response has a matching pair of fences. */
  function FenceSpan(text: string): (r: Option<(nat, nat)>)
    ensures r.Some? ==> r.value.0 <= r.value.1 && FindFrom(text, "```", r.value.0) == Some(r.value.1)
  {
    if Contains(text, "```json") then
      var p := Find(text, "```json").value;
      match FindFrom(text, "```", p + 7)
      case Some(c) => Some((p + 7, c))
      case None => None
    else if Contains(text, "```") then
      var p := Find(text, "```").value;
      match FindFrom(text, "```", p + 3)
      case Some(c) => Some((p + 3, c))
      case None => None
    else None
  }

  /** What the fence handling of `extract_json` makes of the stripped text:
      the stripped content between the first opening fence and the next
      closing one, or the text itself. `\s*` around the group only moves
      whitespace out of it, which the final `.strip()` removes anyway. */
  function Unfence(text: string): string {
    match FenceSpan(text)
    case Some((a, c)) => Strip(text[a..c])
    case None => text
  }

  /** The text `extract_json` hands to `json.loads`. Either the stripped
      response goes through unchanged, or what goes through is fence-free
      and lies inside the stripped response. */
  function FenceStrip(response: string): (r: string)
    ensures r == Strip(response) || (!Contains(r, "```") && exists i :: OccursAt(Strip(response), r, i))
  {
    UnfenceShape(Strip(response));
    Unfence(Strip(response))
  }

  lemma UnfenceShape(text: string)
    ensures Unfence(text) == text || (!Contains(Unfence(text), "```") && exists i :: OccursAt(text, Unfence(text), i))
  {
    match FenceSpan(text)
    case Some((a, c)) =>
      CaptureShape(text, a, c);
    case None =>
  }

  /** An occurrence inside the slice `s[a..b]` is one in `s`, shifted by `a`. */
  lemma SliceOccurs(s: string, p: string, a: nat, b: nat, q: nat)
    requires a <= b <= |s| && q + |p| <= b - a
    ensures OccursAt(s[a..b], p, q) <==> OccursAt(s, p, a + q)
  {
    var x, y := s[a + q..a + q + |p|], s[a..b][q..q + |p|];
    forall k | 0 <= k < |p| ensures x[k] == y[k] {
      assert y[k] == s[a..b][q + k] == s[a + q + k];
    }
    assert x == y;
  }

  lemma OccursInSlice(s: string, p: string, a: nat, b: nat, q: nat)
    requires a <= b <= |s| && OccursAt(s[a..b], p, q)
    ensures OccursAt(s, p, a + q)
  {
    SliceOccurs(s, p, a, b, q);
  }

  lemma OccursInStrip(s: string, p: string, q: nat)
    requires OccursAt(Strip(s), p, q)
    ensures OccursAt(s, p, StripStart(s) + q)
  {
    OccursInSlice(s, p, StripStart(s), StripStart(s) + |Strip(s)|, q);
  }

  /** The stripped text between `a` and the first `p` at or after it holds no `p`. */
  lemma NoneBefore(text: string, p: string, a: nat, c: nat)
    requires p != []
    requires FindFrom(text, p, a) == Some(c)
    ensures !Contains(Strip(text[a..c]), p)
  {
    var x := text[a..c];
    if Contains(Strip(x), p) {
      var q := Find(Strip(x), p).value;
      OccursInStrip(x, p, q);
      OccursInSlice(text, p, a, c, StripStart(x) + q);
    }
  }

  /** What a fence captures, stripped, is fence-free and occurs in the text. */
  lemma CaptureShape(text: string, a: nat, c: nat)
    requires a <= c && FindFrom(text, "```", a) == Some(c)
    ensures !Contains(Strip(text[a..c]), "```")
    ensures OccursAt(text, Strip(text[a..c]), a + StripStart(text[a..c]))
  {
    NoneBefore(text, "```", a, c);
    CaptureOccurs(text, a, c);
  }

  /** The stripped slice `text[a..c]` occurs in `text`. */
  lemma CaptureOccurs(text: string, a: nat, c: nat)
    requires a <= c <= |text|
    ensures OccursAt(text, Strip(text[a..c]), a + StripStart(text[a..c]))
  {
    var x := text[a..c];
    OccursInSlice(text, Strip(x), a, c, StripStart(x));
  }

  /** A response without any fence is only stripped. */
  lemma NoFenceOnlyStrips(response: string)
    requires !Contains(response, "```")
    ensures FenceStrip(response) == Strip(response)
  {
    var text := Strip(response);
    if Contains(text, "```json") {
      var q := Find(text, "```json").value;
      assert text[q..q + 3] == text[q..q + 7][..3];
      assert OccursAt(text, "```", q);
    }
    if Contains(text, "```") {
      OccursInStrip(response, "```", Find(text, "```").value);
    }
  }

  /** No `p` starts inside `body` in `pre + body + p + post`. */
  lemma NotInside(pre: string, body: string, p: string, post: string, v: nat)
    requires NoStraddle(body, p, p)
    requires |pre| <= v < |pre| + |body|
    ensures !OccursAt(pre + body + p + post, p, v)
  {
    var t := pre + body + p + post;
    var e := |pre| + |body| + |p|;
    if OccursAt(t, p, v) {
      assert t[|pre|..e] == body + p;
      SliceOccurs(t, p, |pre|, e, v - |pre|);
    }
  }

  /** In `pre + body + p + post`, the first `p` from `|pre|` on is the one
      right after `body` when no `p` starts inside `body`. */
  lemma FirstClosing(pre: string, body: string, p: string, post: string)
    requires NoStraddle(body, p, p)
    ensures FindFrom(pre + body + p + post, p, |pre|) == Some(|pre| + |body|)
  {
    var t := pre + body + p + post;
    var e := |pre| + |body|;
    assert t[e..e + |p|] == p;
    assert OccursAt(t, p, e);
    var r := FindFrom(t, p, |pre|);
    if r != Some(e) {
      NotInside(pre, body, p, post, r.value);
    }
  }

  /** When no `open` starts inside `pre`, the first `open` is the one right
      after `pre`. */
  lemma FirstOpening(pre: string, open: string, rest: string)
    requires NoStraddle(pre, open, open)
    ensures Find(pre + open + rest, open) == Some(|pre|)
  {
    var t := pre + open + rest;
    var e := |pre| + |open|;
    assert t[|pre|..e] == open;
    assert OccursAt(t, open, |pre|);
    var r := Find(t, open);
    if r != Some(|pre|) {
      assert t[..e] == pre + open;
      SliceOccurs(t, open, 0, e, r.value);
    }
  }

  /** Nothing after `a` in `t` is a fence when `t[a..]` holds none. */
  lemma NoneAfter(t: string, a: nat)
    requires a <= |t| && !Contains(t[a..], "```")
    ensures FindFrom(t, "```", a) == None
  {
    assert t[a..|t|] == t[a..];
    ContainsIff(t[a..], "```");
    forall v | a <= v && v + 3 <= |t| ensures !OccursAt(t, "```", v) {
      SliceOccurs(t, "```", a, |t|, v - a);
    }
  }

  /** The first `json` fence opens the capture and the next fence closes it:
      whatever comes before the opening fence and after the closing one is
      dropped, and the content is stripped. */
  lemma JsonFenceCaptured(pre: string, body: string, post: string)
    requires NoStraddle(pre, "```json", "```json")
    requires NoStraddle(body, "```", "```")
    ensures Unfence(pre + "```json" + body + "```" + post) == Strip(body)
  {
    var t := pre + "```json" + body + "```" + post;
    var a := |pre| + 7;
    OpenAndClose(pre, "```json", body, post);
    JsonSpanOf(t, |pre|, a + |body|);
    FenceBody(pre, "```json", body, post);
    UnfenceSpan(t, a, body);
  }

  /** Without a `json` fence, the first plain fence opens the capture and the
      next one closes it. */
  lemma PlainFenceCaptured(pre: string, body: string, post: string)
    requires !Contains(pre + "```" + body + "```" + post, "```json")
    requires NoStraddle(pre, "```", "```")
    requires NoStraddle(body, "```", "```")
    ensures Unfence(pre + "```" + body + "```" + post) == Strip(body)
  {
    var t := pre + "```" + body + "```" + post;
    var a := |pre| + 3;
    OpenAndClose(pre, "```", body, post);
    PlainSpanOf(t, |pre|, a + |body|);
    FenceBody(pre, "```", body, post);
    UnfenceSpan(t, a, body);
  }

  /** The `json` fence at `p` opens the span and the fence at `c` closes it. */
  lemma JsonSpanOf(text: string, p: nat, c: nat)
    requires Find(text, "```json") == Some(p)
    requires FindFrom(text, "```", p + 7) == Some(c)
    ensures FenceSpan(text) == Some((p + 7, c))
  {
  }

  /** Without a `json` fence, the first fence at `p` opens the span and the
      next one, at `c`, closes it. */
  lemma PlainSpanOf(text: string, p: nat, c: nat)
    requires !Contains(text, "```json")
    requires Find(text, "```") == Some(p)
    requires FindFrom(text, "```", p + 3) == Some(c)
    ensures FenceSpan(text) == Some((p + 3, c))
  {
  }

  lemma UnfenceOf(text: string, a: nat, c: nat)
    requires FenceSpan(text) == Some((a, c))
    ensures a <= c <= |text|
    ensures Unfence(text) == Strip(text[a..c])
  {
  }

  lemma UnfenceSpan(t: string, a: nat, body: string)
    requires FenceSpan(t) == Some((a, a + |body|))
    requires a + |body| <= |t| && t[a..a + |body|] == body
    ensures Unfence(t) == Strip(body)
  {
    UnfenceOf(t, a, a + |body|);
    StripSame(t[a..a + |body|], body);
  }

  lemma UnfenceSame(x: string, y: string)
    requires x == y
    ensures Unfence(x) == Unfence(y)
  {
  }

  lemma FenceBody(pre: string, open: string, body: string, post: string)
    ensures (pre + open + body + "```" + post)[|pre| + |open|..|pre| + |open| + |body|] == body
  {
    var t := pre + open + body + "```" + post;
    assert t == (pre + open) + body + ("```" + post);
  }

  /** The opening fence is found right after `pre`, the closing one right
      after `body`. */
  lemma OpenAndClose(pre: string, open: string, body: string, post: string)
    requires NoStraddle(pre, open, open)
    requires NoStraddle(body, "```", "```")
    ensures Find(pre + open + body + "```" + post, open) == Some(|pre|)
    ensures FindFrom(pre + open + body + "```" + post, "```", |pre| + |open|) == Some(|pre| + |open| + |body|)
  {
    var t := pre + open + body + "```" + post;
    assert t == pre + open + (body + "```" + post);
    FirstOpening(pre, open, body + "```" + post);
    assert t == (pre + open) + body + "```" + post;
    FirstClosing(pre + open, body, "```", post);
  }

  /** A `json` fence with no closing fence after it leaves the text as it is. */
  lemma JsonFenceUnclosed(pre: string, rest: string)
    requires NoStraddle(pre, "```json", "```json")
    requires !Contains(rest, "```")
    ensures Unfence(pre + "```json" + rest) == pre + "```json" + rest
  {
    var t := pre + "```json" + rest;
    OpenedOnly(pre, "```json", rest);
    JsonUnclosedSpan(t, |pre|);
  }

  /** Without a `json` fence, a plain fence with no closing fence after it
      leaves the text as it is. */
  lemma PlainFenceUnclosed(pre: string, rest: string)
    requires !Contains(pre + "```" + rest, "```json")
    requires NoStraddle(pre, "```", "```")
    requires !Contains(rest, "```")
    ensures Unfence(pre + "```" + rest) == pre + "```" + rest
  {
    var t := pre + "```" + rest;
    OpenedOnly(pre, "```", rest);
    PlainUnclosedSpan(t, |pre|);
  }

  /** The opening fence is found right after `pre`, and no fence follows it. */
  lemma OpenedOnly(pre: string, open: string, rest: string)
    requires NoStraddle(pre, open, open)
    requires !Contains(rest, "```")
    ensures Find(pre + open + rest, open) == Some(|pre|)
    ensures FindFrom(pre + open + rest, "```", |pre| + |open|) == None
  {
    var t := pre + open + rest;
    FirstOpening(pre, open, rest);
    assert t[|pre| + |open|..] == rest;
    NoneAfter(t, |pre| + |open|);
  }

  lemma JsonUnclosedSpan(text: string, p: nat)
    requires Find(text, "```json") == Some(p)
    requires FindFrom(text, "```", p + 7) == None
    ensures Unfence(text) == text
  {
  }

  lemma PlainUnclosedSpan(text: string, p: nat)
    requires !Contains(text, "```json")
    requires Find(text, "```") == Some(p)
    requires FindFrom(text, "```", p + 3) == None
    ensures Unfence(text) == text
  {
  }

  /** Wrapping a JSON text in a `json` fence, with any whitespace around
      it, and stripping the fence gives the text back, stripped, provided it
      holds no fence of its own. */
  lemma PaddedFenceStrips(pre: string, body: string, post: string)
    requires IsBlank(pre) && IsBlank(post)
    requires NoStraddle(body, "```", "```")
    ensures FenceStrip(pre + "```json" + body + "```" + post) == Strip(body)
  {
    var x := pre + "```json" + body + "```" + post;
    StripFenced(pre, body, post);
    BareFenceCaptured(body);
    UnfenceSame(Strip(x), "```json" + body + "```");
  }

  lemma BareFenceCaptured(body: string)
    requires NoStraddle(body, "```", "```")
    ensures Unfence("```json" + body + "```") == Strip(body)
  {
    JsonFenceCaptured([], body, []);
    NoEnds("```json", body, "```");
    UnfenceSame([] + "```json" + body + "```" + [], "```json" + body + "```");
  }

  lemma NoEnds(a: string, b: string, c: string)
    ensures [] + a + b + c + [] == a + b + c
  {
  }

  /** Blank text around a fenced block is stripped away. */
  lemma StripFenced(pre: string, body: string, post: string)
    requires IsBlank(pre) && IsBlank(post)
    ensures Strip(pre + "```json" + body + "```" + post) == "```json" + body + "```"
  {
    var core := "```json" + body + "```";
    assert pre + "```json" + body + "```" + post == pre + core + post;
    StripPadded(pre, core, post);
    StripNoEdges(core);
  }

  // --------------------------------------------------------------- load_tags

  /** `f"{domain}/{subtag}"`. */
  function TagPath(domain: string, subtag: string): string {
    domain + "/" + subtag
  }

  /** The paths of the first `i` domains, in the order the loops append them. */
  function TagPaths(domains: seq<(string, seq<string>)>, i: nat): seq<string>
    requires i <= |domains|
    decreases i
  {
    if i == 0 then [] else TagPaths(domains, i - 1) + DomainPaths(domains[i - 1].0, domains[i - 1].1, |domains[i - 1].1|)
  }

  /** The paths of the first `j` subtags of one domain. */
  function DomainPaths(domain: string, subtags: seq<string>, j: nat): (r: seq<string>)
    requires j <= |subtags|
    ensures |r| == j && forall k | 0 <= k < j :: r[k] == TagPath(domain, subtags[k])
    decreases j
  {
    if j == 0 then [] else DomainPaths(domain, subtags, j - 1) + [TagPath(domain, subtags[j - 1])]
  }

  /** `load_tags` after the YAML file is read: `data.get("tags", {})` as its
      `(domain, subtags)` items in order, flattened, then `sorted`. */
  method LoadTags(tags: Option<seq<(string, seq<string>)>>) returns (result: seq<string>)
    ensures var domains := tags.GetOr([]);
      && SortedBy(result, (a: string, b: string) => StrLe(a, b))
      && multiset(result) == multiset(TagPaths(domains, |domains|))
  {
    var domains := if tags.Some? then tags.value else [];
    var flat: seq<string> := [];
    for i := 0 to |domains|
      invariant flat == TagPaths(domains, i)
    {
      var (domain, subtags) := domains[i];
      for j := 0 to |subtags|
        invariant flat == TagPaths(domains, i) + DomainPaths(domain, subtags, j)
      {
        flat := flat + [TagPath(domain, subtags[j])];
      }
    }
    StrLeTotalOrder();
    result := SortBy(flat, (a: string, b: string) => StrLe(a, b));
  }

  /** The flattened list holds one path per (domain, subtag) pair: its
      length is the number of pairs, and its elements are exactly the paths. */
  lemma {:induction false} TagPathsAre(domains: seq<(string, seq<string>)>, i: nat)
    requires i <= |domains|
    ensures forall x :: x in TagPaths(domains, i) <==>
      exists k, j | 0 <= k < i && 0 <= j < |domains[k].1| :: x == TagPath(domains[k].0, domains[k].1[j])
    ensures |TagPaths(domains, i)| == PairCount(domains, i)
  {
    if i > 0 {
      TagPathsAre(domains, i - 1);
      var d := domains[i - 1];
      var last := DomainPaths(d.0, d.1, |d.1|);
      forall x | x in last ensures exists k, j | 0 <= k < i && 0 <= j < |domains[k].1| :: x == TagPath(domains[k].0, domains[k].1[j]) {
        var j :| 0 <= j < |last| && last[j] == x;
        assert x == TagPath(domains[i - 1].0, domains[i - 1].1[j]);
      }
      forall x | exists k, j | 0 <= k < i && 0 <= j < |domains[k].1| :: x == TagPath(domains[k].0, domains[k].1[j])
        ensures x in TagPaths(domains, i)
      {
        var k, j :| 0 <= k < i && 0 <= j < |domains[k].1| && x == TagPath(domains[k].0, domains[k].1[j]);
        if k == i - 1 {
          assert last[j] == x;
        }
      }
    }
  }

  /** The number of (domain, subtag) pairs among the first `i` domains. */
  function PairCount(domains: seq<(string, seq<string>)>, i: nat): nat
    requires i <= |domains|
    decreases i
  {
    if i == 0 then 0 else PairCount(domains, i - 1) + |domains[i - 1].1|
  }

  /** `load_tags` has exactly one result: the sorted permutation is unique. */
  lemma LoadTagsDeterminate(domains: seq<(string, seq<string>)>, r1: seq<string>, r2: seq<string>)
    requires SortedBy(r1, (a: string, b: string) => StrLe(a, b)) && multiset(r1) == multiset(TagPaths(domains, |domains|))
    requires SortedBy(r2, (a: string, b: string) => StrLe(a, b)) && multiset(r2) == multiset(TagPaths(domains, |domains|))
    ensures r1 == r2
  {
    StrLeTotalOrder();
    SortIsUnique(r1, r2, (a: string, b: string) => StrLe(a, b));
  }

  // --------------------------------------------------- write_proposed_tags

  /** `collected` after the loop has visited `xs`, starting from `acc`: each
      entry is appended unless an equal one is already there. */
  function Gather(acc: seq<TagEntry>, xs: seq<TagEntry>): seq<TagEntry>
    decreases |xs|
  {
    if xs == [] then acc
    else
      var c := Gather(acc, xs[..|xs| - 1]);
      if xs[|xs| - 1] in c then c else c + [xs[|xs| - 1]]
  }

  /** The per-note `proposed_new_tags` lists of the first `i` notes, concatenated. */
  function NoteEntries(notes: seq<Note>, i: nat): seq<TagEntry>
    requires i <= |notes|
    decreases i
  {
    if i == 0 then [] else NoteEntries(notes, i - 1) + notes[i - 1].proposedNewTags.GetOr([])
  }

  /** The collection loop of `write_proposed_tags`. */
  method CollectProposedTags(plan: Plan) returns (collected: seq<TagEntry>)
    ensures var notes := PlanNotes(plan);
      collected == Gather(plan.proposedTags.GetOr([]), NoteEntries(notes, |notes|))
  {
    var top := if plan.proposedTags.Some? then plan.proposedTags.value else [];
    var notes := if plan.notes.Some? then plan.notes.value else [];
    collected := top;
    var i := 0;
    while i < |notes|
      invariant i <= |notes|
      invariant collected == Gather(top, NoteEntries(notes, i))
    {
      var entries := if notes[i].proposedNewTags.Some? then notes[i].proposedNewTags.value else [];
      collected := GatherEntries(collected, top, NoteEntries(notes, i), entries);
      i := i + 1;
    }
  }

  /** The inner loop over one note's `proposed_new_tags`. */
  method GatherEntries(collected0: seq<TagEntry>, ghost top: seq<TagEntry>, ghost before: seq<TagEntry>, entries: seq<TagEntry>)
    returns (collected: seq<TagEntry>)
    requires collected0 == Gather(top, before)
    ensures collected == Gather(top, before + entries)
  {
    collected := collected0;
    assert before + entries[..0] == before;
    var j := 0;
    while j < |entries|
      invariant j <= |entries|
      invariant collected == Gather(top, before + entries[..j])
    {
      GatherSnoc(top, before, entries, j);
      if entries[j] !in collected {
        collected := collected + [entries[j]];
      }
      j := j + 1;
    }
    assert entries[..|entries|] == entries;
  }

  /** One more entry of a note's list. */
  lemma GatherSnoc(acc: seq<TagEntry>, before: seq<TagEntry>, entries: seq<TagEntry>, j: nat)
    requires j < |entries|
    ensures var c := Gather(acc, before + entries[..j]);
      Gather(acc, before + entries[..j + 1]) == if entries[j] in c then c else c + [entries[j]]
  {
    var xs := before + entries[..j + 1];
    assert xs[..|xs| - 1] == before + entries[..j];
  }

  /** The top-level list is a verbatim prefix; every entry of the result comes
      from the top-level list or a note; everything after the prefix is new
      (not in the top-level list) and appears once. */
  lemma {:induction false} GatherIsDedup(acc: seq<TagEntry>, xs: seq<TagEntry>)
    ensures var r := Gather(acc, xs);
      && |acc| <= |r| && r[..|acc|] == acc
      && (forall e :: e in r <==> e in acc || e in xs)
      && (forall k | |acc| <= k < |r| :: r[k] !in acc)
      && (forall j, k | |acc| <= j < k < |r| :: r[j] != r[k])
    decreases |xs|
  {
    if xs != [] {
      var init := xs[..|xs| - 1];
      GatherIsDedup(acc, init);
      var c := Gather(acc, init);
      assert xs == init + [xs[|xs| - 1]];
      if xs[|xs| - 1] !in c {
        var r := c + [xs[|xs| - 1]];
        assert r[..|acc|] == c[..|acc|];
        forall k | |acc| <= k < |r| ensures r[k] !in acc {
          if k == |c| {
            assert acc == c[..|acc|];
          }
        }
        forall j, k | |acc| <= j < k < |r| ensures r[j] != r[k] {
          if k == |c| {
            assert r[j] == c[j];
          }
        }
      }
    }
  }

  /** Nothing is appended to the file exactly when there is nothing to collect. */
  lemma NothingCollectedIff(plan: Plan)
    ensures var notes := PlanNotes(plan);
      Gather(plan.proposedTags.GetOr([]), NoteEntries(notes, |notes|)) == [] <==>
      plan.proposedTags.GetOr([]) == [] && NoteEntries(notes, |notes|) == []
  {
    var notes := PlanNotes(plan);
    var xs := NoteEntries(notes, |notes|);
    GatherIsDedup(plan.proposedTags.GetOr([]), xs);
    if xs != [] {
      assert xs[0] in xs;
    }
  }
}
