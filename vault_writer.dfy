/**
 * The decisions of `vault_writer.py` once file access is abstracted: where a
 * note goes, the MOC-last order, the duplicate check against the registry of
 * processed source documents, and the registry update at the end of a run.
 */
module VaultWriter {
  import opened Wrappers
  import opened Text
  import opened Sorting
  import opened Frontmatter
  import Atomize

  // ---------------------------------------------------------- get_vault_dest

  /** The `[vault]` table of the configuration; `vault_path` is present (the
      run stops before any routing otherwise). */
  datatype VaultConfig = VaultConfig(
    vaultPath: string,
    mocFolder: Option<string>,
    sourceFolder: Option<string>,
    notesFolder: Option<string>)

  /** `vault_path / folder`. */
  datatype Dest = Dest(vaultPath: string, folder: string)

  function GetVaultDest(noteType: string, vault: VaultConfig): (d: Dest)
    ensures d.vaultPath == vault.vaultPath
    ensures d.folder in {vault.mocFolder.GetOr("MOCs"), vault.sourceFolder.GetOr("Sources"), vault.notesFolder.GetOr("Notes")}
    ensures noteType == "moc" ==> d.folder == vault.mocFolder.GetOr("MOCs")
    ensures noteType == "source" ==> d.folder == vault.sourceFolder.GetOr("Sources")
  {
    var folder :=
      if noteType == "moc" then vault.mocFolder.GetOr("MOCs")
      else if noteType == "source" then vault.sourceFolder.GetOr("Sources")
      else vault.notesFolder.GetOr("Notes");
    Dest(vault.vaultPath, folder)
  }

  /** Every type other than `moc` and `source`, unknown ones included, is
      routed like `atomic`, to the notes folder. */
  lemma RoutingFallback(noteType: string, vault: VaultConfig)
    requires noteType != "moc" && noteType != "source"
    ensures GetVaultDest(noteType, vault) == GetVaultDest("atomic", vault)
    ensures GetVaultDest(noteType, vault).folder == vault.notesFolder.GetOr("Notes")
  {
  }

  // ----------------------------------------------------------- _moc_sort_key

  /** A staged `.md` file: its name, its stem, and its text, or `None` when
      reading it fails. The program's stem is the name without `.md`; the
      two are given separately here and not tied together. */
  datatype StagedFile = StagedFile(name: string, stem: string, content: Option<string>)

  const MocSuffix := " — MOC"

  /** A readable file whose frontmatter says `moc` or whose stem ends with
      the MOC suffix. */
  predicate IsMocFile(f: StagedFile) {
    match f.content
    case None => false
    case Some(c) => FrontmatterOf(c).Get("note_type", "") == "moc" || EndsWith(f.stem, MocSuffix)
  }

  function MocSortKey(f: StagedFile): (key: (nat, string))
    ensures key.0 == 1 <==> IsMocFile(f)
    ensures key.0 <= 1 && key.1 == f.name
  {
    (if IsMocFile(f) then 1 else 0, f.name)
  }

  /** Python's order on `(int, str)` tuples, applied to the sort keys. */
  predicate FileLe(f: StagedFile, g: StagedFile) {
    var a := MocSortKey(f);
    var b := MocSortKey(g);
    a.0 < b.0 || (a.0 == b.0 && StrLe(a.1, b.1))
  }

  lemma FileLeTotalOrder()
    ensures TotalOrder((f: StagedFile, g: StagedFile) => FileLe(f, g))
  {
    forall f: StagedFile, g: StagedFile ensures FileLe(f, g) || FileLe(g, f) {
      StrLeTotal(f.name, g.name);
    }
    forall f: StagedFile, g: StagedFile, h: StagedFile | FileLe(f, g) && FileLe(g, h) ensures FileLe(f, h) {
      if MocSortKey(f).0 == MocSortKey(g).0 == MocSortKey(h).0 {
        StrLeTransitive(f.name, g.name, h.name);
      }
    }
  }

  /** `md_files.sort(key=_moc_sort_key)`. */
  function SortedFiles(files: seq<StagedFile>): (r: seq<StagedFile>)
    ensures multiset(r) == multiset(files)
    ensures SortedBy(r, (f: StagedFile, g: StagedFile) => FileLe(f, g))
  {
    FileLeTotalOrder();
    SortBy(files, (f: StagedFile, g: StagedFile) => FileLe(f, g))
  }

  /** After sorting, no MOC comes before a non-MOC, and files of the same
      group are in name order. */
  lemma MocsLast(files: seq<StagedFile>, i: nat, j: nat)
    requires i < j < |SortedFiles(files)|
    ensures var r := SortedFiles(files);
      && !(IsMocFile(r[i]) && !IsMocFile(r[j]))
      && (IsMocFile(r[i]) == IsMocFile(r[j]) ==> StrLe(r[i].name, r[j].name))
  {
    FileLeTotalOrder();
    SortedPairwise(SortedFiles(files), (f: StagedFile, g: StagedFile) => FileLe(f, g), i, j);
  }

  /** The glob result without `proposed-tags.md`. */
  function NoteFiles(staged: seq<StagedFile>): (r: seq<StagedFile>)
    ensures forall f :: f in r <==> f in staged && f.name != "proposed-tags.md"
    decreases |staged|
  {
    if staged == [] then []
    else
      var rest := NoteFiles(staged[1..]);
      assert staged == [staged[0]] + staged[1..];
      if staged[0].name != "proposed-tags.md" then [staged[0]] + rest else rest
  }

  // ------------------------------------------------------ atom-plan context

  /** `atom_plan_titles` (title to note type) and `atom_plan_source` (title
      to source document), built from the plan's notes. */
  datatype PlanContext = PlanContext(types: map<string, string>, sources: map<string, string>)

  function PlanTitle(n: Atomize.Note): string {
    n.title.GetOr("")
  }

  function PlanContextOf(notes: seq<Atomize.Note>): PlanContext
    decreases |notes|
  {
    if notes == [] then PlanContext(map[], map[])
    else
      var c := PlanContextOf(notes[..|notes| - 1]);
      var n := notes[|notes| - 1];
      PlanContext(c.types[PlanTitle(n) := n.noteType.GetOr("")], c.sources[PlanTitle(n) := n.sourceDoc.GetOr("")])
  }

  method BuildPlanContext(notes: seq<Atomize.Note>) returns (ctx: PlanContext)
    ensures ctx == PlanContextOf(notes)
  {
    var types: map<string, string> := map[];
    var sources: map<string, string> := map[];
    for i := 0 to |notes|
      invariant PlanContext(types, sources) == PlanContextOf(notes[..i])
    {
      assert notes[..i + 1][..i] == notes[..i];
      var t := notes[i].title.GetOr("");
      types := types[t := notes[i].noteType.GetOr("")];
      sources := sources[t := notes[i].sourceDoc.GetOr("")];
    }
    assert notes[..|notes|] == notes;
    ctx := PlanContext(types, sources);
  }

  /** A title is known to the plan iff some note has it, and then the plan
      gives the type and source document of the last such note. */
  lemma {:induction false} PlanContextLastWins(notes: seq<Atomize.Note>, t: string)
    ensures var c := PlanContextOf(notes);
      && (t in c.types <==> exists k | 0 <= k < |notes| :: PlanTitle(notes[k]) == t)
      && (t in c.types <==> t in c.sources)
      && forall k | 0 <= k < |notes| && PlanTitle(notes[k]) == t ::
           (forall j | k < j < |notes| :: PlanTitle(notes[j]) != t) ==>
             c.types[t] == notes[k].noteType.GetOr("") && c.sources[t] == notes[k].sourceDoc.GetOr("")
    decreases |notes|
  {
    if notes != [] {
      var init := notes[..|notes| - 1];
      PlanContextLastWins(init, t);
      forall k | 0 <= k < |init| ensures init[k] == notes[k] { }
    }
  }

  // ------------------------------------------------------------ title line

  const HeadingPrefix := "# "

  /** Index of the first line at or after `i` that starts with `# `. */
  function FirstHeading(lines: seq<string>, i: nat): (r: Option<nat>)
    requires i <= |lines|
    ensures r.Some? ==> i <= r.value < |lines| && StartsWith(lines[r.value], HeadingPrefix)
    ensures r.Some? ==> forall j | i <= j < r.value :: !StartsWith(lines[j], HeadingPrefix)
    ensures r.None? ==> forall j | i <= j < |lines| :: !StartsWith(lines[j], HeadingPrefix)
    decreases |lines| - i
  {
    if i == |lines| then None
    else if StartsWith(lines[i], HeadingPrefix) then Some(i)
    else FirstHeading(lines, i + 1)
  }

  /** The note's title: the first `# ` line without its marker, stripped,
      or else the file stem. */
  function TitleOf(content: string, stem: string): string {
    var lines := SplitLines(content);
    match FirstHeading(lines, 0)
    case Some(k) => Strip(lines[k][2..])
    case None => stem
  }

  method ExtractTitle(content: string, stem: string) returns (title: string)
    ensures title == TitleOf(content, stem)
  {
    title := stem;
    var lines := SplitLines(content);
    var i := 0;
    while i < |lines|
      invariant i <= |lines|
      invariant FirstHeading(lines, 0) == FirstHeading(lines, i)
      invariant title == stem
    {
      if StartsWith(lines[i], HeadingPrefix) {
        title := Strip(lines[i][2..]);
        break;
      }
      i := i + 1;
    }
  }

  // ------------------------------------------------------------------ dedup

  /** An entry of the registry of processed source documents; every key may
      be missing from the stored JSON. */
  datatype RegEntry = RegEntry(
    sourceDoc: Option<string>,
    date: Option<string>,
    noteCount: Option<nat>,
    noteTitles: Option<seq<string>>)

  type Registry = map<string, RegEntry>

  /** The answer of the interactive conflict prompt. */
  datatype Decision = Skip | Overwrite

  /** What the loop reads but never changes. */
  datatype Env = Env(
    registry: Registry,
    ctx: PlanContext,
    vault: VaultConfig,
    resolve: (string, string) -> Decision)

  /** The title and the frontmatter values of a readable file, the last two
      filled from the plan when the frontmatter leaves them empty. */
  datatype FileInfo = FileInfo(title: string, noteType: string, sourceDoc: string, date: string)

  function Info(content: string, stem: string, ctx: PlanContext): FileInfo {
    var fm := FrontmatterOf(content);
    var title := TitleOf(content, stem);
    var noteType := fm.Get("note_type", "");
    var sourceDoc := fm.Get("source_doc", "");
    FileInfo(
      title,
      if noteType == "" && title in ctx.types then ctx.types[title] else noteType,
      if sourceDoc == "" && title in ctx.sources then ctx.sources[title] else sourceDoc,
      fm.Get("date", ""))
  }

  /** The plan supplies the note type and source document only when the
      frontmatter leaves them empty and the title is one of the plan's. */
  lemma PlanFillsEmpty(content: string, stem: string, ctx: PlanContext)
    ensures var fm := FrontmatterOf(content); var info := Info(content, stem, ctx);
      && info.title == TitleOf(content, stem)
      && info.date == fm.Get("date", "")
      && (info.noteType != fm.Get("note_type", "") ==>
            fm.Get("note_type", "") == "" && info.title in ctx.types && info.noteType == ctx.types[info.title])
      && (info.sourceDoc != fm.Get("source_doc", "") ==>
            fm.Get("source_doc", "") == "" && info.title in ctx.sources && info.sourceDoc == ctx.sources[info.title])
  {
  }

  /** `registry.get(source_doc, {}).get("note_titles", [])`. */
  function KnownTitles(registry: Registry, sourceDoc: string): seq<string> {
    if sourceDoc in registry then registry[sourceDoc].noteTitles.GetOr([]) else []
  }

  /** The note is skipped: not a MOC, with a source document, a title already
      recorded for it, and the resolver answers skip. */
  predicate Skips(info: FileInfo, env: Env) {
    && info.noteType != "moc"
    && info.sourceDoc != ""
    && info.title in KnownTitles(env.registry, info.sourceDoc)
    && env.resolve(info.title, info.sourceDoc) == Skip
  }

  /** `shutil.copy2(md_file, dest_dir / md_file.name)`. */
  datatype Copy = Copy(dest: Dest, name: string)

  /** The titles written for one source document, and the date of the first. */
  datatype SessionWrite = SessionWrite(date: string, titles: seq<string>)

  datatype WriterState = WriterState(
    createdAtomic: nat,
    createdMoc: nat,
    skipped: nat,
    session: map<string, SessionWrite>,
    copies: seq<Copy>)

  const Initial := WriterState(0, 0, 0, map[], [])

  /** `session_writes` after recording `title` for `sourceDoc`. */
  function Record(session: map<string, SessionWrite>, sourceDoc: string, date: string, title: string): map<string, SessionWrite> {
    var w := if sourceDoc in session then session[sourceDoc] else SessionWrite(date, []);
    session[sourceDoc := w.(titles := w.titles + [title])]
  }

  /** One iteration of the loop over the sorted files. */
  function ProcessFile(st: WriterState, f: StagedFile, env: Env): WriterState {
    match f.content
    case None => st
    case Some(c) =>
      var info := Info(c, f.stem, env.ctx);
      if Skips(info, env) then st.(skipped := st.skipped + 1)
      else
        var st1 := st.(copies := st.copies + [Copy(GetVaultDest(info.noteType, env.vault), f.name)]);
        var st2 := if info.sourceDoc != "" then st1.(session := Record(st1.session, info.sourceDoc, info.date, info.title)) else st1;
        if info.noteType == "moc" then st2.(createdMoc := st2.createdMoc + 1)
        else st2.(createdAtomic := st2.createdAtomic + 1)
  }

  function Process(files: seq<StagedFile>, env: Env): WriterState
    decreases |files|
  {
    if files == [] then Initial
    else ProcessFile(Process(files[..|files| - 1], env), files[|files| - 1], env)
  }

  method ReadInfo(content: string, stem: string, ctx: PlanContext) returns (info: FileInfo)
    ensures info == Info(content, stem, ctx)
  {
    var fm := ParseFrontmatter(content);
    var title := ExtractTitle(content, stem);
    var noteType := fm.Get("note_type", "");
    var sourceDoc := fm.Get("source_doc", "");
    var date := fm.Get("date", "");
    if noteType == "" && title in ctx.types {
      noteType := ctx.types[title];
    }
    if sourceDoc == "" && title in ctx.sources {
      sourceDoc := ctx.sources[title];
    }
    info := FileInfo(title, noteType, sourceDoc, date);
  }

  method RecordWrite(session0: map<string, SessionWrite>, sourceDoc: string, date: string, title: string)
    returns (session: map<string, SessionWrite>)
    ensures session == Record(session0, sourceDoc, date, title)
  {
    session := session0;
    if sourceDoc !in session {
      session := session[sourceDoc := SessionWrite(date, [])];
    }
    session := session[sourceDoc := session[sourceDoc].(titles := session[sourceDoc].titles + [title])];
  }

  method CopyOne(st: WriterState, f: StagedFile, env: Env) returns (next: WriterState)
    ensures next == ProcessFile(st, f, env)
  {
    next := st;
    if f.content.None? {
      return;
    }
    var info := ReadInfo(f.content.value, f.stem, env.ctx);
    if info.noteType != "moc" && info.sourceDoc != "" {
      var existingTitles := KnownTitles(env.registry, info.sourceDoc);
      if info.title in existingTitles {
        var action := env.resolve(info.title, info.sourceDoc);
        if action == Skip {
          next := next.(skipped := next.skipped + 1);
          return;
        }
      }
    }
    var dest := GetVaultDest(info.noteType, env.vault);
    next := next.(copies := next.copies + [Copy(dest, f.name)]);
    if info.sourceDoc != "" {
      var session := RecordWrite(next.session, info.sourceDoc, info.date, info.title);
      next := next.(session := session);
    }
    if info.noteType == "moc" {
      next := next.(createdMoc := next.createdMoc + 1);
    } else {
      next := next.(createdAtomic := next.createdAtomic + 1);
    }
  }

  method CopyAll(files: seq<StagedFile>, env: Env) returns (st: WriterState)
    ensures st == Process(files, env)
  {
    st := Initial;
    for i := 0 to |files|
      invariant st == Process(files[..i], env)
    {
      assert files[..i + 1][..i] == files[..i];
      st := CopyOne(st, files[i], env);
    }
    assert files[..|files|] == files;
  }

  function Unreadable(files: seq<StagedFile>): nat
    decreases |files|
  {
    if files == [] then 0
    else Unreadable(files[..|files| - 1]) + (if files[|files| - 1].content.None? then 1 else 0)
  }

  /** Every file is counted exactly once: skipped, created as a note,
      created as a MOC, or unreadable; one copy per created file. */
  lemma {:induction false} CountsAddUp(files: seq<StagedFile>, env: Env)
    ensures var st := Process(files, env);
      && st.skipped + st.createdAtomic + st.createdMoc + Unreadable(files) == |files|
      && |st.copies| == st.createdAtomic + st.createdMoc
    decreases |files|
  {
    if files != [] {
      CountsAddUp(files[..|files| - 1], env);
    }
  }

  /** A file is skipped exactly when it is readable, not a MOC, names a source
      document, has a title already recorded for it, and the resolver says
      skip; MOCs and notes without a source document are never skipped. */
  lemma SkipIff(st: WriterState, f: StagedFile, env: Env)
    ensures var next := ProcessFile(st, f, env);
      && next.skipped <= st.skipped + 1
      && (next.skipped == st.skipped + 1 <==>
            f.content.Some? && Skips(Info(f.content.value, f.stem, env.ctx), env))
      && (f.content.Some? ==>
            var info := Info(f.content.value, f.stem, env.ctx);
            (info.noteType == "moc" || info.sourceDoc == "") ==> next.skipped == st.skipped)
  {
  }

  /** A created file is copied into the folder its note type routes to. */
  lemma CopiedToRoute(st: WriterState, f: StagedFile, env: Env)
    requires f.content.Some? && !Skips(Info(f.content.value, f.stem, env.ctx), env)
    ensures ProcessFile(st, f, env).copies
      == st.copies + [Copy(GetVaultDest(Info(f.content.value, f.stem, env.ctx).noteType, env.vault), f.name)]
  {
  }

  /** The file is copied and records `title` under `sourceDoc`. */
  predicate WritesTitle(f: StagedFile, env: Env, sourceDoc: string, title: string) {
    && f.content.Some?
    && var info := Info(f.content.value, f.stem, env.ctx);
    && !Skips(info, env)
    && info.sourceDoc == sourceDoc != ""
    && info.title == title
  }

  /** The session's (source document, title) pairs and non-emptiness. */
  predicate Recorded(session: map<string, SessionWrite>, sourceDoc: string, title: string) {
    sourceDoc in session && title in session[sourceDoc].titles
  }

  predicate NonEmptyTitles(session: map<string, SessionWrite>) {
    forall d | d in session :: session[d].titles != []
  }

  /** One file adds exactly its own pair to the session, if it writes one. */
  lemma SessionStep(st: WriterState, f: StagedFile, env: Env, sourceDoc: string, title: string)
    requires NonEmptyTitles(st.session)
    ensures var s := ProcessFile(st, f, env).session;
      && NonEmptyTitles(s)
      && (Recorded(s, sourceDoc, title) <==> Recorded(st.session, sourceDoc, title) || WritesTitle(f, env, sourceDoc, title))
  {
  }

  /** `session_writes` holds exactly the (source document, title) pairs of the
      files copied, and every recorded document has at least one title. */
  lemma {:induction false} SessionIsWrites(files: seq<StagedFile>, env: Env, sourceDoc: string, title: string)
    ensures var s := Process(files, env).session;
      && NonEmptyTitles(s)
      && (Recorded(s, sourceDoc, title) <==>
            exists k | 0 <= k < |files| :: WritesTitle(files[k], env, sourceDoc, title))
    decreases |files|
  {
    if files != [] {
      var init := files[..|files| - 1];
      var last := files[|files| - 1];
      SessionIsWrites(init, env, sourceDoc, title);
      var before := Process(init, env);
      assert Process(files, env) == ProcessFile(before, last, env);
      SessionStep(before, last, env, sourceDoc, title);
      assert files == init + [last];
      ExistsSnoc(init, last, (g: StagedFile) => WritesTitle(g, env, sourceDoc, title));
    }
  }

  /** Some element of `xs` satisfies `p` iff one before the last does or the last does. */
  lemma ExistsSnoc<T>(init: seq<T>, last: T, p: T -> bool)
    ensures (exists k | 0 <= k < |init + [last]| :: p((init + [last])[k]))
      <==> (exists k | 0 <= k < |init| :: p(init[k])) || p(last)
  {
    var xs := init + [last];
    assert xs[|init|] == last;
    if exists k | 0 <= k < |xs| :: p(xs[k]) {
      var k :| 0 <= k < |xs| && p(xs[k]);
      if k < |init| {
        assert init[k] == xs[k];
      }
    }
    if exists k | 0 <= k < |init| :: p(init[k]) {
      var k :| 0 <= k < |init| && p(init[k]);
      assert xs[k] == init[k];
    }
  }

  // --------------------------------------------------------- registry merge

  /** Python's truthiness of `existing.get("date")`. */
  predicate HasDate(e: RegEntry) {
    e.date.Some? && e.date.value != ""
  }

  /** The entry for `sourceDoc` after the run: the titles become the sorted,
      duplicate-free union of old and new, the count their number, and the
      date is filled in only when it was missing or empty. */
  function MergeEntry(sourceDoc: string, existing: Option<RegEntry>, w: SessionWrite): (e: RegEntry)
    ensures e.noteTitles.Some? && StrictlyAscending(e.noteTitles.value)
    ensures forall t :: t in e.noteTitles.value <==> t in w.titles || (existing.Some? && t in existing.value.noteTitles.GetOr([]))
    ensures e.noteCount == Some(|e.noteTitles.value|)
    ensures existing.Some? && (HasDate(existing.value) || w.date == "") ==> e.date == existing.value.date
    ensures existing.Some? ==> e.sourceDoc == existing.value.sourceDoc
    ensures existing.None? ==> e.sourceDoc == Some(sourceDoc) && e.date == Some(w.date)
    ensures w.date != "" ==> HasDate(e)
  {
    var base := existing.GetOr(RegEntry(Some(sourceDoc), Some(w.date), Some(0), Some([])));
    var titles := SortedSet(base.noteTitles.GetOr([]) + w.titles);
    assert forall t :: t in base.noteTitles.GetOr([]) + w.titles <==> t in base.noteTitles.GetOr([]) || t in w.titles;
    var date := if w.date != "" && !HasDate(base) then Some(w.date) else base.date;
    RegEntry(base.sourceDoc, date, Some(|titles|), Some(titles))
  }

  function Lookup(registry: Registry, key: string): Option<RegEntry> {
    if key in registry then Some(registry[key]) else None
  }

  /** The merged entry of every recorded source document. */
  function Merges(registry: Registry, session: map<string, SessionWrite>): map<string, RegEntry> {
    map k | k in session :: MergeEntry(k, Lookup(registry, k), session[k])
  }

  /** `registry` with the entries of `merged` laid over it, except those of `pending`. */
  function Overlay(registry: Registry, merged: map<string, RegEntry>, pending: set<string>): Registry {
    map k | k in registry.Keys + (merged.Keys - pending) ::
      if k in merged && k !in pending then merged[k] else registry[k]
  }

  /** `Merged` once the documents in `pending` are still to be done. */
  function MergedExcept(registry: Registry, session: map<string, SessionWrite>, pending: set<string>): Registry {
    Overlay(registry, Merges(registry, session), pending)
  }

  /** The registry after merging every recorded source document; the others
      are untouched. */
  function Merged(registry: Registry, session: map<string, SessionWrite>): (r: Registry)
    ensures r.Keys == registry.Keys + session.Keys
    ensures forall k | k in registry && k !in session :: r[k] == registry[k]
    ensures forall k | k in session :: r[k] == MergeEntry(k, Lookup(registry, k), session[k])
  {
    assert session.Keys - {} == session.Keys;
    MergedExcept(registry, session, {})
  }

  method MergeRegistry(registry0: Registry, session: map<string, SessionWrite>) returns (registry: Registry)
    ensures registry == Merged(registry0, session)
  {
    registry := registry0;
    var pending := session.Keys;
    MergedExceptStart(registry0, session);
    while pending != {}
      invariant pending <= session.Keys
      invariant registry == MergedExcept(registry0, session, pending)
      decreases pending
    {
      var sourceDoc :| sourceDoc in pending;
      MergedExceptStep(registry0, session, pending, sourceDoc);
      registry := registry[sourceDoc := MergeEntry(sourceDoc, Lookup(registry, sourceDoc), session[sourceDoc])];
      pending := pending - {sourceDoc};
    }
    MergedNone(registry0, session);
  }

  lemma MergedNone(registry: Registry, session: map<string, SessionWrite>)
    ensures MergedExcept(registry, session, {}) == Merged(registry, session)
  {
  }

  lemma MergedExceptStart(registry: Registry, session: map<string, SessionWrite>)
    ensures MergedExcept(registry, session, session.Keys) == registry
  {
  }

  /** Laying one more pending entry over the registry. */
  lemma OverlayStep(registry: Registry, merged: map<string, RegEntry>, pending: set<string>, key: string)
    requires key in pending && key in merged
    ensures var m := Overlay(registry, merged, pending);
      && Lookup(m, key) == Lookup(registry, key)
      && m[key := merged[key]] == Overlay(registry, merged, pending - {key})
  {
    var m := Overlay(registry, merged, pending);
    var m2 := Overlay(registry, merged, pending - {key});
    var u := m[key := merged[key]];
    assert u.Keys == m2.Keys;
    forall k | k in u.Keys ensures u[k] == m2[k] {
    }
  }

  /** Merging one pending document: its entry is still the original one. */
  lemma MergedExceptStep(registry: Registry, session: map<string, SessionWrite>, pending: set<string>, sourceDoc: string)
    requires sourceDoc in pending && pending <= session.Keys
    ensures Lookup(MergedExcept(registry, session, pending), sourceDoc) == Lookup(registry, sourceDoc)
    ensures var m := MergedExcept(registry, session, pending);
      m[sourceDoc := MergeEntry(sourceDoc, Lookup(registry, sourceDoc), session[sourceDoc])]
        == MergedExcept(registry, session, pending - {sourceDoc})
  {
    OverlayStep(registry, Merges(registry, session), pending, sourceDoc);
  }

  /** Two strictly ascending lists with the same elements are equal. */
  lemma {:induction false} AscendingUnique(a: seq<string>, b: seq<string>)
    requires StrictlyAscending(a) && StrictlyAscending(b)
    requires forall t :: t in a <==> t in b
    ensures a == b
    decreases |a|
  {
    StrLeTotalOrder();
    if a != [] {
      assert a[0] in b;
    }
    if b != [] {
      assert b[0] in a;
    }
    if a != [] && b != [] {
      AscendingHeadBelow(a);
      AscendingHeadBelow(b);
      assert a[0] in b && b[0] in a;
      StrLeAntisymmetric(a[0], b[0]);
      forall t ensures t in a[1..] <==> t in b[1..] {
        assert t in a <==> t == a[0] || t in a[1..];
        assert t in b <==> t == b[0] || t in b[1..];
      }
      AscendingUnique(a[1..], b[1..]);
      assert a == [a[0]] + a[1..];
      assert b == [b[0]] + b[1..];
    }
  }

  /** The head of a strictly ascending list is below every other element
      and occurs nowhere else. */
  lemma AscendingHeadBelow(a: seq<string>)
    requires StrictlyAscending(a) && a != []
    ensures forall t | t in a :: StrLe(a[0], t)
    ensures a[0] !in a[1..]
  {
    forall t | t in a ensures StrLe(a[0], t) {
      var j :| 0 <= j < |a| && a[j] == t;
      if j > 0 {
        AscendingStrict(a, j);
      } else {
        StrLeTotal(t, t);
      }
    }
    forall j | 0 < j < |a| ensures a[0] != a[j] {
      AscendingStrict(a, j);
    }
  }

  lemma {:induction false} AscendingStrict(a: seq<string>, j: nat)
    requires StrictlyAscending(a) && 0 < j < |a|
    ensures StrLe(a[0], a[j]) && a[0] != a[j]
    decreases j
  {
    if j > 1 {
      AscendingStrict(a, j - 1);
      StrLeTransitive(a[0], a[j - 1], a[j]);
      if a[0] == a[j] {
        StrLeAntisymmetric(a[j - 1], a[j]);
      }
    }
  }

  /** Merging the same titles into an entry a second time changes nothing. */
  lemma MergeEntryIdempotent(sourceDoc: string, existing: Option<RegEntry>, w: SessionWrite)
    ensures var e := MergeEntry(sourceDoc, existing, w);
      MergeEntry(sourceDoc, Some(e), w) == e
  {
    var e := MergeEntry(sourceDoc, existing, w);
    var e2 := MergeEntry(sourceDoc, Some(e), w);
    AscendingUnique(e2.noteTitles.value, e.noteTitles.value);
  }

  /** Merging the same session a second time changes nothing. */
  lemma MergeIdempotent(registry: Registry, session: map<string, SessionWrite>)
    ensures Merged(Merged(registry, session), session) == Merged(registry, session)
  {
    var once := Merged(registry, session);
    var twice := Merged(once, session);
    forall k | k in twice.Keys ensures twice[k] == once[k] {
      if k in session {
        MergeEntryIdempotent(k, Lookup(registry, k), session[k]);
      }
    }
  }

  // --------------------------------------------------------------- the run

  /** The result of a run of the writer. */
  datatype RunResult = RunResult(
    createdAtomic: nat,
    createdMoc: nat,
    skipped: nat,
    copies: seq<Copy>,
    registry: Registry,
    saved: bool)

  /** The loop and registry update of the script's entry point: the staged
      files (without `proposed-tags.md`) sorted MOC-last, each copied or
      skipped, then the registry merged and saved when anything was written. */
  method WriteStaged(
    staged: seq<StagedFile>, registry0: Registry, planNotes: seq<Atomize.Note>,
    vault: VaultConfig, resolve: (string, string) -> Decision)
    returns (result: RunResult)
    ensures var files := SortedFiles(NoteFiles(staged));
      var st := Process(files, Env(registry0, PlanContextOf(planNotes), vault, resolve));
      && result.createdAtomic == st.createdAtomic
      && result.createdMoc == st.createdMoc
      && result.skipped == st.skipped
      && result.copies == st.copies
      && result.registry == Merged(registry0, st.session)
      && result.saved == (st.session != map[])
  {
    var ctx := BuildPlanContext(planNotes);
    var mdFiles := NoteFiles(staged);
    if mdFiles == [] {
      assert Merged(registry0, map[]) == registry0;
      return RunResult(0, 0, 0, [], registry0, false);
    }
    var files := SortedFiles(mdFiles);
    var st := CopyAll(files, Env(registry0, ctx, vault, resolve));
    var registry := MergeRegistry(registry0, st.session);
    result := RunResult(st.createdAtomic, st.createdMoc, st.skipped, st.copies, registry, st.session != map[]);
  }
}
