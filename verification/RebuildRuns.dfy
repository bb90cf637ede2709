/** Rebuild against the live tables: runs of transactions and journal writes in any order. */
module RebuildRuns {
  import opened Bytes
  import opened Metadata
  import opened FileKey
  import opened Ingestion
  import opened IngestRuns
  import opened BlobStore
  import opened Rebuild
  import opened CloneRuns
  import opened Mirror
  import opened MirrorRuns

  // ---- package_files only grows ----

  predicate IdsOk(t: Tables) {
    && (forall i :: 0 <= i < |t.files| ==> t.files[i].id < t.nextFile)
    && (forall i, j :: 0 <= i < j < |t.files| ==> t.files[i].id < t.files[j].id)
  }

  /** What the unique indexes keep: no two rows of a package clash. */
  predicate RowsApart(files: seq<Row>) {
    forall i, j :: 0 <= i < j < |files| ==> files[i].pkg != files[j].pkg || !Clashes(files[i].file, files[j].file)
  }

  predicate Grows(t: Tables, u: Tables) {
    t.files <= u.files && (IdsOk(t) ==> IdsOk(u)) && (RowsApart(t.files) ==> RowsApart(u.files))
  }

  lemma GrowsTrans(t: Tables, u: Tables, v: Tables)
    requires Grows(t, u) && Grows(u, v)
    ensures Grows(t, v)
  {
  }

  lemma FileGrows(t: Tables, p: nat, f: FileIn)
    ensures CreateFile(t, p, f).Some? ==> Grows(t, CreateFile(t, p, f).value)
  {
    hide RowsOf, Clashes;
    if CreateFile(t, p, f).Some? {
      forall i | 0 <= i < |t.files| ensures t.files[i].pkg != p || !Clashes(t.files[i].file, f) {
        if t.files[i].pkg == p { InRowsOf(t.files, p, i); }
      }
    }
  }

  lemma {:induction false} InRowsOf(files: seq<Row>, p: nat, i: nat)
    requires i < |files| && files[i].pkg == p
    ensures exists j :: 0 <= j < |RowsOf(files, p)| && RowsOf(files, p)[j] == files[i].file
  {
    var n := |files| - 1;
    if i < n {
      InRowsOf(files[..n], p, i);
      var j :| 0 <= j < |RowsOf(files[..n], p)| && RowsOf(files[..n], p)[j] == files[i].file;
      assert RowsOf(files, p)[j] == files[i].file;
    } else {
      assert RowsOf(files, p)[|RowsOf(files[..n], p)|] == files[i].file;
    }
  }

  lemma SameGrows(t: Tables, u: Tables)
    requires u.files == t.files && u.nextFile == t.nextFile
    ensures Grows(t, u)
  {
  }

  lemma StoreGrows(t: Tables, h: Hash, o: Ingestion.Store)
    ensures Grows(t, AfterStore(t, h, o))
  {
  }

  lemma StoreAndFileGrow(t: Tables, h: Hash, o: Ingestion.Store, p: nat, f: FileIn)
    ensures var r := CreateFile(AfterStore(t, h, o), p, f); r.Some? ==> Grows(t, r.value)
  {
    hide CreateFile, AfterStore, Grows;
    StoreGrows(t, h, o);
    FileGrows(AfterStore(t, h, o), p, f);
    var r := CreateFile(AfterStore(t, h, o), p, f);
    if r.Some? { GrowsTrans(t, AfterStore(t, h, o), r.value); }
  }

  lemma {:induction false} MembersGrow(sha: Sha, p: nat, start: Progress, items: seq<Item>)
    ensures Grows(start.t, Members(sha, p, start, items).t)
  {
    hide CreateFile, AfterStore, Grows;
    if items == [] {
      SameGrows(start.t, start.t);
    } else {
      var n := |items| - 1;
      MembersGrow(sha, p, start, items[..n]);
      var pr := Members(sha, p, start, items[..n]);
      if pr.stop == None && items[n].Item? {
        var Item(name, data, o) := items[n];
        var t := AfterStore(pr.t, sha(data), o);
        var f := FileIn(sha(data), Member, Some(name), Some(pr.members));
        StoreGrows(pr.t, sha(data), o);
        GrowsTrans(start.t, pr.t, t);
        StoreAndFileGrow(pr.t, sha(data), o, p, f);
        if CreateFile(t, p, f).Some? { GrowsTrans(start.t, pr.t, CreateFile(t, p, f).value); }
      }
    }
  }

  lemma PersistGrows(sha: Sha, db: Db, p: nat, items: seq<Item>, errStore: Ingestion.Store)
    ensures var r := PersistZipMembers(sha, db, p, items, errStore); r.Done? ==> Grows(db.t, r.t)
  {
    hide Members, CreateFile, AfterStore, Grows;
    var start := Progress(db.t, 0, db.orphans, None, false);
    MembersGrow(sha, p, start, items);
    var pr := Members(sha, p, start, items);
    if pr.stop.Some? {
      var msg := pr.stop.value;
      StoreAndFileGrow(pr.t, sha(msg), errStore, p, FileIn(sha(msg), UnpackError, Some(UNPACK_ERROR_FILENAME), None));
      var r := PersistUnpackError(sha, pr.t, p, msg, errStore);
      if r.Some? { GrowsTrans(db.t, pr.t, r.value); }
    }
  }

  lemma OriginalGrows(sha: Sha, db: Db, id: nat, pkg: Package, body: Bytes, o: Ingestion.Store)
    ensures var r := IngestOriginal(sha, db, id, pkg, body, o); r.Some? ==> Grows(db.t, r.value.t)
  {
    hide CreateFile, AfterStore, Grows;
    var t := AfterStore(db.t, sha(body), o);
    StoreGrows(db.t, sha(body), o);
    var u := CreatePackage(t, id, pkg);
    if u.Some? {
      SameGrows(t, u.value);
      GrowsTrans(db.t, t, u.value);
      var f := FileIn(sha(body), Original, pkg.filename, None);
      FileGrows(u.value, id, f);
      if CreateFile(u.value, id, f).Some? { GrowsTrans(db.t, u.value, CreateFile(u.value, id, f).value); }
    }
  }

  lemma SmallZipGrows(sha: Sha, db: Db, id: nat, supplier: int, body: Bytes, filename: Option<string>, o: Ingestion.Store,
                      precheck: Option<Bytes>, entries: nat, items: seq<Item>, errStore: Ingestion.Store)
    ensures var r := IngestSmallZIP(sha, db, id, supplier, body, filename, o, precheck, entries, items, errStore);
      r.Some? ==> Grows(db.t, r.value.t)
  {
    hide IngestOriginal, PersistZipMembers, CreateFile, AfterStore, Grows;
    var pkg := Package(supplier, sha(body), ZIP, ZipWithMembers, filename, None,
                       if precheck.Some? then 2 else 1 + entries, precheck);
    OriginalGrows(sha, db, id, pkg, body, o);
    var d := IngestOriginal(sha, db, id, pkg, body, o);
    if d.Some? {
      if precheck.Some? {
        var msg := precheck.value;
        StoreAndFileGrow(d.value.t, sha(msg), errStore, id, FileIn(sha(msg), UnpackError, Some(UNPACK_ERROR_FILENAME), None));
        var r := PersistUnpackError(sha, d.value.t, id, msg, errStore);
        if r.Some? { GrowsTrans(db.t, d.value.t, r.value); }
      } else {
        PersistGrows(sha, d.value, id, items, errStore);
        var r := PersistZipMembers(sha, d.value, id, items, errStore);
        if r.Done? { GrowsTrans(db.t, d.value.t, r.t); }
      }
    }
  }

  lemma {:induction false} InsertGrows(t: Tables, p: nat, rows: seq<FileIn>)
    ensures var r := InsertRows(t, p, rows); r.Some? ==> Grows(t, r.value)
  {
    hide CreateFile, Grows;
    if rows == [] {
      SameGrows(t, t);
    } else {
      var n := |rows| - 1;
      InsertGrows(t, p, rows[..n]);
      var u := InsertRows(t, p, rows[..n]);
      if u.Some? {
        FileGrows(u.value, p, rows[n]);
        if CreateFile(u.value, p, rows[n]).Some? { GrowsTrans(t, u.value, CreateFile(u.value, p, rows[n]).value); }
      }
    }
  }

  lemma {:induction false} IncrementsGrow(t: Tables, hs: seq<Hash>)
    ensures IncrementAll(t, hs).files == t.files && IncrementAll(t, hs).nextFile == t.nextFile
  {
    if hs != [] { IncrementsGrow(t, hs[..|hs| - 1]); }
  }

  lemma CloneGrows(db: Db, id: nat, c: nat, snap: Package, rows: seq<FileIn>, supplier: int, filename: Option<string>)
    ensures var r := ClonePackage(db, id, c, snap, rows, supplier, filename); r.Some? ==> Grows(db.t, r.value.t)
  {
    hide InsertRows, IncrementAll, Grows;
    var t := CreatePackage(db.t, id, snap.(supplier := supplier, filename := filename, canonical := Some(c)));
    if t.Some? {
      SameGrows(db.t, t.value);
      InsertGrows(t.value, id, rows);
      var u := InsertRows(t.value, id, rows);
      if u.Some? {
        GrowsTrans(db.t, t.value, u.value);
        IncrementsGrow(u.value, BlobsOf(rows));
        SameGrows(u.value, IncrementAll(u.value, BlobsOf(rows)));
        GrowsTrans(db.t, u.value, IncrementAll(u.value, BlobsOf(rows)));
      }
    }
  }

  lemma {:induction false} CopyGrows(k: nat, start: Copied, extras: seq<FileIn>)
    ensures var r := CopyMissing(k, start, extras); r.Some? ==> Grows(start.t, r.value.t)
  {
    hide CreateFile, Grows, PackageFileKey;
    if extras == [] {
      SameGrows(start.t, start.t);
    } else {
      var n := |extras| - 1;
      CopyGrows(k, start, extras[..n]);
      var r := CopyMissing(k, start, extras[..n]);
      if r.Some? {
        FileGrows(r.value.t, k, extras[n]);
        if CreateFile(r.value.t, k, extras[n]).Some? { GrowsTrans(start.t, r.value.t, CreateFile(r.value.t, k, extras[n]).value); }
      }
    }
  }

  lemma PropagateGrows(db: Db, c: nat, k: nat, existing: set<string>)
    requires c in db.t.pkgs
    ensures var r := PropagateTx(db, c, k, existing); r.Some? ==> Grows(db.t, r.value.t)
  {
    hide CopyMissing, IncrementAll, Extras, RowsOf, Grows;
    var start := Copied(db.t, [], existing);
    var extras := Extras(RowsOf(db.t.files, c));
    CopyGrows(k, start, extras);
    var r := CopyMissing(k, start, extras);
    if r.Some? {
      var u := IncrementAll(r.value.t, r.value.hashes);
      IncrementsGrow(r.value.t, r.value.hashes);
      var v := UpdateAfterUnpack(u, k, ZipWithMembers, db.t.pkgs[c].fileCount, db.t.pkgs[c].unpackError).0;
      SameGrows(r.value.t, v);
      GrowsTrans(db.t, r.value.t, v);
    }
  }

  lemma UnpackGrows(sha: Sha, db: Db, p: nat, items: seq<Item>, errStore: Ingestion.Store)
    ensures var r := UnpackTx(sha, db, p, items, errStore); r.Some? ==> Grows(db.t, r.value.t)
  {
    hide PersistZipMembers, Grows;
    PersistGrows(sha, db, p, items, errStore);
    var r := PersistZipMembers(sha, db, p, items, errStore);
    if r.Done? {
      var u := UpdateAfterUnpack(r.t, p, ZipWithMembers, r.fileCount, r.err).0;
      SameGrows(r.t, u);
      GrowsTrans(db.t, r.t, u);
    }
  }

  lemma StepGrows(sha: Sha, st: State, step: IngestRuns.Step)
    ensures Grows(st.db.t, IngestRuns.Exec(sha, st, step).db.t)
  {
    hide Grows, IngestOriginal, IngestSmallZIP, ClonePackage, UnpackTx, PropagateTx, RowsOf, Present;
    SameGrows(st.db.t, st.db.t);
    match step
    case UploadXml(id, supplier, body, filename, o) =>
      OriginalGrows(sha, st.db, id, Package(supplier, sha(body), XML, Single, filename, None, 1, None), body, o);
    case UploadLargeZip(id, supplier, body, filename, o) =>
      OriginalGrows(sha, st.db, id, Package(supplier, sha(body), ZIP, RawLarge, filename, None, 1, None), body, o);
    case UploadSmallZip(id, supplier, body, filename, o, precheck, entries, items, errStore) =>
      SmallZipGrows(sha, st.db, id, supplier, body, filename, o, precheck, entries, items, errStore);
    case LookUp(_, _) =>
    case Clone(id, ticket, supplier, filename) =>
      if ticket in st.tickets {
        var t := st.tickets[ticket];
        CloneGrows(st.db, id, t.canonical, t.snap, t.rows, supplier, filename);
      }
    case Unpack(p, items, errStore) => UnpackGrows(sha, st.db, p, items, errStore);
    case Propagate(c, k, stale) =>
      if c in st.db.t.pkgs { PropagateGrows(st.db, c, k, Present(st.db.t, k, stale)); }
  }

  // ---- live tables, journal, and which packages changed since they were journaled ----

  function IdRows(files: seq<Row>, p: nat): seq<Row> {
    if files == [] then [] else
    var n := |files| - 1;
    IdRows(files[..n], p) + if files[n].pkg == p then [files[n]] else []
  }

  lemma {:induction false} IdRowsMember(files: seq<Row>, p: nat, r: Row)
    ensures r in IdRows(files, p) <==> r in files && r.pkg == p
  {
    if files != [] {
      var n := |files| - 1;
      IdRowsMember(files[..n], p, r);
      assert files == files[..n] + [files[n]];
    }
  }

  /**
   `loaded` holds lines read and not yet appended. History: `dirty` are packages whose last line, if
   any, was read before their last change; `stale` are loaded lines read before that.
   */
  datatype Live = Live(st: State, journal: seq<Entry>, loaded: map<nat, Entry>, dirty: set<nat>, stale: set<nat>)

  /** A transaction; or one of the two halves of loadAndJournal, between which anything may happen. */
  datatype LiveStep = Tx(step: IngestRuns.Step) | LoadLine(ticket: nat, pkg: nat) | AppendLine(ticket: nat)

  predicate Unchanged(t: Tables, u: Tables, p: nat) {
    p in t.pkgs && p in u.pkgs && u.pkgs[p] == t.pkgs[p] && IdRows(u.files, p) == IdRows(t.files, p)
  }

  function Changed(t: Tables, u: Tables): set<nat> {
    set p | p in u.pkgs && !Unchanged(t, u, p)
  }

  /** The line GetPackage gives now. */
  function LineOf(t: Tables, p: nat): Entry
    requires p in t.pkgs
  {
    Entry(p, t.pkgs[p], IdRows(t.files, p))
  }

  function ExecLive(sha: Sha, l: Live, step: LiveStep): Live {
    match step
    case Tx(s) =>
      var st := IngestRuns.Exec(sha, l.st, s);
      var changed := Changed(l.st.db.t, st.db.t);
      Live(st, l.journal, l.loaded, l.dirty + changed, l.stale + set x | x in l.loaded && l.loaded[x].id in changed)
    case LoadLine(x, p) =>
      if p !in l.st.db.t.pkgs then l else l.(loaded := l.loaded[x := LineOf(l.st.db.t, p)], stale := l.stale - {x})
    case AppendLine(x) =>
      if x !in l.loaded then l else
      var e := l.loaded[x];
      Live(l.st, l.journal + [e], l.loaded - {x}, if x in l.stale then l.dirty + {e.id} else l.dirty - {e.id}, l.stale)
  }

  function RunLive(sha: Sha, steps: seq<LiveStep>): Live {
    if steps == [] then Live(START, [], map[], {}, {}) else
    ExecLive(sha, RunLive(sha, steps[..|steps| - 1]), steps[|steps| - 1])
  }

  /** A line's rows are live rows of its package, which exists. */
  ghost predicate LineLives(t: Tables, e: Entry) {
    e.id in t.pkgs && forall r :: r in e.rows ==> r in t.files && r.pkg == e.id
  }

  ghost predicate FromLive(l: Live) {
    && (forall i :: 0 <= i < |l.journal| ==> LineLives(l.st.db.t, l.journal[i]))
    && (forall x :: x in l.loaded ==> LineLives(l.st.db.t, l.loaded[x]))
  }

  ghost predicate CleanIsCurrent(l: Live) {
    && (forall p :: p in l.st.db.t.pkgs && p !in l.dirty ==> Last(l.journal, p) == Some(LineOf(l.st.db.t, p)))
    && (forall x :: x in l.loaded && x !in l.stale ==> l.loaded[x].id in l.st.db.t.pkgs && l.loaded[x] == LineOf(l.st.db.t, l.loaded[x].id))
  }

  ghost predicate LiveInv(l: Live) {
    IdsOk(l.st.db.t) && RowsApart(l.st.db.t.files) && FromLive(l) && CleanIsCurrent(l)
  }

  lemma LineStays(t: Tables, u: Tables, e: Entry)
    requires LineLives(t, e) && t.files <= u.files && t.pkgs.Keys <= u.pkgs.Keys
    ensures LineLives(u, e)
  {
    forall r | r in t.files ensures r in u.files {
      var i :| 0 <= i < |t.files| && t.files[i] == r;
      assert u.files[i] == r;
    }
  }

  /** No transaction removes a package. */
  lemma PackagesStay(sha: Sha, st: State, s: IngestRuns.Step)
    requires Fine(st)
    ensures st.db.t.pkgs.Keys <= IngestRuns.Exec(sha, st, s).db.t.pkgs.Keys
  {
    hide IngestRuns.Exec, Fine, WellShaped, RowsOf;
    StepDid(sha, st, s);
    var u := IngestRuns.Exec(sha, st, s).db.t;
    DidForward(st.db.t, u, EffectOf(st.db.t, u, s));
  }

  lemma TxKeeps(sha: Sha, l: Live, s: IngestRuns.Step)
    requires LiveInv(l) && Fine(l.st)
    ensures LiveInv(ExecLive(sha, l, Tx(s)))
  {
    hide IngestRuns.Exec, IdRows, Last, Fine, LineLives, IdsOk, RowsApart;
    StepGrows(sha, l.st, s);
    PackagesStay(sha, l.st, s);
    var m := ExecLive(sha, l, Tx(s));
    var t, u := l.st.db.t, m.st.db.t;
    forall e | LineLives(t, e) ensures LineLives(u, e) { LineStays(t, u, e); }
    assert forall p :: p in u.pkgs && p !in m.dirty ==> Unchanged(t, u, p);
    forall x | x in m.loaded && x !in m.stale ensures m.loaded[x].id in u.pkgs && m.loaded[x] == LineOf(u, m.loaded[x].id) {
      assert Unchanged(t, u, l.loaded[x].id);
    }
  }

  lemma LastOfSnoc(journal: seq<Entry>, e: Entry, p: nat)
    ensures Last(journal + [e], p) == if e.id == p then Some(e) else Last(journal, p)
  {
  }

  lemma LoadKeeps(sha: Sha, l: Live, x: nat, p: nat)
    requires LiveInv(l)
    ensures LiveInv(ExecLive(sha, l, LoadLine(x, p)))
  {
    hide IdRows, Last, IdsOk, RowsApart;
    var t := l.st.db.t;
    if p in t.pkgs {
      forall r ensures r in LineOf(t, p).rows <==> r in t.files && r.pkg == p { IdRowsMember(t.files, p, r); }
    }
  }

  lemma AppendKeeps(sha: Sha, l: Live, x: nat)
    requires LiveInv(l)
    ensures LiveInv(ExecLive(sha, l, AppendLine(x)))
  {
    hide IdRows, Last, IdsOk, RowsApart, LineLives;
    if x in l.loaded {
      var e := l.loaded[x];
      var m := ExecLive(sha, l, AppendLine(x));
      forall q: nat ensures Last(m.journal, q) == if e.id == q then Some(e) else Last(l.journal, q) { LastOfSnoc(l.journal, e, q); }
    }
  }

  lemma {:induction false} LiveFine(sha: Sha, steps: seq<LiveStep>)
    ensures var st := RunLive(sha, steps).st; Fine(st) && Balanced(st.db)
  {
    hide IngestRuns.Exec, Fine, Balanced, IdRows;
    if steps == [] {
      StartFine();
      assert Balanced(START.db) by { NothingOwed(); }
    } else {
      var n := |steps| - 1;
      LiveFine(sha, steps[..n]);
      var l := RunLive(sha, steps[..n]);
      if steps[n].Tx? {
        StepFine(sha, l.st, steps[n].step);
        StepBalances(sha, l.st, steps[n].step);
      }
    }
  }

  lemma NothingOwed()
    ensures Balanced(START.db)
  {
  }

  lemma {:induction false} LiveKeeps(sha: Sha, steps: seq<LiveStep>)
    ensures LiveInv(RunLive(sha, steps))
  {
    hide ExecLive;
    if steps != [] {
      hide LiveInv;
      var n := |steps| - 1;
      LiveKeeps(sha, steps[..n]);
      LiveFine(sha, steps[..n]);
      var l := RunLive(sha, steps[..n]);
      match steps[n]
      case Tx(s) => TxKeeps(sha, l, s);
      case LoadLine(x, p) => LoadKeeps(sha, l, x, p);
      case AppendLine(x) => AppendKeeps(sha, l, x);
    }
  }

  lemma LiveIsCoherent(l: Live)
    requires LiveInv(l)
    ensures Coherent(l.journal)
  {
  }

  lemma LiveIsApart(l: Live)
    requires LiveInv(l)
    ensures OwnRows(l.journal) && Apart(l.journal)
  {
  }

  /**
   On the journal of any run, Rebuild gets through exactly when every clone's canonical was journaled
   before it and the sidecars hold every journaled row's blob: nothing else can stop it.
   */
  lemma LiveRebuildSucceedsIffClosed(sha: Sha, steps: seq<LiveStep>, index: seq<IndexEntry>)
    ensures RebuildTables(index, RunLive(sha, steps).journal).Some? <==> Closed(UpsertAll(index).Keys, RunLive(sha, steps).journal)
  {
    hide RunLive, RebuildTables, Closed, UpsertAll;
    LiveKeeps(sha, steps);
    LiveIsApart(RunLive(sha, steps));
    RebuildSucceedsIffClosed(index, RunLive(sha, steps).journal);
  }

  /** The restored row set of a package. */
  ghost function RestoredRows(r: Restored, p: nat): set<Row> {
    set id | id in r.files && r.files[id].pkg == p :: r.files[id]
  }

  lemma RestoredRowsAre(r: Restored, journal: seq<Entry>, p: nat)
    requires FilesAre(r.files, journal) && Coherent(journal)
    ensures forall row :: row in RestoredRows(r, p) <==> InLine(journal, p, row)
  {
    hide Coherent;
    forall row ensures row in RestoredRows(r, p) <==> InLine(journal, p, row) {
      LinesTogether(r.files, journal, p, row);
      if row.id in r.files && r.files[row.id] == row && row.pkg == p { assert row in RestoredRows(r, p); }
    }
  }

  /**
   Whenever Rebuild gets through, each journaled package comes back with the columns of the line appended
   last and the rows of all its lines together.
   */
  lemma RestoresLines(sha: Sha, steps: seq<LiveStep>, index: seq<IndexEntry>)
    requires RebuildTables(index, RunLive(sha, steps).journal).Some?
    ensures var l := RunLive(sha, steps); var r := RebuildTables(index, l.journal).value;
      && FilesAre(r.files, l.journal)
      && (forall p: nat :: p in r.pkgs <==> Last(l.journal, p).Some?)
      && (forall p :: p in r.pkgs ==>
           r.pkgs[p] == Last(l.journal, p).value.pkg && forall row :: row in RestoredRows(r, p) <==> InLine(l.journal, p, row))
      && (forall h :: h in r.blobs ==> r.blobs[h].ref == RowCount(r.files, h))
  {
    hide RunLive, Last, RestoreAll, UpsertAll, IdRows, InLine;
    var l := RunLive(sha, steps);
    LiveKeeps(sha, steps);
    LiveIsCoherent(l);
    ReplayRestores(Restored(UpsertAll(index), map[], map[]), l.journal);
    var r := RebuildTables(index, l.journal).value;
    forall p | p in r.pkgs ensures forall row :: row in RestoredRows(r, p) <==> InLine(l.journal, p, row) {
      RestoredRowsAre(r, l.journal, p);
    }
  }
}
