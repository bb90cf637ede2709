/** Recovery of the tables from the .idx sidecars and the ingest journal (internal/recovery/rebuild.go). */
module Rebuild {
  import opened Bytes
  import opened Metadata
  import opened BlobStore
  import opened BlobIndex

  /** A journal line: a package with its rows as they were when it was written. */
  datatype Entry = Entry(id: nat, pkg: Package, rows: seq<Row>)

  /** The tables being rebuilt; package_files is keyed by row id. */
  datatype Restored = Restored(blobs: map<Hash, Blob>, pkgs: map<nat, Package>, files: map<nat, Row>)

  // ---- the statements ----

  /** UpsertContentBlob: the place is replaced, an existing ref_count kept. */
  function Upsert(blobs: map<Hash, Blob>, e: IndexEntry): map<Hash, Blob> {
    var stored := if e.place.stored == 0 then e.place.size else e.place.stored;
    var ref := if e.hash in blobs then blobs[e.hash].ref else 1;
    blobs[e.hash := Blob(e.place.size, stored, e.place.segment, e.place.offset, ref)]
  }

  function UpsertAll(index: seq<IndexEntry>): map<Hash, Blob> {
    if index == [] then map[] else Upsert(UpsertAll(index[..|index| - 1]), index[|index| - 1])
  }

  /** Two rows the unique indexes of package_files do not let stand side by side. */
  predicate Bumps(a: Row, b: Row) {
    a.id != b.id && a.pkg == b.pkg && Clashes(a.file, b.file)
  }

  /** RestorePackageFile; None is a violated key. */
  function RestoreRow(r: Restored, row: Row): Option<Restored> {
    if row.pkg !in r.pkgs || row.file.blob !in r.blobs || (exists id :: id in r.files && Bumps(r.files[id], row)) then None
    else Some(r.(files := r.files[row.id := row]))
  }

  function RestoreRows(r: Restored, rows: seq<Row>): Option<Restored> {
    if rows == [] then Some(r) else
    match RestoreRows(r, rows[..|rows| - 1])
    case None => None
    case Some(u) => RestoreRow(u, rows[|rows| - 1])
  }

  function RestorePackage(r: Restored, e: Entry): Option<Restored> {
    if e.pkg.canonical.Some? && e.pkg.canonical.value !in r.pkgs then None else Some(r.(pkgs := r.pkgs[e.id := e.pkg]))
  }

  /** restoreJournalEntry */
  function RestoreEntry(r: Restored, e: Entry): Option<Restored> {
    match RestorePackage(r, e)
    case None => None
    case Some(u) => RestoreRows(u, e.rows)
  }

  function RestoreAll(r: Restored, journal: seq<Entry>): Option<Restored> {
    if journal == [] then Some(r) else
    match RestoreAll(r, journal[..|journal| - 1])
    case None => None
    case Some(u) => RestoreEntry(u, journal[|journal| - 1])
  }

  function RowIds(files: map<nat, Row>, h: Hash): set<nat> {
    set id | id in files && files[id].file.blob == h
  }

  function RowCount(files: map<nat, Row>, h: Hash): nat {
    |RowIds(files, h)|
  }

  /** RecomputeRefCounts */
  function Recount(r: Restored): Restored {
    r.(blobs := map h | h in r.blobs :: r.blobs[h].(ref := RowCount(r.files, h)))
  }

  function RebuildTables(index: seq<IndexEntry>, journal: seq<Entry>): Option<Restored> {
    match RestoreAll(Restored(UpsertAll(index), map[], map[]), journal)
    case None => None
    case Some(r) => Some(Recount(r))
  }

  /** restoreJournalEntry: the package, then its files one by one; the first error ends it. */
  method RestoreJournalEntry(r: Restored, e: Entry) returns (u: Option<Restored>)
    ensures u == RestoreEntry(r, e)
  {
    u := RestorePackage(r, e);
    if u == None { return; }
    ghost var mid := u.value;
    for i := 0 to |e.rows|
      invariant u.Some? && u == RestoreRows(mid, e.rows[..i])
    {
      assert e.rows[..i + 1][..i] == e.rows[..i];
      u := RestoreRow(u.value, e.rows[i]);
      if u == None {
        RowsStop(mid, e.rows, i + 1);
        return;
      }
    }
    assert e.rows[..|e.rows|] == e.rows;
  }

  lemma {:induction false} RowsStop(r: Restored, rows: seq<Row>, n: nat)
    requires n <= |rows| && RestoreRows(r, rows[..n]) == None
    ensures RestoreRows(r, rows) == None
  {
    if n < |rows| {
      var m := |rows| - 1;
      assert rows[..m][..n] == rows[..n];
      RowsStop(r, rows[..m], n);
    } else {
      assert rows[..n] == rows;
    }
  }

  /** Rebuild on emptied tables: the .idx files in name order, then the journal, then the counts. */
  method RebuildFrom(idxFiles: seq<seq<IndexEntry>>, journal: seq<Entry>) returns (r: Option<Restored>)
    ensures r == RebuildTables(Concat(idxFiles), journal)
  {
    hide Upsert, RestoreEntry, Recount;
    var blobs: map<Hash, Blob> := map[];
    for i := 0 to |idxFiles|
      invariant blobs == UpsertAll(Concat(idxFiles[..i]))
    {
      ConcatSnoc(idxFiles, i);
      var entries := idxFiles[i];
      ghost var before := Concat(idxFiles[..i]);
      assert before + entries[..0] == before;
      for j := 0 to |entries|
        invariant blobs == UpsertAll(before + entries[..j])
      {
        assert (before + entries[..j + 1])[..|before| + j] == before + entries[..j];
        blobs := Upsert(blobs, entries[j]);
      }
      assert entries[..|entries|] == entries;
    }
    assert idxFiles[..|idxFiles|] == idxFiles;
    var out := Restored(blobs, map[], map[]);
    ghost var start := out;
    for i := 0 to |journal|
      invariant RestoreAll(start, journal[..i]) == Some(out)
    {
      assert journal[..i + 1][..i] == journal[..i];
      var next := RestoreJournalEntry(out, journal[i]);
      if next == None {
        RestoreStops(start, journal, i + 1);
        return None;
      }
      out := next.value;
    }
    assert journal[..|journal|] == journal;
    r := Some(Recount(out));
  }

  function Concat(files: seq<seq<IndexEntry>>): seq<IndexEntry> {
    if files == [] then [] else Concat(files[..|files| - 1]) + files[|files| - 1]
  }

  lemma ConcatSnoc(files: seq<seq<IndexEntry>>, i: nat)
    requires i < |files|
    ensures Concat(files[..i + 1]) == Concat(files[..i]) + files[i]
  {
    assert files[..i + 1][..i] == files[..i];
  }

  lemma {:induction false} RestoreStops(r: Restored, journal: seq<Entry>, n: nat)
    requires n <= |journal| && RestoreAll(r, journal[..n]) == None
    ensures RestoreAll(r, journal) == None
  {
    hide RestoreEntry;
    if n < |journal| {
      var m := |journal| - 1;
      assert journal[..m][..n] == journal[..n];
      RestoreStops(r, journal[..m], n);
    } else {
      assert journal[..n] == journal;
    }
  }

  // ---- what comes back ----

  /** Blobs: every hash of the sidecars, each at its last entry. */
  lemma {:induction false} UpsertsAreLastEntries(index: seq<IndexEntry>, h: Hash)
    ensures h in UpsertAll(index) <==> LastEntry(index, h).Some?
    ensures h in UpsertAll(index) ==>
      var b := UpsertAll(index)[h]; var p := LastEntry(index, h).value;
      b.segment == p.segment && b.offset == p.offset && b.size == p.size && b.stored == if p.stored == 0 then p.size else p.stored
  {
    if index != [] { UpsertsAreLastEntries(index[..|index| - 1], h); }
  }

  lemma {:induction false} RowsKeepBlobs(r: Restored, rows: seq<Row>)
    ensures RestoreRows(r, rows).Some? ==> RestoreRows(r, rows).value.blobs == r.blobs
  {
    if rows != [] { RowsKeepBlobs(r, rows[..|rows| - 1]); }
  }

  lemma {:induction false} ReplayKeepsBlobs(r: Restored, journal: seq<Entry>)
    ensures RestoreAll(r, journal).Some? ==> RestoreAll(r, journal).value.blobs == r.blobs
  {
    hide RestoreRows;
    if journal != [] {
      var n := |journal| - 1;
      ReplayKeepsBlobs(r, journal[..n]);
      var u := RestoreAll(r, journal[..n]);
      if u.Some? && RestorePackage(u.value, journal[n]).Some? {
        RowsKeepBlobs(RestorePackage(u.value, journal[n]).value, journal[n].rows);
      }
    }
  }

  /** Whatever the journal holds, each rebuilt blob lies at its last entry and counts its restored rows. */
  lemma RebuiltBlob(index: seq<IndexEntry>, journal: seq<Entry>, h: Hash)
    requires RebuildTables(index, journal).Some?
    ensures var r := RebuildTables(index, journal).value;
      && (h in r.blobs <==> LastEntry(index, h).Some?)
      && (h in r.blobs ==>
           var p := LastEntry(index, h).value;
           r.blobs[h] == Blob(p.size, if p.stored == 0 then p.size else p.stored, p.segment, p.offset, RowCount(r.files, h)))
  {
    hide RestoreAll, UpsertAll, LastEntry;
    ReplayKeepsBlobs(Restored(UpsertAll(index), map[], map[]), journal);
    UpsertsAreLastEntries(index, h);
  }

  function Last(journal: seq<Entry>, p: nat): Option<Entry> {
    if journal == [] then None else
    var n := |journal| - 1;
    if journal[n].id == p then Some(journal[n]) else Last(journal[..n], p)
  }

  predicate RowIn(journal: seq<Entry>, row: Row) {
    exists i :: 0 <= i < |journal| && row in journal[i].rows
  }

  /** Rows are told apart by id, and belong to the package of their entry. */
  ghost predicate Coherent(journal: seq<Entry>) {
    && (forall r, s :: RowIn(journal, r) && RowIn(journal, s) && r.id == s.id ==> r == s)
    && (forall i, r :: 0 <= i < |journal| && r in journal[i].rows ==> r.pkg == journal[i].id)
  }

  /** Some line of package `p` holds the row. */
  ghost predicate InLine(journal: seq<Entry>, p: nat, row: Row) {
    exists i :: 0 <= i < |journal| && journal[i].id == p && row in journal[i].rows
  }

  /** The restored file rows are exactly the journaled ones. */
  ghost predicate FilesAre(files: map<nat, Row>, journal: seq<Entry>) {
    && (forall id :: id in files ==> files[id].id == id && RowIn(journal, files[id]))
    && (forall r :: RowIn(journal, r) ==> r.id in files && files[r.id] == r)
  }

  /** `u` is `r` with `rows` put into package_files, each over whatever had its id. */
  ghost predicate PutIn(r: Restored, u: Restored, rows: seq<Row>) {
    && u.pkgs == r.pkgs && u.blobs == r.blobs
    && (forall x :: x in rows ==> x.id in u.files && u.files[x.id] == x)
    && (forall id :: id in u.files ==> (id in r.files && u.files[id] == r.files[id]) || (u.files[id] in rows && u.files[id].id == id))
    && (forall id :: id in r.files && (forall x :: x in rows ==> x.id != id) ==> id in u.files && u.files[id] == r.files[id])
  }

  ghost predicate IdsDiffer(rows: seq<Row>) {
    forall x, y :: x in rows && y in rows && x.id == y.id ==> x == y
  }

  lemma PutInSnoc(r: Restored, u: Restored, rows: seq<Row>, row: Row)
    requires PutIn(r, u, rows) && IdsDiffer(rows + [row])
    ensures PutIn(r, u.(files := u.files[row.id := row]), rows + [row])
  {
    assert forall x :: x in rows + [row] <==> x in rows || x == row;
  }

  lemma {:induction false} RowsRestored(r: Restored, rows: seq<Row>)
    requires IdsDiffer(rows)
    ensures var u := RestoreRows(r, rows); u.Some? ==> PutIn(r, u.value, rows)
  {
    hide Bumps;
    if rows != [] {
      hide PutIn;
      var n := |rows| - 1;
      assert forall x :: x in rows[..n] ==> x in rows;
      assert rows == rows[..n] + [rows[n]];
      RowsRestored(r, rows[..n]);
      var u := RestoreRows(r, rows[..n]);
      if u.Some? { PutInSnoc(r, u.value, rows[..n], rows[n]); }
    }
  }

  lemma RowInSnoc(journal: seq<Entry>, n: nat, row: Row)
    requires n < |journal|
    ensures RowIn(journal[..n + 1], row) <==> RowIn(journal[..n], row) || row in journal[n].rows
  {
  }

  lemma CoherentPrefix(journal: seq<Entry>, n: nat)
    requires Coherent(journal) && n <= |journal|
    ensures Coherent(journal[..n])
  {
  }

  lemma RowInLater(journal: seq<Entry>, n: nat, row: Row)
    requires n <= |journal| && RowIn(journal[..n], row)
    ensures RowIn(journal, row)
  {
    var i :| 0 <= i < n && row in journal[..n][i].rows;
    assert journal[i] == journal[..n][i];
  }

  lemma EntryRestored(r: Restored, journal: seq<Entry>, n: nat)
    requires n < |journal| && Coherent(journal) && FilesAre(r.files, journal[..n]) && RestoreEntry(r, journal[n]).Some?
    ensures FilesAre(RestoreEntry(r, journal[n]).value.files, journal[..n + 1])
  {
    hide RestoreRows;
    var e := journal[n];
    forall x | x in e.rows ensures RowIn(journal, x) { assert journal[n] == e; }
    RowsRestored(RestorePackage(r, e).value, e.rows);
    var u := RestoreEntry(r, e).value;
    hide RowIn, RestoreEntry;
    forall x: Row ensures RowIn(journal[..n + 1], x) <==> RowIn(journal[..n], x) || x in e.rows { RowInSnoc(journal, n, x); }
    forall x | RowIn(journal[..n], x) ensures RowIn(journal, x) { RowInLater(journal, n, x); }
    forall x | RowIn(journal[..n + 1], x) ensures x.id in u.files && u.files[x.id] == x {
      if x !in e.rows {
        assert forall y :: y in e.rows && y.id == x.id ==> y == x;
      }
    }
  }

  /** After the journal is replayed: each journaled package as last written, with all its rows. */
  lemma {:induction false} ReplayRestores(r0: Restored, journal: seq<Entry>)
    requires r0.pkgs == map[] && r0.files == map[] && Coherent(journal)
    ensures var r := RestoreAll(r0, journal);
      r.Some? ==>
        && r.value.blobs == r0.blobs && FilesAre(r.value.files, journal)
        && (forall p :: p in r.value.pkgs <==> Last(journal, p).Some?)
        && (forall p :: p in r.value.pkgs ==> r.value.pkgs[p] == Last(journal, p).value.pkg)
  {
    hide RestoreRows, FilesAre;
    if journal == [] {
      assert FilesAre(map[], []) by { NoFiles(); }
    } else {
      var n := |journal| - 1;
      CoherentPrefix(journal, n);
      ReplayRestores(r0, journal[..n]);
      var r := RestoreAll(r0, journal[..n]);
      if r.Some? && RestoreEntry(r.value, journal[n]).Some? {
        EntryRestored(r.value, journal, n);
        assert journal[..n + 1] == journal;
        EntryPackages(r.value, journal[n], journal);
      }
    }
  }

  lemma NoFiles()
    ensures FilesAre(map[], [])
  {
  }

  lemma EntryPackages(r: Restored, e: Entry, journal: seq<Entry>)
    requires RestoreEntry(r, e).Some? && Coherent(journal) && journal != [] && journal[|journal| - 1] == e
    ensures var u := RestoreEntry(r, e).value; u.pkgs == r.pkgs[e.id := e.pkg] && u.blobs == r.blobs
  {
    hide RestoreRows;
    forall x | x in e.rows ensures RowIn(journal, x) { assert journal[|journal| - 1] == e; }
    RowsRestored(RestorePackage(r, e).value, e.rows);
  }

  /** The rows of one restored package are those of all its lines together. */
  lemma LinesTogether(files: map<nat, Row>, journal: seq<Entry>, p: nat, row: Row)
    requires FilesAre(files, journal) && Coherent(journal)
    ensures row.id in files && files[row.id] == row && row.pkg == p <==> InLine(journal, p, row)
  {
    if InLine(journal, p, row) {
      var i :| 0 <= i < |journal| && journal[i].id == p && row in journal[i].rows;
      assert RowIn(journal, row);
    }
    if row.id in files && files[row.id] == row && row.pkg == p {
      assert RowIn(journal, row);
      var i :| 0 <= i < |journal| && row in journal[i].rows;
      assert journal[i].id == p;
    }
  }

  lemma {:induction false} LastIsEntry(journal: seq<Entry>, p: nat)
    requires Last(journal, p).Some?
    ensures exists k :: 0 <= k < |journal| && journal[k] == Last(journal, p).value && journal[k].id == p && forall j :: k < j < |journal| ==> journal[j].id != p
  {
    var n := |journal| - 1;
    if journal[n].id == p {
      assert journal[n] == Last(journal, p).value;
    } else {
      LastIsEntry(journal[..n], p);
      var k :| 0 <= k < n && journal[..n][k] == Last(journal[..n], p).value && journal[..n][k].id == p && forall j :: k < j < n ==> journal[..n][j].id != p;
      assert journal[k] == Last(journal, p).value;
      forall j | k < j < |journal| ensures journal[j].id != p {
        if j < n { assert journal[..n][j].id != p; }
      }
    }
  }

  // ---- when it succeeds ----

  /** Every clone's canonical was journaled before it, and every row's blob is in the sidecars. */
  predicate Closed(blobs: set<Hash>, journal: seq<Entry>) {
    forall i :: 0 <= i < |journal| ==> EntryClosed(blobs, journal[..i], journal[i])
  }

  predicate EntryClosed(blobs: set<Hash>, before: seq<Entry>, e: Entry) {
    && (e.pkg.canonical.Some? ==> Last(before, e.pkg.canonical.value).Some?)
    && (forall j :: 0 <= j < |e.rows| ==> e.rows[j].file.blob in blobs)
  }

  /** No two journaled rows get in each other's way. */
  ghost predicate Apart(journal: seq<Entry>) {
    forall r, s :: RowIn(journal, r) && RowIn(journal, s) ==> !Bumps(r, s)
  }

  ghost predicate Within(files: map<nat, Row>, journal: seq<Entry>) {
    forall id :: id in files ==> RowIn(journal, files[id])
  }

  lemma {:induction false} RowsSucceed(r: Restored, rows: seq<Row>, p: nat, journal: seq<Entry>)
    requires p in r.pkgs && Apart(journal) && Within(r.files, journal)
    requires forall j :: 0 <= j < |rows| ==> rows[j].pkg == p && RowIn(journal, rows[j])
    ensures RestoreRows(r, rows).Some? <==> forall j :: 0 <= j < |rows| ==> rows[j].file.blob in r.blobs
    ensures RestoreRows(r, rows).Some? ==>
      var u := RestoreRows(r, rows).value; u.pkgs == r.pkgs && u.blobs == r.blobs && Within(u.files, journal)
  {
    hide RowIn, Bumps;
    if rows != [] {
      var n := |rows| - 1;
      assert forall j :: 0 <= j < n ==> rows[..n][j] == rows[j];
      RowsSucceed(r, rows[..n], p, journal);
      var u := RestoreRows(r, rows[..n]);
      if u.Some? {
        forall id | id in u.value.files ensures !Bumps(u.value.files[id], rows[n]) {
          assert RowIn(journal, u.value.files[id]) && RowIn(journal, rows[n]);
        }
      }
    }
  }

  lemma ClosedSnoc(blobs: set<Hash>, journal: seq<Entry>)
    requires journal != []
    ensures var n := |journal| - 1;
      Closed(blobs, journal) <==> Closed(blobs, journal[..n]) && EntryClosed(blobs, journal[..n], journal[n])
  {
    var n := |journal| - 1;
    var p := journal[..n];
    assert forall i :: 0 <= i < n ==> p[..i] == journal[..i] && p[i] == journal[i];
  }

  predicate OwnRows(journal: seq<Entry>) {
    forall i, j :: 0 <= i < |journal| && 0 <= j < |journal[i].rows| ==> journal[i].rows[j].pkg == journal[i].id
  }

  lemma OwnRowsPrefix(journal: seq<Entry>, n: nat)
    requires OwnRows(journal) && Apart(journal) && n <= |journal|
    ensures OwnRows(journal[..n]) && Apart(journal[..n])
    ensures forall row :: RowIn(journal[..n], row) ==> RowIn(journal, row)
  {
  }

  lemma EntrySucceeds(r: Restored, journal: seq<Entry>, n: nat)
    requires n < |journal| && OwnRows(journal) && Apart(journal) && Within(r.files, journal)
    requires forall p :: p in r.pkgs <==> Last(journal[..n], p).Some?
    ensures var e := journal[n]; var u := RestoreEntry(r, e);
      && (u.Some? <==> EntryClosed(r.blobs.Keys, journal[..n], e))
      && (u.Some? ==> u.value.blobs == r.blobs && u.value.pkgs == r.pkgs[e.id := e.pkg] && Within(u.value.files, journal))
  {
    hide RestoreRows, Last, Apart;
    var e := journal[n];
    var mid := RestorePackage(r, e);
    if mid.Some? {
      forall j | 0 <= j < |e.rows| ensures e.rows[j].pkg == e.id && RowIn(journal, e.rows[j]) {
        assert journal[n].rows[j] in journal[n].rows;
      }
      RowsSucceed(mid.value, e.rows, e.id, journal);
    }
  }

  /** Rebuild gets through exactly when the journal is closed over itself and the sidecars. */
  lemma {:induction false} ReplaySucceedsIffClosed(r0: Restored, journal: seq<Entry>)
    requires r0.pkgs == map[] && r0.files == map[] && OwnRows(journal) && Apart(journal)
    ensures RestoreAll(r0, journal).Some? <==> Closed(r0.blobs.Keys, journal)
    ensures RestoreAll(r0, journal).Some? ==>
      var r := RestoreAll(r0, journal).value;
      r.blobs == r0.blobs && Within(r.files, journal) && forall p :: p in r.pkgs <==> Last(journal, p).Some?
  {
    hide RestoreEntry, Closed, EntryClosed, RowIn, Bumps;
    if journal == [] {
      assert Closed(r0.blobs.Keys, []) by { EmptyClosed(r0.blobs.Keys); }
    } else {
      var n := |journal| - 1;
      OwnRowsPrefix(journal, n);
      ReplaySucceedsIffClosed(r0, journal[..n]);
      ClosedSnoc(r0.blobs.Keys, journal);
      var r := RestoreAll(r0, journal[..n]);
      if r.Some? { EntrySucceeds(r.value, journal, n); }
    }
  }

  lemma EmptyClosed(blobs: set<Hash>)
    ensures Closed(blobs, [])
  {
  }

  lemma RebuildSucceedsIffClosed(index: seq<IndexEntry>, journal: seq<Entry>)
    requires OwnRows(journal) && Apart(journal)
    ensures RebuildTables(index, journal).Some? <==> Closed(UpsertAll(index).Keys, journal)
  {
    hide UpsertAll, RestoreAll, Closed, Apart;
    ReplaySucceedsIffClosed(Restored(UpsertAll(index), map[], map[]), journal);
  }
}
