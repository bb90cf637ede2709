/**
 What Rebuild makes of a run: on which runs it succeeds, which packages come back as they are, and
 which come back as an earlier snapshot.
 */
module RebuildLive {
  import opened Bytes
  import opened Metadata
  import opened Ingestion
  import opened IngestRuns
  import opened CloneRuns
  import opened Mirror
  import opened MirrorRuns
  import opened Commits
  import opened Archive
  import opened IngestEffects
  import opened BlobStore
  import opened Rebuild
  import opened RebuildRuns

  // ---- a change of a package is its unpacking ----

  lemma {:induction false} IdRowsGrow(files: seq<Row>, more: seq<Row>, p: nat)
    requires files <= more
    ensures IdRows(files, p) <= IdRows(more, p)
  {
    if |files| < |more| {
      IdRowsGrow(files, more[..|more| - 1], p);
    } else {
      assert files == more;
    }
  }

  lemma {:induction false} RowsMatch(files: seq<Row>, p: nat)
    ensures |IdRows(files, p)| == |RowsOf(files, p)|
    ensures forall i :: 0 <= i < |IdRows(files, p)| ==> IdRows(files, p)[i].file == RowsOf(files, p)[i]
  {
    if files != [] { RowsMatch(files[..|files| - 1], p); }
  }

  lemma SameRowsSameIds(t: Tables, u: Tables, p: nat)
    requires t.files <= u.files && RowsOf(u.files, p) == RowsOf(t.files, p)
    ensures IdRows(u.files, p) == IdRows(t.files, p)
  {
    hide IdRows, RowsOf;
    IdRowsGrow(t.files, u.files, p);
    RowsMatch(t.files, p);
    RowsMatch(u.files, p);
  }

  /** A transaction leaves an existing package alone or takes it from raw_large to unpacked. */
  lemma ChangedEmerges(sha: Sha, st: State, s: IngestRuns.Step, p: nat)
    requires Fine(st) && p in st.db.t.pkgs
    ensures var t, u := st.db.t, IngestRuns.Exec(sha, st, s).db.t;
      && p in u.pkgs && (Unchanged(t, u, p) || Emerges(t, u, p)) && u.pkgs[p].canonical == t.pkgs[p].canonical
      && (t.pkgs[p].mode == ZipWithMembers ==> u.pkgs[p].mode == ZipWithMembers)
  {
    hide IngestRuns.Exec, Fine, WellShaped, RowsOf, IdRows;
    StepDid(sha, st, s);
    StepGrows(sha, st, s);
    var t, u := st.db.t, IngestRuns.Exec(sha, st, s).db.t;
    DidForward(t, u, EffectOf(t, u, s));
    if !Emerges(t, u, p) {
      assert RowsOf(u.files, p) == RowsOf(t.files, p);
      SameRowsSameIds(t, u, p);
    }
  }

  /** The line was read while the package was raw_large, and it has been unpacked since. */
  predicate Outdated(t: Tables, e: Entry) {
    e.id in t.pkgs && e.pkg.mode == RawLarge && t.pkgs[e.id].mode == ZipWithMembers
  }

  ghost predicate StaleIsOutdated(l: Live) {
    && (forall p :: p in l.dirty && Last(l.journal, p).Some? ==> Outdated(l.st.db.t, Last(l.journal, p).value))
    && (forall x :: x in l.loaded && x in l.stale ==> Outdated(l.st.db.t, l.loaded[x]))
    && (forall x :: x in l.loaded ==> l.loaded[x].id in l.st.db.t.pkgs && l.loaded[x].pkg.canonical == l.st.db.t.pkgs[l.loaded[x].id].canonical)
  }

  lemma LastHasId(journal: seq<Entry>, p: nat)
    requires Last(journal, p).Some?
    ensures Last(journal, p).value.id == p && Last(journal, p).value in journal
  {
    LastIsEntry(journal, p);
  }

  lemma TxOutdates(sha: Sha, l: Live, s: IngestRuns.Step)
    requires LiveInv(l) && Fine(l.st) && StaleIsOutdated(l)
    ensures StaleIsOutdated(ExecLive(sha, l, Tx(s)))
  {
    hide IngestRuns.Exec, IdRows, Last, Fine, IdsOk, RowsApart;
    var m := ExecLive(sha, l, Tx(s));
    var t, u := l.st.db.t, m.st.db.t;
    forall p | p in t.pkgs
      ensures p in u.pkgs && (Unchanged(t, u, p) || Emerges(t, u, p)) && u.pkgs[p].canonical == t.pkgs[p].canonical
      ensures t.pkgs[p].mode == ZipWithMembers ==> u.pkgs[p].mode == ZipWithMembers
    {
      ChangedEmerges(sha, l.st, s, p);
    }
    forall p | p in m.dirty && Last(m.journal, p).Some? ensures Outdated(u, Last(m.journal, p).value) {
      LastHasId(l.journal, p);
      LineOfLast(l, p);
    }
  }

  lemma LineOfLast(l: Live, p: nat)
    requires LiveInv(l) && Last(l.journal, p).Some?
    ensures p in l.st.db.t.pkgs && (p !in l.dirty ==> Last(l.journal, p).value == LineOf(l.st.db.t, p))
  {
    hide IdRows, IdsOk, RowsApart, Last;
    LastHasId(l.journal, p);
  }

  lemma LoadOutdates(sha: Sha, l: Live, x: nat, p: nat)
    requires StaleIsOutdated(l)
    ensures StaleIsOutdated(ExecLive(sha, l, LoadLine(x, p)))
  {
    hide IdRows, Last;
  }

  lemma AppendOutdates(sha: Sha, l: Live, x: nat)
    requires StaleIsOutdated(l)
    ensures StaleIsOutdated(ExecLive(sha, l, AppendLine(x)))
  {
    hide IdRows, Last, Outdated;
    if x in l.loaded {
      var e := l.loaded[x];
      var m := ExecLive(sha, l, AppendLine(x));
      forall q: nat ensures Last(m.journal, q) == if e.id == q then Some(e) else Last(l.journal, q) { LastOfSnoc(l.journal, e, q); }
    }
  }

  lemma {:induction false} LiveOutdates(sha: Sha, steps: seq<LiveStep>)
    ensures StaleIsOutdated(RunLive(sha, steps))
  {
    hide ExecLive, Outdated;
    if steps != [] {
      hide StaleIsOutdated;
      var n := |steps| - 1;
      LiveOutdates(sha, steps[..n]);
      LiveKeeps(sha, steps[..n]);
      LiveFine(sha, steps[..n]);
      var l := RunLive(sha, steps[..n]);
      match steps[n]
      case Tx(s) => TxOutdates(sha, l, s);
      case LoadLine(x, p) => LoadOutdates(sha, l, x, p);
      case AppendLine(x) => AppendOutdates(sha, l, x);
    }
  }

  // ---- which packages come back as they are ----

  /** Restored with exactly the live columns and rows. */
  ghost predicate Intact(r: Restored, t: Tables, p: nat) {
    && p in r.pkgs && p in t.pkgs && r.pkgs[p] == t.pkgs[p]
    && forall row :: row in RestoredRows(r, p) <==> row in t.files && row.pkg == p
  }

  /** Lines only ever hold live rows; a line read after the last change holds them all. */
  lemma LinesAgainstLive(l: Live, p: nat)
    requires LiveInv(l) && p in l.st.db.t.pkgs
    ensures forall row :: InLine(l.journal, p, row) ==> row in l.st.db.t.files && row.pkg == p
    ensures p !in l.dirty ==> forall row :: row in l.st.db.t.files && row.pkg == p ==> InLine(l.journal, p, row)
  {
    hide IdRows, IdsOk, RowsApart, Last;
    if p !in l.dirty {
      LastHasId(l.journal, p);
      forall row ensures row in LineOf(l.st.db.t, p).rows <==> row in l.st.db.t.files && row.pkg == p { IdRowsMember(l.st.db.t.files, p, row); }
      var i :| 0 <= i < |l.journal| && l.journal[i] == Last(l.journal, p).value;
      assert l.journal[i].id == p;
    }
  }

  /**
   For every run, whatever happens between reading a line and appending it: a journaled package comes back
   with its live columns and rows exactly when the line appended last was read after its last
   change. Otherwise it comes back raw_large although it has been unpacked.
   */
  lemma IntactIffLastLineCurrent(sha: Sha, steps: seq<LiveStep>, index: seq<IndexEntry>, p: nat)
    requires RebuildTables(index, RunLive(sha, steps).journal).Some? && Last(RunLive(sha, steps).journal, p).Some?
    ensures var l := RunLive(sha, steps); var r := RebuildTables(index, l.journal).value;
      && p in l.st.db.t.pkgs && p in r.pkgs
      && (Intact(r, l.st.db.t, p) <==> p !in l.dirty)
      && (p in l.dirty ==> r.pkgs[p].mode == RawLarge && l.st.db.t.pkgs[p].mode == ZipWithMembers)
  {
    hide RunLive, Last, RebuildTables, IdRows, RestoredRows, InLine, FilesAre, LiveInv;
    RestoresLines(sha, steps, index);
    LiveOutdates(sha, steps);
    LiveKeeps(sha, steps);
    var l := RunLive(sha, steps);
    LineOfLast(l, p);
    LastHasId(l.journal, p);
    LinesAgainstLive(l, p);
  }

  lemma LineHolds(journal: seq<Entry>, i: nat, p: nat, row: Row)
    requires i < |journal| && journal[i].id == p && row in journal[i].rows
    ensures InLine(journal, p, row)
  {
  }

  lemma RaceStates(sha: Sha, steps: seq<LiveStep>, race: seq<LiveStep>)
    requires |race| == 5
    ensures RunLive(sha, steps + race) ==
      ExecLive(sha, ExecLive(sha, ExecLive(sha, ExecLive(sha, ExecLive(sha, RunLive(sha, steps), race[0]), race[1]), race[2]), race[3]), race[4])
  {
    hide ExecLive, RunLive;
    RunSnoc(sha, steps, race[0]);
    RunSnoc(sha, steps + [race[0]], race[1]);
    RunSnoc(sha, steps + [race[0]] + [race[1]], race[2]);
    RunSnoc(sha, steps + [race[0]] + [race[1]] + [race[2]], race[3]);
    RunSnoc(sha, steps + [race[0]] + [race[1]] + [race[2]] + [race[3]], race[4]);
    assert steps + race == steps + [race[0]] + [race[1]] + [race[2]] + [race[3]] + [race[4]];
  }

  lemma RunSnoc(sha: Sha, steps: seq<LiveStep>, s: LiveStep)
    ensures RunLive(sha, steps + [s]) == ExecLive(sha, RunLive(sha, steps), s)
  {
    hide ExecLive;
    assert (steps + [s])[..|steps|] == steps;
  }

  lemma RaceJournal(sha: Sha, l: Live, p: nat, items: seq<Item>, errStore: Ingestion.Store, x: nat, y: nat)
    requires p in l.st.db.t.pkgs && x != y && p in IngestRuns.Exec(sha, l.st, Unpack(p, items, errStore)).db.t.pkgs
    ensures var l2 := ExecLive(sha, ExecLive(sha, l, LoadLine(x, p)), Tx(Unpack(p, items, errStore)));
      var end := ExecLive(sha, ExecLive(sha, ExecLive(sha, l2, LoadLine(y, p)), AppendLine(y)), AppendLine(x));
      && end.st == IngestRuns.Exec(sha, l.st, Unpack(p, items, errStore)) && p in end.st.db.t.pkgs
      && end.journal == l.journal + [LineOf(end.st.db.t, p)] + [LineOf(l.st.db.t, p)]
  {
    hide IngestRuns.Exec, IdRows, Changed;
  }

  // ---- on which runs it succeeds ----

  predicate CanonicalsFirst(journal: seq<Entry>) {
    forall i :: 0 <= i < |journal| && journal[i].pkg.canonical.Some? ==> Last(journal[..i], journal[i].pkg.canonical.value).Some?
  }

  predicate Creates(sha: Sha, l: Live, step: LiveStep, p: nat) {
    p !in l.st.db.t.pkgs && p in ExecLive(sha, l, step).st.db.t.pkgs
  }

  /** Each request reads and appends the line of the package it created before anything else happens. */
  ghost predicate Sequential(sha: Sha, steps: seq<LiveStep>) {
    forall i: nat, p: nat :: i < |steps| && Creates(sha, RunLive(sha, steps[..i]), steps[i], p) ==>
      && (i + 1 < |steps| ==> steps[i + 1].LoadLine? && steps[i + 1].pkg == p)
      && (i + 2 < |steps| ==> steps[i + 2] == AppendLine(steps[i + 1].ticket))
  }

  /** Only the package `open` may still be missing from the journal. */
  ghost predicate AllJournaledBut(l: Live, open: Option<nat>) {
    forall p: nat :: p in l.st.db.t.pkgs && Last(l.journal, p) == None ==> open == Some(p)
  }

  lemma SequentialPrefix(sha: Sha, steps: seq<LiveStep>, n: nat)
    requires Sequential(sha, steps) && n <= |steps|
    ensures Sequential(sha, steps[..n])
  {
    hide Creates, RunLive;
    forall i: nat, p: nat | i < n && Creates(sha, RunLive(sha, steps[..n][..i]), steps[..n][i], p)
      ensures (i + 1 < n ==> steps[..n][i + 1].LoadLine? && steps[..n][i + 1].pkg == p)
        && (i + 2 < n ==> steps[..n][i + 2] == AppendLine(steps[..n][i + 1].ticket))
    {
      assert steps[..n][..i] == steps[..i];
    }
  }

  /** A transaction creates at most one package and takes none away. */
  lemma CreatesOne(sha: Sha, l: Live, s: IngestRuns.Step) returns (open: Option<nat>)
    requires Fine(l.st)
    ensures forall p: nat :: Creates(sha, l, Tx(s), p) <==> open == Some(p)
    ensures ExecLive(sha, l, Tx(s)).journal == l.journal
  {
    hide IngestRuns.Exec, Fine, WellShaped, IdRows, RowsOf, Changed;
    var t, u := l.st.db.t, IngestRuns.Exec(sha, l.st, s).db.t;
    StepDid(sha, l.st, s);
    var e := EffectOf(t, u, s);
    DidForward(t, u, e);
    open := if e.Created? then Some(e.id) else None;
  }

  lemma CanonicalsFirstSnoc(journal: seq<Entry>, e: Entry)
    requires CanonicalsFirst(journal) && (e.pkg.canonical.Some? ==> Last(journal, e.pkg.canonical.value).Some?)
    ensures CanonicalsFirst(journal + [e])
  {
    var all := journal + [e];
    assert forall i :: 0 <= i < |journal| ==> all[i] == journal[i] && all[..i] == journal[..i];
    assert all[..|journal|] == journal;
  }

  /** Appending a line when all other packages are journaled keeps every canonical before its clones. */
  lemma AppendInOrder(sha: Sha, l: Live, x: nat, open: Option<nat>)
    requires Fine(l.st) && StaleIsOutdated(l) && CanonicalsFirst(l.journal) && AllJournaledBut(l, open)
    requires x in l.loaded && (open.Some? ==> open.value == l.loaded[x].id)
    ensures var m := ExecLive(sha, l, AppendLine(x)); CanonicalsFirst(m.journal) && AllJournaledBut(m, None) && m.st == l.st
  {
    hide IdRows, Last, WellShaped, Fits, CanonicalsFirst, Outdated;
    FineParts(l.st);
    var e := l.loaded[x];
    if e.pkg.canonical.Some? { CloneAt(l.st.db.t, e.id, e.pkg.canonical.value); }
    CanonicalsFirstSnoc(l.journal, e);
    var m := ExecLive(sha, l, AppendLine(x));
    forall q: nat ensures Last(m.journal, q) == if e.id == q then Some(e) else Last(l.journal, q) { LastOfSnoc(l.journal, e, q); }
  }

  /** Where a sequential run stands: nothing open; a package created; its line read under `ticket`. */
  datatype Phase = Idle | Made(p: nat) | Loaded(p: nat, ticket: nat)

  function OpenOf(ph: Phase): Option<nat> {
    match ph
    case Idle => None
    case Made(p) => Some(p)
    case Loaded(p, _) => Some(p)
  }

  ghost predicate Stands(sha: Sha, steps: seq<LiveStep>, ph: Phase) {
    var l, n := RunLive(sha, steps), |steps|;
    && AllJournaledBut(l, OpenOf(ph))
    && match ph
       case Idle => true
       case Made(p) => n >= 1 && Creates(sha, RunLive(sha, steps[..n - 1]), steps[n - 1], p)
       case Loaded(p, x) =>
         && n >= 2 && Creates(sha, RunLive(sha, steps[..n - 2]), steps[n - 2], p)
         && steps[n - 1] == LoadLine(x, p) && x in l.loaded && l.loaded[x].id == p
  }

  lemma LoadStands(sha: Sha, l: Live, x: nat, p: nat)
    ensures var m := ExecLive(sha, l, LoadLine(x, p));
      && m.st == l.st && m.journal == l.journal
      && (p in l.st.db.t.pkgs ==> x in m.loaded && m.loaded[x].id == p)
  {
    hide IdRows;
  }

  lemma NoLineNoChange(sha: Sha, l: Live, x: nat)
    requires x !in l.loaded
    ensures ExecLive(sha, l, AppendLine(x)) == l
  {
  }

  /** What a run's open package asks of the next step. */
  lemma NextIs(sha: Sha, steps: seq<LiveStep>, ph: Phase)
    requires steps != [] && Sequential(sha, steps) && Stands(sha, steps[..|steps| - 1], ph)
    ensures var s := steps[|steps| - 1];
      match ph
      case Idle => true
      case Made(p) => s.LoadLine? && s.pkg == p && p in RunLive(sha, steps[..|steps| - 1]).st.db.t.pkgs
      case Loaded(p, x) => s == AppendLine(x)
  {
    hide ExecLive;
    var n := |steps| - 1;
    var pre := steps[..n];
    match ph
    case Idle =>
    case Made(p) =>
      assert pre[..n - 1] == steps[..n - 1] && pre[n - 1] == steps[n - 1];
      assert Creates(sha, RunLive(sha, steps[..n - 1]), steps[n - 1], p);
      assert n - 1 + 1 < |steps|;
    case Loaded(p, x) =>
      assert pre[..n - 2] == steps[..n - 2] && pre[n - 2] == steps[n - 2] && pre[n - 1] == steps[n - 1];
      assert Creates(sha, RunLive(sha, steps[..n - 2]), steps[n - 2], p);
      assert n - 2 + 2 < |steps|;
  }

  lemma {:induction false} SequentialInOrder(sha: Sha, steps: seq<LiveStep>) returns (ph: Phase)
    requires Sequential(sha, steps)
    ensures CanonicalsFirst(RunLive(sha, steps).journal) && Stands(sha, steps, ph)
  {
    hide ExecLive, Last, Creates, Fine, CanonicalsFirst, StaleIsOutdated;
    ph := Idle;
    if steps == [] {
      assert CanonicalsFirst([]) by { NothingJournaled(); }
    } else {
      var n := |steps| - 1;
      SequentialPrefix(sha, steps, n);
      var before := SequentialInOrder(sha, steps[..n]);
      NextIs(sha, steps, before);
      var l := RunLive(sha, steps[..n]);
      LiveFine(sha, steps[..n]);
      LiveOutdates(sha, steps[..n]);
      match steps[n]
      case Tx(s) =>
        var open := CreatesOne(sha, l, s);
        TxOpens(sha, l, s, open);
        if open.Some? { ph := Made(open.value); }
      case LoadLine(x, p) =>
        LoadStands(sha, l, x, p);
        if before.Made? {
          assert steps[..n][..n - 1] == steps[..n - 1] && steps[..n][n - 1] == steps[n - 1];
          ph := Loaded(p, x);
        }
      case AppendLine(x) =>
        if x in l.loaded { AppendInOrder(sha, l, x, OpenOf(before)); } else { NoLineNoChange(sha, l, x); }
    }
  }

  lemma NothingJournaled()
    ensures CanonicalsFirst([])
  {
  }

  lemma TxOpens(sha: Sha, l: Live, s: IngestRuns.Step, open: Option<nat>)
    requires AllJournaledBut(l, None) && ExecLive(sha, l, Tx(s)).journal == l.journal
    requires forall p: nat :: Creates(sha, l, Tx(s), p) <==> open == Some(p)
    ensures AllJournaledBut(ExecLive(sha, l, Tx(s)), open)
  {
    hide ExecLive, Last;
  }

  /** Every journaled row is a live row, so its blob exists. */
  lemma JournaledBlobsExist(l: Live, i: nat, j: nat)
    requires LiveInv(l) && Balanced(l.st.db) && i < |l.journal| && j < |l.journal[i].rows|
    ensures l.journal[i].rows[j].file.blob in l.st.db.t.blobs
  {
    hide Balanced, IdRows, Last, CleanIsCurrent, RowsApart, IdsOk;
    var row := l.journal[i].rows[j];
    assert row in l.journal[i].rows;
    var k :| 0 <= k < |l.st.db.t.files| && l.st.db.t.files[k] == row;
    InRowsOf(l.st.db.t.files, row.pkg, k);
    RowBlobExists(l.st.db, row.pkg, row.file);
  }

  /**
   On every run in which each created package is journaled before anything else happens, Rebuild
   succeeds as soon as the sidecars hold the live blobs.
   */
  lemma SequentialRebuildSucceeds(sha: Sha, steps: seq<LiveStep>, index: seq<IndexEntry>)
    requires Sequential(sha, steps) && RunLive(sha, steps).st.db.t.blobs.Keys <= UpsertAll(index).Keys
    ensures RebuildTables(index, RunLive(sha, steps).journal).Some?
  {
    hide RunLive, UpsertAll, RebuildTables;
    var ph := SequentialInOrder(sha, steps);
    InOrderRebuildSucceeds(sha, steps, index);
  }

  /** The order of clones and canonicals in the journal is all that matters beside the blobs. */
  lemma InOrderRebuildSucceeds(sha: Sha, steps: seq<LiveStep>, index: seq<IndexEntry>)
    requires CanonicalsFirst(RunLive(sha, steps).journal) && RunLive(sha, steps).st.db.t.blobs.Keys <= UpsertAll(index).Keys
    ensures RebuildTables(index, RunLive(sha, steps).journal).Some?
  {
    hide RunLive, RebuildTables, UpsertAll, Last, Balanced, Fine, LiveInv;
    var l := RunLive(sha, steps);
    LiveKeeps(sha, steps);
    LiveFine(sha, steps);
    forall i | 0 <= i < |l.journal| ensures EntryClosed(UpsertAll(index).Keys, l.journal[..i], l.journal[i]) {
      forall j | 0 <= j < |l.journal[i].rows| ensures l.journal[i].rows[j].file.blob in l.st.db.t.blobs {
        JournaledBlobsExist(l, i, j);
      }
    }
    LiveRebuildSucceedsIffClosed(sha, steps, index);
  }

  // ---- the older line wins ----

  function Race(p: nat, items: seq<Item>, errStore: Ingestion.Store, x: nat, y: nat): seq<LiveStep> {
    [LoadLine(x, p), Tx(Unpack(p, items, errStore)), LoadLine(y, p), AppendLine(y), AppendLine(x)]
  }

  /**
   The race: an upload reads its line; the worker unpacks the package, reads a line of its own and appends
   it; the upload appends the older line last. Rebuild succeeds and brings the package back raw_large,
   with the rows of the unpacked one, although the current line is in the journal.
   */
  lemma OlderLineWins(sha: Sha, steps: seq<LiveStep>, p: nat, items: seq<Item>, errStore: Ingestion.Store, x: nat, y: nat, index: seq<IndexEntry>)
    requires var st := RunLive(sha, steps).st; Pending(st.db.t, p) && UnpackTx(sha, st.db, p, items, errStore).Some? && x != y
    requires CanonicalsFirst(RunLive(sha, steps).journal)
    requires RunLive(sha, steps + Race(p, items, errStore, x, y)).st.db.t.blobs.Keys <= UpsertAll(index).Keys
    ensures var l := RunLive(sha, steps + Race(p, items, errStore, x, y)); var t := l.st.db.t;
      && p in t.pkgs && t.pkgs[p].mode == ZipWithMembers && LineOf(t, p) in l.journal
      && RebuildTables(index, l.journal).Some?
      && var r := RebuildTables(index, l.journal).value;
      && p in r.pkgs && r.pkgs[p].mode == RawLarge
      && forall row :: row in RestoredRows(r, p) <==> row in t.files && row.pkg == p
  {
    hide RebuildTables, RestoredRows, IdRows, InLine, UnpackTx, FilesAre, LiveInv, Last, RunLive, Race, UpsertAll, CanonicalsFirst;
    var all := steps + Race(p, items, errStore, x, y);
    var l0, l := RunLive(sha, steps), RunLive(sha, all);
    var t := l.st.db.t;
    RaceEnds(sha, steps, p, items, errStore, x, y);
    var e, f := LineOf(l0.st.db.t, p), LineOf(t, p);
    CanonicalsFirstSnoc(l0.journal, f);
    CanonicalsFirstSnoc(l0.journal + [f], e);
    InOrderRebuildSucceeds(sha, all, index);
    LastOfSnoc(l0.journal + [f], e, p);
    RestoresLines(sha, all, index);
    LiveKeeps(sha, all);
    LinesAgainstLive(l, p);
    assert l.journal[|l0.journal|] == f;
    forall row | row in t.files && row.pkg == p ensures InLine(l.journal, p, row) {
      IdRowsMember(t.files, p, row);
      LineHolds(l.journal, |l0.journal|, p, row);
    }
  }

  lemma RaceEnds(sha: Sha, steps: seq<LiveStep>, p: nat, items: seq<Item>, errStore: Ingestion.Store, x: nat, y: nat)
    requires var st := RunLive(sha, steps).st; Pending(st.db.t, p) && UnpackTx(sha, st.db, p, items, errStore).Some? && x != y
    ensures var l0, l := RunLive(sha, steps), RunLive(sha, steps + Race(p, items, errStore, x, y));
      && p in l.st.db.t.pkgs && l.st.db.t.pkgs[p].mode == ZipWithMembers && l.st.db.t.pkgs[p].canonical == None
      && l.journal == l0.journal + [LineOf(l.st.db.t, p)] + [LineOf(l0.st.db.t, p)]
  {
    hide IdRows, UnpackTx, RunLive, ExecLive, RowsOf, WellShaped, Fits;
    var l0 := RunLive(sha, steps);
    RaceStates(sha, steps, Race(p, items, errStore, x, y));
    LiveFine(sha, steps);
    FineParts(l0.st);
    UnpackDid(sha, l0.st.db, p, items, errStore);
    RaceJournal(sha, l0, p, items, errStore, x, y);
  }


  /**
   On those runs: Rebuild succeeds; every package comes back but one whose request the run breaks off in;
   a package comes back with its live columns and rows exactly when the line appended last was
   read after its last change, else raw_large; its rows are those of all its lines; and every
   ref_count is the number of restored rows.
   */
  lemma RebuildReproducesJournaled(sha: Sha, steps: seq<LiveStep>, index: seq<IndexEntry>, p: nat)
    requires Sequential(sha, steps) && RunLive(sha, steps).st.db.t.blobs.Keys <= UpsertAll(index).Keys
    requires p in RunLive(sha, steps).st.db.t.pkgs
    requires |steps| >= 1 ==> !Creates(sha, RunLive(sha, steps[..|steps| - 1]), steps[|steps| - 1], p)
    requires |steps| >= 2 ==> !Creates(sha, RunLive(sha, steps[..|steps| - 2]), steps[|steps| - 2], p)
    ensures var l := RunLive(sha, steps);
      && RebuildTables(index, l.journal).Some?
      && var r := RebuildTables(index, l.journal).value;
      && p in r.pkgs && (Intact(r, l.st.db.t, p) <==> p !in l.dirty) && (p in l.dirty ==> r.pkgs[p].mode == RawLarge)
      && (forall row :: row in RestoredRows(r, p) <==> InLine(l.journal, p, row))
      && (forall h :: h in r.blobs ==> r.blobs[h].ref == RowCount(r.files, h))
  {
    hide RunLive, RebuildTables, UpsertAll, Last, Intact, Creates, RestoredRows, FilesAre, CanonicalsFirst, InLine;
    SequentialRebuildSucceeds(sha, steps, index);
    var ph := SequentialInOrder(sha, steps);
    RestoresLines(sha, steps, index);
    IntactIffLastLineCurrent(sha, steps, index, p);
  }

  // ---- the whole database comes back ----

  predicate Increasing(files: seq<Row>) {
    forall i, j :: 0 <= i < j < |files| ==> files[i].id < files[j].id
  }

  /** package_files as Rebuild keeps it: rows by id. */
  function ById(files: seq<Row>): map<nat, Row> {
    if files == [] then map[] else ById(files[..|files| - 1])[files[|files| - 1].id := files[|files| - 1]]
  }

  lemma {:induction false} ByIdHas(files: seq<Row>, id: nat)
    requires Increasing(files)
    ensures id in ById(files) ==> ById(files)[id] in files && ById(files)[id].id == id
  {
    if files != [] { ByIdHas(files[..|files| - 1], id); }
  }

  lemma {:induction false} ByIdAll(files: seq<Row>, i: nat)
    requires Increasing(files) && i < |files|
    ensures files[i].id in ById(files) && ById(files)[files[i].id] == files[i]
  {
    var n := |files| - 1;
    if i < n { ByIdAll(files[..n], i); }
  }

  lemma {:induction false} CountIsRowCount(files: seq<Row>, h: Hash)
    requires Increasing(files)
    ensures RowCount(ById(files), h) == Count(files, h)
  {
    if files == [] {
      assert RowIds(map[], h) == {};
    } else {
      var n := |files| - 1;
      CountIsRowCount(files[..n], h);
      ByIdHas(files[..n], files[n].id);
      OneMore(ById(files[..n]), files[n], h);
    }
  }

  lemma OneMore(m: map<nat, Row>, row: Row, h: Hash)
    requires row.id !in m
    ensures RowCount(m[row.id := row], h) == RowCount(m, h) + if row.file.blob == h then 1 else 0
  {
    var all, rest := RowIds(m[row.id := row], h), RowIds(m, h);
    if row.file.blob == h { assert all == rest + {row.id}; } else { assert all == rest; }
  }

  /**
   When in addition nothing changed since it was journaled, Rebuild brings back exactly the live
   packages and rows, and each ref_count is the live number of rows naming the blob.
   */
  lemma RebuildIsExact(sha: Sha, steps: seq<LiveStep>, index: seq<IndexEntry>)
    requires Sequential(sha, steps) && RunLive(sha, steps).st.db.t.blobs.Keys <= UpsertAll(index).Keys
    requires RunLive(sha, steps).dirty == {}
    ensures var l := RunLive(sha, steps); var t := l.st.db.t;
      && RebuildTables(index, l.journal).Some?
      && var r := RebuildTables(index, l.journal).value;
      && r.pkgs == t.pkgs
      && (forall i :: 0 <= i < |t.files| ==> t.files[i].id in r.files && r.files[t.files[i].id] == t.files[i])
      && (forall id :: id in r.files ==> r.files[id] in t.files)
      && (forall h :: h in r.blobs ==> r.blobs[h].ref == Count(t.files, h))
  {
    hide RunLive, RebuildTables, UpsertAll, Last, RestoredRows, IdRows, RowCount, Count, Fine, Balanced, InLine;
    SequentialRebuildSucceeds(sha, steps, index);
    RestoresLines(sha, steps, index);
    LiveKeeps(sha, steps);
    var l := RunLive(sha, steps);
    var t := l.st.db.t;
    var r := RebuildTables(index, l.journal).value;
    forall p: nat ensures p in r.pkgs <==> p in t.pkgs {
      assert p in t.pkgs ==> p !in l.dirty;
      if Last(l.journal, p).Some? { LineOfLast(l, p); }
    }
    forall p | p in t.pkgs ensures r.pkgs[p] == t.pkgs[p] { assert p !in l.dirty; }
    LiveFine(sha, steps);
    LiveFilesReturn(l, r);
    forall h | h in r.blobs ensures r.blobs[h].ref == Count(t.files, h) { SameFilesCount(t, r.files, h); }
  }

  lemma LiveFilesReturn(l: Live, r: Restored)
    requires LiveInv(l) && l.dirty == {} && FilesAre(r.files, l.journal) && Fine(l.st)
    ensures var t := l.st.db.t;
      && (forall i :: 0 <= i < |t.files| ==> t.files[i].id in r.files && r.files[t.files[i].id] == t.files[i])
      && (forall id :: id in r.files ==> r.files[id] in t.files && r.files[id].id == id)
  {
    hide RowsApart, IdsOk, WellShaped, Fits, IdRows;
    FineParts(l.st);
    var t := l.st.db.t;
    forall i | 0 <= i < |t.files| ensures t.files[i].id in r.files && r.files[t.files[i].id] == t.files[i] {
      var row := t.files[i];
      IdRowsMember(t.files, row.pkg, row);
      LastIsEntry(l.journal, row.pkg);
      assert RowIn(l.journal, row);
    }
  }

  lemma SameFilesCount(t: Tables, files: map<nat, Row>, h: Hash)
    requires IdsOk(t)
    requires forall i :: 0 <= i < |t.files| ==> t.files[i].id in files && files[t.files[i].id] == t.files[i]
    requires forall id :: id in files ==> files[id] in t.files && files[id].id == id
    ensures RowCount(files, h) == Count(t.files, h)
  {
    hide RowCount, Count, ById;
    var m := ById(t.files);
    forall id ensures id in files ==> id in m && m[id] == files[id] {
      if id in files {
        var i :| 0 <= i < |t.files| && t.files[i] == files[id];
        ByIdAll(t.files, i);
      }
    }
    forall id: nat ensures id in m ==> id in files {
      ByIdHas(t.files, id);
      if id in m { var i :| 0 <= i < |t.files| && t.files[i] == m[id]; }
    }
    assert m == files;
    CountIsRowCount(t.files, h);
  }

  // ---- what comes back as it was ----

  /** A raw_large package has one row, its original. */
  lemma RawLargeHasOneRow(st: State, k: nat)
    requires Fine(st) && k in st.db.t.pkgs && st.db.t.pkgs[k].mode == RawLarge
    ensures var rows := IdRows(st.db.t.files, k); |rows| == 1 && rows[0].file.role == Original
  {
    hide RowsOf, IdRows, WellShaped, Fits, Numbered;
    FineParts(st);
    ShapeAt(st.db.t, k);
    RowsMatch(st.db.t.files, k);
  }

  lemma {:induction false} JournalGrows(sha: Sha, before: seq<LiveStep>, after: seq<LiveStep>)
    ensures RunLive(sha, before).journal <= RunLive(sha, before + after).journal
  {
    hide IngestRuns.Exec, IdRows;
    if after == [] {
      assert before + after == before;
    } else {
      var n := |after| - 1;
      JournalGrows(sha, before, after[..n]);
      assert (before + after)[..|before + after| - 1] == before + after[..n];
    }
  }

  lemma {:induction false} LastUnchanged(a: seq<Entry>, b: seq<Entry>, k: nat)
    requires a <= b && forall i :: |a| <= i < |b| ==> b[i].id != k
    ensures Last(b, k) == Last(a, k) && forall row :: InLine(b, k, row) <==> InLine(a, k, row)
  {
    if |a| < |b| {
      var n := |b| - 1;
      LastUnchanged(a, b[..n], k);
      forall row ensures InLine(b, k, row) <==> InLine(b[..n], k, row) {
        if i :| 0 <= i < |b| && b[i].id == k && row in b[i].rows { assert b[..n][i] == b[i]; }
        if i :| 0 <= i < n && b[..n][i].id == k && row in b[..n][i].rows { assert b[i] == b[..n][i]; }
      }
    } else {
      assert a == b;
    }
  }

  /**
   Uploads, clones and unpacks journal their own package only, propagation journals nothing. So a clone
   with a current line, read while it was raw_large, and none since comes back raw_large, with its
   original row and no other, whatever happens to it afterwards - also when it has been filled
   meanwhile, and then it differs from the live one.
   */
  lemma FilledCloneComesBackEmpty(sha: Sha, before: seq<LiveStep>, after: seq<LiveStep>, index: seq<IndexEntry>, k: nat)
    requires var l := RunLive(sha, before); k in l.st.db.t.pkgs && k !in l.dirty && l.st.db.t.pkgs[k].mode == RawLarge
    requires var a, b := RunLive(sha, before).journal, RunLive(sha, before + after).journal; forall i :: |a| <= i < |b| ==> b[i].id != k
    requires RebuildTables(index, RunLive(sha, before + after).journal).Some?
    ensures var l := RunLive(sha, before); var end := RunLive(sha, before + after); var r := RebuildTables(index, end.journal).value;
      && k in r.pkgs && r.pkgs[k] == l.st.db.t.pkgs[k]
      && (exists row :: RestoredRows(r, k) == {row} && row.file.role == Original)
      && (k in end.st.db.t.pkgs && end.st.db.t.pkgs[k].mode == ZipWithMembers ==> !Intact(r, end.st.db.t, k))
  {
    hide RunLive, RebuildTables, Last, IdRows, RestoredRows, Fine, Balanced, InLine, FilesAre;
    var l := RunLive(sha, before);
    LiveKeeps(sha, before);
    LiveFine(sha, before);
    JournalGrows(sha, before, after);
    LastUnchanged(l.journal, RunLive(sha, before + after).journal, k);
    RestoresLines(sha, before + after, index);
    RawLargeHasOneRow(l.st, k);
    LinesAgainstLive(l, k);
    var rows := IdRows(l.st.db.t.files, k);
    forall row ensures row in rows <==> row in l.st.db.t.files && row.pkg == k { IdRowsMember(l.st.db.t.files, k, row); }
    var r := RebuildTables(index, RunLive(sha, before + after).journal).value;
    assert Last(l.journal, k) == Some(LineOf(l.st.db.t, k));
    assert RestoredRows(r, k) == {rows[0]};
  }

  // ---- a clone journaled before its canonical ----

  /**
   A clone's line appended while its canonical has none yet - its request overtook the upload's
   journal write - stops Rebuild for good, whatever the sidecars and the rest of the journal hold.
   */
  lemma CloneJournaledFirstStopsRebuild(sha: Sha, steps: seq<LiveStep>, x: nat, c: nat, later: seq<LiveStep>, index: seq<IndexEntry>)
    requires var l := RunLive(sha, steps); x in l.loaded && l.loaded[x].pkg.canonical == Some(c) && Last(l.journal, c) == None
    ensures RebuildTables(index, RunLive(sha, steps + [AppendLine(x)] + later).journal) == None
  {
    hide RebuildTables, UpsertAll, Last, IdRows, IngestRuns.Exec;
    var l := RunLive(sha, steps);
    var all := steps + [AppendLine(x)];
    assert all[..|steps|] == steps;
    var m := RunLive(sha, all);
    assert m.journal == l.journal + [l.loaded[x]];
    JournalGrows(sha, all, later);
    hide RunLive;
    var journal := RunLive(sha, all + later).journal;
    var i := |l.journal|;
    assert journal[..i] == l.journal && journal[i].pkg.canonical == Some(c);
    assert !EntryClosed(UpsertAll(index).Keys, journal[..i], journal[i]);
    LiveRebuildSucceedsIffClosed(sha, all + later, index);
  }

  /** Such a run: an upload commits, a second upload of the same body is cloned from it and journaled first. */
  lemma OvertakingCloneStopsRebuild(sha: Sha, body: Bytes, place: Place, later: seq<LiveStep>, index: seq<IndexEntry>)
    ensures var steps := [Tx(UploadXml(1, 0, body, None, Kept(place))), Tx(LookUp(0, 1)), Tx(Clone(2, 0, 0, None)), LoadLine(0, 2), AppendLine(0)];
      RebuildTables(index, RunLive(sha, steps + later).journal) == None
  {
    hide RebuildTables, RunLive, Last, ExecLive;
    var a, b, c, d := Tx(UploadXml(1, 0, body, None, Kept(place))), Tx(LookUp(0, 1)), Tx(Clone(2, 0, 0, None)), LoadLine(0, 2);
    CloneInserted(sha, body, place);
    RunSnoc(sha, [a, b, c], d);
    assert [a, b, c] + [d] == [a, b, c, d];
    CloneLoaded(sha, RunLive(sha, [a, b, c]));
    assert Last([], 1) == None by { NoLast(1); }
    CloneJournaledFirstStopsRebuild(sha, [a, b, c, d], 0, 1, later, index);
    assert [a, b, c, d] + [AppendLine(0)] == [a, b, c, d, AppendLine(0)];
  }

  lemma CloneLoaded(sha: Sha, l: Live)
    requires IsClone(l.st.db.t, 2, 1)
    ensures var m := ExecLive(sha, l, LoadLine(0, 2)); m.journal == l.journal && 0 in m.loaded && m.loaded[0].pkg.canonical == Some(1)
  {
    hide IdRows;
  }

  lemma UploadStands(sha: Sha, body: Bytes, place: Place)
    ensures var l := RunLive(sha, [Tx(UploadXml(1, 0, body, None, Kept(place)))]);
      l.journal == [] && l.st.db.t.pkgs.Keys == {1} && l.st.tickets == map[]
  {
    hide RowsOf, IdRows, IngestOriginal, Changed;
    var a := Tx(UploadXml(1, 0, body, None, Kept(place)));
    RunSnoc(sha, [], a);
    assert [] + [a] == [a];
    var pkg := Package(0, sha(body), XML, Single, None, None, 1, None);
    OriginalCommits(sha, START.db, 1, pkg, body, Kept(place));
    OnlyPackage(sha, START.db, 1, pkg, body, Kept(place));
  }

  lemma CloneInserted(sha: Sha, body: Bytes, place: Place)
    ensures var l := RunLive(sha, [Tx(UploadXml(1, 0, body, None, Kept(place))), Tx(LookUp(0, 1)), Tx(Clone(2, 0, 0, None))]);
      l.journal == [] && IsClone(l.st.db.t, 2, 1)
  {
    hide RowsOf, IdRows, ClonePackage, Balanced, WellShaped, Fits, Changed, RunLive;
    var a, b, c := Tx(UploadXml(1, 0, body, None, Kept(place))), Tx(LookUp(0, 1)), Tx(Clone(2, 0, 0, None));
    UploadStands(sha, body, place);
    RunSnoc(sha, [a], b);
    RunSnoc(sha, [a, b], c);
    assert [a] + [b] == [a, b] && [a, b] + [c] == [a, b, c];
    LiveFine(sha, [a, b]);
    assert Lowest(RunLive(sha, [a]).st.db.t, 1);
    var s2 := RunLive(sha, [a, b]).st;
    FineParts(s2);
    CloneAlwaysCommits(s2.db, 2, s2.tickets[0], 0, None);
    CloneShape(s2.db, 2, s2.tickets[0], 0, None);
  }

  lemma NoLast(p: nat)
    ensures Last([], p) == None
  {
  }

  lemma OnlyPackage(sha: Sha, db: Db, id: nat, pkg: Package, body: Bytes, o: Ingestion.Store)
    requires Owned(db.t) && IngestOriginal(sha, db, id, pkg, body, o).Some?
    ensures IngestOriginal(sha, db, id, pkg, body, o).value.t.pkgs == db.t.pkgs[id := pkg]
  {
    hide RowsOf, IngestOriginal;
    OriginalEffect(sha, db, id, pkg, body, o);
  }
}
