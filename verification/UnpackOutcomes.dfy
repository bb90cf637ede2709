/**
 When an unpack call succeeds, and that a queued package gets unpacked and its clones filled
 (internal/ingestion/unpack_large.go, internal/ingestion/unpack_worker.go).
 */
module UnpackOutcomes {
  import opened Bytes
  import opened Metadata
  import opened Ingestion
  import opened IngestEffects
  import opened IngestRuns
  import opened CloneRuns
  import opened Mirror
  import opened MirrorRuns
  import opened Commits
  import opened Archive
  import opened UnpackLarge
  import opened UnpackRuns
  import Q = UnpackQueue

  // ---- one call ----

  predicate Distinct(ids: seq<nat>) {
    forall i, j :: 0 <= i < j < |ids| ==> ids[i] != ids[j]
  }

  predicate Empty(t: Tables, k: nat) {
    k in t.pkgs && t.pkgs[k].mode == RawLarge
  }

  lemma OneSucceedsIff(t: Tables, db: Db, c: nat, k: nat, ok: bool)
    requires Between(t, db.t, c) && c in db.t.pkgs && IsClone(t, k, c) && Balanced(db)
    ensures var (d, good) := PropagateOne(db, c, k, ok);
      && (good <==> (Empty(db.t, k) ==> ok)) && Balanced(d)
      && forall q :: q != k ==> (Empty(d.t, q) <==> Empty(db.t, q))
  {
    hide RowsOf, WellShaped, PropagateTx, Present, Between, Balanced;
    BetweenReady(t, db.t, c, k);
    if Empty(db.t, k) && ok {
      PropagateAlwaysCommits(db, c, k);
      PropagateBooks(db, c, k, Present(db.t, k, false));
      NothingPresent(db.t, k, false);
      PropagateBehind(db, c, k);
    }
  }

  lemma {:induction false} LoopSucceedsIff(t: Tables, db: Db, c: nat, ids: seq<nat>, ok: seq<bool>)
    requires Between(t, db.t, c) && c in db.t.pkgs && |ok| == |ids| && Distinct(ids) && Balanced(db)
    requires forall i :: 0 <= i < |ids| ==> IsClone(t, ids[i], c)
    ensures var (d, good) := PropagateLoop(db, c, ids, ok);
      && (good <==> forall i :: 0 <= i < |ids| ==> Empty(db.t, ids[i]) ==> ok[i]) && Balanced(d)
      && forall q :: q !in ids ==> (Empty(d.t, q) <==> Empty(db.t, q))
  {
    hide Between, PropagateOne, IsClone, Balanced, Empty;
    if ids != [] {
      var n := |ids| - 1;
      LoopSucceedsIff(t, db, c, ids[..n], ok[..n]);
      LoopBetween(t, db, c, ids[..n], ok[..n]);
      var (d, good) := PropagateLoop(db, c, ids[..n], ok[..n]);
      assert ids[n] !in ids[..n];
      if good { OneSucceedsIff(t, d, c, ids[n], ok[n]); }
      if !good {
        var i :| 0 <= i < n && Empty(db.t, ids[..n][i]) && !ok[..n][i];
        assert Empty(db.t, ids[i]) && !ok[i];
      }
      assert forall q :: q !in ids ==> q !in ids[..n] && q != ids[n];
    }
  }

  /**
   A call succeeds if and only if, for a package not yet unpacked, its blob can be read, its rows stored and the transaction
   committed, and the database takes the transaction of every clone that is still empty.
   Nothing else fails it: no key, no missing blob, no clone that was filled before.
   */
  lemma UnpackSucceedsIff(sha: Sha, db: Db, p: nat, ids: seq<nat>, a: Attempt)
    requires Canonical(db.t, p, ids) && Distinct(ids) && Balanced(db) && |a.clones| == |ids|
    ensures UnpackLargePackage(sha, db, p, ids, a).1 <==>
      && (db.t.pkgs[p].mode == RawLarge ==> a.read && a.commit && Archive.Commits(a.items, a.errStore))
      && (forall i :: 0 <= i < |ids| ==> Empty(db.t, ids[i]) ==> a.clones[i])
  {
    hide RowsOf, PropagateLoop, WellShaped, Balanced, UnpackTx, Archive.Commits, Between;
    FirstIsReady(sha, db, p, ids, a);
    FirstCommitsIff(sha, db, p, ids, a);
    var first := UnpackFirst(sha, db, p, a);
    if first.Some? {
      assert forall i :: 0 <= i < |ids| ==> ids[i] in ids;
      NothingFilled(first.value.t, p);
      LoopSucceedsIff(first.value.t, first.value, p, ids, a.clones);
    }
  }

  lemma FirstCommitsIff(sha: Sha, db: Db, p: nat, ids: seq<nat>, a: Attempt)
    requires Canonical(db.t, p, ids) && Balanced(db)
    ensures var r := UnpackFirst(sha, db, p, a);
      && (r.Some? <==> (db.t.pkgs[p].mode == RawLarge ==> Archive.Commits(a.items, a.errStore)))
      && (r.Some? ==> Balanced(r.value) && forall i :: 0 <= i < |ids| ==> (Empty(r.value.t, ids[i]) <==> Empty(db.t, ids[i])))
  {
    hide RowsOf, WellShaped, Balanced, UnpackTx, Archive.Commits, Numbered;
    if db.t.pkgs[p].mode == RawLarge {
      ShapeAt(db.t, p);
      UnpackExactly(sha, db, p, a.items, a.errStore);
      UnpackEffect(sha, db, p, a.items, a.errStore);
      UnpackBooks(sha, db, p, a.items, a.errStore);
      forall i | 0 <= i < |ids| ensures ids[i] != p { assert ids[i] in ids && IsClone(db.t, ids[i], p); }
    }
  }

  // ---- the whole way through the queue ----

  lemma RunsFirst(sha: Sha, capacity: nat, y: Sys, act: Act, rest: seq<Act>)
    ensures DoAll(sha, capacity, y, [act] + rest) == DoAll(sha, capacity, Do(sha, capacity, y, act), rest)
  {
    hide Do;
    DoAllConcat(sha, capacity, y, [act], rest);
    assert [act][..0] == [];
    assert DoAll(sha, capacity, y, [act]) == Do(sha, capacity, DoAll(sha, capacity, y, []), act);
  }

  lemma QueueLetsThrough(sha: Sha, capacity: nat, y: Sys, p: nat)
    requires p in y.due && p !in y.q.inflight && y.q.chan == [] && capacity >= 1
    ensures var u := Do(sha, capacity, Do(sha, capacity, Do(sha, capacity, y, Mark(p)), Send(p)), Take);
      u.st == y.st && HasJob(u, p, false)
  {
    hide PendingIds, CloneIds, Handed, Exec;
    var y2 := Do(sha, capacity, Do(sha, capacity, y, Mark(p)), Send(p));
    assert y2.q.chan == [p];
  }

  /** A due package goes through an empty channel to a worker. */
  lemma PickedUp(sha: Sha, capacity: nat, y: Sys, p: nat)
    requires p in y.due && p !in y.q.inflight && y.q.chan == [] && capacity >= 1
    ensures var u := DoAll(sha, capacity, y, [Mark(p), Send(p), Take]); u.st == y.st && HasJob(u, p, false)
  {
    hide Do, HasJob;
    QueueLetsThrough(sha, capacity, y, p);
    var y1 := Do(sha, capacity, y, Mark(p));
    var y2 := Do(sha, capacity, y1, Send(p));
    assert [Mark(p), Send(p), Take] == [Mark(p)] + [Send(p), Take] && [Send(p), Take] == [Send(p)] + [Take] && [Take] == [Take] + [];
    RunsFirst(sha, capacity, y, Mark(p), [Send(p), Take]);
    RunsFirst(sha, capacity, y1, Send(p), [Take]);
    RunsFirst(sha, capacity, y2, Take, []);
  }

  function FillAll(p: nat, ids: seq<nat>): (acts: seq<Act>)
    ensures |acts| == |ids|
  {
    seq(|ids|, i requires 0 <= i < |ids| => Fill(p, ids[i]))
  }

  lemma {:induction false} FillsKeepJob(sha: Sha, capacity: nat, y: Sys, p: nat, ids: seq<nat>, n: nat)
    requires n <= |ids|
    ensures var u := DoAll(sha, capacity, y, FillAll(p, ids)[..n]); u.q == y.q && u.jobs == y.jobs
  {
    hide Exec, HasJob;
    if n > 0 {
      FillsKeepJob(sha, capacity, y, p, ids, n - 1);
      assert FillAll(p, ids)[..n][..n - 1] == FillAll(p, ids)[..n - 1];
    }
  }

  lemma FillReaches(sha: Sha, capacity: nat, y: Sys, p: nat, ids: seq<nat>, k: nat)
    requires Right(y) && HasJob(y, p, true) && k in ids && k in y.jobs[p].clones && Waits(y, p, k)
    ensures Shows(DoAll(sha, capacity, y, FillAll(p, ids)), p, k)
  {
    hide Right, Waits, Shows, Do;
    var acts := FillAll(p, ids);
    var i :| 0 <= i < |ids| && ids[i] == k;
    FillsKeepJob(sha, capacity, y, p, ids, i);
    assert UnpackRuns.Fills(DoAll(sha, capacity, y, acts[..i]), acts[i], p, k);
    FilledIffPropagated(sha, capacity, y, acts, p, k);
  }

  /** The way of a package from its upload or a scan's list to the end of its job. */
  function Way(p: nat, items: seq<Item>, errStore: Store, ids: seq<nat>): seq<Act> {
    [Mark(p), Send(p), Take] + ([UnpackJob(p, items, errStore)] + ([ListClones(p)] + (FillAll(p, ids) + [Finish(p)])))
  }

  /** The worker's part: unpack, list, fill, release. */
  lemma JobRuns(sha: Sha, capacity: nat, y: Sys, p: nat, items: seq<Item>, errStore: Store, ids: seq<nat>)
    requires Right(y) && HasJob(y, p, false) && Pending(y.st.db.t, p) && ListsClones(y.st.db.t, p, ids)
    requires UnpackTx(sha, y.st.db, p, items, errStore).Some?
    ensures var u := Do(sha, capacity, Do(sha, capacity, y, UnpackJob(p, items, errStore)), ListClones(p));
      && Right(u) && HasJob(u, p, true) && p in u.st.db.t.pkgs && u.st.db.t.pkgs[p].mode == ZipWithMembers
      && forall k :: k in ids ==> k in u.jobs[p].clones && Waits(u, p, k)
  {
    hide Right, UnpackTx, RowsOf, Exec, WellShaped, Balanced, Fits;
    var y1 := Do(sha, capacity, y, UnpackJob(p, items, errStore));
    DoRight(sha, capacity, y, UnpackJob(p, items, errStore));
    DoRight(sha, capacity, y1, ListClones(p));
    RightIsFine(y);
    UnpackedNow(sha, y.st, p, items, errStore);
    forall k | k in ids ensures IsClone(y1.st.db.t, k, p) && Behind(y1.st.db.t, p, k) {
      UnpackStrands(sha, y.st, p, items, errStore, k);
    }
  }

  lemma UnpackedNow(sha: Sha, st: State, p: nat, items: seq<Item>, errStore: Store)
    requires Fine(st) && Pending(st.db.t, p) && UnpackTx(sha, st.db, p, items, errStore).Some?
    ensures var t := Exec(sha, st, Unpack(p, items, errStore)).db.t; p in t.pkgs && t.pkgs[p].mode == ZipWithMembers
  {
    hide UnpackTx, Fits, WellShaped;
    UnpackEffect(sha, st.db, p, items, errStore);
  }

  /**
   A package that is due, with room in the queue and nothing failing: after its way it is unpacked, every clone it had shows its
   content, and nobody holds it any longer.
   */
  lemma DuePackageIsUnpacked(sha: Sha, capacity: nat, y: Sys, p: nat, items: seq<Item>, errStore: Store, ids: seq<nat>)
    requires Right(y) && p in y.due && p !in y.q.inflight && y.q.chan == [] && capacity >= 1
    requires Pending(y.st.db.t, p) && ListsClones(y.st.db.t, p, ids) && UnpackTx(sha, y.st.db, p, items, errStore).Some?
    ensures var end := DoAll(sha, capacity, y, Way(p, items, errStore, ids));
      && p in end.st.db.t.pkgs && end.st.db.t.pkgs[p].mode == ZipWithMembers
      && (forall k :: k in ids ==> Shows(end, p, k))
      && Absent(end.q, p)
  {
    hide Do, Right, Shows, Waits, UnpackTx, RowsOf, HasJob, FillAll;
    var fills := FillAll(p, ids);
    var y0 := DoAll(sha, capacity, y, [Mark(p), Send(p), Take]);
    PickedUp(sha, capacity, y, p);
    AllRight(sha, capacity, y, [Mark(p), Send(p), Take]);
    var tail := fills + [Finish(p)];
    DoAllConcat(sha, capacity, y, [Mark(p), Send(p), Take], [UnpackJob(p, items, errStore)] + ([ListClones(p)] + tail));
    RunsFirst(sha, capacity, y0, UnpackJob(p, items, errStore), [ListClones(p)] + tail);
    var y1 := Do(sha, capacity, y0, UnpackJob(p, items, errStore));
    RunsFirst(sha, capacity, y1, ListClones(p), tail);
    var y2 := Do(sha, capacity, y1, ListClones(p));
    JobRuns(sha, capacity, y0, p, items, errStore, ids);
    LastSteps(sha, capacity, y2, p, ids);
  }

  lemma LastSteps(sha: Sha, capacity: nat, y: Sys, p: nat, ids: seq<nat>)
    requires Right(y) && HasJob(y, p, true) && p in y.st.db.t.pkgs && y.st.db.t.pkgs[p].mode == ZipWithMembers
    requires forall k :: k in ids ==> k in y.jobs[p].clones && Waits(y, p, k)
    ensures var end := DoAll(sha, capacity, y, FillAll(p, ids) + [Finish(p)]);
      && p in end.st.db.t.pkgs && end.st.db.t.pkgs[p].mode == ZipWithMembers
      && (forall k :: k in ids ==> Shows(end, p, k)) && Absent(end.q, p)
  {
    hide Right, Shows, Waits, Exec, FillAll;
    var acts := FillAll(p, ids);
    var u := DoAll(sha, capacity, y, acts);
    DoAllConcat(sha, capacity, y, acts, [Finish(p)]);
    RunsFirst(sha, capacity, u, Finish(p), []);
    assert [Finish(p)] + [] == [Finish(p)];
    var end := Do(sha, capacity, u, Finish(p));
    AllRight(sha, capacity, y, acts);
    RightIsFine(u);
    FillsKeepJob(sha, capacity, y, p, ids, |ids|);
    assert acts[..|ids|] == acts;
    LastToken(u.q, p);
    StaysUnpacked(sha, capacity, y, acts, p);
    forall k | k in ids ensures Shows(end, p, k) {
      FillReaches(sha, capacity, y, p, ids, k);
      DoShows(sha, capacity, u, Finish(p), p, k);
    }
  }

  lemma {:induction false} StaysUnpacked(sha: Sha, capacity: nat, y: Sys, acts: seq<Act>, p: nat)
    requires Right(y) && p in y.st.db.t.pkgs && y.st.db.t.pkgs[p].mode == ZipWithMembers
    ensures var t := DoAll(sha, capacity, y, acts).st.db.t; p in t.pkgs && t.pkgs[p].mode == ZipWithMembers
  {
    hide Right, Do, Exec, RowsOf;
    if acts != [] {
      var n := |acts| - 1;
      StaysUnpacked(sha, capacity, y, acts[..n], p);
      AllRight(sha, capacity, y, acts[..n]);
      var mid := DoAll(sha, capacity, y, acts[..n]);
      RightIsFine(mid);
      InnerIsExec(sha, capacity, mid, acts[n]);
      if Inner(mid, acts[n]).Some? {
        var step := Inner(mid, acts[n]).value;
        StepDid(sha, mid.st, step);
        var u := Do(sha, capacity, mid, acts[n]);
        UnpackedAfter(mid.st.db.t, u.st.db.t, EffectOf(mid.st.db.t, u.st.db.t, step), p);
      }
    }
  }

  /** A large ZIP that was uploaded with nothing failing is due, and its way leads to its unpacked package. */
  lemma LargeUploadIsUnpacked(sha: Sha, capacity: nat, y: Sys, id: nat, supplier: int, body: Bytes, filename: Option<string>, place: Place,
                              items: seq<Item>, errStore: Store)
    requires Right(y) && id !in y.st.db.t.pkgs && id !in y.q.inflight && y.q.chan == [] && capacity >= 1 && Archive.Commits(items, errStore)
    ensures var upload := Request(UploadLargeZip(id, supplier, body, filename, Kept(place)));
      var end := DoAll(sha, capacity, Do(sha, capacity, y, upload), Way(id, items, errStore, []));
      id in end.st.db.t.pkgs && end.st.db.t.pkgs[id].mode == ZipWithMembers && Absent(end.q, id)
  {
    hide Do, Right, RowsOf, UnpackTx, DoAll, Way, Archive.Commits;
    var upload := Request(UploadLargeZip(id, supplier, body, filename, Kept(place)));
    var u := Do(sha, capacity, y, upload);
    DoRight(sha, capacity, y, upload);
    UploadIsDue(sha, capacity, y, id, supplier, body, filename, place);
    UnpackExactly(sha, u.st.db, id, items, errStore);
    RightIsFine(u);
    NoClonesYet(sha, capacity, y, id, supplier, body, filename, place);
    DuePackageIsUnpacked(sha, capacity, u, id, items, errStore, []);
  }

  lemma UploadIsDue(sha: Sha, capacity: nat, y: Sys, id: nat, supplier: int, body: Bytes, filename: Option<string>, place: Place)
    requires Right(y) && id !in y.st.db.t.pkgs
    ensures var u := Do(sha, capacity, y, Request(UploadLargeZip(id, supplier, body, filename, Kept(place))));
      && id in u.due && Pending(u.st.db.t, id) && u.q == y.q
      && OnlyOriginals(RowsOf(u.st.db.t.files, id)) && u.st.db.t.pkgs.Keys == y.st.db.t.pkgs.Keys + {id}
      && forall k :: k in y.st.db.t.pkgs ==> u.st.db.t.pkgs[k] == y.st.db.t.pkgs[k]
  {
    hide RowsOf, IngestOriginal, WellShaped, Balanced, Fits;
    FineParts(y.st);
    var pkg := Package(supplier, sha(body), ZIP, RawLarge, filename, None, 1, None);
    OriginalCommits(sha, y.st.db, id, pkg, body, Kept(place));
    OriginalStands(sha, y.st.db, id, pkg, body, Kept(place));
  }

  lemma NoClonesYet(sha: Sha, capacity: nat, y: Sys, id: nat, supplier: int, body: Bytes, filename: Option<string>, place: Place)
    requires Right(y) && id !in y.st.db.t.pkgs
    ensures ListsClones(Do(sha, capacity, y, Request(UploadLargeZip(id, supplier, body, filename, Kept(place)))).st.db.t, id, [])
  {
    hide Do, RowsOf, WellShaped, Balanced, Fits;
    UploadIsDue(sha, capacity, y, id, supplier, body, filename, place);
    FineParts(y.st);
    var t := y.st.db.t;
    forall k | k in t.pkgs ensures t.pkgs[k].canonical != Some(id) {
      if t.pkgs[k].canonical == Some(id) { CloneAt(t, k, id); }
    }
  }

  /** After a crash: the scan of the next start finds every package still raw_large, and its way is open. */
  lemma PendingPackageIsRecovered(sha: Sha, capacity: nat, y: Sys, p: nat, items: seq<Item>, errStore: Store, ids: seq<nat>)
    requires Right(y) && capacity >= 1 && Pending(y.st.db.t, p) && ListsClones(y.st.db.t, p, ids)
    requires UnpackTx(sha, y.st.db, p, items, errStore).Some?
    ensures var end := DoAll(sha, capacity, Do(sha, capacity, Do(sha, capacity, y, Restart), Scan), Way(p, items, errStore, ids));
      && p in end.st.db.t.pkgs && end.st.db.t.pkgs[p].mode == ZipWithMembers
      && (forall k :: k in ids ==> Shows(end, p, k)) && Absent(end.q, p)
  {
    hide Right, Shows, UnpackTx, RowsOf, DoAll, Way, Exec;
    var u := Do(sha, capacity, Do(sha, capacity, y, Restart), Scan);
    DoRight(sha, capacity, y, Restart);
    DoRight(sha, capacity, Do(sha, capacity, y, Restart), Scan);
    assert p in PendingIds(y.st.db.t) && u.st.db == y.st.db;
    DuePackageIsUnpacked(sha, capacity, u, p, items, errStore, ids);
  }
}
