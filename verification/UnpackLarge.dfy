/**
 UnpackLargePackage as a whole: unpack, then fill the clones. A call that failed half-way may be
 followed by another; the queue itself makes none once the unpack has committed.
 */
module UnpackLarge {
  import opened Bytes
  import opened Metadata
  import opened Ingestion
  import opened IngestEffects
  import opened IngestRuns
  import opened CloneRuns
  import opened Mirror
  import opened Archive

  /**
   One call: how storing its members turns out, and what else may go wrong - reading the blob,
   committing the unpack, committing each clone.
   */
  datatype Attempt = Attempt(items: seq<Item>, errStore: Store, read: bool, commit: bool, clones: seq<bool>)

  /** The unpack itself; an unpacked package is left as it is. */
  function UnpackFirst(sha: Sha, db: Db, p: nat, a: Attempt): (r: Option<Db>)
    requires p in db.t.pkgs
    ensures r.Some? ==> p in r.value.t.pkgs
  {
    if db.t.pkgs[p].mode == ZipWithMembers then Some(db) else
    UnpackEffect(sha, db, p, a.items, a.errStore);
    UnpackTx(sha, db, p, a.items, a.errStore)
  }

  function UnpackLargePackage(sha: Sha, db: Db, p: nat, ids: seq<nat>, a: Attempt): (r: (Db, bool))
    requires |a.clones| == |ids|
    ensures p in db.t.pkgs ==> p in r.0.t.pkgs
  {
    if p !in db.t.pkgs then (db, false) else
    if db.t.pkgs[p].mode == Single then (db, true) else
    if db.t.pkgs[p].mode == RawLarge && !(a.read && a.commit) then (db, false) else
    match UnpackFirst(sha, db, p, a)
    case None => (db, false)
    case Some(d) => PropagateLoop(d, p, ids, a.clones)
  }

  /** A canonical ZIP package together with the list of its clones. */
  ghost predicate Canonical(t: Tables, p: nat, ids: seq<nat>) {
    && WellShaped(t) && p in t.pkgs && t.pkgs[p].canonical == None && t.pkgs[p].mode != Single
    && ListsClones(t, p, ids)
  }

  lemma FirstIsReady(sha: Sha, db: Db, p: nat, ids: seq<nat>, a: Attempt)
    requires Canonical(db.t, p, ids)
    ensures var r := UnpackFirst(sha, db, p, a);
      r.Some? ==>
        && Ready(r.value.t, p) && ListsClones(r.value.t, p, ids)
        && (db.t.pkgs[p].mode == RawLarge ==> RowsOf(r.value.t.files, p) == Unpacked(sha, RowsOf(db.t.files, p), a.items))
        && (db.t.pkgs[p].mode == ZipWithMembers ==> r.value == db)
  {
    hide RowsOf, WellShaped, UnpackTx, Unpacked, Numbered;
    if db.t.pkgs[p].mode == RawLarge {
      ShapeAt(db.t, p);
      UnpackEffect(sha, db, p, a.items, a.errStore);
      UnpackShape(sha, db, p, a.items, a.errStore);
      UnpackExactly(sha, db, p, a.items, a.errStore);
    }
  }

  lemma BetweenRows(t: Tables, u: Tables, c: nat)
    requires Between(t, u, c)
    ensures c in u.pkgs && u.pkgs[c].mode == ZipWithMembers && RowsOf(u.files, c) == RowsOf(t.files, c)
  {
    hide RowsOf, WellShaped;
    assert !IsClone(t, c, c);
  }

  /**
   A call that reports success leaves the package unpacked, holding what its archive holds, and
   every clone with the same mode, file count, unpack error and rows.
   */
  lemma SuccessReachesEveryClone(sha: Sha, db: Db, p: nat, ids: seq<nat>, a: Attempt)
    requires Canonical(db.t, p, ids) && |a.clones| == |ids| && UnpackLargePackage(sha, db, p, ids, a).1
    ensures var t := UnpackLargePackage(sha, db, p, ids, a).0.t;
      && WellShaped(t) && p in t.pkgs && t.pkgs[p].mode == ZipWithMembers
      && (db.t.pkgs[p].mode == RawLarge ==> RowsOf(t.files, p) == Unpacked(sha, RowsOf(db.t.files, p), a.items))
      && (forall k :: IsClone(db.t, k, p) ==> Mirrors(t, p, k) && RowsOf(t.files, k) == RowsOf(t.files, p))
  {
    hide RowsOf, UnpackFirst, PropagateLoop, WellShaped, Unpacked;
    FirstIsReady(sha, db, p, ids, a);
    var d := UnpackFirst(sha, db, p, a).value;
    SuccessfulPropagationMirrors(d, p, ids, a.clones);
    BetweenRows(d.t, UnpackLargePackage(sha, db, p, ids, a).0.t, p);
    assert forall k: nat :: k in ids <==> IsClone(d.t, k, p);
  }

  /** The state after calls with arbitrary store outcomes and failures. */
  function Tries(sha: Sha, db: Db, p: nat, ids: seq<nat>, tries: seq<Attempt>): (d: Db)
    requires forall i :: 0 <= i < |tries| ==> |tries[i].clones| == |ids|
    ensures p in db.t.pkgs ==> p in d.t.pkgs
  {
    if tries == [] then db else UnpackLargePackage(sha, Tries(sha, db, p, ids, tries[..|tries| - 1]), p, ids, tries[|tries| - 1]).0
  }

  /** The unpack of `x` is the one that committed, and some clones are filled from it. */
  ghost predicate Committed(sha: Sha, db: Db, p: nat, x: Attempt, d: Db)
    requires p in db.t.pkgs
  {
    UnpackFirst(sha, db, p, x).Some? && Between(UnpackFirst(sha, db, p, x).value.t, d.t, p)
  }

  lemma NothingFilled(t: Tables, c: nat)
    requires Ready(t, c)
    ensures Between(t, t, c)
  {
    hide RowsOf, WellShaped;
  }

  ghost predicate AllMirror(t: Tables, p: nat, ids: seq<nat>) {
    forall i :: 0 <= i < |ids| ==> Mirrors(t, p, ids[i])
  }

  /** The first call: nothing happens, or its own unpack commits. */
  lemma FirstCall(sha: Sha, db: Db, p: nat, ids: seq<nat>, a: Attempt)
    requires Canonical(db.t, p, ids) && |a.clones| == |ids|
    ensures var r := UnpackLargePackage(sha, db, p, ids, a);
      && (r.0 == db || Committed(sha, db, p, a, r.0))
      && (r.1 ==> Committed(sha, db, p, a, r.0) && AllMirror(r.0.t, p, ids))
  {
    hide RowsOf, PropagateLoop, WellShaped, UnpackTx, Mirrors, Between;
    FirstIsReady(sha, db, p, ids, a);
    var first := UnpackFirst(sha, db, p, a);
    if first.Some? {
      assert forall i :: 0 <= i < |ids| ==> ids[i] in ids;
      NothingFilled(first.value.t, p);
      LoopBetween(first.value.t, first.value, p, ids, a.clones);
    }
  }

  /** A later call goes on from the unpack that committed, whatever its own members would do. */
  lemma LaterCall(sha: Sha, db: Db, p: nat, ids: seq<nat>, x: Attempt, d: Db, a: Attempt)
    requires Canonical(db.t, p, ids) && |a.clones| == |ids| && Committed(sha, db, p, x, d)
    ensures var r := UnpackLargePackage(sha, d, p, ids, a);
      Committed(sha, db, p, x, r.0) && (r.1 ==> AllMirror(r.0.t, p, ids))
  {
    hide RowsOf, PropagateLoop, WellShaped, UnpackTx, Mirrors, Between;
    FirstIsReady(sha, db, p, ids, x);
    var first := UnpackFirst(sha, db, p, x).value;
    assert forall i :: 0 <= i < |ids| ==> ids[i] in ids;
    BetweenRows(first.t, d.t, p);
    LoopBetween(first.t, d, p, ids, a.clones);
  }

  lemma {:induction false} TriesCommitOnce(sha: Sha, db: Db, p: nat, ids: seq<nat>, tries: seq<Attempt>) returns (x: Option<Attempt>)
    requires Canonical(db.t, p, ids) && forall i :: 0 <= i < |tries| ==> |tries[i].clones| == |ids|
    ensures x == None ==> Tries(sha, db, p, ids, tries) == db
    ensures x.Some? ==> x.value in tries && Committed(sha, db, p, x.value, Tries(sha, db, p, ids, tries))
  {
    hide Canonical, UnpackLargePackage, Committed;
    x := None;
    if tries != [] {
      var n := |tries| - 1;
      var d := Tries(sha, db, p, ids, tries[..n]);
      CanonicalHas(db.t, p, ids);
      x := TriesCommitOnce(sha, db, p, ids, tries[..n]);
      if x.Some? {
        LaterCall(sha, db, p, ids, x.value, d, tries[n]);
      } else {
        FirstCall(sha, db, p, ids, tries[n]);
        if Tries(sha, db, p, ids, tries) != db { x := Some(tries[n]); }
      }
    }
  }

  lemma CanonicalHas(t: Tables, p: nat, ids: seq<nat>)
    requires Canonical(t, p, ids)
    ensures p in t.pkgs
  {
  }

  /** Same packages, and the same rows in every package. */
  ghost predicate SameContent(t: Tables, u: Tables) {
    t.pkgs == u.pkgs && forall q: nat :: RowsOf(t.files, q) == RowsOf(u.files, q)
  }

  lemma FilledAlike(t: Tables, u: Tables, v: Tables, c: nat, ids: seq<nat>)
    requires ListsClones(t, c, ids) && Between(t, u, c) && Between(t, v, c) && AllMirror(u, c, ids) && AllMirror(v, c, ids)
    ensures SameContent(u, v)
  {
    hide RowsOf, WellShaped, ListsClones, Mirrors;
    AllFilled(t, u, c, ids);
    AllFilled(t, v, c, ids);
  }

  /** Two calls whose members turn out the same. */
  predicate Alike(a: Attempt, x: Attempt) {
    a.items == x.items && a.errStore == x.errStore
  }

  /**
   However many calls failed before, wherever they failed and however their stores turned out, the call
   that succeeds ends in the state that one of them - the one whose unpack committed - would have
   reached on its own: same packages, same rows in every package.
   */
  lemma RetriesConverge(sha: Sha, db: Db, p: nat, ids: seq<nat>, tries: seq<Attempt>, b: Attempt) returns (x: Attempt)
    requires Canonical(db.t, p, ids) && |b.clones| == |ids| && forall i :: 0 <= i < |tries| ==> |tries[i].clones| == |ids|
    requires UnpackLargePackage(sha, Tries(sha, db, p, ids, tries), p, ids, b).1
    ensures x in tries + [b]
    ensures forall a: Attempt :: |a.clones| == |ids| && Alike(a, x) && UnpackLargePackage(sha, db, p, ids, a).1 ==>
      SameContent(UnpackLargePackage(sha, db, p, ids, a).0.t,
        UnpackLargePackage(sha, Tries(sha, db, p, ids, tries), p, ids, b).0.t)
  {
    hide UnpackLargePackage, Between, WellShaped, Mirrors, SameContent, Canonical, Tries, UnpackTx;
    CanonicalHas(db.t, p, ids);
    var d := Tries(sha, db, p, ids, tries);
    var first := TriesCommitOnce(sha, db, p, ids, tries);
    if first.Some? {
      x := first.value;
      LaterCall(sha, db, p, ids, x, d, b);
    } else {
      x := b;
      FirstCall(sha, db, p, ids, b);
    }
    FirstIsReady(sha, db, p, ids, x);
    forall a: Attempt | |a.clones| == |ids| && Alike(a, x) && UnpackLargePackage(sha, db, p, ids, a).1
      ensures SameContent(UnpackLargePackage(sha, db, p, ids, a).0.t, UnpackLargePackage(sha, d, p, ids, b).0.t)
    {
      FirstCall(sha, db, p, ids, a);
      FilledAlike(UnpackFirst(sha, db, p, x).value.t, UnpackLargePackage(sha, db, p, ids, a).0.t,
        UnpackLargePackage(sha, d, p, ids, b).0.t, p, ids);
    }
  }
}
