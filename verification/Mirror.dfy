/**
 A clone and its canonical: showing the same, or the clone behind an unpacked canonical. What each
 transaction does to that relation, and what a completed propagation establishes.
 */
module Mirror {
  import opened Bytes
  import opened Metadata
  import opened FileKey
  import opened Ingestion
  import opened IngestEffects
  import opened IngestRuns
  import opened CloneRuns

  /** The clone shows exactly what its canonical shows. */
  predicate Mirrors(t: Tables, c: nat, k: nat) {
    && c in t.pkgs && k in t.pkgs
    && t.pkgs[k].mode == t.pkgs[c].mode && t.pkgs[k].fileCount == t.pkgs[c].fileCount
    && t.pkgs[k].unpackError == t.pkgs[c].unpackError
    && RowsOf(t.files, k) == RowsOf(t.files, c)
  }

  /** The clone was made before the canonical was unpacked and still has only the original. */
  predicate Behind(t: Tables, c: nat, k: nat) {
    && c in t.pkgs && k in t.pkgs
    && t.pkgs[k].mode == RawLarge && t.pkgs[c].mode == ZipWithMembers
    && |RowsOf(t.files, c)| >= 1 && RowsOf(t.files, k) == RowsOf(t.files, c)[..1]
  }

  /** One original first, then numbered members or an error; more than one row only once unpacked. */
  predicate Shape(mode: Mode, rows: seq<FileIn>) {
    && |rows| >= 1 && rows[0].role == Original && Numbered(rows)
    && (forall i :: 1 <= i < |rows| ==> rows[i].role != Original)
    && (mode != ZipWithMembers ==> |rows| == 1)
  }

  ghost predicate WellShaped(t: Tables) {
    && Owned(t)
    && (forall p :: p in t.pkgs ==> Shape(t.pkgs[p].mode, RowsOf(t.files, p)))
    && (forall k, c :: IsClone(t, k, c) ==> Linked(t, k, c) && (Mirrors(t, c, k) || Behind(t, c, k)))
  }

  lemma AddPackage(t: Tables, u: Tables, id: nat, pkg: Package, rows: seq<FileIn>)
    requires WellShaped(t) && NewPackage(t, u, id, pkg, rows) && Shape(pkg.mode, rows)
    requires pkg.canonical.Some? ==>
      var c := pkg.canonical.value; Linked(u, id, c) && (Mirrors(u, c, id) || Behind(u, c, id))
    ensures WellShaped(u)
  {
    hide RowsOf, Shape;
    forall k, c | IsClone(u, k, c) ensures Linked(u, k, c) && (Mirrors(u, c, k) || Behind(u, c, k)) {
      if k != id { assert IsClone(t, k, c); }
    }
  }

  /** What was read for a clone, against its canonical now: still the same, or read before the unpack. */
  predicate Fits(t: Tables, x: Ticket) {
    && Sound(t, x) && Shape(x.snap.mode, x.rows)
    && var now, rows := t.pkgs[x.canonical], RowsOf(t.files, x.canonical);
    if x.snap.mode == now.mode
    then x.snap.fileCount == now.fileCount && x.snap.unpackError == now.unpackError && x.rows == rows
    else x.snap.mode == RawLarge && now.mode == ZipWithMembers && |rows| >= 1 && x.rows == rows[..1]
  }

  /** The inserted clone mirrors its canonical exactly when the canonical was not unpacked since it was read. */
  lemma CloneShape(db: Db, id: nat, x: Ticket, supplier: int, filename: Option<string>)
    requires WellShaped(db.t) && Fits(db.t, x) && x.canonical < id
    ensures var r := ClonePackage(db, id, x.canonical, x.snap, x.rows, supplier, filename);
      r.Some? ==>
        && WellShaped(r.value.t) && IsClone(r.value.t, id, x.canonical)
        && (Mirrors(r.value.t, x.canonical, id) <==> x.snap.mode == db.t.pkgs[x.canonical].mode)
        && (Behind(r.value.t, x.canonical, id) <==> x.snap.mode != db.t.pkgs[x.canonical].mode)
  {
    hide RowsOf, ClonePackage, Shape;
    CloneEffect(db, id, x.canonical, x.snap, x.rows, supplier, filename);
    var r := ClonePackage(db, id, x.canonical, x.snap, x.rows, supplier, filename);
    if r.Some? {
      AddPackage(db.t, r.value.t, id, x.snap.(supplier := supplier, filename := filename, canonical := Some(x.canonical)), x.rows);
    }
  }

  /** Unpacking a canonical turns its mirrors into clones that are behind. */
  lemma UnpackShape(sha: Sha, db: Db, p: nat, items: seq<Item>, errStore: Store)
    requires WellShaped(db.t) && p in db.t.pkgs && db.t.pkgs[p].canonical == None
    ensures var r := UnpackTx(sha, db, p, items, errStore); r.Some? ==> WellShaped(r.value.t)
  {
    hide RowsOf, UnpackTx;
    UnpackEffect(sha, db, p, items, errStore);
    var r := UnpackTx(sha, db, p, items, errStore);
    if r.Some? {
      var u := r.value.t;
      assert Shape(db.t.pkgs[p].mode, RowsOf(db.t.files, p));
      assert Owned(u) by { assert Owned(u.(pkgs := db.t.pkgs)); }
      forall k, c | IsClone(u, k, c) ensures Linked(u, k, c) && (Mirrors(u, c, k) || Behind(u, c, k)) {
        assert IsClone(db.t, k, c);
        if c == p {
          assert RowsOf(u.files, k) == RowsOf(u.files, p)[..1];
        }
      }
    }
  }

  lemma ShapeAt(t: Tables, p: nat)
    requires WellShaped(t) && p in t.pkgs
    ensures Shape(t.pkgs[p].mode, RowsOf(t.files, p)) && Owned(t)
  {
  }

  lemma CloneAt(t: Tables, k: nat, c: nat)
    requires WellShaped(t) && IsClone(t, k, c)
    ensures Linked(t, k, c) && (Mirrors(t, c, k) || Behind(t, c, k))
  {
  }

  /** What propagation reads from a raw_large clone is empty. */
  lemma NothingPresent(t: Tables, k: nat, stale: bool)
    requires WellShaped(t) && k in t.pkgs && (stale || t.pkgs[k].mode == RawLarge)
    ensures Present(t, k, stale) == {}
  {
    hide RowsOf, PackageFileKey;
    ShapeAt(t, k);
    if !stale {
      ExtrasOfShape(RowsOf(t.files, k));
      assert RowsOf(t.files, k)[1..] == [];
    }
  }

  lemma NumberedTail(rows: seq<FileIn>)
    requires Numbered(rows) && rows != []
    ensures Numbered(rows[1..])
  {
  }

  /** Only package `k` changed: its columns to those of `pkg`, its rows to `rows`. */
  ghost predicate OnlyClone(t: Tables, u: Tables, k: nat, pkg: Package, rows: seq<FileIn>) {
    && u.pkgs == t.pkgs[k := pkg] && Owned(u)
    && RowsOf(u.files, k) == rows
    && forall q: nat :: q != k ==> RowsOf(u.files, q) == RowsOf(t.files, q)
  }

  lemma PropagateBehind(db: Db, c: nat, k: nat)
    requires WellShaped(db.t) && IsClone(db.t, k, c) && Behind(db.t, c, k)
    ensures var r := PropagateTx(db, c, k, {});
      r.Some? ==> OnlyClone(db.t, r.value.t, k,
        db.t.pkgs[k].(mode := ZipWithMembers, fileCount := db.t.pkgs[c].fileCount, unpackError := db.t.pkgs[c].unpackError),
        RowsOf(db.t.files, c))
  {
    hide RowsOf, CopyMissing, IncrementAll, WellShaped, Numbered;
    ShapeAt(db.t, c);
    ShapeAt(db.t, k);
    var rows := RowsOf(db.t.files, c);
    ExtrasOfShape(rows);
    NumberedTail(rows);
    NumberedNoClash(RowsOf(db.t.files, k));
    CopyEffect(k, db.t, rows[1..]);
    var r := CopyMissing(k, Copied(db.t, [], {}), rows[1..]);
    if r.Some? {
      IncrementAllEffect(r.value.t, r.value.hashes);
      assert rows[..1] + rows[1..] == rows;
    }
  }

  lemma NumberedNoClash(rows: seq<FileIn>)
    requires Numbered(rows)
    ensures NoClash(rows)
  {
  }

  /** A second propagation that raced with the first one changes nothing. */
  lemma PropagateMirror(db: Db, c: nat, k: nat)
    requires WellShaped(db.t) && IsClone(db.t, k, c) && Mirrors(db.t, c, k) && db.t.pkgs[c].mode == ZipWithMembers
    ensures var r := PropagateTx(db, c, k, {}); r.Some? ==> r.value == db
  {
    hide RowsOf, WellShaped;
    ShapeAt(db.t, c);
    var rows := RowsOf(db.t.files, c);
    ExtrasOfShape(rows);
    if |rows| > 1 {
      assert Clashes(rows[1], rows[1]);
      CopyClashes(k, db.t, rows[1..]);
    } else {
      assert rows[1..] == [];
    }
  }

  lemma MirrorAfter(t: Tables, u: Tables, c: nat, k: nat)
    requires WellShaped(t) && IsClone(t, k, c) && t.pkgs[c].canonical == None && t.pkgs[c].mode == ZipWithMembers
    requires OnlyClone(t, u, k,
      t.pkgs[k].(mode := ZipWithMembers, fileCount := t.pkgs[c].fileCount, unpackError := t.pkgs[c].unpackError),
      RowsOf(t.files, c))
    ensures WellShaped(u) && Mirrors(u, c, k)
  {
    hide RowsOf, Shape;
    forall k', c' | IsClone(u, k', c') ensures Linked(u, k', c') && (Mirrors(u, c', k') || Behind(u, c', k')) {
      assert IsClone(t, k', c');
    }
  }

  lemma PropagateShape(db: Db, c: nat, k: nat, stale: bool)
    requires WellShaped(db.t) && MayPropagate(db.t, c, k, stale)
    ensures var r := PropagateTx(db, c, k, Present(db.t, k, stale));
      r.Some? ==> WellShaped(r.value.t) && Mirrors(r.value.t, c, k)
  {
    hide RowsOf, PropagateTx, WellShaped, OnlyClone, Present;
    NothingPresent(db.t, k, stale);
    CloneAt(db.t, k, c);
    if Mirrors(db.t, c, k) {
      PropagateMirror(db, c, k);
    } else {
      PropagateBehind(db, c, k);
      var r := PropagateTx(db, c, k, {});
      if r.Some? { MirrorAfter(db.t, r.value.t, c, k); }
    }
  }

  lemma ShapedOwned(t: Tables)
    requires WellShaped(t)
    ensures Owned(t)
  {
  }

  lemma LowestShaped(t: Tables, c: nat)
    requires WellShaped(t) && Lowest(t, c)
    ensures t.pkgs[c].canonical == None
  {
    hide RowsOf, Shape;
    assert t.pkgs[c].canonical.Some? ==> IsClone(t, c, t.pkgs[c].canonical.value);
  }

  lemma UploadShape(sha: Sha, db: Db, id: nat, pkg: Package, body: Bytes, o: Store)
    requires WellShaped(db.t) && pkg.canonical == None
    ensures var r := IngestOriginal(sha, db, id, pkg, body, o); r.Some? ==> WellShaped(r.value.t)
  {
    hide RowsOf, IngestOriginal;
    OriginalEffect(sha, db, id, pkg, body, o);
    var r := IngestOriginal(sha, db, id, pkg, body, o);
    if r.Some? { AddPackage(db.t, r.value.t, id, pkg, [FileIn(sha(body), Original, pkg.filename, None)]); }
  }

  // ---- the propagation loop ----

  /** One clone of the loop; `ok` is whether the database lets its transaction commit. */
  function PropagateOne(db: Db, c: nat, k: nat, ok: bool): (Db, bool)
    requires c in db.t.pkgs
  {
    if k !in db.t.pkgs || db.t.pkgs[k].mode != RawLarge then (db, true) else
    if !ok then (db, false) else
    match PropagateTx(db, c, k, Present(db.t, k, false))
    case None => (db, false)
    case Some(d) => (d, true)
  }

  /** propagateUnpackToClones: stops at the first failed clone. */
  function PropagateLoop(db: Db, c: nat, ids: seq<nat>, ok: seq<bool>): (r: (Db, bool))
    requires c in db.t.pkgs && |ok| == |ids|
    ensures c in r.0.t.pkgs
  {
    if ids == [] then (db, true) else
    var n := |ids| - 1;
    var (d, good) := PropagateLoop(db, c, ids[..n], ok[..n]);
    if !good then (d, false) else
    PropagateKeepsPackages(d, c, ids[n], ok[n]);
    PropagateOne(d, c, ids[n], ok[n])
  }

  lemma PropagateKeepsPackages(db: Db, c: nat, k: nat, ok: bool)
    requires c in db.t.pkgs
    ensures db.t.pkgs.Keys <= PropagateOne(db, c, k, ok).0.t.pkgs.Keys
  {
    hide CopyMissing, IncrementAll, Extras, RowsOf;
    if k in db.t.pkgs && db.t.pkgs[k].mode == RawLarge && ok {
      var start := Copied(db.t, [], Present(db.t, k, false));
      CopyPkgs(k, start, Extras(RowsOf(db.t.files, c)));
      var r := CopyMissing(k, start, Extras(RowsOf(db.t.files, c)));
      if r.Some? { IncrementAllEffect(r.value.t, r.value.hashes); }
    }
  }

  lemma {:induction false} CopyPkgs(k: nat, start: Copied, extras: seq<FileIn>)
    ensures var r := CopyMissing(k, start, extras); r.Some? ==> r.value.t.pkgs == start.t.pkgs
  {
    hide RowsOf, PackageFileKey;
    if extras != [] { CopyPkgs(k, start, extras[..|extras| - 1]); }
  }

  /** What clone `k` of `c` looks like once it has been filled. */
  function Filled(t: Tables, c: nat, k: nat): Package
    requires c in t.pkgs && k in t.pkgs
  {
    t.pkgs[k].(mode := t.pkgs[c].mode, fileCount := t.pkgs[c].fileCount, unpackError := t.pkgs[c].unpackError)
  }

  /** From `t` to `u` some clones of `c` were filled and nothing else happened. */
  ghost predicate Between(t: Tables, u: Tables, c: nat) {
    && c in t.pkgs && t.pkgs[c].canonical == None && t.pkgs[c].mode == ZipWithMembers
    && WellShaped(u) && u.pkgs.Keys == t.pkgs.Keys
    && (forall q :: q in t.pkgs && !IsClone(t, q, c) ==> u.pkgs[q] == t.pkgs[q])
    && (forall q: nat :: !IsClone(t, q, c) ==> RowsOf(u.files, q) == RowsOf(t.files, q))
    && (forall q :: IsClone(t, q, c) ==> IsClone(u, q, c) && Filled(u, c, q) == Filled(t, c, q))
  }

  lemma BetweenHas(t: Tables, u: Tables, c: nat)
    requires Between(t, u, c)
    ensures c in u.pkgs
  {
  }

  lemma OneBetween(t: Tables, db: Db, c: nat, k: nat, ok: bool)
    requires Between(t, db.t, c) && IsClone(t, k, c)
    ensures var (d, good) := PropagateOne(db, c, k, ok);
      && Between(t, d.t, c) && (good ==> Mirrors(d.t, c, k))
      && forall q :: q != k && Mirrors(db.t, c, q) ==> Mirrors(d.t, c, q)
  {
    hide RowsOf, WellShaped, PropagateTx, Present;
    CloneAt(db.t, k, c);
    if db.t.pkgs[k].mode == RawLarge && ok {
      hide Between, OnlyClone, Mirrors;
      BetweenReady(t, db.t, c, k);
      PropagateShape(db, c, k, false);
      NothingPresent(db.t, k, false);
      PropagateBehind(db, c, k);
      var r := PropagateTx(db, c, k, Present(db.t, k, false));
      if r.Some? { FillBetween(t, db.t, r.value.t, c, k); }
    }
  }

  lemma BetweenReady(t: Tables, u: Tables, c: nat, k: nat)
    requires Between(t, u, c) && IsClone(t, k, c)
    ensures WellShaped(u) && c in u.pkgs && u.pkgs[c].mode == ZipWithMembers && IsClone(u, k, c)
    ensures k in u.pkgs && u.pkgs[k].mode == RawLarge ==> Behind(u, c, k)
  {
  }

  lemma FillBetween(t: Tables, u: Tables, v: Tables, c: nat, k: nat)
    requires Between(t, u, c) && IsClone(t, k, c) && WellShaped(v) && c in u.pkgs && k in u.pkgs && u.pkgs[c].mode == ZipWithMembers
    requires OnlyClone(u, v, k,
      u.pkgs[k].(mode := ZipWithMembers, fileCount := u.pkgs[c].fileCount, unpackError := u.pkgs[c].unpackError), RowsOf(u.files, c))
    ensures Between(t, v, c) && forall q :: q != k && Mirrors(u, c, q) ==> Mirrors(v, c, q)
  {
    hide RowsOf, WellShaped, Owned;
    assert c != k && v.pkgs[c] == u.pkgs[c];
    assert v.pkgs.Keys == t.pkgs.Keys;
    forall q | IsClone(t, q, c) ensures IsClone(v, q, c) && Filled(v, c, q) == Filled(t, c, q) {
      assert IsClone(u, q, c) && Filled(u, c, q) == Filled(t, c, q);
    }
    forall q: nat | !IsClone(t, q, c) ensures RowsOf(v.files, q) == RowsOf(t.files, q) {
      assert q != k;
    }
  }

  lemma {:induction false} LoopBetween(t: Tables, db: Db, c: nat, ids: seq<nat>, ok: seq<bool>)
    requires Between(t, db.t, c) && c in db.t.pkgs && |ok| == |ids|
    requires forall i :: 0 <= i < |ids| ==> IsClone(t, ids[i], c)
    ensures var (d, good) := PropagateLoop(db, c, ids, ok);
      && Between(t, d.t, c)
      && (good ==> forall i :: 0 <= i < |ids| ==> Mirrors(d.t, c, ids[i]))
  {
    hide Between, Mirrors, PropagateOne, IsClone;
    if ids != [] {
      var n := |ids| - 1;
      BetweenHas(t, db.t, c);
      LoopBetween(t, db, c, ids[..n], ok[..n]);
      var (d, good) := PropagateLoop(db, c, ids[..n], ok[..n]);
      OneBetween(t, d, c, ids[n], ok[n]);
      if good {
        var (e, g) := PropagateOne(d, c, ids[n], ok[n]);
        forall i | 0 <= i < |ids| && g ensures Mirrors(e.t, c, ids[i]) {
          if i < n && ids[i] != ids[n] { assert ids[i] == ids[..n][i]; }
        }
      }
    }
  }

  /** The list ListClonePackageIDs returns. */
  ghost predicate ListsClones(t: Tables, c: nat, ids: seq<nat>) {
    forall k: nat :: k in ids <==> IsClone(t, k, c)
  }

  ghost predicate Ready(t: Tables, c: nat) {
    WellShaped(t) && c in t.pkgs && t.pkgs[c].canonical == None && t.pkgs[c].mode == ZipWithMembers
  }

  /** A propagation that reports success leaves every clone mirroring its canonical. */
  lemma SuccessfulPropagationMirrors(db: Db, c: nat, ids: seq<nat>, ok: seq<bool>)
    requires Ready(db.t, c) && ListsClones(db.t, c, ids) && |ok| == |ids|
    ensures var (d, good) := PropagateLoop(db, c, ids, ok);
      && Between(db.t, d.t, c)
      && (good ==> forall k :: IsClone(db.t, k, c) ==> Mirrors(d.t, c, k))
  {
    hide Mirrors, PropagateLoop, RowsOf, WellShaped;
    LoopBetween(db.t, db, c, ids, ok);
    forall k | IsClone(db.t, k, c) ensures exists i :: 0 <= i < |ids| && ids[i] == k {
      assert k in ids;
    }
  }

  lemma AllFilled(t: Tables, u: Tables, c: nat, ids: seq<nat>)
    requires Between(t, u, c) && ListsClones(t, c, ids) && forall i :: 0 <= i < |ids| ==> Mirrors(u, c, ids[i])
    ensures forall q :: q in t.pkgs ==> q in u.pkgs && u.pkgs[q] == if IsClone(t, q, c) then Filled(t, c, q) else t.pkgs[q]
    ensures forall q: nat :: RowsOf(u.files, q) == if IsClone(t, q, c) then RowsOf(t.files, c) else RowsOf(t.files, q)
  {
  }
}
