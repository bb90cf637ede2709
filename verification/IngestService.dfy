/**
 The repository and the ingest service as they run: maps updated in place, loops over members,
 rows and clones, transactions rolled back on error. Each method refines a function of Ingestion.
 */
module IngestService {
  import opened Bytes
  import opened Metadata
  import opened FileKey
  import opened Ingestion
  import opened Mirror
  import opened UnpackLarge
  import opened IngestEffects

  class Repository {
    var blobs: map<Hash, Blob>
    var pkgs: map<nat, Package>
    var files: seq<Row>
    var nextFile: nat

    constructor ()
      ensures View() == EMPTY
    {
      blobs, pkgs, files, nextFile := map[], map[], [], 1;
    }

    function View(): Tables
      reads this
    {
      Tables(blobs, pkgs, files, nextFile)
    }

    /** WithTx's rollback. */
    method Rollback(t: Tables)
      modifies this
      ensures View() == t
    {
      blobs, pkgs, files, nextFile := t.blobs, t.pkgs, t.files, t.nextFile;
    }

    method InsertBlobOrIncrement(h: Hash, b: Blob) returns (inserted: bool)
      modifies this`blobs
      ensures (View(), inserted) == Metadata.InsertBlobOrIncrement(old(View()), h, b)
    {
      inserted := h !in blobs;
      blobs := blobs[h := if inserted then b else blobs[h].(ref := blobs[h].ref + 1)];
    }

    method IncrementRefCounts(hashes: seq<Hash>)
      modifies this`blobs
      ensures View() == IncrementAll(old(View()), hashes)
    {
      for i := 0 to |hashes|
        invariant View() == IncrementAll(old(View()), hashes[..i])
      {
        assert hashes[..i + 1][..i] == hashes[..i];
        var h := hashes[i];
        if h in blobs { blobs := blobs[h := blobs[h].(ref := blobs[h].ref + 1)]; }
      }
      assert hashes[..|hashes|] == hashes;
    }

    method CreatePackage(id: nat, p: Package) returns (ok: bool)
      modifies this`pkgs
      ensures ok <==> Metadata.CreatePackage(old(View()), id, p).Some?
      ensures View() == if ok then Metadata.CreatePackage(old(View()), id, p).value else old(View())
    {
      ok := id !in pkgs && (p.canonical == None || p.canonical.value in pkgs);
      if ok { pkgs := pkgs[id := p]; }
    }

    method CreatePackageFile(p: nat, f: FileIn) returns (ok: bool)
      modifies this`files, this`nextFile
      ensures ok <==> CreateFile(old(View()), p, f).Some?
      ensures View() == if ok then CreateFile(old(View()), p, f).value else old(View())
    {
      var clash := false;
      var rows := RowsOf(files, p);
      for i := 0 to |rows|
        invariant clash <==> exists j :: 0 <= j < i && Clashes(rows[j], f)
      {
        clash := clash || Clashes(rows[i], f);
      }
      ok := p in pkgs && f.blob in blobs && !clash;
      if ok { files, nextFile := files + [Row(nextFile, p, f)], nextFile + 1; }
    }

    method UpdatePackageAfterUnpack(p: nat, mode: Mode, fileCount: nat, err: Option<Bytes>) returns (updated: bool)
      modifies this`pkgs
      ensures (View(), updated) == UpdateAfterUnpack(old(View()), p, mode, fileCount, err)
    {
      updated := p in pkgs && pkgs[p].mode == RawLarge;
      if updated { pkgs := pkgs[p := pkgs[p].(mode := mode, fileCount := fileCount, unpackError := err)]; }
    }
  }

  /** The content_blobs effect of StoreOrRef; `failed` carries its error. */
  method StoreOrRef(repo: Repository, h: Hash, o: Store) returns (failed: Option<Bytes>)
    modifies repo`blobs
    ensures repo.View() == AfterStore(old(repo.View()), h, o)
    ensures failed == match o { case Kept(_) => None case FailedBefore(m) => Some(m) case FailedAfter(_, m) => Some(m) case SqlFailed(m) => Some(m) }
  {
    match o
    case Kept(place) => var _ := repo.InsertBlobOrIncrement(h, NewBlob(place)); failed := None;
    case FailedAfter(place, m) => var _ := repo.InsertBlobOrIncrement(h, NewBlob(place)); failed := Some(m);
    case FailedBefore(m) => failed := Some(m);
    case SqlFailed(m) => failed := Some(m);
  }

  method PersistErrorRow(sha: Sha, repo: Repository, p: nat, msg: Bytes, o: Store) returns (ok: bool)
    modifies repo
    ensures ok <==> PersistUnpackError(sha, old(repo.View()), p, msg, o).Some?
    ensures ok ==> repo.View() == PersistUnpackError(sha, old(repo.View()), p, msg, o).value
  {
    hide CreateFile;
    var failed := StoreOrRef(repo, sha(msg), o);
    if failed.Some? { return false; }
    ok := repo.CreatePackageFile(p, FileIn(sha(msg), UnpackError, Some(UNPACK_ERROR_FILENAME), None));
  }

  /** The callback of persistZipMembers for one archive item. */
  method StoreMember(sha: Sha, repo: Repository, p: nat, item: Item, count: nat, ghost orphans: multiset<Hash>)
    returns (memberCount: nat, stop: Option<Bytes>, dead: bool, ghost lost: multiset<Hash>)
    modifies repo
    ensures Progress(repo.View(), memberCount, lost, stop, dead) ==
      MemberStep(sha, p, Progress(old(repo.View()), count, orphans, None, false), item)
  {
    hide CreateFile, AfterStore;
    memberCount, stop, dead, lost := count, None, false, orphans;
    match item {
      case Broken(msg) => stop := Some(msg);
      case Item(name, data, o) =>
        var h := sha(data);
        StoreLeaves(repo.View(), h, o);
        stop := StoreOrRef(repo, h, o);
        dead := o.SqlFailed?;
        if o.FailedAfter? { lost := lost + multiset{h}; }
        if stop == None {
          var f := FileIn(h, Member, Some(name), Some(memberCount));
          memberCount := memberCount + 1;
          var ok := repo.CreatePackageFile(p, f);
          if !ok { stop, dead := Some(KEY_VIOLATION), true; }
        }
    }
  }

  /** The member loop of persistZipMembers: a failing callback ends it and becomes the unpack error. */
  method StoreMembers(sha: Sha, repo: Repository, p: nat, items: seq<Item>, ghost orphans: multiset<Hash>)
    returns (memberCount: nat, stop: Option<Bytes>, dead: bool, ghost lost: multiset<Hash>)
    modifies repo
    ensures Progress(repo.View(), memberCount, lost, stop, dead) ==
      Members(sha, p, Progress(old(repo.View()), 0, orphans, None, false), items)
  {
    hide MemberStep;
    memberCount, stop, dead, lost := 0, None, false, orphans;
    ghost var start := Progress(repo.View(), 0, orphans, None, false);
    for i := 0 to |items|
      invariant Progress(repo.View(), memberCount, lost, stop, dead) == Members(sha, p, start, items[..i])
      invariant stop == None ==> !dead
    {
      assert items[..i + 1][..i] == items[..i];
      if stop == None {
        memberCount, stop, dead, lost := StoreMember(sha, repo, p, items[i], memberCount, lost);
        DeadStops(sha, p, Members(sha, p, start, items[..i]), items[i]);
      } else {
        StaysStopped(sha, p, Members(sha, p, start, items[..i]), items[i]);
      }
    }
    assert items[..|items|] == items;
  }

  lemma DeadStops(sha: Sha, p: nat, pr: Progress, item: Item)
    requires pr.stop == None && !pr.dead
    ensures MemberStep(sha, p, pr, item).dead ==> MemberStep(sha, p, pr, item).stop.Some?
  {
  }

  lemma StaysStopped(sha: Sha, p: nat, pr: Progress, item: Item)
    requires pr.stop.Some?
    ensures MemberStep(sha, p, pr, item) == pr
  {
  }

  lemma StoreLeaves(t: Tables, h: Hash, o: Store)
    ensures o.FailedBefore? || o.SqlFailed? ==> AfterStore(t, h, o) == t
  {
  }

  /** The unpack transaction of UnpackLargePackage. */
  method UnpackTransaction(sha: Sha, repo: Repository, p: nat, items: seq<Item>, errStore: Store, ghost orphans: multiset<Hash>)
    returns (ok: bool)
    modifies repo
    ensures var r := UnpackTx(sha, Db(old(repo.View()), orphans), p, items, errStore);
      (ok <==> r.Some?) && repo.View() == if ok then r.value.t else old(repo.View())
  {
    hide Members, PersistUnpackError, UpdateAfterUnpack;
    var before := repo.View();
    if p !in repo.pkgs || repo.pkgs[p].mode != RawLarge { return false; }
    var memberCount, stop, dead, lost := StoreMembers(sha, repo, p, items, orphans);
    var fileCount := 1 + memberCount;
    if stop.Some? {
      fileCount, ok := 2, false;
      if !dead { ok := PersistErrorRow(sha, repo, p, stop.value, errStore); }
      if !ok { repo.Rollback(before); return; }
    }
    var _ := repo.UpdatePackageAfterUnpack(p, ZipWithMembers, fileCount, stop);
    ok := true;
  }

  method CloneTransaction(repo: Repository, id: nat, c: nat, snap: Package, rows: seq<FileIn>, supplier: int,
                          filename: Option<string>, ghost orphans: multiset<Hash>) returns (ok: bool)
    modifies repo
    ensures var r := ClonePackage(Db(old(repo.View()), orphans), id, c, snap, rows, supplier, filename);
      (ok <==> r.Some?) && repo.View() == if ok then r.value.t else old(repo.View())
  {
    hide CreateFile, Metadata.CreatePackage, IncrementAll;
    var before := repo.View();
    ok := repo.CreatePackage(id, snap.(supplier := supplier, filename := filename, canonical := Some(c)));
    if !ok { return; }
    ghost var t := repo.View();
    var hashes := [];
    assert rows[..0] == [];
    for i := 0 to |rows|
      invariant InsertRows(t, id, rows[..i]) == Some(repo.View()) && hashes == BlobsOf(rows[..i])
    {
      assert rows[..i + 1][..i] == rows[..i];
      ok := repo.CreatePackageFile(id, rows[i]);
      if !ok {
        InsertStops(t, id, rows, i + 1);
        repo.Rollback(before);
        return;
      }
      hashes := hashes + [rows[i].blob];
    }
    assert rows[..|rows|] == rows;
    repo.IncrementRefCounts(hashes);
    ok := true;
  }

  lemma {:induction false} InsertStops(t: Tables, p: nat, rows: seq<FileIn>, n: nat)
    requires n <= |rows| && InsertRows(t, p, rows[..n]) == None
    ensures InsertRows(t, p, rows) == None
  {
    hide CreateFile;
    if n < |rows| {
      var m := |rows| - 1;
      assert rows[..m][..n] == rows[..n];
      InsertStops(t, p, rows[..m], n);
    } else {
      assert rows[..n] == rows;
    }
  }

  lemma {:induction false} CopyStops(k: nat, start: Copied, extras: seq<FileIn>, n: nat)
    requires n <= |extras| && CopyMissing(k, start, extras[..n]) == None
    ensures CopyMissing(k, start, extras) == None
  {
    hide CopyRow;
    if n < |extras| {
      var m := |extras| - 1;
      assert extras[..m][..n] == extras[..n];
      CopyStops(k, start, extras[..m], n);
    } else {
      assert extras[..n] == extras;
    }
  }

  /** The per-clone transaction of propagateUnpackToClones. */
  method PropagateTransaction(repo: Repository, c: nat, k: nat, present: set<string>, ghost orphans: multiset<Hash>) returns (ok: bool)
    requires c in repo.pkgs
    modifies repo
    ensures var r := PropagateTx(Db(old(repo.View()), orphans), c, k, present);
      (ok <==> r.Some?) && repo.View() == if ok then r.value.t else old(repo.View())
  {
    hide CreateFile, IncrementAll, Extras, RowsOf, PackageFileKey;
    var before := repo.View();
    var canonical := repo.pkgs[c];
    var extras := Extras(RowsOf(repo.files, c));
    var hashes, existing := [], present;
    ghost var start := Copied(before, [], present);
    assert extras[..0] == [];
    for i := 0 to |extras|
      invariant CopyMissing(k, start, extras[..i]) == Some(Copied(repo.View(), hashes, existing))
    {
      assert extras[..i + 1][..i] == extras[..i];
      var f := extras[i];
      var key := PackageFileKey(f);
      if key !in existing {
        ok := repo.CreatePackageFile(k, f);
        if !ok {
          CopyStops(k, start, extras, i + 1);
          repo.Rollback(before);
          return;
        }
        hashes, existing := hashes + [f.blob], existing + {key};
      }
    }
    assert extras[..|extras|] == extras;
    repo.IncrementRefCounts(hashes);
    var _ := repo.UpdatePackageAfterUnpack(k, ZipWithMembers, canonical.fileCount, canonical.unpackError);
    ok := true;
  }

  /** propagateUnpackToClones over the listed clones; `commits` is the database's mood per clone. */
  method PropagateToClones(repo: Repository, c: nat, ids: seq<nat>, commits: seq<bool>, ghost orphans: multiset<Hash>) returns (good: bool)
    requires c in repo.pkgs && |commits| == |ids|
    modifies repo
    ensures (Db(repo.View(), orphans), good) == PropagateLoop(Db(old(repo.View()), orphans), c, ids, commits)
  {
    hide PropagateTx, Extras, RowsOf, Keys;
    ghost var db := Db(repo.View(), orphans);
    good := true;
    assert ids[..0] == [];
    for i := 0 to |ids|
      invariant c in repo.pkgs && good
      invariant (Db(repo.View(), orphans), true) == PropagateLoop(db, c, ids[..i], commits[..i])
    {
      assert ids[..i + 1][..i] == ids[..i] && commits[..i + 1][..i] == commits[..i];
      ghost var d := Db(repo.View(), orphans);
      var k := ids[i];
      PropagateKeepsPackages(d, c, k, commits[i]);
      PropagateOrphans(d, c, k);
      if k in repo.pkgs && repo.pkgs[k].mode == RawLarge {
        good := commits[i];
        if good {
          var present := Keys(Extras(RowsOf(repo.files, k)));
          good := PropagateTransaction(repo, c, k, present, orphans);
        }
        if !good {
          LoopStops(db, c, ids, commits, i + 1);
          return;
        }
      }
    }
    assert ids[..|ids|] == ids && commits[..|ids|] == commits;
  }

  lemma PropagateOrphans(db: Db, c: nat, k: nat)
    requires c in db.t.pkgs
    ensures forall present :: PropagateTx(db, c, k, present).Some? ==> PropagateTx(db, c, k, present).value.orphans == db.orphans
  {
  }

  lemma {:induction false} LoopStops(db: Db, c: nat, ids: seq<nat>, ok: seq<bool>, n: nat)
    requires c in db.t.pkgs && |ok| == |ids| && n <= |ids| && !PropagateLoop(db, c, ids[..n], ok[..n]).1
    ensures PropagateLoop(db, c, ids, ok) == PropagateLoop(db, c, ids[..n], ok[..n])
  {
    hide PropagateOne;
    if n < |ids| {
      var m := |ids| - 1;
      assert ids[..m][..n] == ids[..n] && ok[..m][..n] == ok[..n];
      LoopStops(db, c, ids[..m], ok[..m], n);
    } else {
      assert ids[..n] == ids && ok[..n] == ok;
    }
  }

  /**
   UnpackLargePackage: `ids` are the listed clones, `a` the archive and what goes wrong. Unpacks a
   raw_large package once, then fills the clones.
   */
  method RunUnpackLargePackage(sha: Sha, repo: Repository, p: nat, ids: seq<nat>, a: Attempt, ghost orphans: multiset<Hash>)
    returns (ok: bool, ghost lost: multiset<Hash>)
    requires |a.clones| == |ids|
    modifies repo
    ensures (Db(repo.View(), lost), ok) == UnpackLargePackage(sha, Db(old(repo.View()), orphans), p, ids, a)
  {
    hide UnpackTx, PropagateLoop;
    lost := orphans;
    if p !in repo.pkgs { return false, lost; }
    if repo.pkgs[p].mode == Single { return true, lost; }
    if repo.pkgs[p].mode == RawLarge {
      if !a.read || !a.commit { return false, lost; }
      ghost var r := UnpackTx(sha, Db(repo.View(), orphans), p, a.items, a.errStore);
      UnpackEffect(sha, Db(repo.View(), orphans), p, a.items, a.errStore);
      ok := UnpackTransaction(sha, repo, p, a.items, a.errStore, orphans);
      if !ok { return; }
      lost := r.value.orphans;
    }
    ok := PropagateToClones(repo, p, ids, a.clones, lost);
  }
}
