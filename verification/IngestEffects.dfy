/** What each ingest transaction does to packages and to the rows of every package. */
module IngestEffects {
  import opened Bytes
  import opened Metadata
  import opened FileKey
  import opened Ingestion

  lemma {:induction false} NoRowsBeforeInsert(files: seq<Row>, p: nat)
    requires forall i :: 0 <= i < |files| ==> files[i].pkg != p
    ensures RowsOf(files, p) == []
  {
    if files != [] { NoRowsBeforeInsert(files[..|files| - 1], p); }
  }

  lemma AfterStoreAdds(t: Tables, h: Hash, o: Store, p: nat)
    ensures Adds(t, AfterStore(t, h, o), p) && AfterStore(t, h, o).files == t.files
  {
  }

  lemma StoreAndFileAdds(t: Tables, h: Hash, o: Store, p: nat, f: FileIn)
    requires f.role != Original && (f.role == Member ==> f.seqNo.Some?) && CreateFile(AfterStore(t, h, o), p, f).Some?
    ensures Adds(t, CreateFile(AfterStore(t, h, o), p, f).value, p)
  {
    hide CreateFile, AfterStore, Adds;
    AfterStoreAdds(t, h, o, p);
    FileAdds(AfterStore(t, h, o), p, f);
    AddsTrans(t, AfterStore(t, h, o), CreateFile(AfterStore(t, h, o), p, f).value, p);
  }

  lemma AddsRefl(t: Tables, p: nat)
    ensures Adds(t, t, p)
  {
  }

  lemma {:induction false} MembersAdd(sha: Sha, p: nat, start: Progress, items: seq<Item>)
    requires !start.dead
    ensures var pr := Members(sha, p, start, items);
      if pr.dead then pr.stop.Some? else Adds(start.t, pr.t, p)
  {
    hide CreateFile, AfterStore, Adds;
    if items == [] {
      AddsRefl(start.t, p);
    } else {
      var n := |items| - 1;
      MembersAdd(sha, p, start, items[..n]);
      var pr := Members(sha, p, start, items[..n]);
      if pr.stop == None && items[n].Item? && !pr.dead {
        var Item(name, data, o) := items[n];
        var t := AfterStore(pr.t, sha(data), o);
        AfterStoreAdds(pr.t, sha(data), o, p);
        AddsTrans(start.t, pr.t, t, p);
        var f := FileIn(sha(data), Member, Some(name), Some(pr.members));
        if CreateFile(t, p, f).Some? {
          StoreAndFileAdds(pr.t, sha(data), o, p, f);
          AddsTrans(start.t, pr.t, CreateFile(t, p, f).value, p);
        }
      }
    }
  }

  lemma ErrorAdds(sha: Sha, t: Tables, p: nat, msg: Bytes, o: Store)
    ensures var r := PersistUnpackError(sha, t, p, msg, o); r.Some? ==> Adds(t, r.value, p)
  {
    hide CreateFile, AfterStore, Adds;
    if PersistUnpackError(sha, t, p, msg, o).Some? {
      StoreAndFileAdds(t, sha(msg), o, p, FileIn(sha(msg), UnpackError, Some(UNPACK_ERROR_FILENAME), None));
    }
  }

  lemma PersistAdds(sha: Sha, db: Db, p: nat, items: seq<Item>, errStore: Store)
    ensures var r := PersistZipMembers(sha, db, p, items, errStore); r.Done? ==> Adds(db.t, r.t, p)
  {
    hide PersistUnpackError, Members, Adds;
    var start := Progress(db.t, 0, db.orphans, None, false);
    MembersAdd(sha, p, start, items);
    var pr := Members(sha, p, start, items);
    if pr.stop.Some? && !pr.dead {
      ErrorAdds(sha, pr.t, p, pr.stop.value, errStore);
      var r := PersistUnpackError(sha, pr.t, p, pr.stop.value, errStore);
      if r.Some? { AddsTrans(db.t, pr.t, r.value, p); }
    }
  }

  /** `u` is `t` plus package `id`, described by `pkg`, with rows `rows`. */
  ghost predicate NewPackage(t: Tables, u: Tables, id: nat, pkg: Package, rows: seq<FileIn>) {
    && id !in t.pkgs && u.pkgs == t.pkgs[id := pkg]
    && RowsOf(u.files, id) == rows && NoClash(rows) && Owned(u)
    && forall q: nat :: q != id ==> RowsOf(u.files, q) == RowsOf(t.files, q)
  }

  lemma OriginalEffect(sha: Sha, db: Db, id: nat, pkg: Package, body: Bytes, o: Store)
    requires Owned(db.t)
    ensures var r := IngestOriginal(sha, db, id, pkg, body, o);
      r.Some? ==> NewPackage(db.t, r.value.t, id, pkg, [FileIn(sha(body), Original, pkg.filename, None)])
  {
    hide RowsOf, CreateFile, AfterStore;
    if IngestOriginal(sha, db, id, pkg, body, o).Some? {
      var t := AfterStore(db.t, sha(body), o);
      AfterStoreAdds(db.t, sha(body), o, id);
      var u := CreatePackage(t, id, pkg).value;
      NoRowsBeforeInsert(u.files, id);
      var f := FileIn(sha(body), Original, pkg.filename, None);
      FileRows(u, id, f);
      FilePkgs(u, id, f);
    }
  }

  lemma FilePkgs(t: Tables, p: nat, f: FileIn)
    requires CreateFile(t, p, f).Some?
    ensures CreateFile(t, p, f).value.pkgs == t.pkgs && CreateFile(t, p, f).value.blobs == t.blobs
  {
  }

  /** A small ZIP ends as one package whose rows are the original followed by members or an error. */
  lemma SmallZipEffect(sha: Sha, db: Db, id: nat, supplier: int, body: Bytes, filename: Option<string>, o: Store,
                       precheck: Option<Bytes>, entries: nat, items: seq<Item>, errStore: Store)
    requires Owned(db.t)
    ensures var r := IngestSmallZIP(sha, db, id, supplier, body, filename, o, precheck, entries, items, errStore);
      r.Some? ==>
        var rows := RowsOf(r.value.t.files, id);
        && id in r.value.t.pkgs
        && NewPackage(db.t, r.value.t, id, r.value.t.pkgs[id], rows)
        && r.value.t.pkgs[id].mode == ZipWithMembers && r.value.t.pkgs[id].canonical == None
        && r.value.t.pkgs[id].hash == sha(body)
        && Numbered(rows) && |rows| >= 1 && rows[0] == FileIn(sha(body), Original, filename, None)
        && forall i :: 1 <= i < |rows| ==> rows[i].role != Original
  {
    hide IngestOriginal, PersistUnpackError, PersistZipMembers, RowsOf;
    var pkg := Package(supplier, sha(body), ZIP, ZipWithMembers, filename, None,
                       if precheck.Some? then 2 else 1 + entries, precheck);
    OriginalEffect(sha, db, id, pkg, body, o);
    var d := IngestOriginal(sha, db, id, pkg, body, o);
    if d.Some? {
      if precheck.Some? {
        ErrorAdds(sha, d.value.t, id, precheck.value, errStore);
      } else {
        PersistAdds(sha, d.value, id, items, errStore);
      }
    }
  }

  lemma {:induction false} InsertEffect(t: Tables, p: nat, rows: seq<FileIn>)
    requires Owned(t) && InsertRows(t, p, rows).Some? && NoClash(RowsOf(t.files, p))
    ensures var u := InsertRows(t, p, rows).value;
      && u.pkgs == t.pkgs && Owned(u)
      && RowsOf(u.files, p) == RowsOf(t.files, p) + rows && NoClash(RowsOf(u.files, p))
      && forall q: nat :: q != p ==> RowsOf(u.files, q) == RowsOf(t.files, q)
  {
    hide RowsOf, CreateFile, NoClash, Owned;
    if rows != [] {
      var n := |rows| - 1;
      InsertEffect(t, p, rows[..n]);
      var u := InsertRows(t, p, rows[..n]).value;
      FileRows(u, p, rows[n]);
      FilePkgs(u, p, rows[n]);
      assert rows[..n] + [rows[n]] == rows;
      assert RowsOf(t.files, p) + rows[..n] + [rows[n]] == RowsOf(t.files, p) + (rows[..n] + [rows[n]]);
    } else {
      assert RowsOf(t.files, p) + rows == RowsOf(t.files, p);
    }
  }

  lemma {:induction false} IncrementAllEffect(t: Tables, hs: seq<Hash>)
    ensures var u := IncrementAll(t, hs); u.files == t.files && u.pkgs == t.pkgs && u.blobs.Keys == t.blobs.Keys
  {
    if hs != [] { IncrementAllEffect(t, hs[..|hs| - 1]); }
  }

  lemma CloneEffect(db: Db, id: nat, c: nat, snap: Package, rows: seq<FileIn>, supplier: int, filename: Option<string>)
    requires Owned(db.t)
    ensures var r := ClonePackage(db, id, c, snap, rows, supplier, filename);
      r.Some? ==> c in db.t.pkgs && NewPackage(db.t, r.value.t, id,
        snap.(supplier := supplier, filename := filename, canonical := Some(c)), rows)
  {
    hide RowsOf, InsertRows, IncrementAll;
    if ClonePackage(db, id, c, snap, rows, supplier, filename).Some? {
      var t := CreatePackage(db.t, id, snap.(supplier := supplier, filename := filename, canonical := Some(c))).value;
      NoRowsBeforeInsert(t.files, id);
      InsertEffect(t, id, rows);
      assert [] + rows == rows;
      IncrementAllEffect(InsertRows(t, id, rows).value, BlobsOf(rows));
    }
  }

  /** `u` is `t` with rows added to `p` and, for a raw_large `p`, the result columns set. */
  lemma UnpackEffect(sha: Sha, db: Db, p: nat, items: seq<Item>, errStore: Store)
    ensures var r := UnpackTx(sha, db, p, items, errStore);
      r.Some? ==>
        && p in db.t.pkgs && db.t.pkgs[p].mode == RawLarge && p in r.value.t.pkgs
        && r.value.t.pkgs == db.t.pkgs[p := r.value.t.pkgs[p]]
        && r.value.t.pkgs[p] == db.t.pkgs[p].(mode := ZipWithMembers, fileCount := r.value.t.pkgs[p].fileCount, unpackError := r.value.t.pkgs[p].unpackError)
        && Adds(db.t, r.value.t.(pkgs := db.t.pkgs), p)
  {
    hide PersistZipMembers, RowsOf, Owned, Numbered;
    PersistAdds(sha, db, p, items, errStore);
    var r := UnpackTx(sha, db, p, items, errStore);
    if r.Some? {
      var d := PersistZipMembers(sha, db, p, items, errStore);
      assert r.value.t.(pkgs := db.t.pkgs) == d.t;
    }
  }

  // ---- propagation ----

  lemma DistinctKeys(rows: seq<FileIn>, i: nat, j: nat)
    requires Numbered(rows) && i < j < |rows|
    ensures PackageFileKey(rows[i]) != PackageFileKey(rows[j])
  {
    hide PackageFileKey;
    KeyInjective(rows[i], rows[j]);
  }

  lemma KeysSnoc(rows: seq<FileIn>, f: FileIn)
    ensures Keys(rows + [f]) == Keys(rows) + {PackageFileKey(f)}
  {
    hide PackageFileKey;
    var all := rows + [f];
    forall s ensures s in Keys(all) <==> s in Keys(rows) + {PackageFileKey(f)} {
      if s in Keys(rows) {
        var i :| 0 <= i < |rows| && PackageFileKey(rows[i]) == s;
        assert all[i] == rows[i];
      }
      if s == PackageFileKey(f) { assert all[|rows|] == f; }
    }
  }

  /** With nothing present yet, a successful copy takes every row once, in order. */
  lemma {:induction false} CopyEffect(k: nat, t: Tables, extras: seq<FileIn>)
    requires Numbered(extras) && Owned(t) && NoClash(RowsOf(t.files, k))
    ensures var r := CopyMissing(k, Copied(t, [], {}), extras);
      r.Some? ==>
        && r.value.existing == Keys(extras)
        && r.value.t.pkgs == t.pkgs && Owned(r.value.t)
        && RowsOf(r.value.t.files, k) == RowsOf(t.files, k) + extras && NoClash(RowsOf(r.value.t.files, k))
        && (forall q: nat :: q != k ==> RowsOf(r.value.t.files, q) == RowsOf(t.files, q))
  {
    hide RowsOf, CreateFile, PackageFileKey, Owned;
    if extras == [] {
      assert RowsOf(t.files, k) + extras == RowsOf(t.files, k);
    } else {
      var n := |extras| - 1;
      CopyEffect(k, t, extras[..n]);
      var r := CopyMissing(k, Copied(t, [], {}), extras[..n]);
      if r.Some? {
        assert PackageFileKey(extras[n]) !in r.value.existing by {
          forall i | 0 <= i < n ensures PackageFileKey(extras[i]) != PackageFileKey(extras[n]) {
            DistinctKeys(extras, i, n);
          }
        }
        if CreateFile(r.value.t, k, extras[n]).Some? {
          FileRows(r.value.t, k, extras[n]);
          FilePkgs(r.value.t, k, extras[n]);
        }
        KeysSnoc(extras[..n], extras[n]);
        assert extras[..n] + [extras[n]] == extras;
        assert RowsOf(t.files, k) + extras[..n] + [extras[n]] == RowsOf(t.files, k) + extras;
      }
    }
  }

  /** A row that is already there makes the copy fail on its unique index. */
  lemma {:induction false} CopyClashes(k: nat, t: Tables, extras: seq<FileIn>)
    requires extras != [] && Clash(RowsOf(t.files, k), extras[0])
    ensures CopyMissing(k, Copied(t, [], {}), extras) == None
  {
    hide RowsOf, PackageFileKey;
    if |extras| == 1 {
      assert extras[..0] == [];
      assert CopyMissing(k, Copied(t, [], {}), extras[..0]) == Some(Copied(t, [], {}));
    } else {
      CopyClashes(k, t, extras[..|extras| - 1]);
    }
  }

  lemma {:induction false} ExtrasOfShape(rows: seq<FileIn>)
    requires rows != [] && rows[0].role == Original && forall i :: 1 <= i < |rows| ==> rows[i].role != Original
    ensures Extras(rows) == rows[1..]
  {
    var n := |rows| - 1;
    if n > 0 {
      ExtrasOfShape(rows[..n]);
      assert rows[..n][1..] + [rows[n]] == rows[1..];
    } else {
      assert rows[..n] == [];
    }
  }
}
