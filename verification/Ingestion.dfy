/**
 The ingest, clone, unpack and propagate transactions as functions on the tables
 (internal/ingestion/package.go, internal/ingestion/unpack_large.go).
 */
module Ingestion {
  import opened Bytes
  import opened Metadata
  import opened FileKey

  /** SHA-256 stays a parameter. */
  type Sha = Bytes -> Hash

  datatype Place = Place(size: nat, stored: nat, segment: nat, offset: nat)

  /**
   What StoreOrRef does to content_blobs (the BlobStore module proves it has no other effect):
   it takes a reference; or fails before touching the row; or fails in a sidecar write after
   taking the reference; or fails in SQL, which dooms the transaction.
   */
  datatype Store =
    | Kept(place: Place)
    | FailedBefore(msg: Bytes)
    | FailedAfter(place: Place, msg: Bytes)
    | SqlFailed(msg: Bytes)

  function NewBlob(p: Place): Blob {
    Blob(p.size, p.stored, p.segment, p.offset, 1)
  }

  function AfterStore(t: Tables, h: Hash, o: Store): Tables {
    if o.Kept? || o.FailedAfter? then InsertBlobOrIncrement(t, h, NewBlob(o.place)).0 else t
  }

  /** The tables, and a history of references taken for rows that were never written. */
  datatype Db = Db(t: Tables, orphans: multiset<Hash>)

  /** An archive as ForEachZipMember walks it: members with their store outcome, or a ZIP error. */
  datatype Item = Item(name: string, data: Bytes, o: Store) | Broken(msg: Bytes)

  const UNPACK_ERROR_FILENAME: string := "_unpack_error.txt"
  const KEY_VIOLATION: Bytes := []

  // ---- persistZipMembers and persistUnpackError ----

  function PersistUnpackError(sha: Sha, t: Tables, p: nat, msg: Bytes, o: Store): Option<Tables> {
    if !o.Kept? then None else
    CreateFile(AfterStore(t, sha(msg), o), p, FileIn(sha(msg), UnpackError, Some(UNPACK_ERROR_FILENAME), None))
  }

  /** The callback loop: `stop` is the error that ended it, `dead` a transaction that cannot commit. */
  datatype Progress = Progress(t: Tables, members: nat, orphans: multiset<Hash>, stop: Option<Bytes>, dead: bool)

  function MemberStep(sha: Sha, p: nat, pr: Progress, item: Item): Progress {
    if pr.stop.Some? then pr else
    match item
    case Broken(msg) => pr.(stop := Some(msg))
    case Item(name, data, o) =>
      var h := sha(data);
      var t1 := AfterStore(pr.t, h, o);
      match o
      case FailedBefore(msg) => pr.(stop := Some(msg))
      case SqlFailed(msg) => pr.(stop := Some(msg), dead := true)
      case FailedAfter(_, msg) => pr.(t := t1, orphans := pr.orphans + multiset{h}, stop := Some(msg))
      case Kept(_) =>
        match CreateFile(t1, p, FileIn(h, Member, Some(name), Some(pr.members)))
        case None => pr.(t := t1, members := pr.members + 1, stop := Some(KEY_VIOLATION), dead := true)
        case Some(t2) => pr.(t := t2, members := pr.members + 1)
  }

  function Members(sha: Sha, p: nat, start: Progress, items: seq<Item>): Progress {
    if items == [] then start else
    var n := |items| - 1;
    MemberStep(sha, p, Members(sha, p, start, items[..n]), items[n])
  }

  datatype Outcome = Done(t: Tables, orphans: multiset<Hash>, fileCount: nat, err: Option<Bytes>) | Failed

  function Conclude(sha: Sha, p: nat, pr: Progress, errStore: Store): Outcome {
    match pr.stop
    case None => Done(pr.t, pr.orphans, 1 + pr.members, None)
    case Some(msg) =>
      if pr.dead then Failed else
      match PersistUnpackError(sha, pr.t, p, msg, errStore)
      case None => Failed
      case Some(t) => Done(t, pr.orphans, 2, Some(msg))
  }

  function PersistZipMembers(sha: Sha, db: Db, p: nat, items: seq<Item>, errStore: Store): Outcome {
    Conclude(sha, p, Members(sha, p, Progress(db.t, 0, db.orphans, None, false), items), errStore)
  }

  // ---- uploads ----

  /** Store the body, create the package, create its original row. */
  function IngestOriginal(sha: Sha, db: Db, id: nat, pkg: Package, body: Bytes, o: Store): Option<Db> {
    if !o.Kept? then None else
    match CreatePackage(AfterStore(db.t, sha(body), o), id, pkg)
    case None => None
    case Some(t) =>
      match CreateFile(t, id, FileIn(sha(body), Original, pkg.filename, None))
      case None => None
      case Some(u) => Some(Db(u, db.orphans))
  }

  function IngestXML(sha: Sha, db: Db, id: nat, supplier: int, body: Bytes, filename: Option<string>, o: Store): Option<Db> {
    IngestOriginal(sha, db, id, Package(supplier, sha(body), XML, Single, filename, None, 1, None), body, o)
  }

  function IngestLargeZIP(sha: Sha, db: Db, id: nat, supplier: int, body: Bytes, filename: Option<string>, o: Store): Option<Db> {
    IngestOriginal(sha, db, id, Package(supplier, sha(body), ZIP, RawLarge, filename, None, 1, None), body, o)
  }

  /** `precheck` is a failed count or size check; `entries` the archive's entry count. */
  function IngestSmallZIP(sha: Sha, db: Db, id: nat, supplier: int, body: Bytes, filename: Option<string>, o: Store,
                          precheck: Option<Bytes>, entries: nat, items: seq<Item>, errStore: Store): Option<Db> {
    var fileCount := if precheck.Some? then 2 else 1 + entries;
    match IngestOriginal(sha, db, id, Package(supplier, sha(body), ZIP, ZipWithMembers, filename, None, fileCount, precheck), body, o)
    case None => None
    case Some(d) =>
      match precheck
      case Some(msg) =>
        (match PersistUnpackError(sha, d.t, id, msg, errStore)
         case None => None
         case Some(t) => Some(Db(t, d.orphans)))
      case None =>
        match PersistZipMembers(sha, d, id, items, errStore)
        case Failed => None
        case Done(t, orphans, _, _) => Some(Db(t, orphans))
  }

  // ---- clones ----

  function InsertRows(t: Tables, p: nat, rows: seq<FileIn>): Option<Tables> {
    if rows == [] then Some(t) else
    var n := |rows| - 1;
    match InsertRows(t, p, rows[..n])
    case None => None
    case Some(u) => CreateFile(u, p, rows[n])
  }

  function IncrementAll(t: Tables, hs: seq<Hash>): Tables {
    if hs == [] then t else IncrementRef(IncrementAll(t, hs[..|hs| - 1]), hs[|hs| - 1])
  }

  function BlobsOf(rows: seq<FileIn>): (hs: seq<Hash>)
    ensures |hs| == |rows|
  {
    seq(|rows|, i requires 0 <= i < |rows| => rows[i].blob)
  }

  /** clonePackage: the canonical package `c` was read as `snap` with `rows`, outside this transaction. */
  function ClonePackage(db: Db, id: nat, c: nat, snap: Package, rows: seq<FileIn>, supplier: int, filename: Option<string>): Option<Db> {
    match CreatePackage(db.t, id, snap.(supplier := supplier, filename := filename, canonical := Some(c)))
    case None => None
    case Some(t) =>
      match InsertRows(t, id, rows)
      case None => None
      case Some(u) => Some(Db(IncrementAll(u, BlobsOf(rows)), db.orphans))
  }

  // ---- unpack and propagate ----

  function UnpackTx(sha: Sha, db: Db, p: nat, items: seq<Item>, errStore: Store): Option<Db> {
    if p !in db.t.pkgs || db.t.pkgs[p].mode != RawLarge then None else
    match PersistZipMembers(sha, db, p, items, errStore)
    case Failed => None
    case Done(t, orphans, fileCount, err) =>
      Some(Db(UpdateAfterUnpack(t, p, ZipWithMembers, fileCount, err).0, orphans))
  }

  /** The canonical's member and error rows. */
  function Extras(rows: seq<FileIn>): seq<FileIn> {
    if rows == [] then [] else
    var n := |rows| - 1;
    Extras(rows[..n]) + if rows[n].role != Original then [rows[n]] else []
  }

  function Keys(rows: seq<FileIn>): set<string> {
    set i | 0 <= i < |rows| :: PackageFileKey(rows[i])
  }

  /** Rows copied so far, the blobs to reference for them, and the keys already present. */
  datatype Copied = Copied(t: Tables, hashes: seq<Hash>, existing: set<string>)

  function CopyRow(k: nat, c: Copied, f: FileIn): Option<Copied> {
    if PackageFileKey(f) in c.existing then Some(c) else
    match CreateFile(c.t, k, f)
    case None => None
    case Some(t) => Some(Copied(t, c.hashes + [f.blob], c.existing + {PackageFileKey(f)}))
  }

  function CopyMissing(k: nat, start: Copied, extras: seq<FileIn>): Option<Copied> {
    if extras == [] then Some(start) else
    var n := |extras| - 1;
    match CopyMissing(k, start, extras[..n])
    case None => None
    case Some(c) => CopyRow(k, c, extras[n])
  }

  /** The propagate transaction for clone `k`, given the keys read from it beforehand. */
  function PropagateTx(db: Db, c: nat, k: nat, existing: set<string>): Option<Db>
    requires c in db.t.pkgs
  {
    match CopyMissing(k, Copied(db.t, [], existing), Extras(RowsOf(db.t.files, c)))
    case None => None
    case Some(copied) =>
      var t := IncrementAll(copied.t, copied.hashes);
      var canonical := db.t.pkgs[c];
      Some(Db(UpdateAfterUnpack(t, k, ZipWithMembers, canonical.fileCount, canonical.unpackError).0, db.orphans))
  }

  // ---- the books balance in every transaction ----

  /** The conservation law: each ref_count is the number of rows plus the references lost to swallowed errors. */
  ghost predicate Balanced(db: Db) {
    Books(db.t, db.orphans, multiset{})
  }

  lemma AfterStoreBooks(t: Tables, h: Hash, o: Store, extra: multiset<Hash>)
    requires Books(t, extra, multiset{})
    ensures o.Kept? || o.FailedAfter? ==> Books(AfterStore(t, h, o), extra + multiset{h}, multiset{})
    ensures !(o.Kept? || o.FailedAfter?) ==> Books(AfterStore(t, h, o), extra, multiset{})
  {
  }

  /** A store followed by the row it was for. */
  lemma StoreAndFile(t: Tables, h: Hash, o: Store, p: nat, f: FileIn, extra: multiset<Hash>)
    requires Books(t, extra, multiset{}) && o.Kept? && f.blob == h && CreateFile(AfterStore(t, h, o), p, f).Some?
    ensures Books(CreateFile(AfterStore(t, h, o), p, f).value, extra, multiset{})
  {
  }

  lemma {:induction false} MembersBooks(sha: Sha, p: nat, start: Progress, items: seq<Item>)
    requires Books(start.t, start.orphans, multiset{}) && !start.dead
    ensures var pr := Members(sha, p, start, items);
      if pr.dead then pr.stop.Some? else Books(pr.t, pr.orphans, multiset{})
  {
    hide CreateFile, Books, AfterStore;
    if items != [] {
      var n := |items| - 1;
      MembersBooks(sha, p, start, items[..n]);
      var pr := Members(sha, p, start, items[..n]);
      if pr.stop == None && items[n].Item? && !pr.dead {
        var Item(name, data, o) := items[n];
        AfterStoreBooks(pr.t, sha(data), o, pr.orphans);
        var f := FileIn(sha(data), Member, Some(name), Some(pr.members));
        if o.Kept? && CreateFile(AfterStore(pr.t, sha(data), o), p, f).Some? {
          StoreAndFile(pr.t, sha(data), o, p, f, pr.orphans);
        }
      }
    }
  }

  lemma PersistBooks(sha: Sha, db: Db, p: nat, items: seq<Item>, errStore: Store)
    requires Balanced(db)
    ensures var r := PersistZipMembers(sha, db, p, items, errStore);
      r.Done? ==> Books(r.t, r.orphans, multiset{})
  {
    hide CreateFile, Books, AfterStore, Members;
    var start := Progress(db.t, 0, db.orphans, None, false);
    MembersBooks(sha, p, start, items);
    var pr := Members(sha, p, start, items);
    if pr.stop.Some? && !pr.dead {
      ErrorBooks(sha, pr.t, p, pr.stop.value, errStore, pr.orphans);
    }
  }

  lemma ErrorBooks(sha: Sha, t: Tables, p: nat, msg: Bytes, o: Store, extra: multiset<Hash>)
    requires Books(t, extra, multiset{})
    ensures var r := PersistUnpackError(sha, t, p, msg, o); r.Some? ==> Books(r.value, extra, multiset{})
  {
  }

  lemma PackageBooks(t: Tables, id: nat, p: Package, extra: multiset<Hash>, due: multiset<Hash>)
    requires Books(t, extra, due) && CreatePackage(t, id, p).Some?
    ensures Books(CreatePackage(t, id, p).value, extra, due)
  {
  }

  lemma OriginalBooks(sha: Sha, db: Db, id: nat, pkg: Package, body: Bytes, o: Store)
    requires Balanced(db)
    ensures var r := IngestOriginal(sha, db, id, pkg, body, o); r.Some? ==> Balanced(r.value)
  {
  }

  lemma SmallZipBooks(sha: Sha, db: Db, id: nat, supplier: int, body: Bytes, filename: Option<string>, o: Store,
                      precheck: Option<Bytes>, entries: nat, items: seq<Item>, errStore: Store)
    requires Balanced(db)
    ensures var r := IngestSmallZIP(sha, db, id, supplier, body, filename, o, precheck, entries, items, errStore);
      r.Some? ==> Balanced(r.value)
  {
    hide IngestOriginal, PersistUnpackError, PersistZipMembers, Books;
    var pkg := Package(supplier, sha(body), ZIP, ZipWithMembers, filename, None,
                       if precheck.Some? then 2 else 1 + entries, precheck);
    OriginalBooks(sha, db, id, pkg, body, o);
    var d := IngestOriginal(sha, db, id, pkg, body, o);
    if d.Some? {
      if precheck.Some? {
        ErrorBooks(sha, d.value.t, id, precheck.value, errStore, d.value.orphans);
      } else {
        PersistBooks(sha, d.value, id, items, errStore);
      }
    }
  }

  /** Rows written without a store leave their blobs due. */
  lemma {:induction false} InsertBooks(t: Tables, p: nat, rows: seq<FileIn>, extra: multiset<Hash>)
    requires Books(t, extra, multiset{}) && InsertRows(t, p, rows).Some?
    ensures var u := InsertRows(t, p, rows).value;
      && Books(u, extra, multiset(BlobsOf(rows))) && u.blobs == t.blobs && u.pkgs == t.pkgs
      && forall h :: h in BlobsOf(rows) ==> h in t.blobs
  {
    hide Books, RowsOf;
    if rows != [] {
      var n := |rows| - 1;
      InsertBooks(t, p, rows[..n], extra);
      var u := InsertRows(t, p, rows[..n]).value;
      FileBooks(u, p, rows[n], extra, multiset(BlobsOf(rows[..n])));
      assert BlobsOf(rows) == BlobsOf(rows[..n]) + [rows[n].blob];
    } else {
      assert BlobsOf(rows) == [];
    }
  }

  lemma {:induction false} IncrementAllBooks(t: Tables, hs: seq<Hash>, extra: multiset<Hash>, due: multiset<Hash>)
    requires Books(t, extra, multiset(hs) + due) && forall h :: h in hs ==> h in t.blobs
    ensures Books(IncrementAll(t, hs), extra, due)
    ensures IncrementAll(t, hs).blobs.Keys == t.blobs.Keys
  {
    hide Books;
    if hs == [] {
      assert multiset(hs) + due == due;
    } else {
      var n := |hs| - 1;
      assert hs == hs[..n] + [hs[n]];
      assert multiset(hs) + due == multiset(hs[..n]) + (multiset{hs[n]} + due);
      IncrementAllBooks(t, hs[..n], extra, multiset{hs[n]} + due);
      IncrementBooks(IncrementAll(t, hs[..n]), hs[n], extra, multiset{hs[n]} + due);
      assert (multiset{hs[n]} + due) - multiset{hs[n]} == due;
    }
  }

  lemma CloneBooks(db: Db, id: nat, c: nat, snap: Package, rows: seq<FileIn>, supplier: int, filename: Option<string>)
    requires Balanced(db)
    ensures var r := ClonePackage(db, id, c, snap, rows, supplier, filename); r.Some? ==> Balanced(r.value)
  {
    hide CreatePackage, InsertRows, IncrementAll, Books;
    if ClonePackage(db, id, c, snap, rows, supplier, filename).Some? {
      var pkg := snap.(supplier := supplier, filename := filename, canonical := Some(c));
      var t := CreatePackage(db.t, id, pkg).value;
      PackageBooks(db.t, id, pkg, db.orphans, multiset{});
      InsertBooks(t, id, rows, db.orphans);
      var hs := BlobsOf(rows);
      assert multiset(hs) + multiset{} == multiset(hs);
      IncrementAllBooks(InsertRows(t, id, rows).value, hs, db.orphans, multiset{});
    }
  }

  lemma UpdateBooks(t: Tables, p: nat, mode: Mode, fileCount: nat, err: Option<Bytes>, extra: multiset<Hash>)
    requires Books(t, extra, multiset{})
    ensures Books(UpdateAfterUnpack(t, p, mode, fileCount, err).0, extra, multiset{})
  {
  }

  lemma UnpackBooks(sha: Sha, db: Db, p: nat, items: seq<Item>, errStore: Store)
    requires Balanced(db)
    ensures var r := UnpackTx(sha, db, p, items, errStore); r.Some? ==> Balanced(r.value)
  {
    hide PersistZipMembers, UpdateAfterUnpack, Books;
    PersistBooks(sha, db, p, items, errStore);
    var r := PersistZipMembers(sha, db, p, items, errStore);
    if r.Done? { UpdateBooks(r.t, p, ZipWithMembers, r.fileCount, r.err, r.orphans); }
  }

  lemma {:induction false} CopyBooks(k: nat, start: Copied, extras: seq<FileIn>, extra: multiset<Hash>)
    requires Books(start.t, extra, multiset(start.hashes)) && forall h :: h in start.hashes ==> h in start.t.blobs
    ensures var r := CopyMissing(k, start, extras);
      r.Some? ==> Books(r.value.t, extra, multiset(r.value.hashes)) && forall h :: h in r.value.hashes ==> h in r.value.t.blobs
  {
    hide Books, PackageFileKey, RowsOf;
    if extras != [] {
      var n := |extras| - 1;
      CopyBooks(k, start, extras[..n], extra);
      var r := CopyMissing(k, start, extras[..n]);
      if r.Some? && PackageFileKey(extras[n]) !in r.value.existing && CreateFile(r.value.t, k, extras[n]).Some? {
        FileBooks(r.value.t, k, extras[n], extra, multiset(r.value.hashes));
      }
    }
  }

  lemma PropagateBooks(db: Db, c: nat, k: nat, existing: set<string>)
    requires Balanced(db) && c in db.t.pkgs
    ensures var r := PropagateTx(db, c, k, existing); r.Some? ==> Balanced(r.value)
  {
    hide CopyMissing, IncrementAll, UpdateAfterUnpack, Books, Extras, RowsOf;
    var start := Copied(db.t, [], existing);
    var extras := Extras(RowsOf(db.t.files, c));
    CopyBooks(k, start, extras, db.orphans);
    var r := CopyMissing(k, start, extras);
    if r.Some? {
      var hs := r.value.hashes;
      assert multiset(hs) + multiset{} == multiset(hs);
      IncrementAllBooks(r.value.t, hs, db.orphans, multiset{});
      UpdateBooks(IncrementAll(r.value.t, hs), k, ZipWithMembers, db.t.pkgs[c].fileCount, db.t.pkgs[c].unpackError, db.orphans);
    }
  }
}
