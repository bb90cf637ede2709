/**
 The three tables behind a shard and the statements a transaction runs on them
 (internal/metadata/repo.go, internal/testmetadata/memory.go, migrations).
 */
module Metadata {
  import opened Bytes

  type Hash = Bytes

  datatype Role = Original | Member | UnpackError
  datatype Mode = Single | ZipWithMembers | RawLarge
  datatype Payload = XML | ZIP

  datatype Blob = Blob(size: nat, stored: nat, segment: nat, offset: nat, ref: nat)

  datatype Package = Package(supplier: int, hash: Hash, payload: Payload, mode: Mode, filename: Option<string>,
                             canonical: Option<nat>, fileCount: nat, unpackError: Option<Bytes>)

  /** A package_files row without its ids: what CreatePackageFile is given. */
  datatype FileIn = FileIn(blob: Hash, role: Role, name: Option<string>, seqNo: Option<nat>)

  datatype Row = Row(id: nat, pkg: nat, file: FileIn)

  /** Rows of package_files are kept in id order. */
  datatype Tables = Tables(blobs: map<Hash, Blob>, pkgs: map<nat, Package>, files: seq<Row>, nextFile: nat)

  const EMPTY: Tables := Tables(map[], map[], [], 1)

  function Ref(t: Tables, h: Hash): nat {
    if h in t.blobs then t.blobs[h].ref else 0
  }

  /** How many package_files rows name blob `h`. */
  function Count(files: seq<Row>, h: Hash): nat {
    if files == [] then 0 else
    var n := |files| - 1;
    Count(files[..n], h) + if files[n].file.blob == h then 1 else 0
  }

  /** The rows of one package, in id order. */
  function RowsOf(files: seq<Row>, p: nat): seq<FileIn> {
    if files == [] then [] else
    var n := |files| - 1;
    RowsOf(files[..n], p) + if files[n].pkg == p then [files[n].file] else []
  }

  /** The unique indexes: one original, one error, and one member per sequence number. */
  predicate Clashes(a: FileIn, b: FileIn) {
    a.role == b.role && (a.role == Member ==> a.seqNo == b.seqNo && a.seqNo.Some?)
  }

  predicate Clash(rows: seq<FileIn>, f: FileIn) {
    exists i :: 0 <= i < |rows| && Clashes(rows[i], f)
  }

  // ---- statements ----

  function IncrementRef(t: Tables, h: Hash): Tables {
    if h in t.blobs then t.(blobs := t.blobs[h := t.blobs[h].(ref := t.blobs[h].ref + 1)]) else t
  }

  function InsertBlobOrIncrement(t: Tables, h: Hash, b: Blob): (r: (Tables, bool)) {
    if h in t.blobs then (IncrementRef(t, h), false) else (t.(blobs := t.blobs[h := b]), true)
  }

  /** None is a violated key. */
  function CreatePackage(t: Tables, id: nat, p: Package): Option<Tables> {
    if id in t.pkgs || (p.canonical.Some? && p.canonical.value !in t.pkgs) then None
    else Some(t.(pkgs := t.pkgs[id := p]))
  }

  function CreateFile(t: Tables, p: nat, f: FileIn): Option<Tables> {
    if p !in t.pkgs || f.blob !in t.blobs || Clash(RowsOf(t.files, p), f) then None
    else Some(t.(files := t.files + [Row(t.nextFile, p, f)], nextFile := t.nextFile + 1))
  }

  function UpdateAfterUnpack(t: Tables, p: nat, mode: Mode, fileCount: nat, err: Option<Bytes>): (r: (Tables, bool)) {
    if p in t.pkgs && t.pkgs[p].mode == RawLarge then
      (t.(pkgs := t.pkgs[p := t.pkgs[p].(mode := mode, fileCount := fileCount, unpackError := err)]), true)
    else (t, false)
  }

  // ---- the books: references against rows ----

  /**
   Every blob's ref_count, plus what is still `due` for rows already written, equals its rows
   plus the references counted in `extra`.
   */
  ghost predicate Books(t: Tables, extra: multiset<Hash>, due: multiset<Hash>) {
    forall h: Hash :: Ref(t, h) + due[h] == Count(t.files, h) + extra[h]
  }

  lemma StoreBooks(t: Tables, h: Hash, b: Blob, extra: multiset<Hash>)
    requires Books(t, extra, multiset{}) && b.ref == 1
    ensures Books(InsertBlobOrIncrement(t, h, b).0, extra + multiset{h}, multiset{})
  {
  }

  lemma FileBooks(t: Tables, p: nat, f: FileIn, extra: multiset<Hash>, due: multiset<Hash>)
    requires Books(t, extra, due) && CreateFile(t, p, f).Some?
    ensures Books(CreateFile(t, p, f).value, extra, due + multiset{f.blob})
    ensures f.blob in extra ==> Books(CreateFile(t, p, f).value, extra - multiset{f.blob}, due)
  {
  }

  lemma IncrementBooks(t: Tables, h: Hash, extra: multiset<Hash>, due: multiset<Hash>)
    requires Books(t, extra, due) && h in t.blobs && h in due
    ensures Books(IncrementRef(t, h), extra, due - multiset{h})
  {
  }

  // ---- what a transaction may do to the rows of others ----

  predicate NoClash(rows: seq<FileIn>) {
    forall i, j :: 0 <= i < j < |rows| ==> !Clashes(rows[i], rows[j])
  }

  /** No clash, and every member row carries its sequence number. */
  predicate Numbered(rows: seq<FileIn>) {
    NoClash(rows) && forall i :: 0 <= i < |rows| && rows[i].role == Member ==> rows[i].seqNo.Some?
  }

  predicate Owned(t: Tables) {
    forall i :: 0 <= i < |t.files| ==> t.files[i].pkg in t.pkgs
  }

  /** `u` is `t` with rows other than originals added to package `p`, and blobs only added to. */
  ghost predicate Adds(t: Tables, u: Tables, p: nat) {
    && u.pkgs == t.pkgs && t.blobs.Keys <= u.blobs.Keys
    && (forall q: nat :: q != p ==> RowsOf(u.files, q) == RowsOf(t.files, q))
    && RowsOf(t.files, p) <= RowsOf(u.files, p)
    && (forall i :: |RowsOf(t.files, p)| <= i < |RowsOf(u.files, p)| ==> RowsOf(u.files, p)[i].role != Original)
    && (Numbered(RowsOf(t.files, p)) ==> Numbered(RowsOf(u.files, p)))
    && (Owned(t) ==> Owned(u))
  }

  lemma AddsTrans(t: Tables, u: Tables, v: Tables, p: nat)
    requires Adds(t, u, p) && Adds(u, v, p)
    ensures Adds(t, v, p)
  {
  }

  lemma FileRows(t: Tables, p: nat, f: FileIn)
    requires CreateFile(t, p, f).Some?
    ensures var u := CreateFile(t, p, f).value;
      && RowsOf(u.files, p) == RowsOf(t.files, p) + [f]
      && (forall q: nat :: q != p ==> RowsOf(u.files, q) == RowsOf(t.files, q))
      && (NoClash(RowsOf(t.files, p)) ==> NoClash(RowsOf(u.files, p)))
      && (Owned(t) ==> Owned(u))
  {
  }

  lemma FileAdds(t: Tables, p: nat, f: FileIn)
    requires CreateFile(t, p, f).Some? && f.role != Original && (f.role == Member ==> f.seqNo.Some?)
    ensures Adds(t, CreateFile(t, p, f).value, p)
  {
    hide RowsOf;
    FileRows(t, p, f);
  }
}
