/**
 What unpacking an archive leaves behind, row by row, and when it commits
 (persistZipMembers and its callers in internal/ingestion).
 */
module Archive {
  import opened Bytes
  import opened Metadata
  import opened Ingestion
  import opened IngestEffects

  predicate Stores(item: Item) {
    item.Item? && item.o.Kept?
  }

  /** How many items are stored before the first that cannot be. */
  function Stored(items: seq<Item>): (k: nat)
    ensures k <= |items|
    ensures forall i :: 0 <= i < k ==> Stores(items[i])
    ensures k < |items| ==> !Stores(items[k])
  {
    if items == [] then 0 else
    var n := |items| - 1;
    var k := Stored(items[..n]);
    if k == n && Stores(items[n]) then n + 1 else k
  }

  predicate SqlFails(item: Item) {
    item.Item? && item.o.SqlFailed?
  }

  /** The message an item that cannot be stored ends the walk with. */
  function Complaint(item: Item): Bytes
    requires !Stores(item)
  {
    match item
    case Broken(msg) => msg
    case Item(_, _, FailedBefore(msg)) => msg
    case Item(_, _, FailedAfter(_, msg)) => msg
    case Item(_, _, SqlFailed(msg)) => msg
  }

  function MemberRow(sha: Sha, item: Item, i: nat): FileIn
    requires Stores(item)
  {
    FileIn(sha(item.data), Member, Some(item.name), Some(i))
  }

  /** One row per archive member, in order, numbered from zero. */
  function MemberRows(sha: Sha, items: seq<Item>, k: nat): (rows: seq<FileIn>)
    requires k <= Stored(items)
    ensures |rows| == k
  {
    seq(k, i requires 0 <= i < k => MemberRow(sha, items[i], i))
  }

  function ErrorRow(sha: Sha, msg: Bytes): FileIn {
    FileIn(sha(msg), UnpackError, Some(UNPACK_ERROR_FILENAME), None)
  }

  predicate OnlyOriginals(rows: seq<FileIn>) {
    forall i :: 0 <= i < |rows| ==> rows[i].role == Original
  }

  lemma NextMemberFits(sha: Sha, base: seq<FileIn>, items: seq<Item>, k: nat, f: FileIn)
    requires OnlyOriginals(base) && k <= Stored(items)
    requires f.role == UnpackError || (f.role == Member && f.seqNo == Some(k))
    ensures !Clash(base + MemberRows(sha, items, k), f)
  {
  }

  lemma StoreAndFileRows(t: Tables, h: Hash, place: Place, p: nat, f: FileIn)
    requires p in t.pkgs && f.blob == h && !Clash(RowsOf(t.files, p), f)
    ensures var r := CreateFile(AfterStore(t, h, Kept(place)), p, f);
      r.Some? && RowsOf(r.value.files, p) == RowsOf(t.files, p) + [f] && r.value.pkgs == t.pkgs
  {
  }

  lemma PrefixRows(sha: Sha, items: seq<Item>)
    requires items != []
    ensures var n := |items| - 1; var k := Stored(items[..n]);
      k <= Stored(items) && MemberRows(sha, items, k) == MemberRows(sha, items[..n], k)
  {
  }

  /** Where the walk stands once the archive has been read. */
  ghost predicate Walked(sha: Sha, p: nat, t: Tables, items: seq<Item>, pr: Progress) {
    var k := Stored(items);
    && pr.t.pkgs == t.pkgs
    && pr.members == k && RowsOf(pr.t.files, p) == RowsOf(t.files, p) + MemberRows(sha, items, k)
    && pr.stop == (if k == |items| then None else Some(Complaint(items[k])))
    && (pr.dead <==> k < |items| && SqlFails(items[k]))
  }

  lemma MemberWalked(sha: Sha, p: nat, t: Tables, items: seq<Item>, pr: Progress)
    requires items != [] && p in t.pkgs && OnlyOriginals(RowsOf(t.files, p))
    requires Walked(sha, p, t, items[..|items| - 1], pr)
    ensures Walked(sha, p, t, items, MemberStep(sha, p, pr, items[|items| - 1]))
  {
    hide RowsOf, CreateFile, AfterStore, MemberRows, OnlyOriginals;
    var n := |items| - 1;
    var k := Stored(items[..n]);
    var base := RowsOf(t.files, p);
    PrefixRows(sha, items);
    if k == n && items[n].Item? {
      var Item(name, data, o) := items[n];
      AfterStoreAdds(pr.t, sha(data), o, p);
      if o.Kept? {
        var f := MemberRow(sha, items[n], n);
        NextMemberFits(sha, base, items[..n], n, f);
        StoreAndFileRows(pr.t, sha(data), o.place, p, f);
        RowsGrow(sha, items, n);
        assert base + MemberRows(sha, items, n) + [f] == base + MemberRows(sha, items, n + 1);
      }
    }
  }

  lemma RowsGrow(sha: Sha, items: seq<Item>, n: nat)
    requires n + 1 <= Stored(items)
    ensures MemberRows(sha, items, n + 1) == MemberRows(sha, items, n) + [MemberRow(sha, items[n], n)]
  {
  }

  lemma {:induction false} MembersWalked(sha: Sha, p: nat, t: Tables, orphans: multiset<Hash>, items: seq<Item>)
    requires p in t.pkgs && OnlyOriginals(RowsOf(t.files, p))
    ensures Walked(sha, p, t, items, Members(sha, p, Progress(t, 0, orphans, None, false), items))
  {
    hide MemberStep, RowsOf, OnlyOriginals;
    if items == [] {
      assert RowsOf(t.files, p) + MemberRows(sha, items, 0) == RowsOf(t.files, p);
    } else {
      hide Walked;
      var n := |items| - 1;
      MembersWalked(sha, p, t, orphans, items[..n]);
      MemberWalked(sha, p, t, items, Members(sha, p, Progress(t, 0, orphans, None, false), items[..n]));
    }
  }

  /** The rows and result columns an archive leads to. */
  function Unpacked(sha: Sha, base: seq<FileIn>, items: seq<Item>): seq<FileIn> {
    var k := Stored(items);
    base + MemberRows(sha, items, k) + if k == |items| then [] else [ErrorRow(sha, Complaint(items[k]))]
  }

  predicate Commits(items: seq<Item>, errStore: Store) {
    var k := Stored(items);
    k == |items| || (!SqlFails(items[k]) && errStore.Kept?)
  }

  lemma PersistExactly(sha: Sha, db: Db, p: nat, items: seq<Item>, errStore: Store)
    requires p in db.t.pkgs && OnlyOriginals(RowsOf(db.t.files, p))
    ensures var r := PersistZipMembers(sha, db, p, items, errStore); var k := Stored(items);
      && (r.Done? <==> Commits(items, errStore))
      && (r.Done? ==>
        && r.t.pkgs == db.t.pkgs && RowsOf(r.t.files, p) == Unpacked(sha, RowsOf(db.t.files, p), items)
        && r.fileCount == (if k == |items| then 1 + k else 2)
        && r.err == if k == |items| then None else Some(Complaint(items[k])))
  {
    hide RowsOf, CreateFile, AfterStore, Members, MemberRows, OnlyOriginals;
    var base := RowsOf(db.t.files, p);
    var k := Stored(items);
    var pr := Members(sha, p, Progress(db.t, 0, db.orphans, None, false), items);
    MembersWalked(sha, p, db.t, db.orphans, items);
    if k == |items| {
      assert base + MemberRows(sha, items, k) + [] == base + MemberRows(sha, items, k);
    } else if !SqlFails(items[k]) && errStore.Kept? {
      var msg := Complaint(items[k]);
      NextMemberFits(sha, base, items, k, ErrorRow(sha, msg));
      StoreAndFileRows(pr.t, sha(msg), errStore.place, p, ErrorRow(sha, msg));
    }
  }

  /**
   Unpacking a raw_large package commits exactly unless SQL fails or the error cannot be stored,
   and then its rows are the original, one row per member up to the first that failed, and an error
   row if one failed.
   */
  lemma UnpackExactly(sha: Sha, db: Db, p: nat, items: seq<Item>, errStore: Store)
    requires p in db.t.pkgs && db.t.pkgs[p].mode == RawLarge && OnlyOriginals(RowsOf(db.t.files, p))
    ensures var r := UnpackTx(sha, db, p, items, errStore); var k := Stored(items);
      && (r.Some? <==> Commits(items, errStore))
      && (r.Some? ==>
        && p in r.value.t.pkgs && RowsOf(r.value.t.files, p) == Unpacked(sha, RowsOf(db.t.files, p), items)
        && r.value.t.pkgs[p] == db.t.pkgs[p].(mode := ZipWithMembers,
             fileCount := if k == |items| then 1 + k else 2,
             unpackError := if k == |items| then None else Some(Complaint(items[k]))))
  {
    hide RowsOf, PersistZipMembers, Unpacked, OnlyOriginals;
    PersistExactly(sha, db, p, items, errStore);
  }

  /**
   file_count promises the number of rows. It holds exactly when the whole archive was stored or
   its very first member failed: members stored before a later failure stay but are not counted.
   */
  lemma FileCountIsRowCount(sha: Sha, db: Db, p: nat, items: seq<Item>, errStore: Store)
    requires p in db.t.pkgs && db.t.pkgs[p].mode == RawLarge
    requires |RowsOf(db.t.files, p)| == 1 && OnlyOriginals(RowsOf(db.t.files, p)) && Commits(items, errStore)
    ensures var r := UnpackTx(sha, db, p, items, errStore);
      && r.Some? && p in r.value.t.pkgs
      && (r.value.t.pkgs[p].fileCount == |RowsOf(r.value.t.files, p)| <==>
          (forall i :: 0 <= i < |items| ==> Stores(items[i])) || !Stores(items[0]))
  {
    hide RowsOf, UnpackTx;
    UnpackExactly(sha, db, p, items, errStore);
    var k := Stored(items);
    assert |Unpacked(sha, RowsOf(db.t.files, p), items)| == 1 + k + if k == |items| then 0 else 1;
  }

  lemma MidwayFailureMiscounts(sha: Sha, db: Db, p: nat, name: string, data: Bytes, place: Place, msg: Bytes)
    requires p in db.t.pkgs && db.t.pkgs[p].mode == RawLarge
    requires |RowsOf(db.t.files, p)| == 1 && OnlyOriginals(RowsOf(db.t.files, p))
    ensures var r := UnpackTx(sha, db, p, [Item(name, data, Kept(place)), Broken(msg)], Kept(place));
      r.Some? && p in r.value.t.pkgs && r.value.t.pkgs[p].fileCount == 2 && |RowsOf(r.value.t.files, p)| == 3
  {
    hide RowsOf, UnpackTx;
    var items := [Item(name, data, Kept(place)), Broken(msg)];
    assert !Stores(items[1]) && Stores(items[0]);
    assert Stored(items) == 1;
    UnpackExactly(sha, db, p, items, Kept(place));
  }

  lemma OriginalStands(sha: Sha, db: Db, id: nat, pkg: Package, body: Bytes, o: Store)
    requires Owned(db.t) && IngestOriginal(sha, db, id, pkg, body, o).Some?
    ensures var t := IngestOriginal(sha, db, id, pkg, body, o).value.t;
      t.pkgs == db.t.pkgs[id := pkg] && RowsOf(t.files, id) == [FileIn(sha(body), Original, pkg.filename, None)]
  {
    hide IngestOriginal, RowsOf;
    OriginalEffect(sha, db, id, pkg, body, o);
  }

  /**
   A small ZIP that passes the checks gets the same rows, but its columns are written beforehand:
   an error met while unpacking leaves an error row and no unpack_error.
   */
  lemma SmallZipExactly(sha: Sha, db: Db, id: nat, supplier: int, body: Bytes, filename: Option<string>, o: Store,
                        entries: nat, items: seq<Item>, errStore: Store)
    requires Owned(db.t) && id !in db.t.pkgs && o.Kept?
    ensures var r := IngestSmallZIP(sha, db, id, supplier, body, filename, o, None, entries, items, errStore);
      && (r.Some? <==> Commits(items, errStore))
      && (r.Some? ==>
        && r.value.t.pkgs == db.t.pkgs[id := Package(supplier, sha(body), ZIP, ZipWithMembers, filename, None, 1 + entries, None)]
        && RowsOf(r.value.t.files, id) == Unpacked(sha, [FileIn(sha(body), Original, filename, None)], items))
  {
    hide IngestOriginal, PersistZipMembers, RowsOf, Unpacked;
    var pkg := Package(supplier, sha(body), ZIP, ZipWithMembers, filename, None, 1 + entries, None);
    OriginalCommits(sha, db, id, pkg, body, o);
    OriginalStands(sha, db, id, pkg, body, o);
    PersistExactly(sha, IngestOriginal(sha, db, id, pkg, body, o).value, id, items, errStore);
  }

  /** A small ZIP that fails the checks is kept with its original and an error row, and its message. */
  lemma RefusedZipExactly(sha: Sha, db: Db, id: nat, supplier: int, body: Bytes, filename: Option<string>, o: Store,
                          msg: Bytes, entries: nat, items: seq<Item>, errStore: Store)
    requires Owned(db.t) && id !in db.t.pkgs && o.Kept?
    ensures var r := IngestSmallZIP(sha, db, id, supplier, body, filename, o, Some(msg), entries, items, errStore);
      && (r.Some? <==> errStore.Kept?)
      && (r.Some? ==>
        && r.value.t.pkgs == db.t.pkgs[id := Package(supplier, sha(body), ZIP, ZipWithMembers, filename, None, 2, Some(msg))]
        && RowsOf(r.value.t.files, id) == [FileIn(sha(body), Original, filename, None), ErrorRow(sha, msg)])
  {
    hide IngestOriginal, RowsOf, CreateFile, AfterStore;
    var pkg := Package(supplier, sha(body), ZIP, ZipWithMembers, filename, None, 2, Some(msg));
    OriginalCommits(sha, db, id, pkg, body, o);
    OriginalStands(sha, db, id, pkg, body, o);
    if errStore.Kept? {
      StoreAndFileRows(IngestOriginal(sha, db, id, pkg, body, o).value.t, sha(msg), errStore.place, id, ErrorRow(sha, msg));
    }
  }

  lemma OriginalCommits(sha: Sha, db: Db, id: nat, pkg: Package, body: Bytes, o: Store)
    requires Owned(db.t) && id !in db.t.pkgs && o.Kept? && pkg.canonical == None
    ensures IngestOriginal(sha, db, id, pkg, body, o).Some?
  {
    hide RowsOf;
    NoRowsBeforeInsert(db.t.files, id);
  }
}
