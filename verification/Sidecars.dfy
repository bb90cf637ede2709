/**
 From bytes to tables: the .idx files as Append leaves them, listed and read as Rebuild does, give the
 entries in the order they were written; so each live blob comes back where it is.
 */
module Sidecars {
  import opened Bytes
  import opened Metadata
  import opened Ingestion
  import opened BlobStore
  import opened BlobIndex
  import opened Rebuild
  import opened RebuildRuns
  import opened RebuildLive
  import opened SegmentNames
  import Idx = SegmentIndex

  /** The columns of an index entry that Rebuild does not use. */
  datatype Tag = Tag(magic: uint32, supplierID: uint32, dictID: uint32)
  type Tags = IndexEntry -> Tag

  /** The fields fit their widths. */
  predicate Encodable(e: IndexEntry) {
    |e.hash| == 32 && e.place.offset < TWO_64 && e.place.stored < TWO_32 && e.place.size < TWO_32
  }

  function ToEntry(tags: Tags, e: IndexEntry): Idx.Entry
    requires Encodable(e)
  {
    var tag := tags(e);
    Idx.Entry(e.place.offset, e.place.stored, e.place.size, tag.magic, e.hash, tag.supplierID, tag.dictID)
  }

  /** What Rebuild makes of an entry of segment `id`. */
  function FromEntry(id: nat, x: Idx.Entry): IndexEntry {
    IndexEntry(x.hash, Place(x.logicalSize, x.storedSize, id, x.offset))
  }

  function ToEntries(tags: Tags, es: seq<IndexEntry>): (xs: seq<Idx.Entry>)
    requires forall i :: 0 <= i < |es| ==> Encodable(es[i])
    ensures |xs| == |es|
  {
    seq(|es|, i requires 0 <= i < |es| => ToEntry(tags, es[i]))
  }

  function FromEntries(id: nat, xs: seq<Idx.Entry>): (es: seq<IndexEntry>)
    ensures |es| == |xs|
  {
    seq(|xs|, i requires 0 <= i < |xs| => FromEntry(id, xs[i]))
  }

  /** Every entry can be written and does not imitate a footer. */
  predicate Writable(tags: Tags, index: seq<IndexEntry>) {
    |index| < TWO_64 && forall i :: 0 <= i < |index| ==> Encodable(index[i]) && Idx.Plain(ToEntry(tags, index[i]))
  }

  lemma {:induction false} FileEntriesAre(index: seq<IndexEntry>, id: nat)
    ensures |FileEntries(index, id)| <= |index|
    ensures forall i :: 0 <= i < |FileEntries(index, id)| ==> FileEntries(index, id)[i] in index && FileEntries(index, id)[i].place.segment == id
  {
    if index != [] { FileEntriesAre(index[..|index| - 1], id); }
  }

  lemma FileWritable(tags: Tags, index: seq<IndexEntry>, id: nat)
    requires Writable(tags, index)
    ensures Writable(tags, FileEntries(index, id))
  {
    hide FileEntries, Idx.Plain;
    FileEntriesAre(index, id);
    var es := FileEntries(index, id);
    forall i | 0 <= i < |es| ensures Encodable(es[i]) && Idx.Plain(ToEntry(tags, es[i])) {
      var j :| 0 <= j < |index| && index[j] == es[i];
    }
  }

  /** The bytes of segment `id`'s sidecar after all its appends. */
  function SidecarOf(crc: Idx.Crc32, tags: Tags, index: seq<IndexEntry>, id: nat): Option<Bytes>
    requires Writable(tags, FileEntries(index, id))
  {
    Idx.AppendAll(crc, ToEntries(tags, FileEntries(index, id)))
  }

  /** Reading a sidecar gives back what was appended to it. */
  lemma SidecarReads(crc: Idx.Crc32, tags: Tags, index: seq<IndexEntry>, id: nat)
    requires Writable(tags, index) && Writable(tags, FileEntries(index, id))
    ensures var r := Idx.ReadIndex(crc, SidecarOf(crc, tags, index, id));
      r.Some? && FromEntries(id, r.value) == FileEntries(index, id)
  {
    hide FileEntries, Idx.Plain, Idx.AppendAll, Idx.ReadIndex;
    FileEntriesAre(index, id);
    var es := FileEntries(index, id);
    var xs := ToEntries(tags, es);
    forall x | x in xs ensures Idx.Plain(x) {
      var i :| 0 <= i < |xs| && xs[i] == x;
    }
    Idx.AppendsReadBack(crc, xs);
    assert FromEntries(id, xs) == es;
  }

  // ---- the directory ----

  type Dir = map<nat, Bytes>

  /** Exactly the segments with entries have a sidecar, as their appends left it. */
  ghost predicate Written(crc: Idx.Crc32, tags: Tags, index: seq<IndexEntry>, dir: Dir) {
    && (forall id :: id in dir <==> FileEntries(index, id) != [])
    && (forall id :: id in dir ==> Writable(tags, FileEntries(index, id)) && SidecarOf(crc, tags, index, id) == Some(dir[id]))
  }

  /** What ListIndexFiles returns: the sidecars whose names scan, sorted by name. */
  ghost predicate Listing(dir: Dir, ids: seq<nat>) {
    && (forall id :: id in ids <==> id in dir && Parse(FileName(id, IDX), IDX) == Some(id))
    && (forall i, j :: 0 <= i < j < |ids| ==> NameLess(FileName(ids[i], IDX), FileName(ids[j], IDX)))
  }

  /** The entries of the listed files, one file after the other; None is a corrupt file. */
  function Load(crc: Idx.Crc32, dir: Dir, ids: seq<nat>): Option<seq<IndexEntry>>
    requires forall i :: 0 <= i < |ids| ==> ids[i] in dir
  {
    if ids == [] then Some([]) else
    var n := |ids| - 1;
    match Load(crc, dir, ids[..n])
    case None => None
    case Some(es) =>
      match Idx.ReadIndex(crc, Some(dir[ids[n]]))
      case None => None
      case Some(xs) => Some(es + FromEntries(ids[n], xs))
  }

  lemma {:induction false} NameLessOneWay(s: string, t: string)
    ensures !(NameLess(s, t) && NameLess(t, s))
  {
    if s != "" && t != "" { NameLessOneWay(s[1..], t[1..]); }
  }

  /** Below 10000 the listing is complete and in segment order. */
  lemma ListingAscends(dir: Dir, ids: seq<nat>)
    requires Listing(dir, ids) && forall id :: id in dir ==> id < FIVE_DIGITS
    ensures forall id :: id in ids <==> id in dir
    ensures forall i, j :: 0 <= i < j < |ids| ==> ids[i] < ids[j]
  {
    hide Parse, FileName, NameLess;
    forall id | id in dir ensures id in ids { FoundIffFourDigits(id, IDX); }
    forall i, j | 0 <= i < j < |ids| ensures ids[i] < ids[j] {
      var a, b := ids[i], ids[j];
      assert a in ids && b in ids;
      NameLessOneWay(FileName(a, IDX), FileName(b, IDX));
      if b < a { NameOrderIsSegmentOrder(b, a, IDX); }
    }
  }

  lemma {:induction false} NothingBetween(index: seq<IndexEntry>, a: nat, b: nat)
    requires a <= b && forall id :: a <= id < b ==> FileEntries(index, id) == []
    ensures ReadInOrder(index, b) == ReadInOrder(index, a)
  {
    hide FileEntries;
    if a < b { NothingBetween(index, a, b - 1); }
  }

  /** How far the first files of an ascending listing reach. */
  function Reach(ids: seq<nat>): nat {
    if ids == [] then 0 else ids[|ids| - 1] + 1
  }

  lemma {:induction false} LoadsInOrder(crc: Idx.Crc32, tags: Tags, index: seq<IndexEntry>, dir: Dir, ids: seq<nat>, n: nat)
    requires Writable(tags, index) && Written(crc, tags, index, dir) && n <= |ids|
    requires (forall id :: id in ids <==> id in dir) && forall i, j :: 0 <= i < j < |ids| ==> ids[i] < ids[j]
    ensures forall i :: 0 <= i < n ==> ids[..n][i] in dir
    ensures Load(crc, dir, ids[..n]) == Some(ReadInOrder(index, Reach(ids[..n])))
  {
    hide FileEntries, SidecarOf, Writable, Load, Written;
    assert forall i :: 0 <= i < n ==> ids[..n][i] in ids;
    if n == 0 {
      assert ids[..0] == [] && Load(crc, dir, []) == Some([]) by { NothingLoaded(crc, dir); }
    } else {
      var id := ids[n - 1];
      assert ids[..n] == ids[..n - 1] + [id] && id in ids;
      LoadsInOrder(crc, tags, index, dir, ids, n - 1);
      LoadOne(crc, tags, index, dir, ids[..n - 1], id);
      GapIsEmpty(crc, tags, index, dir, ids, n - 1);
    }
  }

  lemma NothingLoaded(crc: Idx.Crc32, dir: Dir)
    ensures Load(crc, dir, []) == Some([])
  {
  }

  /** One file more, read as it was written. */
  lemma LoadOne(crc: Idx.Crc32, tags: Tags, index: seq<IndexEntry>, dir: Dir, front: seq<nat>, id: nat)
    requires Writable(tags, index) && Written(crc, tags, index, dir) && id in dir
    requires (forall i :: 0 <= i < |front| ==> front[i] in dir) && Load(crc, dir, front).Some?
    ensures Load(crc, dir, front + [id]) == Some(Load(crc, dir, front).value + FileEntries(index, id))
  {
    hide FileEntries, Idx.ReadIndex, SidecarOf, Writable, FromEntries;
    assert (front + [id])[..|front|] == front;
    FileWritable(tags, index, id);
    SidecarReads(crc, tags, index, id);
  }

  /** Between two listed segments lies none with entries. */
  lemma GapIsEmpty(crc: Idx.Crc32, tags: Tags, index: seq<IndexEntry>, dir: Dir, ids: seq<nat>, n: nat)
    requires Written(crc, tags, index, dir) && n < |ids|
    requires (forall id :: id in ids <==> id in dir) && forall i, j :: 0 <= i < j < |ids| ==> ids[i] < ids[j]
    ensures ReadInOrder(index, ids[n]) == ReadInOrder(index, Reach(ids[..n]))
  {
    hide FileEntries, SidecarOf, Writable, ReadInOrder;
    forall i | 0 <= i < |ids| ensures ids[i] < Reach(ids[..n]) || ids[i] >= ids[n] {
      if i < n { assert i < n - 1 ==> ids[i] < ids[n - 1]; }
    }
    assert forall k :: Reach(ids[..n]) <= k < ids[n] ==> k !in ids;
    assert Reach(ids[..n]) <= ids[n];
    NothingBetween(index, Reach(ids[..n]), ids[n]);
  }

  /**
   Listing the directory and reading the files in that order gives exactly the entries in the order they
   were appended, for up to 10000 segments.
   */
  lemma SidecarsGiveTheIndex(crc: Idx.Crc32, tags: Tags, index: seq<IndexEntry>, dir: Dir, ids: seq<nat>)
    requires Writable(tags, index) && Sorted(index) && Written(crc, tags, index, dir) && Listing(dir, ids)
    requires forall i :: 0 <= i < |index| ==> index[i].place.segment < FIVE_DIGITS
    ensures forall i :: 0 <= i < |ids| ==> ids[i] in dir
    ensures Load(crc, dir, ids) == Some(index)
  {
    hide FileEntries, Idx.ReadIndex, SidecarOf, Writable, Parse, FileName, NameLess, ReadInOrder, Load;
    forall id | id in dir ensures id < FIVE_DIGITS { FileEntriesBelow(index, id, FIVE_DIGITS); }
    ListingAscends(dir, ids);
    LoadsInOrder(crc, tags, index, dir, ids, |ids|);
    assert ids[..|ids|] == ids;
    forall i | 0 <= i < |ids| ensures ids[i] in dir { assert ids[i] in ids; }
    if ids != [] { assert ids[|ids| - 1] in ids; }
    forall i | 0 <= i < |ids| ensures ids[i] < Reach(ids) { assert i < |ids| - 1 ==> ids[i] < ids[|ids| - 1]; }
    assert forall k :: Reach(ids) <= k ==> k !in ids;
    NothingBetween(index, Reach(ids), FIVE_DIGITS);
    SegmentOrderIsTimeOrder(index, FIVE_DIGITS);
  }

  lemma FileEntriesBelow(index: seq<IndexEntry>, id: nat, n: nat)
    requires FileEntries(index, id) != [] && forall i :: 0 <= i < |index| ==> index[i].place.segment < n
    ensures id < n
  {
    hide FileEntries;
    FileEntriesAre(index, id);
    var e := FileEntries(index, id)[0];
    var j :| 0 <= j < |index| && index[j] == e;
  }

  /**
   Rebuild from the bytes on disk. The run of the ingest service journals each created package before
   anything else happens; the run of the blob store below it has the same live blobs, its sidecar
   writes succeed and no crash takes a file that has entries. Then the sidecars read back as written,
   Rebuild succeeds, and each live blob comes back at its live location, with its sizes.
   */
  lemma RebuildRestoresLocations(cfg: Config, cache: Cache, puts: seq<BlobStore.Step>, end: Session, sha: Sha, steps: seq<LiveStep>,
                                 crc: Idx.Crc32, tags: Tags, dir: Dir, ids: seq<nat>, h: Hash)
    requires cfg.encoder.Encoder? ==> Lossless(cfg.encoder.z)
    requires AllowedRun(cfg, Opening(cache), puts, end) && IndexedRun(cfg, Opening(cache), puts)
    requires Sequential(sha, steps) && RunLive(sha, steps).st.db.t.blobs.Keys == end.w.t.blobs.Keys
    requires Writable(tags, end.w.index) && Written(crc, tags, end.w.index, dir) && Listing(dir, ids)
    requires forall i :: 0 <= i < |end.w.index| ==> end.w.index[i].place.segment < FIVE_DIGITS
    requires h in end.w.t.blobs
    ensures forall i :: 0 <= i < |ids| ==> ids[i] in dir
    ensures var loaded := Load(crc, dir, ids);
      && loaded.Some? && RebuildTables(loaded.value, RunLive(sha, steps).journal).Some?
      && var r := RebuildTables(loaded.value, RunLive(sha, steps).journal).value;
      h in r.blobs && r.blobs[h] == end.w.t.blobs[h].(ref := RowCount(r.files, h))
  {
    hide Lossless, AllowedRun, IndexedRun, RebuildTables, LastEntry, RowCount, Sequential, RunLive, Writable, Written, Listing, Load, UpsertAll;
    var index := end.w.index;
    RunIsIndexed(cfg, cache, puts, end);
    SidecarsGiveTheIndex(crc, tags, index, dir, ids);
    SegmentOrderIsTimeOrder(index, FIVE_DIGITS);
    forall k | k in end.w.t.blobs ensures k in UpsertAll(index) && LastEntry(index, k) == Some(PlaceOf(end.w.t.blobs[k])) {
      LastEntryIsLiveLocation(cfg, cache, puts, end, k, FIVE_DIGITS);
      UpsertsAreLastEntries(index, k);
    }
    SequentialRebuildSucceeds(sha, steps, index);
    RebuiltBlob(index, RunLive(sha, steps).journal, h);
    StoredIsPositive(cfg, cache, puts, end, h);
  }

  lemma StoredIsPositive(cfg: Config, cache: Cache, puts: seq<BlobStore.Step>, end: Session, h: Hash)
    requires cfg.encoder.Encoder? ==> Lossless(cfg.encoder.z)
    requires AllowedRun(cfg, Opening(cache), puts, end)
    requires h in end.w.t.blobs
    ensures end.w.t.blobs[h].stored > 0
  {
    hide Lossless, AllowedRun, ReadsContent, Standing, Withdrawn;
    EveryRowReadsItsContent(cfg, cache, puts, end, h, true);
  }
}
