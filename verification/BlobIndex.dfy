/** The .idx sidecars against content_blobs: the last entry of a hash is where its row points. */
module BlobIndex {
  import opened Bytes
  import opened Record
  import opened Metadata
  import opened Ingestion
  import opened BlobStore
  import SegmentLog
  import Runs = SegmentRuns

  function LastEntry(index: seq<IndexEntry>, h: Hash): Option<Place> {
    if index == [] then None else
    var n := |index| - 1;
    if index[n].hash == h then Some(index[n].place) else LastEntry(index[..n], h)
  }

  lemma LastSnoc(index: seq<IndexEntry>, e: IndexEntry, h: Hash)
    ensures LastEntry(index + [e], h) == if e.hash == h then Some(e.place) else LastEntry(index, h)
  {
  }

  predicate Sorted(index: seq<IndexEntry>) {
    forall i, j :: 0 <= i < j < |index| ==> index[i].place.segment <= index[j].place.segment
  }

  /** Every entry's segment has its file. */
  predicate Filed(index: seq<IndexEntry>, disk: SegmentLog.Disk) {
    forall i :: 0 <= i < |index| ==> index[i].place.segment in disk
  }

  ghost predicate Indexed(w: World) {
    && (forall h :: h in w.t.blobs ==> LastEntry(w.index, h) == Some(PlaceOf(w.t.blobs[h])))
    && Sorted(w.index) && Filed(w.index, w.seg.disk)
  }

  /** No file disappears but in a crash, and a new record goes to the highest. */
  lemma AppendFiles(cfg: Config, seg: Runs.State, r: Rec, io: SegmentLog.Io)
    ensures var (s, ack) := Append(cfg, seg, r, io);
      && seg.disk.Keys <= s.disk.Keys
      && (ack.Some? ==> ack.value.segment in s.disk && forall k :: k in s.disk ==> k <= ack.value.segment)
  {
    hide Enc, SegmentLog.AppendLocked;
    if Runs.Running(seg) { AppendGoesLast(cfg, seg.disk, seg.live.value, Enc(cfg.crc, r), io); }
  }

  lemma AppendGoesLast(cfg: Config, d: SegmentLog.Disk, s: SegmentLog.Session, b: Bytes, io: SegmentLog.Io)
    requires SegmentLog.SessionOk(d, s)
    ensures var w := SegmentLog.AppendLocked(cfg.crc, cfg.max, d, s, b, true, io);
      && d.Keys <= w.disk.Keys
      && (w.loc.Some? ==> w.loc.value.segment in w.disk && forall k :: k in w.disk ==> k <= w.loc.value.segment)
  {
    hide SegmentLog.Finalize, SegmentLog.WriteAt, SegmentLog.OpenFile;
  }

  lemma IndexedSnoc(index: seq<IndexEntry>, disk: SegmentLog.Disk, e: IndexEntry)
    requires Sorted(index) && Filed(index, disk) && e.place.segment in disk && forall k :: k in disk ==> k <= e.place.segment
    ensures Sorted(index + [e]) && Filed(index + [e], disk)
  {
  }

  lemma NewKeepsIndexed(cfg: Config, w: World, data: Bytes, t: RecordType, f: Faults)
    requires Indexed(w) && f.indexOk
    ensures Indexed(StoreNew(cfg, w, data, t, f).0)
  {
    hide Append, EncodeBlob, Enc, Indexed;
    var h := cfg.sha(data);
    var rec := EncodeBlob(cfg.encoder, data, t);
    AppendFiles(cfg, w.seg, rec, f.io);
    var (seg, ack) := Append(cfg, w.seg, rec, f.io);
    SameIndexed(w, seg, w.t, w.cache, w.origin);
    if ack.Some? && f.sqlOk {
      var blob := Blob(|data|, |Enc(cfg.crc, rec)|, ack.value.segment, ack.value.offset, 1);
      var w1 := StoreNew(cfg, w, data, t, f).0;
      if h in w.t.blobs {
        SameIndexed(w, seg, w1.t, w1.cache, w1.origin);
      } else {
        MoreIndexed(w, seg, h, blob, w1.cache, w1.origin);
      }
    }
  }

  /** Nothing indexed, no row moved. */
  lemma SameIndexed(w: World, seg: Runs.State, t: Tables, cache: Cache, origin: map<Hash, Origin>)
    requires Indexed(w) && (w.seg.disk.Keys <= seg.disk.Keys || Filed(w.index, seg.disk))
    requires t.blobs.Keys == w.t.blobs.Keys && forall k :: k in t.blobs ==> PlaceOf(t.blobs[k]) == PlaceOf(w.t.blobs[k])
    ensures Indexed(World(t, cache, seg, w.index, origin))
  {
    hide Sorted, LastEntry;
  }

  /** A new row together with its entry. */
  lemma MoreIndexed(w: World, seg: Runs.State, h: Hash, blob: Blob, cache: Cache, origin: map<Hash, Origin>)
    requires Indexed(w) && w.seg.disk.Keys <= seg.disk.Keys && h !in w.t.blobs
    requires blob.segment in seg.disk && forall k :: k in seg.disk ==> k <= blob.segment
    ensures Indexed(World(w.t.(blobs := w.t.blobs[h := blob]), cache, seg, w.index + [IndexEntry(h, PlaceOf(blob))], origin))
  {
    hide Sorted, LastEntry;
    var e := IndexEntry(h, PlaceOf(blob));
    IndexedSnoc(w.index, seg.disk, e);
    forall k ensures LastEntry(w.index + [e], k) == if h == k then Some(e.place) else LastEntry(w.index, k) {
      LastSnoc(w.index, e, k);
    }
  }

  lemma StoreKeepsIndexed(cfg: Config, w: World, data: Bytes, t: RecordType, f: Faults)
    requires Indexed(w) && f.indexOk
    ensures Indexed(StoreOrRef(cfg, w, data, t, f).0)
  {
    hide StoreNew, Sorted, LastEntry;
    NewKeepsIndexed(cfg, w, data, t, f);
  }

  /** The sidecar write succeeds; a crash takes no file that has entries. */
  predicate IndexHolds(s: Session, step: Step) {
    match step
    case Put(_, _, f) => f.indexOk
    case Log(Crash(junk, lost)) => Filed(s.w.index, Runs.Crashed(s.w.seg.disk, junk, lost))
    case _ => true
  }

  lemma LogFiles(cfg: Config, seg: Runs.State, l: Runs.Step)
    requires l.Close? || l.Recover?
    ensures seg.disk.Keys <= Runs.Exec(cfg.crc, cfg.max, seg, l).disk.Keys
  {
    hide SegmentLog.Finalize, SegmentLog.OpenFile;
  }

  lemma StepKeepsIndexed(cfg: Config, s: Session, step: Step)
    requires Sound(cfg, s) && Indexed(s.w) && Allowed(cfg, s, step) && IndexHolds(s, step)
    ensures Indexed(Exec(cfg, s, step).w)
  {
    hide StoreOrRef, Sorted, LastEntry, Backed, Runs.CleanStep, Runs.Crashed, Runs.RecoverFrom, SegmentLog.Finalize;
    match step
    case Put(data, kind, f) => StoreKeepsIndexed(cfg, s.w, data, kind, f);
    case Begin =>
    case Rollback =>
    case Log(l) =>
      if !l.Crash? { LogFiles(cfg, s.w.seg, l); }
      SameIndexed(s.w, Runs.Exec(cfg.crc, cfg.max, s.w.seg, l), s.w.t, s.w.cache, s.w.origin);
  }

  /** Every step of the run holds the index. */
  ghost predicate IndexedRun(cfg: Config, s: Session, steps: seq<Step>)
    decreases |steps|
  {
    steps != [] ==> IndexHolds(s, steps[0]) && IndexedRun(cfg, Exec(cfg, s, steps[0]), steps[1..])
  }

  lemma {:induction false} RunKeepsIndexed(cfg: Config, s: Session, steps: seq<Step>, end: Session)
    requires Sound(cfg, s) && Indexed(s.w) && AllowedRun(cfg, s, steps, end) && IndexedRun(cfg, s, steps)
    ensures Indexed(end.w)
    decreases |steps|
  {
    hide Sound, Exec, Allowed, Indexed, IndexHolds;
    if steps != [] {
      StepKeepsSound(cfg, s, steps[0]);
      StepKeepsIndexed(cfg, s, steps[0]);
      RunKeepsIndexed(cfg, Exec(cfg, s, steps[0]), steps[1..], end);
    }
  }

  // ---- one file per segment ----

  /** The entries of one segment's .idx file. */
  function FileEntries(index: seq<IndexEntry>, segment: nat): seq<IndexEntry> {
    if index == [] then [] else
    var n := |index| - 1;
    FileEntries(index[..n], segment) + if index[n].place.segment == segment then [index[n]] else []
  }

  /** The files of segments 0 to n - 1, read one after the other. */
  function ReadInOrder(index: seq<IndexEntry>, n: nat): seq<IndexEntry> {
    if n == 0 then [] else ReadInOrder(index, n - 1) + FileEntries(index, n - 1)
  }

  lemma {:induction false} NoneAbove(index: seq<IndexEntry>, segment: nat)
    requires forall i :: 0 <= i < |index| ==> index[i].place.segment < segment
    ensures FileEntries(index, segment) == []
  {
    if index != [] { NoneAbove(index[..|index| - 1], segment); }
  }

  lemma {:induction false} OneMore(index: seq<IndexEntry>, e: IndexEntry, n: nat)
    requires forall i :: 0 <= i < |index| ==> index[i].place.segment <= e.place.segment
    ensures ReadInOrder(index + [e], n) == ReadInOrder(index, n) + if e.place.segment < n then [e] else []
  {
    hide FileEntries;
    if n > 0 {
      OneMore(index, e, n - 1);
      FileSnoc(index, e, n - 1);
      if e.place.segment < n - 1 { NoneAbove(index, n - 1); }
      JoinOne(ReadInOrder(index, n - 1), FileEntries(index, n - 1), e);
    }
  }

  lemma FileSnoc(index: seq<IndexEntry>, e: IndexEntry, segment: nat)
    ensures FileEntries(index + [e], segment) == FileEntries(index, segment) + if e.place.segment == segment then [e] else []
  {
  }

  lemma JoinOne(a: seq<IndexEntry>, b: seq<IndexEntry>, e: IndexEntry)
    ensures a + (b + [e]) == (a + b) + [e] && a + (b + []) == a + b && (a + b) + [] == a + b && (a + [e]) + [] == a + [e]
  {
  }

  /** Reading the sidecars in segment order gives the entries in the order they were written. */
  lemma {:induction false} SegmentOrderIsTimeOrder(index: seq<IndexEntry>, n: nat)
    requires Sorted(index) && forall i :: 0 <= i < |index| ==> index[i].place.segment < n
    ensures ReadInOrder(index, n) == index
  {
    if index == [] {
      NothingToRead(n);
    } else {
      var m := |index| - 1;
      SegmentOrderIsTimeOrder(index[..m], n);
      OneMore(index[..m], index[m], n);
      assert index == index[..m] + [index[m]];
    }
  }

  lemma {:induction false} NothingToRead(n: nat)
    ensures ReadInOrder([], n) == []
  {
    if n > 0 { NothingToRead(n - 1); }
  }

  /** An empty database over an empty log, with whatever the hot index holds. */
  function Opening(cache: Cache): Session {
    Session(World(EMPTY, cache, Runs.FRESH, [], map[]), EMPTY)
  }

  /**
   As long as sidecar writes succeed and no crash takes a file that has entries, in every run of stores,
   rollbacks, closes, restarts and crashes - whatever the recoveries cut - the last entry of a live
   hash, over the .idx files in segment order, is the place its row points to.
   */
  lemma LastEntryIsLiveLocation(cfg: Config, cache: Cache, steps: seq<Step>, end: Session, h: Hash, n: nat)
    requires cfg.encoder.Encoder? ==> Lossless(cfg.encoder.z)
    requires AllowedRun(cfg, Opening(cache), steps, end) && IndexedRun(cfg, Opening(cache), steps)
    requires h in end.w.t.blobs && forall i :: 0 <= i < |end.w.index| ==> end.w.index[i].place.segment < n
    ensures LastEntry(ReadInOrder(end.w.index, n), h) == Some(PlaceOf(end.w.t.blobs[h]))
  {
    hide Lossless, AllowedRun, IndexedRun, LastEntry, ReadInOrder;
    RunIsIndexed(cfg, cache, steps, end);
    SegmentOrderIsTimeOrder(end.w.index, n);
  }

  lemma RunIsIndexed(cfg: Config, cache: Cache, steps: seq<Step>, end: Session)
    requires cfg.encoder.Encoder? ==> Lossless(cfg.encoder.z)
    requires AllowedRun(cfg, Opening(cache), steps, end) && IndexedRun(cfg, Opening(cache), steps)
    ensures Indexed(end.w)
  {
    hide Lossless, AllowedRun, IndexedRun, LastEntry;
    FreshLog(cfg);
    RunKeepsIndexed(cfg, Opening(cache), steps, end);
  }
}
