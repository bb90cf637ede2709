/**
 What storing a blob comes to, from the rows and the outcome of each call alone: when it succeeds, what it
 reports, and which row, entry and record it leaves (internal/storage/blob_store.go).
 */
module BlobOutcomes {
  import opened Bytes
  import opened Record
  import opened Metadata
  import opened Ingestion
  import opened BlobStore
  import SegmentAcks
  import SegmentLog
  import Runs = SegmentRuns

  /** The segment log takes a record of this framed length. */
  predicate Lands(cfg: Config, seg: Runs.State, len: nat, io: SegmentLog.Io) {
    Runs.Running(seg) && SegmentAcks.NoCallFails(cfg.max, seg.live.value, len, true, io)
  }

  function FramedLength(cfg: Config, data: Bytes, t: RecordType): nat {
    OVERHEAD + |EncodeBlob(cfg.encoder, data, t).payload|
  }

  /** An append is acknowledged if and only if the log is running and none of its I/O calls fails. */
  lemma AppendAcks(cfg: Config, seg: Runs.State, r: Rec, io: SegmentLog.Io)
    ensures var ack := Append(cfg, seg, r, io).1; var len := OVERHEAD + |r.payload|;
      if Lands(cfg, seg, len, io)
      then ack == Some(AckOf(SegmentAcks.PlaceOf(cfg.max, seg.live.value, len), r))
      else ack == None
  {
    hide SegmentLog.AppendLocked, Enc, SegmentAcks.NoCallFails, SegmentAcks.PlaceOf, SegmentAcks.NextPosition;
    if Runs.Running(seg) {
      EncLength(cfg.crc, r);
      SegmentAcks.AppendAckedIff(cfg.crc, cfg.max, seg.disk, seg.live.value, Enc(cfg.crc, r), true, io);
    }
  }

  function AckOf(l: SegmentLog.Location, r: Rec): Runs.Ack {
    Runs.Ack(l.segment, l.offset, r)
  }

  /** The Bloom filter rules the content out, so that it is appended unseen. */
  predicate RuledOut(w: World, f: Faults) {
    w.cache.Index? && !f.bloom
  }

  predicate CacheHit(w: World, h: Hash, f: Faults) {
    w.cache.Index? && f.lookupOk && h in w.cache.items
  }

  predicate PutHolds(w: World, f: Faults) {
    w.cache == NoIndex || f.putOk
  }

  /**
   Content that has a row: one reference is taken exactly if the statement succeeds and, when the Bloom filter
   missed the row, so does the append; the call reports success exactly if also the entry, where it was
   missing, was put. It never reports the content as new, and adds no row and no .idx entry.
   */
  lemma PresentOutcome(cfg: Config, w: World, data: Bytes, t: RecordType, f: Faults)
    requires cfg.sha(data) in w.t.blobs
    ensures var (w1, r) := StoreOrRef(cfg, w, data, t, f); var h := cfg.sha(data);
      var taken := f.sqlOk && (RuledOut(w, f) ==> Lands(cfg, w.seg, FramedLength(cfg, data, t), f.io));
      && (r == Stored(false) <==> taken && (RuledOut(w, f) || CacheHit(w, h, f) || PutHolds(w, f)))
      && (r.Stored? ==> r == Stored(false))
      && w1.t == w.t.(blobs := w.t.blobs[h := w.t.blobs[h].(ref := w.t.blobs[h].ref + if taken then 1 else 0)])
      && w1.index == w.index && w1.origin == w.origin
      && (!RuledOut(w, f) ==> w1.seg == w.seg)
  {
    hide Append, EncodeBlob, Enc, Lands;
    AppendAcks(cfg, w.seg, EncodeBlob(cfg.encoder, data, t), f.io);
  }

  /**
   Content without a row: it is stored as new if and only if the append, the statements, the .idx entry and the
   hot-index entry all succeed, whatever the Bloom filter and a stale entry say. The row then has one
   reference and the place the segment log gave, as do the .idx entry and the hot-index entry.
   A failed sidecar write leaves the row behind all the same.
   */
  lemma AbsentOutcome(cfg: Config, w: World, data: Bytes, t: RecordType, f: Faults)
    requires cfg.sha(data) !in w.t.blobs
    ensures var (w1, r) := StoreOrRef(cfg, w, data, t, f); var h := cfg.sha(data); var len := FramedLength(cfg, data, t);
      var inserted := f.sqlOk && Lands(cfg, w.seg, len, f.io);
      && (r == Stored(true) <==> inserted && f.indexOk && PutHolds(w, f))
      && (r.Stored? ==> r == Stored(true))
      && (if !inserted then w1.t == w.t && w1.index == w.index && w1.cache == w.cache else
          var at := SegmentAcks.PlaceOf(cfg.max, w.seg.live.value, len);
          && w1.t == w.t.(blobs := w.t.blobs[h := Blob(|data|, len, at.segment, at.offset, 1)])
          && w1.index == w.index + (if f.indexOk then [IndexEntry(h, Place(|data|, len, at.segment, at.offset))] else [])
          && w1.cache == if w.cache.Index? && f.indexOk && f.putOk
                         then Index(w.cache.items[h := HotEntry(at.segment, at.offset, |data|)]) else w.cache)
  {
    hide Append, EncodeBlob, Enc, Lands, SegmentAcks.PlaceOf;
    var rec := EncodeBlob(cfg.encoder, data, t);
    EncLength(cfg.crc, rec);
    AppendAcks(cfg, w.seg, rec, f.io);
    NewOutcome(cfg, w, data, t, f);
  }

  /** storeNew on absent content, in terms of the append's own answer. */
  lemma NewOutcome(cfg: Config, w: World, data: Bytes, t: RecordType, f: Faults)
    requires cfg.sha(data) !in w.t.blobs
    ensures var (w1, r) := StoreNew(cfg, w, data, t, f); var h := cfg.sha(data); var rec := EncodeBlob(cfg.encoder, data, t);
      var ack := Append(cfg, w.seg, rec, f.io).1;
      var inserted := f.sqlOk && ack.Some?;
      && (r == Stored(true) <==> inserted && f.indexOk && PutHolds(w, f))
      && r != Stored(false)
      && (if !inserted then w1.t == w.t && w1.index == w.index && w1.cache == w.cache else
          && w1.t == w.t.(blobs := w.t.blobs[h := Blob(|data|, |Enc(cfg.crc, rec)|, ack.value.segment, ack.value.offset, 1)])
          && w1.index == w.index + (if f.indexOk then [IndexEntry(h, Place(|data|, |Enc(cfg.crc, rec)|, ack.value.segment, ack.value.offset))] else [])
          && w1.cache == if w.cache.Index? && f.indexOk && f.putOk
                         then Index(w.cache.items[h := HotEntry(ack.value.segment, ack.value.offset, |data|)]) else w.cache)
  {
    hide Append, EncodeBlob, Enc;
  }

  /** The error that dooms the transaction is reported exactly if a statement was reached and failed. */
  lemma SqlErrorIff(cfg: Config, w: World, data: Bytes, t: RecordType, f: Faults)
    ensures StoreOrRef(cfg, w, data, t, f).1 == SqlError <==>
      !f.sqlOk && (RuledOut(w, f) ==> Lands(cfg, w.seg, FramedLength(cfg, data, t), f.io))
  {
    hide Append, EncodeBlob, Enc, Lands;
    AppendAcks(cfg, w.seg, EncodeBlob(cfg.encoder, data, t), f.io);
  }

  /** Nothing fails. */
  predicate AllWell(cfg: Config, w: World, data: Bytes, t: RecordType, f: Faults) {
    f.sqlOk && f.indexOk && f.putOk && Lands(cfg, w.seg, FramedLength(cfg, data, t), f.io)
  }

  /** The same bytes stored twice with nothing failing: new the first time, known the second, two references, one row. */
  lemma StoredTwice(cfg: Config, w: World, data: Bytes, t: RecordType, kind: RecordType, f: Faults, g: Faults)
    requires cfg.sha(data) !in w.t.blobs && AllWell(cfg, w, data, t, f) && AllWell(cfg, StoreOrRef(cfg, w, data, t, f).0, data, kind, g)
    ensures var (w1, r) := StoreOrRef(cfg, w, data, t, f); var (w2, q) := StoreOrRef(cfg, w1, data, kind, g); var h := cfg.sha(data);
      && r == Stored(true) && q == Stored(false)
      && w2.t.blobs.Keys == w.t.blobs.Keys + {h} && Ref(w2.t, h) == 2 && w2.index == w1.index
  {
    hide StoreOrRef, EncodeBlob, Lands, FramedLength, SegmentAcks.PlaceOf;
    AbsentOutcome(cfg, w, data, t, f);
    PresentOutcome(cfg, StoreOrRef(cfg, w, data, t, f).0, data, kind, g);
  }

  // ---- the record that is written ----

  /**
   An XML blob that reaches the minimum size is written in the shorter of its two forms; every other blob as it
   is, under the magic of its type. The compressed magic marks exactly the compressed ones.
   */
  lemma ShorterFormIsWritten(e: Encoder, data: Bytes, t: RecordType)
    ensures var r := EncodeBlob(e, data, t); r == if e.Encoder? && r.magic == MAGIC_XMLC then Rec(MAGIC_XMLC, e.z.enc(data)) else Rec(t.Magic(), data)
    ensures e.Encoder? && t.RecordXML? && |data| >= e.minSize ==> |EncodeBlob(e, data, t).payload| == Min(|data|, |e.z.enc(data)|)
    ensures EncodeBlob(e, data, t).magic == MAGIC_XMLC <==>
      e.Encoder? && t.RecordXML? && |data| >= e.minSize && |e.z.enc(data)| < |data|
  {
  }
}
