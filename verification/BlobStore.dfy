/**
 The content-addressed blob store over segments, tables and the hot index
 (internal/storage/blob_store.go, internal/dedup/index.go, internal/compress/encoder.go).
 */
module BlobStore {
  import opened Bytes
  import opened Record
  import opened Metadata
  import opened Ingestion
  import SegmentLog
  import Runs = SegmentRuns

  // ---- compression ----

  /** Zstd as an inverse pair whose frames start with the magic of section 3.1.1 of RFC 8878. */
  datatype Zstd = Zstd(enc: Bytes -> Bytes, dec: Bytes -> Option<Bytes>)

  predicate IsZstdFrame(b: Bytes) {
    |b| >= 4 && b[..4] == [0x28, 0xB5, 0x2F, 0xFD]
  }

  ghost predicate Lossless(z: Zstd) {
    forall x: Bytes :: IsZstdFrame(z.enc(x)) && z.dec(z.enc(x)) == Some(x)
  }

  datatype Encoder = NoEncoder | Encoder(z: Zstd, minSize: nat)

  function Compress(z: Zstd, data: Bytes): (out: Bytes)
    ensures |out| <= |data|
  {
    if |z.enc(data)| >= |data| then data else z.enc(data)
  }

  function Decompress(z: Zstd, b: Bytes): Option<Bytes> {
    if IsZstdFrame(b) then z.dec(b) else Some(b)
  }

  /** encodeRecord: compressed only where it pays. */
  function EncodeBlob(e: Encoder, data: Bytes, t: RecordType): Rec {
    if e.Encoder? && t.RecordXML? && |data| >= e.minSize && |Compress(e.z, data)| < |data|
    then Rec(MAGIC_XMLC, Compress(e.z, data))
    else Rec(t.Magic(), data)
  }

  function DecodeBlob(e: Encoder, r: Rec): Option<Bytes> {
    if r.magic != MAGIC_XMLC then Some(r.payload) else
    if e == NoEncoder then None else Decompress(e.z, r.payload)
  }

  lemma BlobRoundTrip(e: Encoder, data: Bytes, t: RecordType)
    requires e.Encoder? ==> Lossless(e.z)
    ensures DecodeBlob(e, EncodeBlob(e, data, t)) == Some(data)
    ensures KnownMagic(EncodeBlob(e, data, t).magic) && |EncodeBlob(e, data, t).payload| <= |data|
  {
  }

  // ---- the store ----

  datatype HotEntry = HotEntry(segment: nat, offset: nat, size: nat)

  datatype Cache = NoIndex | Index(items: map<Hash, HotEntry>)

  /** Everything fixed for the life of the process. */
  datatype Config = Config(crc: Checksum, max: int, sha: Sha, encoder: Encoder)

  /** Where a blob row came from: history, set when the row is inserted. */
  datatype Origin = Origin(data: Bytes, rec: Rec)

  /** One .idx entry: where a newly inserted blob lies. */
  datatype IndexEntry = IndexEntry(hash: Hash, place: Place)

  /** `index` lists the entries of all .idx files in the order they were appended. */
  datatype World = World(t: Tables, cache: Cache, seg: Runs.State, index: seq<IndexEntry>, origin: map<Hash, Origin>)

  /** The Bloom filter's answer and the outcomes of the calls StoreOrRef makes. */
  datatype Faults = Faults(bloom: bool, lookupOk: bool, sqlOk: bool, io: SegmentLog.Io, indexOk: bool, putOk: bool)

  datatype Result = Stored(created: bool) | SoftError | SqlError

  function HotOf(b: Blob): HotEntry {
    HotEntry(b.segment, b.offset, b.size)
  }

  function PlaceOf(b: Blob): Place {
    Place(b.size, b.stored, b.segment, b.offset)
  }

  function IndexPut(c: Cache, h: Hash, b: Blob, ok: bool): (r: (Cache, bool)) {
    match c
    case NoIndex => (c, true)
    case Index(items) => if ok then (Index(items[h := HotOf(b)]), true) else (c, false)
  }

  /** The log after appending the record, and its location if it was acknowledged. */
  ghost function Append(cfg: Config, seg: Runs.State, r: Rec, io: SegmentLog.Io): (Runs.State, Option<Runs.Ack>) {
    var s := Runs.Exec(cfg.crc, cfg.max, seg, Runs.Append(r, io));
    (s, if |s.acked| > |seg.acked| then Some(s.acked[|s.acked| - 1]) else None)
  }

  ghost function StoreNew(cfg: Config, w: World, data: Bytes, t: RecordType, f: Faults): (World, Result) {
    var h := cfg.sha(data);
    var rec := EncodeBlob(cfg.encoder, data, t);
    var (seg, ack) := Append(cfg, w.seg, rec, f.io);
    var w1 := w.(seg := seg);
    if ack == None then (w1, SoftError) else
    if !f.sqlOk then (w1, SqlError) else
    var blob := Blob(|data|, |Enc(cfg.crc, rec)|, ack.value.segment, ack.value.offset, 1);
    var (t1, inserted) := InsertBlobOrIncrement(w.t, h, blob);
    if !inserted then (w1.(t := t1), Stored(false)) else
    var w2 := w1.(t := t1, origin := w.origin[h := Origin(data, rec)]);
    if !f.indexOk then (w2, SoftError) else
    var w3 := w2.(index := w.index + [IndexEntry(h, PlaceOf(blob))]);
    var (cache, ok) := IndexPut(w.cache, h, blob, f.putOk);
    if !ok then (w3, SoftError) else (w3.(cache := cache), Stored(true))
  }

  /** The branches of StoreOrRef behind the hot index. */
  ghost function FromTables(cfg: Config, w: World, data: Bytes, t: RecordType, f: Faults): (World, Result) {
    var h := cfg.sha(data);
    if !f.sqlOk then (w, SqlError) else
    if h in w.t.blobs then
      var w1 := w.(t := IncrementRef(w.t, h));
      var (cache, ok) := IndexPut(w.cache, h, w.t.blobs[h], f.putOk);
      if !ok then (w1, SoftError) else (w1.(cache := cache), Stored(false))
    else StoreNew(cfg, w, data, t, f)
  }

  ghost function StoreOrRef(cfg: Config, w: World, data: Bytes, t: RecordType, f: Faults): (World, Result) {
    var h := cfg.sha(data);
    if w.cache.Index? && !f.bloom then StoreNew(cfg, w, data, t, f) else
    if w.cache.Index? && f.lookupOk && h in w.cache.items then
      if !f.sqlOk then (w, SqlError) else
      if h in w.t.blobs then (w.(t := IncrementRef(w.t, h)), Stored(false)) else FromTables(cfg, w, data, t, f)
    else FromTables(cfg, w, data, t, f)
  }

  // ---- the cache never changes the answer ----

  /** The table effect of a call: the outcome the ingest transactions are built on. */
  ghost function Effect(cfg: Config, w: World, data: Bytes, t: RecordType, f: Faults): Store {
    var (w1, r) := StoreOrRef(cfg, w, data, t, f);
    var place := PlaceFor(cfg, w, data, t, f);
    match r
    case Stored(_) => Kept(place)
    case SqlError => SqlFailed([])
    case SoftError => if w1.t == w.t then FailedBefore([]) else FailedAfter(place, [])
  }

  /**
   For every Bloom answer and every hot-index content, the call changes content_blobs exactly as
   "insert with ref 1, else increment", or not at all, and reports `created` iff the row was absent.
   */
  lemma StoreOrRefEffect(cfg: Config, w: World, data: Bytes, t: RecordType, f: Faults)
    ensures var (w1, r) := StoreOrRef(cfg, w, data, t, f);
      var h := cfg.sha(data);
      && w1.t == AfterStore(w.t, h, Effect(cfg, w, data, t, f))
      && (r.Stored? ==> h in w1.t.blobs && Ref(w1.t, h) == Ref(w.t, h) + 1 && (r.created <==> h !in w.t.blobs))
      && (forall k :: k != h ==> (k in w1.t.blobs <==> k in w.t.blobs) && (k in w.t.blobs ==> w1.t.blobs[k] == w.t.blobs[k]))
      && w1.t.pkgs == w.t.pkgs && w1.t.files == w.t.files
  {
    hide Append, EncodeBlob, Enc, StoreNew, AfterStore;
    var h := cfg.sha(data);
    var place := PlaceFor(cfg, w, data, t, f);
    NewEffect(cfg, w, data, t, f);
    OneReference(w.t, h, place);
  }

  /** Where the record of this call went, if it was appended. */
  ghost function PlaceFor(cfg: Config, w: World, data: Bytes, t: RecordType, f: Faults): Place {
    var rec := EncodeBlob(cfg.encoder, data, t);
    var ack := Append(cfg, w.seg, rec, f.io).1;
    if ack.Some? then Place(|data|, |Enc(cfg.crc, rec)|, ack.value.segment, ack.value.offset) else Place(0, 0, 0, 0)
  }

  lemma NewEffect(cfg: Config, w: World, data: Bytes, t: RecordType, f: Faults)
    ensures var (w1, r) := StoreNew(cfg, w, data, t, f);
      var after := AfterStore(w.t, cfg.sha(data), Kept(PlaceFor(cfg, w, data, t, f)));
      && (r.Stored? ==> w1.t == after && (r.created <==> cfg.sha(data) !in w.t.blobs))
      && (r == SqlError ==> w1.t == w.t) && (r == SoftError ==> w1.t == w.t || w1.t == after)
  {
    hide Append, EncodeBlob, Enc;
  }

  /** Taking a reference: one row created or incremented, all else as before. */
  lemma OneReference(t: Tables, h: Hash, p: Place)
    ensures var u := AfterStore(t, h, Kept(p));
      && u == AfterStore(t, h, FailedAfter(p, [])) && AfterStore(t, h, FailedBefore([])) == AfterStore(t, h, SqlFailed([])) == t
      && (h in t.blobs ==> u == IncrementRef(t, h))
      && h in u.blobs && Ref(u, h) == Ref(t, h) + 1
      && (forall k :: k != h ==> (k in u.blobs <==> k in t.blobs) && (k in t.blobs ==> u.blobs[k] == t.blobs[k]))
      && u.pkgs == t.pkgs && u.files == t.files
  {
  }

  /** Two calls that differ only in cache content and Bloom answer leave the same tables. */
  lemma CacheDoesNotMatter(cfg: Config, w: World, cache: Cache, data: Bytes, t: RecordType, f: Faults, bloom: bool, lookupOk: bool)
    requires StoreOrRef(cfg, w, data, t, f).1.Stored?
    requires StoreOrRef(cfg, w.(cache := cache), data, t, f.(bloom := bloom, lookupOk := lookupOk)).1.Stored?
    ensures var (a, r) := StoreOrRef(cfg, w, data, t, f);
      var (b, s) := StoreOrRef(cfg, w.(cache := cache), data, t, f.(bloom := bloom, lookupOk := lookupOk));
      a.t == b.t && r == s
  {
    hide Append, EncodeBlob, Enc, StoreOrRef, AfterStore;
    StoreOrRefEffect(cfg, w, data, t, f);
    StoreOrRefEffect(cfg, w.(cache := cache), data, t, f.(bloom := bloom, lookupOk := lookupOk));
  }

  // ---- row and index entry agree ----

  predicate Agree(t: Tables, c: Cache) {
    c.Index? ==> forall h :: h in t.blobs && h in c.items ==> c.items[h] == HotOf(t.blobs[h])
  }

  /**
   A call that starts with agreement ends with it, except in one case: a stale entry for content
   without a row, and a new row whose sidecar writes fail before the entry is replaced.
   */
  lemma AgreementKeptIff(cfg: Config, w: World, data: Bytes, t: RecordType, f: Faults)
    requires Agree(w.t, w.cache)
    ensures var (w1, r) := StoreOrRef(cfg, w, data, t, f);
      Agree(w1.t, w1.cache) <==> !LeavesStale(cfg, w, data, t, f)
  {
    hide StoreNew, Append, EncodeBlob, Enc;
    NewAgreementIff(cfg, w, data, t, f);
  }

  lemma NewAgreementIff(cfg: Config, w: World, data: Bytes, t: RecordType, f: Faults)
    requires Agree(w.t, w.cache)
    ensures var w1 := StoreNew(cfg, w, data, t, f).0; Agree(w1.t, w1.cache) <==> !LeavesStale(cfg, w, data, t, f)
    ensures !f.sqlOk ==> Agree(w.t, w.cache) && !LeavesStale(cfg, w, data, t, f)
  {
    hide Append, EncodeBlob, Enc;
    var h := cfg.sha(data);
    if w.cache.Index? && h in w.cache.items && h !in w.t.blobs {
      var w1 := StoreNew(cfg, w, data, t, f).0;
      assert w1.cache.Index? && h in w1.cache.items;
    }
  }

  /** Stale entry, record appended, row inserted, a sidecar write failed, and the entry points elsewhere. */
  ghost predicate LeavesStale(cfg: Config, w: World, data: Bytes, t: RecordType, f: Faults) {
    var h := cfg.sha(data);
    var ack := Append(cfg, w.seg, EncodeBlob(cfg.encoder, data, t), f.io).1;
    && w.cache.Index? && h in w.cache.items && h !in w.t.blobs
    && f.sqlOk && ack.Some? && !(f.indexOk && f.putOk)
    && w.cache.items[h] != HotEntry(ack.value.segment, ack.value.offset, |data|)
  }

  /** Rows of `s` still stand in `t` at the same place. */
  predicate SamePlaces(s: Tables, t: Tables) {
    forall h :: h in s.blobs ==> h in t.blobs && t.blobs[h].(ref := s.blobs[h].ref) == s.blobs[h]
  }

  lemma RollbackKeepsAgreement(s: Tables, t: Tables, c: Cache)
    requires Agree(t, c) && SamePlaces(s, t)
    ensures Agree(s, c)
  {
  }

  /** RebuildFromPG: clear the index, then put every row; a failing Put stops it half-way. */
  method RebuildFromPG(t: Tables, rows: seq<Hash>, puts: seq<bool>) returns (c: Cache, ok: bool)
    requires |puts| == |rows| && forall i :: 0 <= i < |rows| ==> rows[i] in t.blobs
    ensures c.Index? && Agree(t, c)
    ensures ok <==> forall i :: 0 <= i < |rows| ==> puts[i]
    ensures ok ==> c.items.Keys == set i | 0 <= i < |rows| :: rows[i]
  {
    c, ok := Index(map[]), true;
    for i := 0 to |rows|
      invariant ok && c.Index? && Agree(t, c)
      invariant c.items.Keys == set j | 0 <= j < i :: rows[j]
      invariant forall j :: 0 <= j < i ==> puts[j]
    {
      var (c1, put) := IndexPut(c, rows[i], t.blobs[rows[i]], puts[i]);
      if !put { return c, false; }
      c := c1;
    }
  }

  // ---- every row reads back its content ----

  /** The row's location was acknowledged for a record holding exactly the content its key hashes. */
  ghost predicate RowBacked(cfg: Config, w: World, h: Hash, b: Blob) {
    && h in w.origin
    && cfg.sha(w.origin[h].data) == h
    && DecodeBlob(cfg.encoder, w.origin[h].rec) == Some(w.origin[h].data)
    && b.size == |w.origin[h].data| && b.stored == OVERHEAD + |w.origin[h].rec.payload|
    && Runs.EverAcked(w.seg, Runs.Ack(b.segment, b.offset, w.origin[h].rec))
  }

  /** The segment log still stands by the row's record. */
  ghost predicate Standing(w: World, h: Hash) {
    h in w.t.blobs && h in w.origin && Runs.Ack(w.t.blobs[h].segment, w.t.blobs[h].offset, w.origin[h].rec) in w.seg.acked
  }

  /** A recovery cut off a record at the row's place. */
  ghost predicate Withdrawn(w: World, h: Hash) {
    h in w.t.blobs && exists a :: a in w.seg.gone && a.segment == w.t.blobs[h].segment && a.offset == w.t.blobs[h].offset
  }

  ghost predicate Backed(cfg: Config, w: World) {
    && (cfg.encoder.Encoder? ==> Lossless(cfg.encoder.z))
    && Runs.Inv(cfg.crc, cfg.max, w.seg)
    && forall h :: h in w.t.blobs ==> RowBacked(cfg, w, h, w.t.blobs[h])
  }

  lemma AppendGrows(cfg: Config, seg: Runs.State, r: Rec, io: SegmentLog.Io)
    requires Runs.Inv(cfg.crc, cfg.max, seg) && Framed(r)
    ensures var (s, ack) := Append(cfg, seg, r, io);
      && Runs.Inv(cfg.crc, cfg.max, s) && seg.acked <= s.acked && s.gone == seg.gone
      && (ack.Some? ==> ack.value in s.acked && ack.value.rec == r)
  {
    hide Runs.Inv, Enc, SegmentLog.AppendLocked;
    Runs.StepKeepsInv(cfg.crc, cfg.max, seg, Runs.Append(r, io));
  }

  lemma StoreNewKeeps(cfg: Config, w: World, data: Bytes, t: RecordType, f: Faults)
    requires Backed(cfg, w) && |data| < TWO_32
    ensures var w1 := StoreNew(cfg, w, data, t, f).0; Backed(cfg, w1) && SamePlaces(w.t, w1.t)
  {
    hide Append, Runs.Inv, Lossless, EncodeBlob, DecodeBlob, Enc, Backed, SamePlaces, IncrementRef;
    var rec := EncodeBlob(cfg.encoder, data, t);
    var h := cfg.sha(data);
    BackedParts(cfg, w);
    BlobRoundTrip(cfg.encoder, data, t);
    AppendGrows(cfg, w.seg, rec, f.io);
    EncLength(cfg.crc, rec);
    var (seg, ack) := Append(cfg, w.seg, rec, f.io);
    SegmentGrows(cfg, w, seg);
    var w1 := w.(seg := seg);
    PlacesRefl(w.t);
    IncrementKeeps(cfg, w1, h, w.cache);
    if ack.Some? && f.sqlOk && h !in w.t.blobs {
      var w' := StoreNew(cfg, w, data, t, f).0;
      InsertKeeps(cfg, w1, h, Origin(data, rec), ack.value, w'.index, w'.cache);
    }
  }

  lemma BackedParts(cfg: Config, w: World)
    requires Backed(cfg, w)
    ensures (cfg.encoder.Encoder? ==> Lossless(cfg.encoder.z)) && Runs.Inv(cfg.crc, cfg.max, w.seg)
  {
  }

  lemma SegmentGrows(cfg: Config, w: World, seg: Runs.State)
    requires Backed(cfg, w) && Runs.Inv(cfg.crc, cfg.max, seg) && forall a :: Runs.EverAcked(w.seg, a) ==> Runs.EverAcked(seg, a)
    ensures Backed(cfg, w.(seg := seg))
  {
    hide Runs.Inv, Runs.EverAcked, DecodeBlob, Lossless;
  }

  /** A new row over an acknowledged record; index and cache play no part. */
  lemma InsertKeeps(cfg: Config, w: World, h: Hash, o: Origin, ack: Runs.Ack, index: seq<IndexEntry>, cache: Cache)
    requires Backed(cfg, w) && h !in w.t.blobs && cfg.sha(o.data) == h && DecodeBlob(cfg.encoder, o.rec) == Some(o.data)
    requires ack in w.seg.acked && ack.rec == o.rec
    ensures var b := Blob(|o.data|, OVERHEAD + |o.rec.payload|, ack.segment, ack.offset, 1);
      var t := w.t.(blobs := w.t.blobs[h := b]);
      Backed(cfg, w.(t := t, origin := w.origin[h := o], index := index, cache := cache)) && SamePlaces(w.t, t)
  {
    hide Runs.Inv, Lossless, DecodeBlob;
  }

  lemma EncLength(crc: Checksum, r: Rec)
    ensures |Enc(crc, r)| == OVERHEAD + |r.payload|
  {
  }

  lemma StoreKeepsBacked(cfg: Config, w: World, data: Bytes, t: RecordType, f: Faults)
    requires Backed(cfg, w) && |data| < TWO_32
    ensures var w1 := StoreOrRef(cfg, w, data, t, f).0; Backed(cfg, w1) && SamePlaces(w.t, w1.t)
  {
    hide StoreNew, Backed, SamePlaces, IncrementRef;
    StoreNewKeeps(cfg, w, data, t, f);
    IncrementKeeps(cfg, w, cfg.sha(data), w.cache);
    IncrementKeeps(cfg, w, cfg.sha(data), FromTables(cfg, w, data, t, f).0.cache);
    PlacesRefl(w.t);
  }

  lemma PlacesRefl(t: Tables)
    ensures SamePlaces(t, t)
  {
  }

  lemma IncrementKeeps(cfg: Config, w: World, h: Hash, cache: Cache)
    requires Backed(cfg, w)
    ensures Backed(cfg, w.(t := IncrementRef(w.t, h), cache := cache)) && SamePlaces(w.t, IncrementRef(w.t, h))
  {
    hide Runs.Inv, Lossless, DecodeBlob;
  }

  /** ReadBlob: read the record at the row's location and undo the compression. */
  function ReadBlob(cfg: Config, disk: SegmentLog.Disk, b: Blob, verify: bool): Option<Bytes> {
    if b.segment !in disk then None else
    match SegmentLog.ReadRecord(cfg.crc, disk[b.segment].content, b.offset, verify)
    case None => None
    case Some(r) => DecodeBlob(cfg.encoder, r)
  }

  /** The row leads to bytes with its hash, of its size, in a record of its stored size. */
  predicate ReadsContent(cfg: Config, disk: SegmentLog.Disk, h: Hash, b: Blob, verify: bool) {
    var data := ReadBlob(cfg, disk, b, verify);
    && data.Some? && cfg.sha(data.value) == h && b.size == |data.value|
    && b.segment in disk
    && var r := SegmentLog.ReadRecord(cfg.crc, disk[b.segment].content, b.offset, verify);
       r.Some? && b.stored == |Enc(cfg.crc, r.value)|
  }

  /**
   A row is read as whatever record stands at its place now. When its own was cut off and the next append
   took the place, that is another blob's content under the row's key, with no error.
   */
  lemma RowReadsWhatStandsThere(cfg: Config, w: World, h: Hash, a: Runs.Ack, verify: bool)
    requires Backed(cfg, w) && h in w.t.blobs && a in w.seg.acked
    requires a.segment == w.t.blobs[h].segment && a.offset == w.t.blobs[h].offset
    ensures ReadBlob(cfg, w.seg.disk, w.t.blobs[h], verify) == DecodeBlob(cfg.encoder, a.rec)
  {
    hide Enc, DecodeBlob, Lossless, SegmentLog.ReadRecord, Runs.Durable, Runs.Ordered, Runs.Base, Runs.WeakOk;
    assert Runs.Placed(cfg.crc, w.seg.disk, a);
    EncLength(cfg.crc, a.rec);
    SegmentLog.ReadsBack(cfg.crc, w.seg.disk[a.segment].content, a.offset, a.rec, verify);
  }

  lemma BackedRowReads(cfg: Config, w: World, h: Hash, verify: bool)
    requires Backed(cfg, w) && Standing(w, h)
    ensures ReadsContent(cfg, w.seg.disk, h, w.t.blobs[h], verify)
  {
    hide Enc, DecodeBlob, Lossless, SegmentLog.ReadRecord, Runs.Durable, Runs.Ordered, Runs.Base;
    var b := w.t.blobs[h];
    var r := w.origin[h].rec;
    assert Runs.Placed(cfg.crc, w.seg.disk, Runs.Ack(b.segment, b.offset, r));
    EncLength(cfg.crc, r);
    SegmentLog.ReadsBack(cfg.crc, w.seg.disk[b.segment].content, b.offset, r, verify);
  }

  // ---- whole runs: stores, rollbacks, restarts and crashes ----

  /** A store inside a transaction; its begin and rollback; a restart, crash or close of the segment log. */
  datatype Step =
    | Put(data: Bytes, kind: RecordType, f: Faults)
    | Begin
    | Rollback
    | Log(step: Runs.Step)

  datatype Session = Session(w: World, saved: Tables)

  ghost function Exec(cfg: Config, s: Session, step: Step): Session {
    match step
    case Put(data, kind, f) => s.(w := StoreOrRef(cfg, s.w, data, kind, f).0)
    case Begin => s.(saved := s.w.t)
    case Rollback => s.(w := s.w.(t := s.saved))
    case Log(l) => s.(w := s.w.(seg := Runs.Exec(cfg.crc, cfg.max, s.w.seg, l)))
  }

  ghost predicate Allowed(cfg: Config, s: Session, step: Step) {
    match step
    case Put(data, _, _) => |data| < TWO_32
    case Log(l) => (l.Close? || l.Crash? || l.Recover?) && Runs.CleanStep(s.w.seg, l)
    case _ => true
  }

  ghost predicate Sound(cfg: Config, s: Session) {
    Backed(cfg, s.w) && SamePlaces(s.saved, s.w.t)
  }

  lemma PlacesTrans(a: Tables, b: Tables, c: Tables)
    requires SamePlaces(a, b) && SamePlaces(b, c)
    ensures SamePlaces(a, c)
  {
  }

  lemma StepKeepsSound(cfg: Config, s: Session, step: Step)
    requires Sound(cfg, s) && Allowed(cfg, s, step)
    ensures Sound(cfg, Exec(cfg, s, step))
  {
    hide StoreOrRef, Runs.Inv, Lossless, DecodeBlob, Runs.CleanStep, Runs.Exec;
    match step
    case Put(data, kind, f) =>
      StoreKeepsBacked(cfg, s.w, data, kind, f);
      PlacesTrans(s.saved, s.w.t, StoreOrRef(cfg, s.w, data, kind, f).0.t);
    case Begin =>
    case Rollback =>
    case Log(l) =>
      hide Runs.EverAcked;
      Runs.StepKeepsInv(cfg.crc, cfg.max, s.w.seg, l);
      Runs.EverAckedStays(cfg.crc, cfg.max, s.w.seg, l);
      SegmentGrows(cfg, s.w, Runs.Exec(cfg.crc, cfg.max, s.w.seg, l));
  }

  ghost predicate AllowedRun(cfg: Config, s: Session, steps: seq<Step>, end: Session)
    decreases |steps|
  {
    if steps == [] then end == s else Allowed(cfg, s, steps[0]) && AllowedRun(cfg, Exec(cfg, s, steps[0]), steps[1..], end)
  }

  lemma {:induction false} RunKeepsSound(cfg: Config, s: Session, steps: seq<Step>, end: Session)
    requires Sound(cfg, s) && AllowedRun(cfg, s, steps, end)
    ensures Sound(cfg, end)
    decreases |steps|
  {
    hide Sound, Exec, Allowed;
    if steps != [] {
      StepKeepsSound(cfg, s, steps[0]);
      RunKeepsSound(cfg, Exec(cfg, s, steps[0]), steps[1..], end);
    }
  }

  predicate SidecarsHold(step: Step) {
    step.Put? ==> step.f.indexOk && step.f.putOk
  }

  lemma StepKeepsAgreement(cfg: Config, s: Session, step: Step)
    requires Sound(cfg, s) && Agree(s.w.t, s.w.cache) && SidecarsHold(step)
    ensures Agree(Exec(cfg, s, step).w.t, Exec(cfg, s, step).w.cache)
  {
    hide StoreOrRef, Backed, Runs.Exec, Append;
    match step
    case Put(data, kind, f) => AgreementKeptIff(cfg, s.w, data, kind, f);
    case Begin =>
    case Rollback => RollbackKeepsAgreement(s.saved, s.w.t, s.w.cache);
    case Log(l) =>
  }

  lemma {:induction false} RunKeepsAgreement(cfg: Config, s: Session, steps: seq<Step>, end: Session)
    requires Sound(cfg, s) && Agree(s.w.t, s.w.cache) && AllowedRun(cfg, s, steps, end)
    requires forall i :: 0 <= i < |steps| ==> SidecarsHold(steps[i])
    ensures Agree(end.w.t, end.w.cache)
    decreases |steps|
  {
    hide Sound, Exec, Allowed, Agree;
    if steps != [] {
      StepKeepsSound(cfg, s, steps[0]);
      StepKeepsAgreement(cfg, s, steps[0]);
      RunKeepsAgreement(cfg, Exec(cfg, s, steps[0]), steps[1..], end);
    }
  }

  /**
   Whatever the hot index held at the start, in every run of stores, rollbacks and restarts whose
   sidecar writes succeed, a hash with both a row and an index entry has them at the same place.
   */
  lemma RowsAndIndexAgree(cfg: Config, cache: Cache, steps: seq<Step>, end: Session)
    requires cfg.encoder.Encoder? ==> Lossless(cfg.encoder.z)
    requires AllowedRun(cfg, Session(World(EMPTY, cache, Runs.FRESH, [], map[]), EMPTY), steps, end)
    requires forall i :: 0 <= i < |steps| ==> SidecarsHold(steps[i])
    ensures Agree(end.w.t, end.w.cache)
  {
    hide Lossless, AllowedRun;
    assert Runs.Inv(cfg.crc, cfg.max, Runs.FRESH);
    RunKeepsAgreement(cfg, Session(World(EMPTY, cache, Runs.FRESH, [], map[]), EMPTY), steps, end);
  }

  /** Two appends in a row never get the same place. */
  lemma FreshPlace(cfg: Config, seg: Runs.State, r: Rec, io: SegmentLog.Io, io': SegmentLog.Io)
    requires Runs.Inv(cfg.crc, cfg.max, seg) && Framed(r)
    requires Append(cfg, seg, r, io).1.Some? && Append(cfg, Append(cfg, seg, r, io).0, r, io').1.Some?
    ensures var (s, a) := Append(cfg, seg, r, io); var b := Append(cfg, s, r, io').1;
      a.value.segment != b.value.segment || a.value.offset != b.value.offset
  {
    hide Enc, SegmentLog.AppendLocked, Runs.Placed, Runs.Durable, Runs.Base;
    var s := Append(cfg, seg, r, io).0;
    var u := Append(cfg, s, r, io').0;
    Runs.StepKeepsInv(cfg.crc, cfg.max, seg, Runs.Append(r, io));
    Runs.StepKeepsInv(cfg.crc, cfg.max, s, Runs.Append(r, io'));
    assert u.acked[|s.acked| - 1] == s.acked[|s.acked| - 1];
  }

  /** How the exception comes about: a store is rolled back, its entry stays, the next store's Put fails. */
  lemma RolledBackEntryGoesStale(cfg: Config, s: Session, data: Bytes, kind: RecordType, f: Faults, g: Faults)
    requires Sound(cfg, s) && s.saved == s.w.t && s.w.cache.Index? && cfg.sha(data) !in s.w.t.blobs && |data| < TWO_32
    requires f.sqlOk && f.indexOk && f.putOk && g.sqlOk && !g.putOk
    requires var rec := EncodeBlob(cfg.encoder, data, kind); var (seg, ack) := Append(cfg, s.w.seg, rec, f.io);
      ack.Some? && Append(cfg, seg, rec, g.io).1.Some?
    ensures var s2 := Exec(cfg, Exec(cfg, s, Put(data, kind, f)), Rollback); var s3 := Exec(cfg, s2, Put(data, kind, g));
      s2.w.t == s.w.t && cfg.sha(data) in s3.w.t.blobs && !Agree(s3.w.t, s3.w.cache)
  {
    hide Append, EncodeBlob, DecodeBlob, Enc, Runs.Inv, Lossless;
    BlobRoundTrip(cfg.encoder, data, kind);
    FreshPlace(cfg, s.w.seg, EncodeBlob(cfg.encoder, data, kind), f.io, g.io);
    var (seg, ack) := Append(cfg, s.w.seg, EncodeBlob(cfg.encoder, data, kind), f.io);
    var s2 := Exec(cfg, Exec(cfg, s, Put(data, kind, f)), Rollback);
    var h := cfg.sha(data);
    assert s2.w.seg == seg && h in s2.w.cache.items;
    var s3 := Exec(cfg, s2, Put(data, kind, g));
    assert h in s3.w.t.blobs && s3.w.cache == s2.w.cache;
  }

  /**
   After any run of stores of any record type with any compression outcome, any hot-index content,
   I/O failures, rollbacks, rotations, closes, restarts and crashes: the segment log stands by a row's
   record or has withdrawn its place; and as long as it stands by it, reading the row yields bytes with
   the row's hash, of the row's size, framed in the row's stored size.
   */
  lemma EveryRowReadsItsContent(cfg: Config, cache: Cache, steps: seq<Step>, end: Session, h: Hash, verify: bool)
    requires cfg.encoder.Encoder? ==> Lossless(cfg.encoder.z)
    requires AllowedRun(cfg, Session(World(EMPTY, cache, Runs.FRESH, [], map[]), EMPTY), steps, end)
    requires h in end.w.t.blobs
    ensures Standing(end.w, h) || Withdrawn(end.w, h)
    ensures Standing(end.w, h) ==> ReadsContent(cfg, end.w.seg.disk, h, end.w.t.blobs[h], verify)
    ensures end.w.t.blobs[h].stored >= OVERHEAD
  {
    hide Lossless, ReadsContent, AllowedRun, DecodeBlob, Runs.Inv;
    var start := Session(World(EMPTY, cache, Runs.FRESH, [], map[]), EMPTY);
    assert Runs.Inv(cfg.crc, cfg.max, Runs.FRESH) by { FreshLog(cfg); }
    RunKeepsSound(cfg, start, steps, end);
    var b := end.w.t.blobs[h];
    assert RowBacked(cfg, end.w, h, b);
    var a := Runs.Ack(b.segment, b.offset, end.w.origin[h].rec);
    assert a in end.w.seg.acked || a in end.w.seg.gone;
    if Standing(end.w, h) { BackedRowReads(cfg, end.w, h, verify); }
  }

  lemma FreshLog(cfg: Config)
    ensures Runs.Inv(cfg.crc, cfg.max, Runs.FRESH)
  {
  }
}
