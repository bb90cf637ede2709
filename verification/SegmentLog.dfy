/**
 The segment log as a state machine: files with a durable prefix, sessions of the segment
 manager, failing and torn I/O, crashes and recoveries (internal/storage/segment.go).
 */
module SegmentLog {
  import opened Bytes
  import opened Record
  import opened Scan

  /** `durable` bytes at the front survive a crash; the rest may become anything. */
  datatype File = File(content: Bytes, durable: nat)

  type Disk = map<nat, File>

  datatype Location = Location(segment: nat, offset: nat, size: nat)

  /** The in-memory half of SegmentManager. A failed open leaves a closed handle behind. */
  datatype Session = Session(activeID: nat, isOpen: bool, offset: nat, count: uint32)

  datatype Write = Full | Torn(n: nat)
  datatype Open = Opened | OpenFailed(created: bool)

  /** The outcomes of the I/O calls one append may make. */
  datatype Io = Io(footer: Write, footerSync: bool, open: Open, write: Write, sync: bool)

  // ---- file operations ----

  /** An overwrite withdraws durability from everything at and past `off`. */
  function WriteAt(f: File, off: nat, b: Bytes): (g: File)
    requires off <= |f.content|
    ensures |g.content| >= off + |b|
    ensures g.content[..off] == f.content[..off] && g.content[off..off + |b|] == b
    ensures g.durable == Min(f.durable, off)
  {
    var tail := if off + |b| < |f.content| then f.content[off + |b|..] else [];
    File(f.content[..off] + b + tail, Min(f.durable, off))
  }

  function Reached(b: Bytes, w: Write): (r: Bytes)
    ensures r <= b
  {
    match w
    case Full => b
    case Torn(n) => b[..Min(n, |b|)]
  }

  function Sync(f: File): File {
    File(f.content, |f.content|)
  }

  function Truncate(f: File, n: nat): File
    requires n <= |f.content|
  {
    File(f.content[..n], Min(f.durable, n))
  }

  // ---- the segment manager's operations ----

  predicate SessionOk(d: Disk, s: Session) {
    && (forall id :: id in d ==> id <= s.activeID)
    && (s.isOpen ==> s.activeID in d && s.offset <= |d[s.activeID].content|)
    && (!s.isOpen ==> s.offset == 0)
  }

  /** finalizeLocked: a footer behind the last record, then fsync. */
  function Finalize(d: Disk, s: Session, w: Write, syncOk: bool): (r: (Disk, bool))
    requires SessionOk(d, s)
    ensures r.0.Keys == d.Keys && SessionOk(r.0, s)
  {
    if s.offset == 0 then (d, true) else
    var f := WriteAt(d[s.activeID], s.offset, Reached(Footer(s.count, s.offset % TWO_64), w));
    if w.Torn? || !syncOk then (d[s.activeID := f], false) else (d[s.activeID := Sync(f)], true)
  }

  /** openSegmentFile: create, or scan and cut to the valid length. */
  function OpenFile(crc: Checksum, d: Disk, id: nat): (r: (Disk, nat, uint32))
    ensures r.0.Keys == d.Keys + {id} && r.1 <= |r.0[id].content|
  {
    if id !in d then (d[id := File([], 0)], 0, 0) else
    var f := d[id];
    if f.content == [] then (d, 0, 0) else
    var n := ScanLen(crc, f.content);
    (d[id := Truncate(f, n)], n, |Records(crc, f.content)| % TWO_32)
  }

  /** openSegment: activeID moves on even when the file cannot be opened. */
  function OpenSegment(crc: Checksum, d: Disk, id: nat, open: Open): (r: (Disk, Session, bool))
    requires forall k :: k in d ==> k <= id
    ensures SessionOk(r.0, r.1) && r.2 == r.1.isOpen
  {
    match open
    case OpenFailed(created) =>
      (if created && id !in d then d[id := File([], 0)] else d, Session(id, false, 0, 0), false)
    case Opened =>
      var (d1, off, count) := OpenFile(crc, d, id);
      (d1, Session(id, true, off, count), true)
  }

  predicate MustRotate(max: int, s: Session, len: nat) {
    s.offset > 0 && s.offset + len + FOOTER_SIZE > max
  }

  function Rotate(crc: Checksum, max: int, d: Disk, s: Session, len: nat, io: Io): (r: (Disk, Session, bool))
    requires SessionOk(d, s)
    ensures SessionOk(r.0, r.1)
  {
    if !MustRotate(max, s, len) then (d, s, true) else
    var (d1, ok) := Finalize(d, s, io.footer, io.footerSync);
    if !ok then (d1, s, false) else OpenSegment(crc, d1, s.activeID + 1, io.open)
  }

  datatype Appended = Appended(disk: Disk, s: Session, loc: Option<Location>)

  /** The write of one record at the session's offset. */
  function WriteRecord(d: Disk, s: Session, b: Bytes, fsync: bool, io: Io): (r: Appended)
    requires SessionOk(d, s)
    ensures SessionOk(r.disk, r.s)
  {
    if !s.isOpen then Appended(d, s, None) else
    var f := WriteAt(d[s.activeID], s.offset, Reached(b, io.write));
    if io.write.Torn? || (fsync && !io.sync) then Appended(d[s.activeID := f], s, None) else
    Appended(d[s.activeID := if fsync then Sync(f) else f],
             s.(offset := s.offset + |b|, count := (s.count + 1) % TWO_32),
             Some(Location(s.activeID, s.offset, |b|)))
  }

  /** appendLocked: rotate when the record and a footer no longer fit, then write. */
  function AppendLocked(crc: Checksum, max: int, d: Disk, s: Session, b: Bytes, fsync: bool, io: Io): (r: Appended)
    requires SessionOk(d, s)
    ensures SessionOk(r.disk, r.s)
  {
    var (d1, s1, ok) := Rotate(crc, max, d, s, |b|, io);
    if !ok then Appended(d1, s1, None) else WriteRecord(d1, s1, b, fsync, io)
  }

  datatype Batched = Batched(disk: Disk, s: Session, locs: seq<Option<Location>>)

  /** The writes of a batch, before its one fsync; a failed record does not stop the others. */
  function BatchWrites(crc: Checksum, max: int, d: Disk, s: Session, bs: seq<Bytes>, ios: seq<Io>): (r: Batched)
    requires SessionOk(d, s) && |bs| == |ios|
    ensures SessionOk(r.disk, r.s) && |r.locs| == |bs|
  {
    if bs == [] then Batched(d, s, []) else
    var n := |bs| - 1;
    var p := BatchWrites(crc, max, d, s, bs[..n], ios[..n]);
    var a := AppendLocked(crc, max, p.disk, p.s, bs[n], false, ios[n]);
    Batched(a.disk, a.s, p.locs + [a.loc])
  }

  /** batchAppend: a failed fsync fails every record of the batch. */
  function BatchAppend(crc: Checksum, max: int, d: Disk, s: Session, bs: seq<Bytes>, ios: seq<Io>, syncOk: bool): (r: Batched)
    requires SessionOk(d, s) && |bs| == |ios|
    ensures SessionOk(r.disk, r.s) && |r.locs| == |bs|
  {
    var w := BatchWrites(crc, max, d, s, bs, ios);
    if !(exists i :: 0 <= i < |bs| && w.locs[i].Some?) then w else
    if syncOk && w.s.isOpen then w.(disk := w.disk[w.s.activeID := Sync(w.disk[w.s.activeID])]) else
    w.(locs := seq(|bs|, _ => None))
  }

  /** ReadRecord: header, payload and, when verifying, the checksum trailer. */
  function ReadRecord(crc: Checksum, content: Bytes, off: nat, verify: bool): (r: Option<Rec>) {
    if off + HEADER_SIZE > |content| then None else
    var magic, size := GetU32(content[off..off + 4]), GetU32(content[off + 4..off + 8]);
    var p := off + HEADER_SIZE;
    if p + size > |content| then None else
    var payload := content[p..p + size];
    if !verify then Some(Rec(magic, payload)) else
    if p + size + CHECKSUM_SIZE > |content| then None else
    if crc(payload) != GetU32(content[p + size..p + size + CHECKSUM_SIZE]) then None else
    Some(Rec(magic, payload))
  }

  lemma ReadsBack(crc: Checksum, content: Bytes, off: nat, r: Rec, verify: bool)
    requires off + |Enc(crc, r)| <= |content| && content[off..off + |Enc(crc, r)|] == Enc(crc, r)
    requires |r.payload| < TWO_32
    ensures ReadRecord(crc, content, off, verify) == Some(r)
  {
    hide GetU32, Enc;
    var e := Enc(crc, r);
    var n := |r.payload|;
    EncLayout(crc, r, []);
    assert e + [] == e;
    SliceOfSlice(content, off, off + |e|, 0, 4);
    SliceOfSlice(content, off, off + |e|, 4, 8);
    SliceOfSlice(content, off, off + |e|, 8, 8 + n);
    SliceOfSlice(content, off, off + |e|, 8 + n, 12 + n);
    assert e[0..4] == e[..4];
  }
}
