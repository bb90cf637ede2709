/**
 When an append is acknowledged and where, and what a read accepts: each in terms of the I/O calls
 and the bytes alone (internal/storage/segment.go).
 */
module SegmentAcks {
  import opened Bytes
  import opened Record
  import opened Scan
  import opened SegmentLog

  // ---- one append ----

  /** The record and a footer no longer fit behind what the active segment holds. */
  predicate Overflows(max: int, s: Session, len: nat) {
    s.offset > 0 && s.offset + len + FOOTER_SIZE > max
  }

  /** No I/O call the append makes fails: footer and open only when it rotates, fsync only when asked. */
  predicate NoCallFails(max: int, s: Session, len: nat, fsync: bool, io: Io) {
    && (if Overflows(max, s, len) then io.footer == Full && io.footerSync && io.open == Opened else s.isOpen)
    && io.write == Full && (fsync ==> io.sync)
  }

  /** Where the record goes: behind the last one, or to the front of the next segment. */
  function PlaceOf(max: int, s: Session, len: nat): Location {
    if Overflows(max, s, len) then Location(s.activeID + 1, 0, len) else Location(s.activeID, s.offset, len)
  }

  /** The write position after the append, whatever fails. */
  function NextPosition(max: int, s: Session, len: nat, fsync: bool, io: Io): Session {
    var turned :=
      if !Overflows(max, s, len) || io.footer != Full || !io.footerSync then s
      else Session(s.activeID + 1, io.open == Opened, 0, 0);
    if NoCallFails(max, s, len, fsync, io) then turned.(offset := turned.offset + len, count := (turned.count + 1) % TWO_32) else turned
  }

  lemma NextOpens(crc: Checksum, d: Disk, s: Session, open: Open)
    requires SessionOk(d, s)
    ensures OpenSegment(crc, d, s.activeID + 1, open).1 == Session(s.activeID + 1, open == Opened, 0, 0)
  {
  }

  lemma FinalizeOk(d: Disk, s: Session, w: Write, syncOk: bool)
    requires SessionOk(d, s) && s.offset > 0
    ensures Finalize(d, s, w, syncOk).1 <==> w == Full && syncOk
  {
    hide Footer;
  }

  /** An append succeeds if and only if no I/O call it makes fails, at the place it was to go, and moves the position there. */
  lemma AppendAckedIff(crc: Checksum, max: int, d: Disk, s: Session, b: Bytes, fsync: bool, io: Io)
    requires SessionOk(d, s)
    ensures var w := AppendLocked(crc, max, d, s, b, fsync, io);
      && w.loc == (if NoCallFails(max, s, |b|, fsync, io) then Some(PlaceOf(max, s, |b|)) else None)
      && w.s == NextPosition(max, s, |b|, fsync, io)
  {
    hide Finalize, OpenSegment, WriteAt;
    if s.offset > 0 { FinalizeOk(d, s, io.footer, io.footerSync); }
    if Overflows(max, s, |b|) {
      var (e, ok) := Finalize(d, s, io.footer, io.footerSync);
      if ok { NextOpens(crc, e, s, io.open); }
    }
  }

  // ---- a batch ----

  /** The write position before record `i` of a batch. */
  function PositionBefore(max: int, s: Session, bs: seq<Bytes>, ios: seq<Io>, i: nat): Session
    requires |bs| == |ios| && i <= |bs|
  {
    if i == 0 then s else NextPosition(max, PositionBefore(max, s, bs, ios, i - 1), |bs[i - 1]|, false, ios[i - 1])
  }

  /** Record `i` gets through its own rotation, open and write. */
  predicate GetsThrough(max: int, s: Session, bs: seq<Bytes>, ios: seq<Io>, i: nat)
    requires |bs| == |ios| && i < |bs|
  {
    NoCallFails(max, PositionBefore(max, s, bs, ios, i), |bs[i]|, false, ios[i])
  }

  lemma {:induction false} PositionPrefix(max: int, s: Session, bs: seq<Bytes>, ios: seq<Io>, n: nat, i: nat)
    requires |bs| == |ios| && i <= n <= |bs|
    ensures PositionBefore(max, s, bs[..n], ios[..n], i) == PositionBefore(max, s, bs, ios, i)
  {
    hide NextPosition;
    if i > 0 { PositionPrefix(max, s, bs, ios, n, i - 1); }
  }

  /** Where record `i` of a batch is written, if it gets through. */
  function WrittenAt(max: int, s: Session, bs: seq<Bytes>, ios: seq<Io>, i: nat): Option<Location>
    requires |bs| == |ios| && i < |bs|
  {
    if GetsThrough(max, s, bs, ios, i) then Some(PlaceOf(max, PositionBefore(max, s, bs, ios, i), |bs[i]|)) else None
  }

  lemma WrittenPrefix(max: int, s: Session, bs: seq<Bytes>, ios: seq<Io>, n: nat, i: nat)
    requires |bs| == |ios| && i < n <= |bs|
    ensures WrittenAt(max, s, bs[..n], ios[..n], i) == WrittenAt(max, s, bs, ios, i)
  {
    hide PositionBefore, NoCallFails, PlaceOf;
    PositionPrefix(max, s, bs, ios, n, i);
  }

  lemma {:induction false} WritesAre(crc: Checksum, max: int, d: Disk, s: Session, bs: seq<Bytes>, ios: seq<Io>)
    requires SessionOk(d, s) && |bs| == |ios|
    ensures var w := BatchWrites(crc, max, d, s, bs, ios);
      && w.s == PositionBefore(max, s, bs, ios, |bs|)
      && forall i :: 0 <= i < |bs| ==> w.locs[i] == WrittenAt(max, s, bs, ios, i)
  {
    hide AppendLocked, NextPosition, WrittenAt;
    if bs != [] {
      var n := |bs| - 1;
      WritesAre(crc, max, d, s, bs[..n], ios[..n]);
      LastWrite(crc, max, d, s, bs, ios);
      forall i | 0 <= i < n ensures WrittenAt(max, s, bs[..n], ios[..n], i) == WrittenAt(max, s, bs, ios, i) {
        WrittenPrefix(max, s, bs, ios, n, i);
      }
    }
  }

  lemma LastWrite(crc: Checksum, max: int, d: Disk, s: Session, bs: seq<Bytes>, ios: seq<Io>)
    requires SessionOk(d, s) && |bs| == |ios| > 0
    requires var n := |bs| - 1; BatchWrites(crc, max, d, s, bs[..n], ios[..n]).s == PositionBefore(max, s, bs[..n], ios[..n], n)
    ensures var n := |bs| - 1; var w := BatchWrites(crc, max, d, s, bs, ios);
      w.s == PositionBefore(max, s, bs, ios, |bs|) && w.locs[n] == WrittenAt(max, s, bs, ios, n)
  {
    hide AppendLocked, NextPosition, NoCallFails, PlaceOf;
    var n := |bs| - 1;
    var p := BatchWrites(crc, max, d, s, bs[..n], ios[..n]);
    PositionPrefix(max, s, bs, ios, n, n);
    AppendAckedIff(crc, max, p.disk, p.s, bs[n], false, ios[n]);
  }

  /**
   Each write of a batch is acknowledged if and only if its own rotation, open and write succeed and so does
   the one fsync at the end, on a segment that is open then; its location is the write position
   reached just before it. What becomes of the other writes makes no difference.
   */
  lemma BatchAckedIff(crc: Checksum, max: int, d: Disk, s: Session, bs: seq<Bytes>, ios: seq<Io>, syncOk: bool, i: nat)
    requires SessionOk(d, s) && |bs| == |ios| && i < |bs|
    ensures var b := BatchAppend(crc, max, d, s, bs, ios, syncOk);
      && b.locs[i] == (if GetsThrough(max, s, bs, ios, i) && syncOk && b.s.isOpen
                       then Some(PlaceOf(max, PositionBefore(max, s, bs, ios, i), |bs[i]|)) else None)
      && b.s == PositionBefore(max, s, bs, ios, |bs|)
  {
    hide BatchWrites, NextPosition, NoCallFails, PlaceOf, PositionBefore;
    WritesAre(crc, max, d, s, bs, ios);
    var w := BatchWrites(crc, max, d, s, bs, ios);
    if w.locs[i].Some? { assert exists j :: 0 <= j < |bs| && w.locs[j].Some?; }
  }

  // ---- a read ----

  /** The bytes at `off` are exactly the encoding of `r`. */
  predicate EncodedAt(crc: Checksum, c: Bytes, off: nat, r: Rec) {
    && |r.payload| < TWO_32 && off + OVERHEAD + |r.payload| <= |c|
    && c[off..off + OVERHEAD + |r.payload|] == Enc(crc, r)
  }

  /**
   A verified read returns a record if and only if the bytes there are its encoding, checksum included:
   a changed byte in magic, size, payload or trailer is never read as that record, and bytes that
   encode nothing are refused.
   */
  lemma ReadsIffEncoded(crc: Checksum, c: Bytes, off: nat, r: Rec)
    ensures ReadRecord(crc, c, off, true) == Some(r) <==> EncodedAt(crc, c, off, r)
  {
    hide Enc;
    if EncodedAt(crc, c, off, r) { ReadsBack(crc, c, off, r, true); }
    if ReadRecord(crc, c, off, true) == Some(r) { ReadIsEncoded(crc, c, off, r); }
  }

  lemma ReadIsEncoded(crc: Checksum, c: Bytes, off: nat, r: Rec)
    requires ReadRecord(crc, c, off, true) == Some(r)
    ensures EncodedAt(crc, c, off, r)
  {
    hide U32, GetU32;
    var n := |r.payload|;
    var p := off + HEADER_SIZE;
    Inverse32(c[off..off + 4]);
    Inverse32(c[off + 4..p]);
    Inverse32(c[p + n..p + n + CHECKSUM_SIZE]);
    assert c[off..p + n + CHECKSUM_SIZE] == c[off..off + 4] + c[off + 4..p] + c[p..p + n] + c[p + n..p + n + CHECKSUM_SIZE];
  }

  /** Without verification the trailer is not looked at: header and payload decide. */
  lemma UnverifiedReads(crc: Checksum, c: Bytes, off: nat, r: Rec)
    requires |r.payload| < TWO_32
    ensures ReadRecord(crc, c, off, false) == Some(r) <==>
      off + HEADER_SIZE + |r.payload| <= |c| && c[off..off + HEADER_SIZE + |r.payload|] == U32(r.magic) + U32(|r.payload|) + r.payload
  {
    hide U32, GetU32;
    var n := |r.payload|;
    var p := off + HEADER_SIZE;
    RoundTrip32(r.magic);
    RoundTrip32(n);
    if p + n <= |c| {
      Inverse32(c[off..off + 4]);
      Inverse32(c[off + 4..p]);
      var e := c[off..p + n];
      assert e == c[off..off + 4] + c[off + 4..p] + c[p..p + n];
      if e == U32(r.magic) + U32(n) + r.payload {
        SliceOfSlice(c, off, p + n, 0, 4);
        SliceOfSlice(c, off, p + n, 4, 8);
        SliceOfSlice(c, off, p + n, 8, 8 + n);
        assert e[0..4] == U32(r.magic) && e[4..8] == U32(n) && e[8..8 + n] == r.payload;
      }
    }
  }

  /** A record with a payload byte changed, so that its checksum differs, is refused. */
  lemma CorruptPayloadRefused(crc: Checksum, c: Bytes, off: nat, r: Rec, bad: Bytes)
    requires EncodedAt(crc, c, off, r) && |bad| == |r.payload| && crc(bad) != crc(r.payload)
    ensures var p := off + HEADER_SIZE; ReadRecord(crc, c[..p] + bad + c[p + |bad|..], off, true) == None
  {
    hide Enc, U32, GetU32;
    var n := |bad|;
    var p := off + HEADER_SIZE;
    var e := c[..p] + bad + c[p + n..];
    FieldsAt(crc, c, off, r);
    assert e[off + 4..p] == c[off + 4..p] && e[p..p + n] == bad;
    assert e[p + n..p + n + CHECKSUM_SIZE] == c[p + n..p + n + CHECKSUM_SIZE];
  }

  lemma FieldsAt(crc: Checksum, c: Bytes, off: nat, r: Rec)
    requires EncodedAt(crc, c, off, r)
    ensures var p, n := off + HEADER_SIZE, |r.payload|;
      GetU32(c[off + 4..p]) == n && GetU32(c[p + n..p + n + CHECKSUM_SIZE]) == crc(r.payload)
  {
    hide Enc, U32, GetU32;
    var n := |r.payload|;
    EncLayout(crc, r, []);
    assert Enc(crc, r) + [] == Enc(crc, r);
    SliceOfSlice(c, off, off + OVERHEAD + n, 4, 8);
    SliceOfSlice(c, off, off + OVERHEAD + n, 8 + n, 12 + n);
  }
}
