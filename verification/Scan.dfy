/** The recovery scan over a segment file, streaming and in memory (internal/storage/segment.go). */
module Scan {
  import opened Bytes
  import opened Record

  /** The record at the front of `d`, if the scan accepts one there. */
  function Head(crc: Checksum, d: Bytes): (r: Option<Rec>) {
    if |d| < HEADER_SIZE then None else
    var magic, size := GetU32(d[..4]), GetU32(d[4..8]);
    if size == 0 || !KnownMagic(magic) || OVERHEAD + size > |d| then None else
    var payload := d[8..8 + size];
    if crc(payload) != GetU32(d[8 + size..12 + size]) then None else Some(Rec(magic, payload))
  }

  lemma HeadOfEnc(crc: Checksum, r: Rec, rest: Bytes)
    requires Framed(r)
    ensures Head(crc, Enc(crc, r) + rest) == if r.payload == [] then None else Some(r)
  {
    EncLayout(crc, r, rest);
  }

  lemma EncOfHead(crc: Checksum, d: Bytes)
    requires Head(crc, d).Some?
    ensures var r := Head(crc, d).value; Scannable(r) && Enc(crc, r) <= d
  {
    var r := Head(crc, d).value;
    var n := |r.payload|;
    Inverse32(d[..4]);
    Inverse32(d[4..8]);
    Inverse32(d[8 + n..12 + n]);
    assert d[..12 + n] == d[..4] + d[4..8] + d[8..8 + n] + d[8 + n..12 + n];
  }

  /** The longest run of valid records at the front of `d`. */
  function Records(crc: Checksum, d: Bytes): (rs: seq<Rec>)
    decreases |d|
  {
    match Head(crc, d)
    case None => []
    case Some(r) => EncOfHead(crc, d); [r] + Records(crc, d[|Enc(crc, r)|..])
  }

  function Serial(crc: Checksum, rs: seq<Rec>): Bytes {
    if rs == [] then [] else Enc(crc, rs[0]) + Serial(crc, rs[1..])
  }

  predicate AllScannable(rs: seq<Rec>) {
    forall i :: 0 <= i < |rs| ==> Scannable(rs[i])
  }

  /** How many bytes of `d` are whole valid records. */
  function Kept(crc: Checksum, d: Bytes): (n: nat) {
    |Serial(crc, Records(crc, d))|
  }

  /** How many bytes a scan keeps: the records and at most one footer behind them. */
  function FooterLen(rest: Bytes): (n: nat) {
    if |rest| >= FOOTER_SIZE && LooksLikeFooter(rest[..FOOTER_SIZE]) then FOOTER_SIZE else 0
  }

  function ScanLen(crc: Checksum, d: Bytes): (n: nat)
    ensures Kept(crc, d) <= n <= |d|
  {
    RecordsArePrefix(crc, d);
    Kept(crc, d) + FooterLen(d[Kept(crc, d)..])
  }

  lemma {:induction false} RecordsArePrefix(crc: Checksum, d: Bytes)
    ensures AllScannable(Records(crc, d))
    ensures Serial(crc, Records(crc, d)) <= d
    ensures Head(crc, d[Kept(crc, d)..]) == None
    decreases |d|
  {
    if Head(crc, d).Some? {
      EncOfHead(crc, d);
      var r := Head(crc, d).value;
      var tail := d[|Enc(crc, r)|..];
      RecordsArePrefix(crc, tail);
      assert d == Enc(crc, r) + tail;
      assert Records(crc, d)[1..] == Records(crc, tail);
      assert d[Kept(crc, d)..] == tail[Kept(crc, tail)..];
    } else {
      assert d[0..] == d;
    }
  }

  /** Maximality: whatever valid records the file starts with, the scan finds all of them. */
  lemma {:induction false} RecordsAreMaximal(crc: Checksum, rs: seq<Rec>, d: Bytes)
    requires AllScannable(rs) && Serial(crc, rs) <= d
    ensures rs <= Records(crc, d)
    ensures Records(crc, d) == rs + Records(crc, d[|Serial(crc, rs)|..])
    decreases |rs|
  {
    hide Enc;
    hide Head;
    if rs == [] {
      assert d[0..] == d;
    } else {
      var e := Enc(crc, rs[0]);
      var tail := d[|e|..];
      assert d == e + tail;
      HeadOfEnc(crc, rs[0], tail);
      assert Serial(crc, rs[1..]) <= tail;
      RecordsAreMaximal(crc, rs[1..], tail);
      assert tail[|Serial(crc, rs[1..])|..] == d[|Serial(crc, rs)|..];
    }
  }

  /** The valid prefix splits into records in only one way. */
  lemma UniqueDecomposition(crc: Checksum, d: Bytes, rs: seq<Rec>)
    requires AllScannable(rs) && Serial(crc, rs) <= d && |Serial(crc, rs)| == Kept(crc, d)
    ensures rs == Records(crc, d)
  {
    RecordsAreMaximal(crc, rs, d);
    RecordsArePrefix(crc, d);
    var rest := Records(crc, d)[|rs|..];
    assert Records(crc, d) == rs + rest;
    SerialConcat(crc, rs, rest);
  }

  lemma {:induction false} SerialConcat(crc: Checksum, a: seq<Rec>, b: seq<Rec>)
    ensures Serial(crc, a + b) == Serial(crc, a) + Serial(crc, b)
  {
    hide Enc;
    if a == [] {
      assert a + b == b;
    } else {
      var t := a[1..];
      SerialConcat(crc, t, b);
      assert (a + b)[0] == a[0] && (a + b)[1..] == t + b;
      Assoc(Enc(crc, a[0]), Serial(crc, t), Serial(crc, b));
    }
  }

  lemma SerialSnoc(crc: Checksum, rs: seq<Rec>, r: Rec)
    ensures Serial(crc, rs + [r]) == Serial(crc, rs) + Enc(crc, r)
  {
    SerialConcat(crc, rs, [r]);
    assert [r][1..] == [];
    assert Enc(crc, r) + [] == Enc(crc, r);
  }

  lemma {:induction false} RecordBytes(crc: Checksum, rs: seq<Rec>)
    requires AllScannable(rs)
    ensures |Serial(crc, rs)| >= (OVERHEAD + 1) * |rs|
  {
    if rs != [] { RecordBytes(crc, rs[1..]); }
  }

  /** Growing a file never shortens what the scan keeps. */
  lemma KeptMonotone(crc: Checksum, a: Bytes, b: Bytes)
    requires a <= b
    ensures Kept(crc, a) <= Kept(crc, b)
  {
    RecordsArePrefix(crc, a);
    var rs := Records(crc, a);
    RecordsAreMaximal(crc, rs, b);
    SerialConcat(crc, rs, Records(crc, b[|Serial(crc, rs)|..]));
  }

  /** A file consisting of whole valid records and nothing else. */
  predicate Whole(crc: Checksum, d: Bytes) {
    Kept(crc, d) == |d|
  }

  lemma WholeKept(crc: Checksum, d: Bytes)
    requires Kept(crc, d) <= |d|
    ensures Whole(crc, d[..Kept(crc, d)]) && Records(crc, d[..Kept(crc, d)]) == Records(crc, d)
  {
    hide Records, Serial, Head;
    RecordsArePrefix(crc, d);
    assert d[..Kept(crc, d)] == Serial(crc, Records(crc, d));
    WholeSerial(crc, Records(crc, d));
  }

  lemma WholeAppend(crc: Checksum, d: Bytes, r: Rec)
    requires Whole(crc, d) && Scannable(r)
    ensures Whole(crc, d + Enc(crc, r))
    ensures Records(crc, d + Enc(crc, r)) == Records(crc, d) + [r]
  {
    RecordsArePrefix(crc, d);
    var rs := Records(crc, d) + [r];
    assert Serial(crc, Records(crc, d)) == d;
    SerialSnoc(crc, Records(crc, d), r);
    WholeSerial(crc, rs);
  }

  lemma WholeSerial(crc: Checksum, rs: seq<Rec>)
    requires AllScannable(rs)
    ensures Whole(crc, Serial(crc, rs)) && Records(crc, Serial(crc, rs)) == rs
  {
    var d := Serial(crc, rs);
    RecordsAreMaximal(crc, rs, d);
    assert d[|d|..] == [];
    assert Records(crc, []) == [];
  }

  /** `Head` at an offset, read piece by piece from the file. */
  lemma HeadAt(crc: Checksum, file: Bytes, offset: nat)
    requires offset <= |file|
    ensures |file| - offset < HEADER_SIZE ==> Head(crc, file[offset..]) == None
    ensures |file| - offset >= HEADER_SIZE ==>
      var hdr := file[offset..offset + HEADER_SIZE];
      var magic, size := GetU32(hdr[..4]), GetU32(hdr[4..8]);
      var p := offset + HEADER_SIZE;
      Head(crc, file[offset..]) ==
        if size == 0 || !KnownMagic(magic) || p + size + CHECKSUM_SIZE > |file| then None
        else if crc(file[p..p + size]) != GetU32(file[p + size..p + size + CHECKSUM_SIZE]) then None
        else Some(Rec(magic, file[p..p + size]))
  {
    hide GetU32;
    var rest := file[offset..];
    if |rest| >= HEADER_SIZE {
      var hdr := file[offset..offset + HEADER_SIZE];
      assert hdr[..4] == rest[..4];
      SliceOfSlice(file, offset, offset + HEADER_SIZE, 4, 8);
      SliceOfDrop(file, offset, 4, 8);
      var size: int := GetU32(hdr[4..8]);
      if OVERHEAD + size <= |rest| {
        SliceOfDrop(file, offset, 8, 8 + size);
        SliceOfDrop(file, offset, 8 + size, 12 + size);
      }
    }
  }

  /** `seen` is what the scan has read up to `offset`. */
  ghost predicate Scanned(crc: Checksum, file: Bytes, offset: nat, seen: seq<Rec>) {
    && offset <= |file|
    && Records(crc, file) == seen + Records(crc, file[offset..])
    && offset == |Serial(crc, seen)|
  }

  lemma ScanStart(crc: Checksum, file: Bytes)
    ensures Scanned(crc, file, 0, [])
  {
  }

  lemma ScanStep(crc: Checksum, file: Bytes, offset: nat, seen: seq<Rec>)
    requires Scanned(crc, file, offset, seen) && Head(crc, file[offset..]).Some?
    ensures var r := Head(crc, file[offset..]).value;
      Scanned(crc, file, offset + OVERHEAD + |r.payload|, seen + [r])
  {
    hide Enc, Head;
    var rest := file[offset..];
    var r := Head(crc, rest).value;
    EncOfHead(crc, rest);
    SerialSnoc(crc, seen, r);
    assert rest[|Enc(crc, r)|..] == file[offset + |Enc(crc, r)|..];
  }

  lemma ScanEnd(crc: Checksum, file: Bytes, offset: nat, seen: seq<Rec>)
    requires Scanned(crc, file, offset, seen) && Head(crc, file[offset..]) == None
    ensures Records(crc, file) == seen && offset == Kept(crc, file)
    ensures ScanLen(crc, file) == offset + FooterLen(file[offset..])
  {
  }

  lemma FooterAt(file: Bytes, offset: nat)
    requires offset + FOOTER_SIZE <= |file|
    ensures file[offset..][..FOOTER_SIZE] == file[offset..offset + FOOTER_SIZE]
    ensures file[..offset + FOOTER_SIZE][offset..] == file[offset..offset + FOOTER_SIZE]
  {
  }

  /** scanValidTail: reads the file piecewise; a ReadAt inside the file does not fail. */
  method ScanValidTail(crc: Checksum, file: Bytes) returns (validSize: nat, count: uint32)
    ensures validSize == ScanLen(crc, file)
    ensures count == |Records(crc, file)| % TWO_32
  {
    hide Head, Records, Serial, GetU32, Scanned;
    var offset := 0;
    count := 0;
    ghost var seen: seq<Rec> := [];
    ScanStart(crc, file);
    while true
      invariant offset <= |file|
      invariant Scanned(crc, file, offset, seen)
      invariant count == |seen| % TWO_32
      decreases |file| - offset
    {
      HeadAt(crc, file, offset);
      if |file| - offset < HEADER_SIZE { break; }
      var hdr := file[offset..offset + HEADER_SIZE];
      var magic, payloadSize := GetU32(hdr[..4]), GetU32(hdr[4..8]);
      if payloadSize == 0 || !KnownMagic(magic) { break; }
      var recordEnd := offset + HEADER_SIZE + payloadSize + CHECKSUM_SIZE;
      if recordEnd > |file| { break; }
      var payload := file[offset + HEADER_SIZE..offset + HEADER_SIZE + payloadSize];
      var crcBuf := file[offset + HEADER_SIZE + payloadSize..recordEnd];
      if crc(payload) != GetU32(crcBuf) { break; }
      ScanStep(crc, file, offset, seen);
      seen := seen + [Rec(magic, payload)];
      count := (count + 1) % TWO_32;
      offset := recordEnd;
    }
    ScanEnd(crc, file, offset, seen);
    validSize := offset;
    if |file| - offset >= FOOTER_SIZE {
      FooterAt(file, offset);
      var footer := file[offset..offset + FOOTER_SIZE];
      if GetU32(footer[28..32]) == FOOTER_MAGIC {
        validSize := offset + FOOTER_SIZE;
      }
    }
  }

  lemma HeadOfRest(crc: Checksum, rest: Bytes)
    ensures |rest| < HEADER_SIZE ==> Head(crc, rest) == None
    ensures |rest| >= HEADER_SIZE ==>
      var (magic, size) := DecodeRecordHeader(rest).value;
      Head(crc, rest) ==
        if size == 0 || !KnownMagic(magic) || OVERHEAD + size > |rest| then None
        else if crc(rest[8..8 + size]) != GetU32(rest[8 + size..12 + size]) then None
        else Some(Rec(magic, rest[8..8 + size]))
  {
  }

  /** truncateToValid: the same scan over a file already in memory; returns the kept bytes too. */
  method TruncateToValid(crc: Checksum, data: Bytes) returns (kept: Bytes, count: uint32, validSize: nat)
    ensures validSize == ScanLen(crc, data) && kept == data[..validSize]
    ensures count == |Records(crc, data)| % TWO_32
  {
    hide Head, Records, Serial, GetU32, Scanned;
    var offset := 0;
    count := 0;
    ghost var seen: seq<Rec> := [];
    ScanStart(crc, data);
    while true
      invariant offset <= |data|
      invariant Scanned(crc, data, offset, seen)
      invariant count == |seen| % TWO_32
      decreases |data| - offset
    {
      HeadOfRest(crc, data[offset..]);
      if |data| - offset < HEADER_SIZE { break; }
      var rest := data[offset..];
      var hdr := DecodeRecordHeader(rest);
      var (magic, size) := hdr.value;
      if size == 0 || !KnownMagic(magic) { break; }
      var recordEnd := offset + HEADER_SIZE + size + CHECKSUM_SIZE;
      if recordEnd > |data| { break; }
      var payload := rest[HEADER_SIZE..HEADER_SIZE + size];
      if crc(payload) != GetU32(rest[HEADER_SIZE + size..OVERHEAD + size]) { break; }
      ScanStep(crc, data, offset, seen);
      seen := seen + [Rec(magic, payload)];
      count := (count + 1) % TWO_32;
      offset := recordEnd;
    }
    ScanEnd(crc, data, offset, seen);
    if |data| - offset >= FOOTER_SIZE {
      FooterAt(data, offset);
      if ValidateFooter(data[..offset + FOOTER_SIZE]).Some? {
        offset := offset + FOOTER_SIZE;
      }
    }
    kept, validSize := data[..offset], offset;
  }

  /**
   A segment finalized in one session rescans to exactly its records and one footer, whatever
   an earlier torn write left behind, as long as it holds fewer records than the smallest magic.
   */
  lemma FinalizedRescans(crc: Checksum, rs: seq<Rec>, total: uint64, junk: Bytes)
    requires AllScannable(rs) && |rs| < MAGIC_ERR
    ensures var d := Serial(crc, rs) + Footer(|rs|, total) + junk;
      Records(crc, d) == rs && ScanLen(crc, d) == |Serial(crc, rs)| + FOOTER_SIZE
  {
    hide Enc, U32, U64, GetU32, Serial, Records, Footer;
    var f := Footer(|rs|, total);
    var d := Serial(crc, rs) + f + junk;
    FooterFront(|rs|, total, junk);
    FooterRoundTrip([], |rs|, total);
    assert d[|Serial(crc, rs)|..] == f + junk;
    RecordsAreMaximal(crc, rs, d);
    ScanEnd(crc, d, |Serial(crc, rs)|, rs);
    assert (f + junk)[..FOOTER_SIZE] == f;
  }

  lemma FooterFront(count: uint32, total: uint64, rest: Bytes)
    ensures GetU32((Footer(count, total) + rest)[..4]) == count
  {
    FooterFields(count, total, ZEROS, FOOTER_MAGIC);
    assert (Footer(count, total) + rest)[..4] == Footer(count, total)[..4];
  }

  /** Thirteen bytes a record: a segment below 13 * 0x45525231 bytes cannot hold that many. */
  lemma SizeLimitBoundsCount(crc: Checksum, rs: seq<Rec>, maxSegmentSize: nat)
    requires AllScannable(rs) && |Serial(crc, rs)| <= maxSegmentSize < (OVERHEAD + 1) * MAGIC_ERR
    ensures |rs| < MAGIC_ERR
  {
    RecordBytes(crc, rs);
  }
}
