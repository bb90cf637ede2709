/** The on-disk record and segment-footer formats (internal/storage/record.go). */
module Record {
  import opened Bytes

  const MAGIC_XML: uint32 := 0x584D4C31   // "XML1"
  const MAGIC_XMLC: uint32 := 0x584D4C32  // "XML2", compressed XML
  const MAGIC_ZIP: uint32 := 0x5A495031   // "ZIP1"
  const MAGIC_ERR: uint32 := 0x45525231   // "ERR1"
  const FOOTER_MAGIC: uint32 := 0x464F4F54 // "FOOT"

  const HEADER_SIZE: nat := 8
  const CHECKSUM_SIZE: nat := 4
  const FOOTER_SIZE: nat := 32
  const ZEROS: Bytes := [0, 0, 0, 0, 0, 0, 0, 0, 0, 0, 0, 0, 0, 0, 0, 0]
  const OVERHEAD: nat := HEADER_SIZE + CHECKSUM_SIZE

  /** CRC32C (section 12.1 of RFC 3720) stays a parameter: every result holds for any checksum. */
  type Checksum = Bytes -> uint32

  datatype RecordType = RecordXML | RecordZIP | RecordError {
    function Magic(): uint32 {
      match this
      case RecordZIP => MAGIC_ZIP
      case RecordError => MAGIC_ERR
      case RecordXML => MAGIC_XML
    }
  }

  datatype Rec = Rec(magic: uint32, payload: Bytes)

  predicate KnownMagic(magic: uint32) {
    magic == MAGIC_XML || magic == MAGIC_XMLC || magic == MAGIC_ZIP || magic == MAGIC_ERR
  }

  /** What a writer produces: a known magic and a payload whose length fits the size field. */
  predicate Framed(r: Rec) {
    KnownMagic(r.magic) && |r.payload| < TWO_32
  }

  /** What the recovery scan accepts: framed and not empty. */
  predicate Scannable(r: Rec) {
    Framed(r) && r.payload != []
  }

  /** [magic:4][size:4][payload:size][crc32c:4] */
  function Enc(crc: Checksum, r: Rec): (s: Bytes)
    ensures |s| == OVERHEAD + |r.payload|
  {
    U32(r.magic) + U32(|r.payload|) + r.payload + U32(crc(r.payload))
  }

  /** Where each field of an encoded record lies, whatever bytes follow it. */
  lemma EncLayout(crc: Checksum, r: Rec, rest: Bytes)
    ensures var d := Enc(crc, r) + rest; var n := |r.payload|;
      && GetU32(d[..4]) == r.magic
      && GetU32(d[4..8]) == n % TWO_32
      && d[8..8 + n] == r.payload
      && GetU32(d[8 + n..12 + n]) == crc(r.payload)
      && d[12 + n..] == rest
  {
    hide U32, GetU32;
    Slices4(U32(r.magic), U32(|r.payload|), r.payload, U32(crc(r.payload)), rest);
    RoundTrip32(r.magic);
    RoundTrip32(|r.payload|);
    RoundTrip32(crc(r.payload));
  }

  method EncodeRecord(crc: Checksum, magic: uint32, payload: Bytes) returns (buf: array<byte>)
    ensures fresh(buf) && buf[..] == Enc(crc, Rec(magic, payload))
  {
    buf := new byte[OVERHEAD + |payload|];
    Put(buf, 0, magic, 4);
    Put(buf, 4, |payload|, 4);
    assert buf[..8] == U32(magic) + U32(|payload|);
    Copy(buf, HEADER_SIZE, payload);
    assert buf[..8 + |payload|] == U32(magic) + U32(|payload|) + payload;
    Put(buf, HEADER_SIZE + |payload|, crc(payload), 4);
  }

  function DecodeRecordHeader(data: Bytes): (r: Option<(uint32, uint32)>)
    ensures r.Some? <==> |data| >= HEADER_SIZE
  {
    if |data| < HEADER_SIZE then None else Some((GetU32(data[..4]), GetU32(data[4..8])))
  }

  /** [count:4][total:8][zero:16][FOOT:4] */
  function Footer(count: uint32, total: uint64): (s: Bytes)
    ensures |s| == FOOTER_SIZE
  {
    U32(count) + U64(total) + ZEROS + U32(FOOTER_MAGIC)
  }

  method EncodeFooter(count: uint32, total: uint64) returns (buf: array<byte>)
    ensures fresh(buf) && buf[..] == Footer(count, total)
  {
    hide LE;
    buf := new byte[FOOTER_SIZE](_ => 0);
    Put(buf, 0, count, 4);
    assert forall i :: 4 <= i < FOOTER_SIZE ==> buf[i] == 0;
    Put(buf, 4, total, 8);
    assert forall i :: 12 <= i < FOOTER_SIZE ==> buf[i] == 0;
    ghost var front := buf[..12];
    assert front == U32(count) + U64(total);
    Zeros(buf[12..28]);
    assert buf[..28] == front + buf[12..28];
    Put(buf, 28, FOOTER_MAGIC, 4);
  }

  lemma Zeros(s: Bytes)
    requires |s| == 16 && forall i :: 0 <= i < 16 ==> s[i] == 0
    ensures s == ZEROS
  {
  }

  /** Whether 32 bytes are taken for a footer: only bytes 28..31 are looked at. */
  predicate LooksLikeFooter(f: Bytes) {
    |f| == FOOTER_SIZE && GetU32(f[28..32]) == FOOTER_MAGIC
  }

  /** Reads the footer in the last 32 bytes of `data`. */
  function ValidateFooter(data: Bytes): (r: Option<(uint32, uint64)>)
    ensures r.Some? <==> |data| >= FOOTER_SIZE && LooksLikeFooter(data[|data| - FOOTER_SIZE..])
  {
    if |data| < FOOTER_SIZE then None else
    var f := data[|data| - FOOTER_SIZE..];
    if GetU32(f[28..32]) != FOOTER_MAGIC then None else Some((GetU32(f[..4]), GetU64(f[4..12])))
  }

  lemma FooterFields(count: uint32, total: uint64, pad: Bytes, magic: uint32)
    requires |pad| == 16
    ensures var f := U32(count) + U64(total) + pad + U32(magic);
      GetU32(f[..4]) == count && GetU64(f[4..12]) == total && GetU32(f[28..32]) == magic
  {
    hide U32, U64, GetU32, GetU64;
    var f := U32(count) + U64(total) + pad + U32(magic);
    Slices4(U32(count), U64(total), pad, U32(magic), []);
    assert f + [] == f;
    RoundTrip32(count);
    RoundTrip64(total);
    RoundTrip32(magic);
  }

  /** A written footer is read back, count and total included, behind any data. */
  lemma FooterRoundTrip(data: Bytes, count: uint32, total: uint64)
    ensures LooksLikeFooter(Footer(count, total))
    ensures ValidateFooter(data + Footer(count, total)) == Some((count, total))
  {
    hide U32, U64, GetU32, GetU64;
    FooterFields(count, total, ZEROS, FOOTER_MAGIC);
    assert (data + Footer(count, total))[|data|..] == Footer(count, total);
  }

  /** Whatever passes for a footer is read as the numbers its first twelve bytes spell; the sixteen behind are ignored. */
  lemma AcceptedFooterFields(data: Bytes)
    requires ValidateFooter(data).Some?
    ensures var (count, total) := ValidateFooter(data).value;
      data == data[..|data| - FOOTER_SIZE] + U32(count) + U64(total) + data[|data| - 20..|data| - 4] + U32(FOOTER_MAGIC)
  {
    hide U32, U64, GetU32, GetU64;
    var f := data[|data| - FOOTER_SIZE..];
    Inverse32(f[..4]);
    Inverse64(f[4..12]);
    Inverse32(f[28..32]);
    assert f == f[..4] + f[4..12] + f[12..28] + f[28..32];
    assert f[12..28] == data[|data| - 20..|data| - 4];
  }
}
