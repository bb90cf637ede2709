/** The per-segment .idx sidecar: codecs, append and read (internal/storage/segment_index.go). */
module SegmentIndex {
  import opened Bytes

  const INDEX_MAGIC: uint32 := 0x49445846 // "IDXF"
  const INDEX_VERSION: uint32 := 1
  const ENTRY_SIZE: nat := 60
  const INDEX_FOOTER_SIZE: nat := 32

  /** CRC-32 (section 8 of RFC 1952), left as a parameter. */
  type Crc32 = Bytes -> uint32

  type Hash32 = h: Bytes | |h| == 32 witness seq(32, _ => 0)

  datatype Entry = Entry(offset: uint64, storedSize: uint32, logicalSize: uint32, magic: uint32,
                         hash: Hash32, supplierID: uint32, dictID: uint32)

  // ---- entry codec ----

  function EncNumbers(e: Entry): (s: Bytes)
    ensures |s| == 20
  {
    U64(e.offset) + U32(e.storedSize) + U32(e.logicalSize) + U32(e.magic)
  }

  function EncEntry(e: Entry): (s: Bytes)
    ensures |s| == ENTRY_SIZE
  {
    EncNumbers(e) + e.hash + U32(e.supplierID) + U32(e.dictID)
  }

  function DecEntry(b: Bytes): Entry
    requires |b| == ENTRY_SIZE
  {
    Entry(GetU64(b[..8]), GetU32(b[8..12]), GetU32(b[12..16]), GetU32(b[16..20]), b[20..52], GetU32(b[52..56]), GetU32(b[56..60]))
  }

  lemma NumbersRoundTrip(e: Entry, rest: Bytes)
    ensures var b := EncNumbers(e) + rest;
      && GetU64(b[..8]) == e.offset && GetU32(b[8..12]) == e.storedSize
      && GetU32(b[12..16]) == e.logicalSize && GetU32(b[16..20]) == e.magic
  {
    hide U32, U64, GetU32, GetU64;
    Slices4(U64(e.offset), U32(e.storedSize), U32(e.logicalSize), U32(e.magic), rest);
    RoundTrip64(e.offset);
    RoundTrip32(e.storedSize);
    RoundTrip32(e.logicalSize);
    RoundTrip32(e.magic);
  }

  /** An entry survives its codec, field by field. */
  lemma EntryRoundTrip(e: Entry)
    ensures DecEntry(EncEntry(e)) == e
    ensures EncEntry(e)[20..52] == e.hash && EncEntry(e)[56..60] == U32(e.dictID)
  {
    hide EncNumbers, U32, GetU32, GetU64;
    var b := EncEntry(e);
    var rest := e.hash + U32(e.supplierID) + U32(e.dictID);
    assert b == EncNumbers(e) + rest;
    NumbersRoundTrip(e, rest);
    Slices4(EncNumbers(e), e.hash, U32(e.supplierID), U32(e.dictID), []);
    assert b + [] == b;
    RoundTrip32(e.supplierID);
    RoundTrip32(e.dictID);
  }

  // ---- footer codec ----

  function FooterHead(count: uint64, last: uint64): (s: Bytes)
    ensures |s| == 20
  {
    U32(INDEX_VERSION) + U64(count) + U64(last)
  }

  function EncFooter(count: uint64, last: uint64, crc: uint32): (s: Bytes)
    ensures |s| == INDEX_FOOTER_SIZE
  {
    FooterHead(count, last) + U32(crc) + U32(0) + U32(INDEX_MAGIC)
  }

  /** The last 32 bytes taken as a footer: record count, last offset and entries checksum. */
  function DecFooter(data: Bytes): (r: Option<(uint64, uint64, uint32)>)
    ensures r.Some? ==> |data| >= INDEX_FOOTER_SIZE
  {
    if |data| < INDEX_FOOTER_SIZE then None else
    var f := data[|data| - INDEX_FOOTER_SIZE..];
    if GetU32(f[28..32]) != INDEX_MAGIC || GetU32(f[..4]) != INDEX_VERSION then None else
    Some((GetU64(f[4..12]), GetU64(f[12..20]), GetU32(f[20..24])))
  }

  lemma HeadRoundTrip(version: uint32, count: uint64, last: uint64, rest: Bytes)
    ensures var f := U32(version) + U64(count) + U64(last) + rest;
      GetU32(f[..4]) == version && GetU64(f[4..12]) == count && GetU64(f[12..20]) == last
  {
    hide U32, U64, GetU32, GetU64;
    var f := U32(version) + U64(count) + U64(last) + rest;
    Slices4(U32(version), U64(count), U64(last), rest, []);
    assert f + [] == f;
    RoundTrip32(version);
    RoundTrip64(count);
    RoundTrip64(last);
  }

  lemma TailRoundTrip(head: Bytes, crc: uint32, pad: Bytes, magic: uint32)
    requires |head| == 20 && |pad| == 4
    ensures var f := head + U32(crc) + pad + U32(magic);
      GetU32(f[20..24]) == crc && GetU32(f[28..32]) == magic
  {
    hide U32, GetU32;
    var f := head + U32(crc) + pad + U32(magic);
    Slices4(head, U32(crc), pad, U32(magic), []);
    assert f + [] == f;
    RoundTrip32(crc);
    RoundTrip32(magic);
  }

  lemma FooterRoundTrip(data: Bytes, count: uint64, last: uint64, crc: uint32)
    ensures DecFooter(data + EncFooter(count, last, crc)) == Some((count, last, crc))
  {
    hide U32, U64, GetU32, GetU64;
    var f := EncFooter(count, last, crc);
    var rest := U32(crc) + U32(0) + U32(INDEX_MAGIC);
    assert f == U32(INDEX_VERSION) + U64(count) + U64(last) + rest;
    HeadRoundTrip(INDEX_VERSION, count, last, rest);
    TailRoundTrip(FooterHead(count, last), crc, U32(0), INDEX_MAGIC);
    assert (data + f)[|data|..] == f;
  }

  // ---- whole files ----

  function EncAll(es: seq<Entry>): (s: Bytes)
    ensures |s| == ENTRY_SIZE * |es|
  {
    if es == [] then [] else EncEntry(es[0]) + EncAll(es[1..])
  }

  function DecAll(data: Bytes): (es: seq<Entry>)
    requires |data| % ENTRY_SIZE == 0
    ensures |es| == |data| / ENTRY_SIZE
  {
    if data == [] then [] else [DecEntry(data[..ENTRY_SIZE])] + DecAll(data[ENTRY_SIZE..])
  }

  lemma {:induction false} AllRoundTrip(es: seq<Entry>)
    ensures DecAll(EncAll(es)) == es
  {
    hide EncEntry, DecEntry;
    if es != [] {
      AllRoundTrip(es[1..]);
      EntryRoundTrip(es[0]);
      var d := EncAll(es);
      assert d[..ENTRY_SIZE] == EncEntry(es[0]) && d[ENTRY_SIZE..] == EncAll(es[1..]);
    }
  }

  lemma {:induction false} EncAllSnoc(es: seq<Entry>, e: Entry)
    ensures EncAll(es + [e]) == EncAll(es) + EncEntry(e)
  {
    hide EncEntry;
    if es == [] {
      assert es + [e] == [e] && [e][1..] == [];
    } else {
      EncAllSnoc(es[1..], e);
      assert (es + [e])[0] == es[0] && (es + [e])[1..] == es[1..] + [e];
      Assoc(EncEntry(es[0]), EncAll(es[1..]), EncEntry(e));
    }
  }

  /** An entry whose last 32 bytes are not mistaken for a footer. */
  predicate Plain(e: Entry) {
    e.dictID != INDEX_MAGIC || GetU32(e.hash[8..12]) != INDEX_VERSION
  }

  /** Bare entries pass for a footered file exactly when the last one is not plain. */
  lemma BareHasNoFooter(front: Bytes, e: Entry)
    ensures DecFooter(front + EncEntry(e)) == None <==> Plain(e)
  {
    hide EncEntry, U32, GetU32, GetU64;
    var b := EncEntry(e);
    var f := (front + b)[|front + b| - INDEX_FOOTER_SIZE..];
    assert f == b[28..60];
    EntryRoundTrip(e);
    SliceOfSlice(b, 28, 60, 28, 32);
    SliceOfSlice(b, 28, 60, 0, 4);
    SliceOfSlice(b, 20, 52, 8, 12);
    RoundTrip32(e.dictID);
    assert f[..4] == f[0..4];
  }

  function Last(es: seq<Entry>): uint64 {
    if es == [] then 0 else es[|es| - 1].offset
  }

  /** What n appends leave: the entries in order and one footer that matches them. */
  function FileOf(crc: Crc32, es: seq<Entry>): Bytes {
    EncAll(es) + EncFooter(|es| % TWO_64, Last(es), crc(EncAll(es)))
  }

  /** ReadIndexFile on an existing or absent file; None is a corrupt file. */
  function ReadIndex(crc: Crc32, file: Option<Bytes>): (r: Option<seq<Entry>>) {
    if file == None || file.value == [] then Some([]) else
    var data := file.value;
    var footer := DecFooter(data);
    var entries := if footer.Some? then data[..|data| - INDEX_FOOTER_SIZE] else data;
    if |entries| % ENTRY_SIZE != 0 then None else
    if footer.Some? && footer.value.2 != 0 && crc(entries) != footer.value.2 then None else
    if footer.Some? && footer.value.0 != 0 && |entries| / ENTRY_SIZE != footer.value.0 then None else
    Some(DecAll(entries))
  }

  method ReadIndexFile(crc: Crc32, file: Option<Bytes>) returns (r: Option<seq<Entry>>)
    ensures r == ReadIndex(crc, file)
  {
    hide DecFooter, DecAll;
    if file == None || |file.value| == 0 { return Some([]); }
    var data := file.value;
    var entriesData, recordCount, entriesCRC := data, 0, 0;
    var footer := DecFooter(data);
    if footer.Some? {
      entriesData, recordCount, entriesCRC := data[..|data| - INDEX_FOOTER_SIZE], footer.value.0, footer.value.2;
    }
    if |entriesData| % ENTRY_SIZE != 0 { return None; }
    if entriesCRC != 0 && crc(entriesData) != entriesCRC { return None; }
    var n := |entriesData| / ENTRY_SIZE;
    if recordCount != 0 && n != recordCount { return None; }
    var out := DecodeEntries(entriesData, n);
    r := Some(out);
  }

  method DecodeEntries(data: Bytes, n: nat) returns (out: seq<Entry>)
    requires |data| == n * ENTRY_SIZE
    ensures out == DecAll(data)
  {
    hide DecEntry;
    out := [];
    assert data[0..] == data;
    for i := 0 to n
      invariant out + DecAll(data[i * ENTRY_SIZE..]) == DecAll(data)
    {
      var off := i * ENTRY_SIZE;
      var rest := data[off..];
      assert rest[..ENTRY_SIZE] == data[off..off + ENTRY_SIZE];
      assert rest[ENTRY_SIZE..] == data[off + ENTRY_SIZE..];
      out := out + [DecEntry(data[off..off + ENTRY_SIZE])];
    }
    assert data[n * ENTRY_SIZE..] == [];
  }

  lemma ReadFooted(crc: Crc32, es: seq<Entry>)
    requires |es| < TWO_64
    ensures ReadIndex(crc, Some(FileOf(crc, es))) == Some(es)
  {
    hide EncFooter, DecFooter, EncAll, DecAll;
    var d := EncAll(es);
    FooterRoundTrip(d, |es| % TWO_64, Last(es), crc(d));
    assert FileOf(crc, es)[..|FileOf(crc, es)| - INDEX_FOOTER_SIZE] == d;
    AllRoundTrip(es);
  }

  lemma NoFooterBehind(es: seq<Entry>)
    requires es != [] && Plain(es[|es| - 1])
    ensures DecFooter(EncAll(es)) == None
  {
    hide DecFooter, EncAll, EncEntry;
    var n := |es| - 1;
    EncAllSnoc(es[..n], es[n]);
    assert es == es[..n] + [es[n]];
    BareHasNoFooter(EncAll(es[..n]), es[n]);
  }

  lemma ReadBare(crc: Crc32, es: seq<Entry>)
    requires es != [] ==> Plain(es[|es| - 1])
    ensures ReadIndex(crc, Some(EncAll(es))) == Some(es)
  {
    hide DecFooter, EncAll, DecAll, Plain;
    AllRoundTrip(es);
    if es != [] { NoFooterBehind(es); }
  }

  // ---- append ----

  /** An open index file and the position of its next write. */
  datatype Handle = Handle(content: Bytes, pos: nat)

  function Over(c: Bytes, pos: nat, b: Bytes): Bytes
    requires pos <= |c|
  {
    c[..pos] + b + (if pos + |b| < |c| then c[pos + |b|..] else [])
  }

  lemma OverEnd(c: Bytes, b: Bytes)
    ensures Over(c, |c|, b) == c + b
  {
  }

  /** openAppend: with a footer, strip it and write at the end; otherwise write from position 0. */
  function OpenAppend(file: Option<Bytes>): (h: Handle)
    ensures h.pos <= |h.content|
  {
    match file
    case None => Handle([], 0)
    case Some(data) =>
      if DecFooter(data).Some? then
        var entries := data[..|data| - INDEX_FOOTER_SIZE];
        Handle(entries, |entries|)
      else Handle(data, 0)
  }

  function PutEntry(h: Handle, e: Entry): (r: Handle)
    requires h.pos <= |h.content|
    ensures r.pos <= |r.content|
  {
    Handle(Over(h.content, h.pos, EncEntry(e)), h.pos + ENTRY_SIZE)
  }

  function PutFooter(crc: Crc32, h: Handle, last: uint64): Bytes
    requires h.pos <= |h.content|
  {
    Over(h.content, h.pos, NewFooter(crc, h, last))
  }

  /** The footer Append writes behind what it reads back. */
  function NewFooter(crc: Crc32, h: Handle, last: uint64): (f: Bytes)
    ensures |f| == INDEX_FOOTER_SIZE
  {
    var entries := if DecFooter(h.content).Some? then h.content[..|h.content| - INDEX_FOOTER_SIZE] else h.content;
    EncFooter(|entries| / ENTRY_SIZE % TWO_64, last, crc(entries))
  }

  /**
   Where an append stops: not opened; in the rewrite that strips the footer, which truncates the file first;
   opened but not written; a torn entry or footer; no fsync; or not at all.
   */
  datatype AppendIo = NoOpen | StripTorn(n: nat) | Opened | EntryTorn(n: nat) | FooterTorn(n: nat) | NoSync | Done

  predicate HasFooter(file: Option<Bytes>) {
    file.Some? && DecFooter(file.value).Some?
  }

  /** What an append leaves in the file, `None` for no file. */
  function AppendOutcome(crc: Crc32, file: Option<Bytes>, e: Entry, io: AppendIo): Option<Bytes> {
    var h := OpenAppend(file);
    var g := PutEntry(h, e);
    match io
    case NoOpen => file
    case StripTorn(n) => if HasFooter(file) then Some(h.content[..Min(n, |h.content|)]) else Some(h.content)
    case Opened => Some(h.content)
    case EntryTorn(n) => Some(Over(h.content, h.pos, EncEntry(e)[..Min(n, ENTRY_SIZE)]))
    case FooterTorn(n) => Some(Over(g.content, g.pos, NewFooter(crc, g, e.offset)[..Min(n, INDEX_FOOTER_SIZE)]))
    case NoSync => Some(PutFooter(crc, g, e.offset))
    case Done => Some(PutFooter(crc, g, e.offset))
  }

  class Index {
    const crc: Crc32
    var files: map<nat, Bytes>

    constructor (crc: Crc32)
      ensures this.crc == crc && files == map[]
    {
      this.crc, files := crc, map[];
    }

    function File(segment: nat): Option<Bytes>
      reads this
    {
      if segment in files then Some(files[segment]) else None
    }

    /** Append: open, write the entry, read the file back, write the footer, fsync. */
    method Append(segment: nat, e: Entry, io: AppendIo) returns (ok: bool)
      modifies this
      ensures ok <==> io == Done
      ensures File(segment) == AppendOutcome(crc, old(File(segment)), e, io)
      ensures forall k :: k != segment ==> File(k) == old(File(k))
    {
      hide EncEntry, EncFooter, DecFooter, Over;
      if io == NoOpen { return false; }
      var h := OpenAppend(File(segment));
      if io.StripTorn? {
        files := files[segment := if HasFooter(File(segment)) then h.content[..Min(io.n, |h.content|)] else h.content];
        return false;
      }
      files := files[segment := h.content];
      if io == Opened { return false; }
      if io.EntryTorn? {
        files := files[segment := Over(h.content, h.pos, EncEntry(e)[..Min(io.n, ENTRY_SIZE)])];
        return false;
      }
      h := PutEntry(h, e);
      files := files[segment := h.content];
      var data := files[segment];
      var entries := data;
      if |data| >= INDEX_FOOTER_SIZE && DecFooter(data).Some? {
        entries := data[..|data| - INDEX_FOOTER_SIZE];
      }
      FooterNeedsRoom(data);
      var footer := EncFooter(|entries| / ENTRY_SIZE % TWO_64, e.offset, crc(entries));
      if io.FooterTorn? {
        files := files[segment := Over(data, h.pos, footer[..Min(io.n, INDEX_FOOTER_SIZE)])];
        return false;
      }
      files := files[segment := Over(data, h.pos, footer)];
      ok := io == Done;
    }
  }

  lemma FooterNeedsRoom(data: Bytes)
    ensures |data| < INDEX_FOOTER_SIZE ==> DecFooter(data) == None
  {
  }

  /** A file that is absent or was left by earlier appends. */
  predicate Holds(crc: Crc32, file: Option<Bytes>, es: seq<Entry>) {
    if file == None then es == [] else file.value == FileOf(crc, es)
  }

  /** One append to such a file, write by write: the reader sees the old list, then the new one. */
  lemma AppendViews(crc: Crc32, file: Option<Bytes>, es: seq<Entry>, e: Entry)
    requires Holds(crc, file, es) && |es| + 1 < TWO_64
    requires Plain(e) && (es != [] ==> Plain(es[|es| - 1]))
    ensures var h := OpenAppend(file); var g := PutEntry(h, e); var done := PutFooter(crc, g, e.offset);
      && ReadIndex(crc, file) == Some(es)
      && h == Handle(EncAll(es), ENTRY_SIZE * |es|) && ReadIndex(crc, Some(h.content)) == Some(es)
      && g.content == EncAll(es + [e]) && ReadIndex(crc, Some(g.content)) == Some(es + [e])
      && done == FileOf(crc, es + [e]) && ReadIndex(crc, Some(done)) == Some(es + [e])
  {
    hide EncEntry, DecFooter, EncFooter, EncAll, ReadIndex, Over, OpenAppend, PutFooter, FileOf;
    var d := EncAll(es);
    OpenView(crc, file, es);
    ReadBare(crc, es);
    OverEnd(d, EncEntry(e));
    EncAllSnoc(es, e);
    ReadBare(crc, es + [e]);
    FooterView(crc, es, e);
    ReadFooted(crc, es + [e]);
  }

  /** Stopped while stripping the footer after `k` whole entries, the file shows only these, and no error. */
  lemma TornStripShortens(crc: Crc32, es: seq<Entry>, e: Entry, k: nat)
    requires |es| < TWO_64 && k <= |es| && (k > 0 ==> Plain(es[k - 1]))
    ensures ReadIndex(crc, AppendOutcome(crc, Some(FileOf(crc, es)), e, StripTorn(ENTRY_SIZE * k))) == Some(es[..k])
  {
    hide EncEntry, DecFooter, EncFooter, EncAll, ReadIndex;
    FooterRoundTrip(EncAll(es), |es| % TWO_64, Last(es), crc(EncAll(es)));
    OpenView(crc, Some(FileOf(crc, es)), es);
    assert es == es[..k] + es[k..];
    EncAllConcat(es[..k], es[k..]);
    assert EncAll(es)[..ENTRY_SIZE * k] == EncAll(es[..k]);
    ReadBare(crc, es[..k]);
  }

  lemma {:induction false} EncAllConcat(a: seq<Entry>, b: seq<Entry>)
    ensures EncAll(a + b) == EncAll(a) + EncAll(b)
  {
    hide EncEntry;
    if b == [] {
      assert a + b == a && EncAll(b) == [] && EncAll(a) + [] == EncAll(a);
    } else {
      var n := |b| - 1;
      assert b == b[..n] + [b[n]] && a + b == (a + b[..n]) + [b[n]];
      EncAllConcat(a, b[..n]);
      EncAllSnoc(a + b[..n], b[n]);
      EncAllSnoc(b[..n], b[n]);
      Assoc(EncAll(a), EncAll(b[..n]), EncEntry(b[n]));
    }
  }

  lemma OpenView(crc: Crc32, file: Option<Bytes>, es: seq<Entry>)
    requires Holds(crc, file, es) && |es| < TWO_64
    ensures OpenAppend(file) == Handle(EncAll(es), ENTRY_SIZE * |es|) && ReadIndex(crc, file) == Some(es)
  {
    hide EncEntry, DecFooter, EncFooter, ReadIndex;
    var d := EncAll(es);
    if file.Some? {
      FooterRoundTrip(d, |es| % TWO_64, Last(es), crc(d));
      assert file.value[..|file.value| - INDEX_FOOTER_SIZE] == d;
      ReadFooted(crc, es);
    } else {
      AbsentReads(crc);
    }
  }

  lemma FooterView(crc: Crc32, es: seq<Entry>, e: Entry)
    requires Plain(e)
    ensures var d := EncAll(es + [e]); PutFooter(crc, Handle(d, |d|), e.offset) == FileOf(crc, es + [e])
  {
    hide EncEntry, DecFooter, EncFooter, EncAll, Over;
    var d := EncAll(es + [e]);
    EncAllSnoc(es, e);
    BareHasNoFooter(EncAll(es), e);
    OverEnd(d, EncFooter((|es| + 1) % TWO_64, e.offset, crc(d)));
    assert |d| / ENTRY_SIZE == |es| + 1;
  }

  lemma AbsentReads(crc: Crc32)
    ensures ReadIndex(crc, None) == Some([])
  {
  }

  /** Index content after appending `es` one by one to an absent file. */
  function AppendAll(crc: Crc32, es: seq<Entry>): Option<Bytes> {
    if es == [] then None else
    var n := |es| - 1;
    AppendOutcome(crc, AppendAll(crc, es[..n]), es[n], Done)
  }

  /** n appends from an absent file are read back in order. */
  lemma {:induction false} AppendsReadBack(crc: Crc32, es: seq<Entry>)
    requires |es| < TWO_64 && forall e :: e in es ==> Plain(e)
    ensures Holds(crc, AppendAll(crc, es), es)
    ensures ReadIndex(crc, AppendAll(crc, es)) == Some(es)
  {
    hide ReadIndex, FileOf, PutFooter, PutEntry, OpenAppend, Plain;
    if es == [] {
      AbsentReads(crc);
    } else {
      var n := |es| - 1;
      AppendsReadBack(crc, es[..n]);
      AppendViews(crc, AppendAll(crc, es[..n]), es[..n], es[n]);
      assert es[..n] + [es[n]] == es;
    }
  }

  /**
   A crash between the two writes leaves bare entries. The next append then starts at position 0 and the
   list does not grow, with no error to tell: the new entry replaces the first old one, and behind it
   the footer overwrites the front half of the second; from the third on nothing changes.
   */
  lemma BareFileIsOverwritten(crc: Crc32, es: seq<Entry>, e: Entry)
    requires es != [] && Plain(e) && Plain(es[|es| - 1])
    ensures var g := PutEntry(OpenAppend(Some(EncAll(es))), e); var r := ReadIndex(crc, Some(PutFooter(crc, g, e.offset)));
      && g.content == EncAll([e] + es[1..])
      && r == Some(if |es| == 1 then [e] else [e, HalfOver(es[1], NewFooter(crc, g, e.offset))] + es[2..])
  {
    hide EncEntry, EncAll, DecFooter, PutFooter, ReadIndex, OpenAppend, PutEntry, NewFooter;
    OverwrittenContent(es, e);
    var g := PutEntry(OpenAppend(Some(EncAll(es))), e);
    if |es| == 1 { OverwrittenOne(crc, es, e, g); } else { OverwrittenTwo(crc, es, e, g); }
  }

  /** An entry whose first 32 bytes were overwritten. */
  function HalfOver(e: Entry, f: Bytes): Entry
    requires |f| == INDEX_FOOTER_SIZE
  {
    DecEntry(f + EncEntry(e)[INDEX_FOOTER_SIZE..])
  }

  lemma OverwrittenContent(es: seq<Entry>, e: Entry)
    requires es != [] && Plain(es[|es| - 1])
    ensures PutEntry(OpenAppend(Some(EncAll(es))), e) == Handle(EncEntry(e) + EncAll(es[1..]), ENTRY_SIZE)
    ensures EncEntry(e) + EncAll(es[1..]) == EncAll([e] + es[1..])
  {
    hide EncEntry, DecFooter, Plain, Over, EncAll;
    NoFooterBehind(es);
    FrontEntry(es[0], es[1..]);
    FrontEntry(e, es[1..]);
    assert es == [es[0]] + es[1..];
    assert OpenAppend(Some(EncAll(es))) == Handle(EncAll(es), 0);
    OverFront(EncEntry(es[0]), EncEntry(e), EncAll(es[1..]));
  }

  lemma FrontEntry(e: Entry, rest: seq<Entry>)
    ensures EncAll([e] + rest) == EncEntry(e) + EncAll(rest)
  {
  }

  lemma OverFront(a: Bytes, b: Bytes, rest: Bytes)
    requires |a| == |b|
    ensures Over(a + rest, 0, b) == b + rest
  {
  }

  lemma OverwrittenOne(crc: Crc32, es: seq<Entry>, e: Entry, g: Handle)
    requires |es| == 1 && Plain(e) && g == Handle(EncEntry(e) + EncAll(es[1..]), ENTRY_SIZE)
    ensures ReadIndex(crc, Some(PutFooter(crc, g, e.offset))) == Some([e])
  {
    hide EncEntry, EncAll, ReadIndex, PutFooter, Plain;
    FrontEntry(e, es[1..]);
    assert [e] + es[1..] == [e] == [] + [e];
    FooterView(crc, [], e);
    ReadFooted(crc, [e]);
  }

  lemma OverwrittenTwo(crc: Crc32, es: seq<Entry>, e: Entry, g: Handle)
    requires |es| >= 2 && Plain(es[|es| - 1]) && g == Handle(EncEntry(e) + EncAll(es[1..]), ENTRY_SIZE)
    ensures ReadIndex(crc, Some(PutFooter(crc, g, e.offset))) == Some([e, HalfOver(es[1], NewFooter(crc, g, e.offset))] + es[2..])
  {
    hide EncEntry, EncAll, DecAll, DecEntry, DecFooter, NewFooter, Plain, GetU32, Over;
    var f := NewFooter(crc, g, e.offset);
    NewFooterMagic(crc, g, e.offset);
    LastEntryStays(es, e, f);
    var half := f + EncEntry(es[1])[INDEX_FOOTER_SIZE..];
    var rest := EncAll(es[2..]);
    FrontEntry(es[1], es[2..]);
    assert es[1..] == [es[1]] + es[2..];
    OverMiddle(EncEntry(e), EncEntry(es[1]), rest, f);
    AllRoundTrip(es[2..]);
    DecFront(half, rest);
    DecFront(EncEntry(e), half + rest);
    EntryRoundTrip(e);
    var done := PutFooter(crc, g, e.offset);
    assert done == EncEntry(e) + (half + rest) && done != [];
    var x := HalfOver(es[1], f);
    assert DecAll(done) == [e] + ([x] + es[2..]) == [e, x] + es[2..];
  }

  lemma OverMiddle(first: Bytes, second: Bytes, rest: Bytes, f: Bytes)
    requires |f| <= |second|
    ensures Over(first + (second + rest), |first|, f) == first + ((f + second[|f|..]) + rest)
  {
    var c := first + (second + rest);
    assert c[..|first|] == first;
    assert c[|first| + |f|..] == second[|f|..] + rest;
  }

  lemma DecFront(x: Bytes, rest: Bytes)
    requires |x| == ENTRY_SIZE && |rest| % ENTRY_SIZE == 0
    ensures (|x| + |rest|) % ENTRY_SIZE == 0 && DecAll(x + rest) == [DecEntry(x)] + DecAll(rest)
  {
    hide DecEntry;
    assert (x + rest)[..ENTRY_SIZE] == x && (x + rest)[ENTRY_SIZE..] == rest;
  }

  lemma NewFooterMagic(crc: Crc32, g: Handle, last: uint64)
    ensures GetU32(NewFooter(crc, g, last)[28..32]) == INDEX_MAGIC
  {
    hide GetU32, U32, FooterHead, DecFooter;
    var entries := if DecFooter(g.content).Some? then g.content[..|g.content| - INDEX_FOOTER_SIZE] else g.content;
    TailRoundTrip(FooterHead(|entries| / ENTRY_SIZE % TWO_64, last), crc(entries), U32(0), INDEX_MAGIC);
  }

  /** With two or more bare entries the footer lands inside and the tail still shows no footer. */
  lemma LastEntryStays(es: seq<Entry>, e: Entry, f: Bytes)
    requires |es| >= 2 && Plain(es[|es| - 1]) && |f| == INDEX_FOOTER_SIZE && GetU32(f[28..32]) == INDEX_MAGIC
    ensures DecFooter(Over(EncEntry(e) + EncAll(es[1..]), ENTRY_SIZE, f)) == None
  {
    hide EncEntry, GetU32, DecFooter;
    var c := EncEntry(e) + EncAll(es[1..]);
    var done := Over(c, ENTRY_SIZE, f);
    var n := |es| - 1;
    var last := EncEntry(es[n]);
    EncAllSnoc(es[1..n], es[n]);
    assert es[1..] == es[1..n] + [es[n]];
    assert |c| == ENTRY_SIZE * |es|;
    if |es| == 2 {
      SecondOfTwo(EncEntry(e), last, f);
      assert EncAll(es[1..1]) == [] && [] + last == last;
    } else {
      assert done[ENTRY_SIZE * n..] == c[ENTRY_SIZE * n..] == last;
      assert done == done[..ENTRY_SIZE * n] + last;
      BareHasNoFooter(done[..ENTRY_SIZE * n], es[n]);
    }
  }

  lemma SecondOfTwo(first: Bytes, second: Bytes, f: Bytes)
    requires |first| == |second| == ENTRY_SIZE && |f| == INDEX_FOOTER_SIZE && GetU32(f[28..32]) == INDEX_MAGIC
    ensures DecFooter(Over(first + second, ENTRY_SIZE, f)) == None
  {
  }
}
