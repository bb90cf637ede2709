/** What the reader of an .idx file accepts, byte for byte (internal/storage/segment_index.go). */
module IndexReads {
  import opened Bytes
  import opened SegmentIndex

  lemma NumbersInverse(b: Bytes)
    requires |b| == 20
    ensures U64(GetU64(b[..8])) + U32(GetU32(b[8..12])) + U32(GetU32(b[12..16])) + U32(GetU32(b[16..20])) == b
  {
    hide U32, U64, GetU32, GetU64;
    Inverse64(b[..8]);
    Inverse32(b[8..12]);
    Inverse32(b[12..16]);
    Inverse32(b[16..20]);
  }

  /** Any sixty bytes are the encoding of the entry they decode to. */
  lemma EntryInverse(b: Bytes)
    requires |b| == ENTRY_SIZE
    ensures EncEntry(DecEntry(b)) == b
  {
    hide U32, U64, GetU32, GetU64;
    NumbersInverse(b[..20]);
    SliceOfSlice(b, 0, 20, 0, 8);
    SliceOfSlice(b, 0, 20, 8, 12);
    SliceOfSlice(b, 0, 20, 12, 16);
    SliceOfSlice(b, 0, 20, 16, 20);
    assert b[0..20] == b[..20] && b[..20][0..8] == b[..20][..8] && b[0..8] == b[..8];
    Inverse32(b[52..56]);
    Inverse32(b[56..60]);
    assert b == b[..20] + b[20..52] + b[52..56] + b[56..60];
  }

  lemma {:induction false} AllInverse(d: Bytes)
    requires |d| % ENTRY_SIZE == 0
    ensures EncAll(DecAll(d)) == d
  {
    hide EncEntry, DecEntry;
    if d != [] {
      EntryInverse(d[..ENTRY_SIZE]);
      AllInverse(d[ENTRY_SIZE..]);
      var es := DecAll(d);
      assert es[0] == DecEntry(d[..ENTRY_SIZE]) && es[1..] == DecAll(d[ENTRY_SIZE..]);
      assert d == d[..ENTRY_SIZE] + d[ENTRY_SIZE..];
    }
  }

  /** The last thirty-two bytes carry the index magic and version. */
  predicate Footed(data: Bytes) {
    |data| >= 32 && GetU32(data[|data| - 4..]) == 0x49445846 && GetU32(data[|data| - 32..|data| - 28]) == 1
  }

  /** The count and checksum such a tail gives agree with the entries, or are zero and stand for no check. */
  predicate FooterAgrees(crc: Crc32, data: Bytes, es: seq<Entry>)
    requires Footed(data)
  {
    var n := |data| - 32;
    var count, sum := GetU64(data[n + 4..n + 12]), GetU32(data[n + 20..n + 24]);
    (count == 0 || count == |es|) && (sum == 0 || sum == crc(EncAll(es)))
  }

  lemma FootedFields(data: Bytes)
    ensures DecFooter(data).Some? <==> Footed(data)
    ensures Footed(data) ==> var n := |data| - 32;
      DecFooter(data).value.0 == GetU64(data[n + 4..n + 12]) && DecFooter(data).value.2 == GetU32(data[n + 20..n + 24])
  {
    hide GetU32, GetU64;
    if |data| >= 32 {
      var n := |data| - 32;
      var f := data[n..];
      assert f[28..32] == data[|data| - 4..] && f[..4] == data[n..n + 4];
      assert f[4..12] == data[n + 4..n + 12] && f[20..24] == data[n + 20..n + 24];
    }
  }

  /**
   The reader returns a list if and only if the file is exactly these entries with no footer behind them, or these
   entries and a footer that agrees with them: no other bytes are read as that list, and a file that is
   no such thing for any list is refused.
   */
  lemma ReadsIffHolds(crc: Crc32, data: Bytes, es: seq<Entry>)
    ensures ReadIndex(crc, Some(data)) == Some(es) <==>
      if Footed(data) then data[..|data| - 32] == EncAll(es) && FooterAgrees(crc, data, es) else data == EncAll(es)
  {
    hide DecFooter, DecAll, EncAll, GetU32, GetU64, Footed;
    FootedFields(data);
    AllRoundTrip(es);
    assert Footed(data) ==> |data| >= 32 by { FootedRoom(data); }
    var d := if Footed(data) then data[..|data| - 32] else data;
    if |d| % ENTRY_SIZE == 0 { AllInverse(d); }
    if data == [] { assert DecAll(data) == [] by { NoEntries(); } }
  }

  lemma FootedRoom(data: Bytes)
    ensures Footed(data) ==> |data| >= 32
  {
  }

  lemma NoEntries()
    ensures DecAll([]) == []
  {
  }

  /** Entries changed behind the writer's back, so that their checksum differs, are refused. */
  lemma ChangedEntriesRefused(crc: Crc32, es: seq<Entry>, bad: Bytes)
    requires |es| < TWO_64 && |bad| == |EncAll(es)| && crc(bad) != crc(EncAll(es)) && crc(EncAll(es)) != 0
    ensures ReadIndex(crc, Some(bad + EncFooter(|es|, Last(es), crc(EncAll(es))))) == None
  {
    hide DecAll, EncAll, EncFooter, DecFooter;
    FooterRoundTrip(bad, |es|, Last(es), crc(EncAll(es)));
    var data := bad + EncFooter(|es|, Last(es), crc(EncAll(es)));
    assert data[..|data| - INDEX_FOOTER_SIZE] == bad;
  }
}
