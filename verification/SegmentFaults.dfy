/** Where the segment log loses acknowledged records, and exactly when. */
module SegmentFaults {
  import opened Bytes
  import opened Record
  import opened Scan
  import opened SegmentLog
  import opened SegmentRuns

  /** The scan of `kept`, which parses as records `rs`, followed by anything at all. */
  lemma ScanBehind(crc: Checksum, rs: seq<Rec>, rest: Bytes)
    requires AllScannable(rs) && Head(crc, rest) == None
    ensures ScanLen(crc, Serial(crc, rs) + rest) == |Serial(crc, rs)| + FooterLen(rest)
    ensures Records(crc, Serial(crc, rs) + rest) == rs
  {
    hide Head, Serial, FooterLen;
    var d := Serial(crc, rs) + rest;
    assert d[|Serial(crc, rs)|..] == rest;
    RecordsAreMaximal(crc, rs, d);
    NoRecords(crc, rest);
    ScanEnd(crc, d, |Serial(crc, rs)|, rs);
  }

  lemma NoRecords(crc: Checksum, rest: Bytes)
    requires Head(crc, rest) == None
    ensures Records(crc, rest) == []
  {
  }

  /**
   Once a recovery of content `c` has accepted a footer, whatever is appended behind it is cut
   by the next recovery, exactly when footer and appended bytes together do not pass for a record.
   */
  lemma AcceptedFooterCuts(crc: Checksum, c: Bytes, appended: Bytes)
    requires ScanLen(crc, c) == Kept(crc, c) + FOOTER_SIZE
    ensures var left := c[..ScanLen(crc, c)];
      ScanLen(crc, left + appended) == |left| <==> Head(crc, left[Kept(crc, c)..] + appended) == None
  {
    hide Head, Serial, Records, LooksLikeFooter;
    var rs := Records(crc, c);
    var k := Kept(crc, c);
    RecordsArePrefix(crc, c);
    var left := c[..k + FOOTER_SIZE];
    var f := left[k..];
    assert f == c[k..][..FOOTER_SIZE];
    assert left == Serial(crc, rs) + f;
    var rest := f + appended;
    assert left + appended == Serial(crc, rs) + rest;
    assert rest[..FOOTER_SIZE] == f;
    if Head(crc, rest) == None {
      ScanBehind(crc, rs, rest);
    } else {
      RecordSwallowsFooter(crc, rs, f, appended, c[k..]);
    }
  }

  /** Footer bytes that begin a record reaching past them are scanned over. */
  lemma RecordSwallowsFooter(crc: Checksum, rs: seq<Rec>, f: Bytes, appended: Bytes, before: Bytes)
    requires AllScannable(rs) && |f| == FOOTER_SIZE && f <= before && Head(crc, before) == None
    requires Head(crc, f + appended).Some?
    ensures ScanLen(crc, Serial(crc, rs) + (f + appended)) > |Serial(crc, rs)| + FOOTER_SIZE
  {
    hide Head, Enc;
    var rest := f + appended;
    var r := Head(crc, rest).value;
    EncOfHead(crc, rest);
    var e := Enc(crc, r);
    if |e| <= FOOTER_SIZE {
      assert e == rest[..|e|] == f[..|e|] == before[..|e|];
      assert before == e + before[|e|..];
      HeadOfEnc(crc, r, before[|e|..]);
      assert false;
    }
    var all := rs + [r];
    var d := Serial(crc, rs) + rest;
    SerialSnoc(crc, rs, r);
    assert rest == e + rest[|e|..];
    Assoc(Serial(crc, rs), e, rest[|e|..]);
    assert Serial(crc, all) <= d;
    RecordsAreMaximal(crc, all, d);
    SerialConcat(crc, all, Records(crc, d[|Serial(crc, all)|..]));
  }

  /** A footer that finalizeLocked wrote never passes for a record. */
  lemma WrittenFooterIsNoRecord(crc: Checksum, count: uint32, total: uint64, appended: Bytes)
    requires !KnownMagic(count)
    ensures Head(crc, Footer(count, total) + appended) == None
  {
    hide GetU32, GetU64, U32, U64;
    var f := Footer(count, total);
    FooterFields(count, total, ZEROS, FOOTER_MAGIC);
    assert (f + appended)[..4] == f[..4];
  }

  /** Behind an empty-payload record a recovery keeps nothing but a chance FOOT lookalike. */
  lemma EmptyPayloadStopsScan(crc: Checksum, rs: seq<Rec>, e: Rec, tail: Bytes)
    requires AllScannable(rs) && Framed(e) && e.payload == []
    ensures ScanLen(crc, Serial(crc, rs) + (Enc(crc, e) + tail)) == |Serial(crc, rs)| + FooterLen(Enc(crc, e) + tail)
  {
    HeadOfEnc(crc, e, tail);
    ScanBehind(crc, rs, Enc(crc, e) + tail);
  }

  // ---- a clean shutdown loses the next session ----

  const ALL_OK: Io := Io(Full, true, Opened, Full, true)

  lemma OnlySegment(d: Disk)
    requires d.Keys == {0}
    ensures d != map[] && MaxId(d) == 0
  {
  }

  /** An append at the end of segment 0, with room left and no failure. */
  lemma PlainAppend(crc: Checksum, max: int, st: State, c: Bytes, count: uint32, r: Rec)
    requires st.disk.Keys == {0} && st.disk[0].content == c
    requires st.live == Some(Session(0, true, |c|, count))
    requires |c| + |Enc(crc, r)| + FOOTER_SIZE <= max
    ensures var e := c + Enc(crc, r);
      Exec(crc, max, st, Append(r, ALL_OK)) ==
        State(map[0 := File(e, |e|)], Some(Session(0, true, |e|, (count + 1) % TWO_32)), st.acked + [Ack(0, |c|, r)],
              if r.payload == [] then Lower(st.weak, 0, |c|) else st.weak, st.gone)
  {
    hide Enc;
    assert WriteAt(st.disk[0], |c|, Enc(crc, r)).content == c + Enc(crc, r) by {
      assert c[..|c|] == c;
    }
  }

  lemma PlainRecover(crc: Checksum, max: int, st: State, c: Bytes)
    requires st.live == None && st.disk.Keys == {0} && st.disk[0].content == c && c != []
    ensures var n := ScanLen(crc, c); var left := Survivors(st.acked, 0, n);
      Exec(crc, max, st, Recover) == State(st.disk[0 := Truncate(st.disk[0], n)],
        Some(Session(0, true, n, |Records(crc, c)| % TWO_32)), left,
        if 0 in st.weak || n != Kept(crc, c) then Lower(st.weak, 0, Kept(crc, c)) else st.weak,
        st.gone + set a | a in st.acked && a !in left)
  {
    hide ScanLen, Records, Kept;
    OnlySegment(st.disk);
  }

  /** The state after a first record was stored and the manager closed cleanly. */
  lemma AfterCleanClose(crc: Checksum, max: int, r: Rec)
    requires Scannable(r) && |Enc(crc, r)| + FOOTER_SIZE <= max
    ensures var n := |Enc(crc, r)|; var c := Enc(crc, r) + Footer(1, n % TWO_64);
      var s1 := Exec(crc, max, FRESH, Recover);
      var s2 := Exec(crc, max, s1, Append(r, ALL_OK));
      Exec(crc, max, s2, Close(Full, true)) == State(map[0 := File(c, |c|)], None, [Ack(0, 0, r)], map[], {})
  {
    hide Enc, Footer;
    var e := Enc(crc, r);
    var s1 := Exec(crc, max, FRESH, Recover);
    assert s1 == State(map[0 := File([], 0)], Some(Session(0, true, 0, 0)), [], map[], {});
    PlainAppend(crc, max, s1, [], 0, r);
    var s2 := Exec(crc, max, s1, Append(r, ALL_OK));
    assert [] + e == e && [] + [Ack(0, 0, r)] == [Ack(0, 0, r)];
    assert s2 == State(map[0 := File(e, |e|)], Some(Session(0, true, |e|, 1)), [Ack(0, 0, r)], map[], {});
    var f := Footer(1, |e| % TWO_64);
    assert WriteAt(s2.disk[0], |e|, f).content == e + f by { assert e[..|e|] == e; }
  }

  /** Reopening accepts the footer, so the next record goes behind it. */
  lemma SecondSession(crc: Checksum, max: int, r1: Rec, r2: Rec, c: Bytes, s3: State)
    requires Scannable(r1) && |c| + |Enc(crc, r2)| + FOOTER_SIZE <= max && r2.payload != []
    requires c == Enc(crc, r1) + Footer(1, |Enc(crc, r1)| % TWO_64)
    requires s3 == State(map[0 := File(c, |c|)], None, [Ack(0, 0, r1)], map[], {})
    ensures var c2 := c + Enc(crc, r2);
      Exec(crc, max, Exec(crc, max, s3, Recover), Append(r2, ALL_OK)) ==
        State(map[0 := File(c2, |c2|)], Some(Session(0, true, |c2|, 2)), [Ack(0, 0, r1), Ack(0, |c|, r2)],
              map[0 := |Enc(crc, r1)|], {})
  {
    hide Enc, Footer, ScanLen, Records, Exec, Kept;
    var f := Footer(1, |Enc(crc, r1)| % TWO_64);
    RescanOne(crc, r1, f, []);
    assert f + [] == f;
    PlainRecover(crc, max, s3, c);
    AllSurvive(s3.acked, 0, |c|);
    assert c[..|c|] == c;
    var s4 := Exec(crc, max, s3, Recover);
    assert s4.disk == map[0 := File(c, |c|)];
    PlainAppend(crc, max, s4, c, 1, r2);
    assert s4.acked + [Ack(0, |c|, r2)] == [Ack(0, 0, r1), Ack(0, |c|, r2)];
  }

  /** The next recovery stops at that footer and cuts what followed it. */
  lemma SecondRecovery(crc: Checksum, max: int, r1: Rec, r2: Rec, c: Bytes, s5: State)
    requires Scannable(r1) && c == Enc(crc, r1) + Footer(1, |Enc(crc, r1)| % TWO_64)
    requires var c2 := c + Enc(crc, r2); s5.disk == map[0 := File(c2, |c2|)]
    requires s5.weak == map[0 := |Enc(crc, r1)|] && s5.acked == [Ack(0, 0, r1), Ack(0, |c|, r2)] && s5.gone == {}
    ensures var end := Exec(crc, max, Exec(crc, max, s5, Crash(map[], {})), Recover);
      && end.acked == [Ack(0, 0, r1)] && end.gone == {Ack(0, |c|, r2)} && end.disk == map[0 := File(c, |c|)]
      && end.live == Some(Session(0, true, |c|, 1))
  {
    hide Enc, Footer, ScanLen, Records, Exec, Kept;
    var e1, e2 := Enc(crc, r1), Enc(crc, r2);
    var f := Footer(1, |e1| % TWO_64);
    var c2 := c + e2;
    CrashWithoutLoss(crc, max, s5, c2);
    RescanOne(crc, r1, f, e2);
    Assoc(e1, f, e2);
    PlainRecover(crc, max, s5.(live := None), c2);
    assert c2[..|c|] == c;
    SecondIsGone(Ack(0, 0, r1), Ack(0, |c|, r2), |c|);
  }

  lemma SecondIsGone(a: Ack, b: Ack, n: nat)
    requires a.segment == b.segment == 0 && a.End() <= n < b.End()
    ensures Survivors([a, b], 0, n) == [a]
  {
    assert [a, b][..1] == [a] && [a][..0] == [];
    assert Survivors([a], 0, n) == Survivors([], 0, n) + [a] == [a];
  }

  function Content(st: State, id: nat): Bytes {
    if id in st.disk then st.disk[id].content else []
  }

  /**
   Store, close cleanly, reopen, store again, crash without losing a byte, reopen: the second
   record was acknowledged and durable, and is gone. Holds for every pair of records.
   */
  lemma CleanCloseLosesNextSession(crc: Checksum, max: int, r1: Rec, r2: Rec)
    requires Scannable(r1) && Scannable(r2)
    requires |Enc(crc, r1)| + |Enc(crc, r2)| + 2 * FOOTER_SIZE <= max
    ensures var n := |Enc(crc, r1)|;
      var s2 := Exec(crc, max, Exec(crc, max, FRESH, Recover), Append(r1, ALL_OK));
      var s4 := Exec(crc, max, Exec(crc, max, s2, Close(Full, true)), Recover);
      var s5 := Exec(crc, max, s4, Append(r2, ALL_OK));
      var end := Exec(crc, max, Exec(crc, max, s5, Crash(map[], {})), Recover);
      && s5.acked == [Ack(0, 0, r1), Ack(0, n + FOOTER_SIZE, r2)] && end.acked == [Ack(0, 0, r1)]
      && ReadRecord(crc, Content(s5, 0), n + FOOTER_SIZE, true) == Some(r2)
      && ReadRecord(crc, Content(end, 0), n + FOOTER_SIZE, true) == None
  {
    hide Enc, Footer, Exec;
    var e2 := Enc(crc, r2);
    var c := Enc(crc, r1) + Footer(1, |Enc(crc, r1)| % TWO_64);
    AfterCleanClose(crc, max, r1);
    var s3 := State(map[0 := File(c, |c|)], None, [Ack(0, 0, r1)], map[], {});
    SecondSession(crc, max, r1, r2, c, s3);
    var s5 := Exec(crc, max, Exec(crc, max, s3, Recover), Append(r2, ALL_OK));
    assert (c + e2)[|c|..|c| + |e2|] == e2;
    ReadsBack(crc, c + e2, |c|, r2, true);
    SecondRecovery(crc, max, r1, r2, c, s5);
  }

  /**
   One append more: the place of the lost record is taken by the next one, and reading it returns
   that other record, checksum and all.
   */
  lemma LostPlaceIsReused(crc: Checksum, max: int, r1: Rec, r2: Rec, r3: Rec)
    requires Scannable(r1) && Scannable(r2) && Scannable(r3)
    requires |Enc(crc, r1)| + |Enc(crc, r2)| + |Enc(crc, r3)| + 2 * FOOTER_SIZE <= max
    ensures var n := |Enc(crc, r1)|;
      var s2 := Exec(crc, max, Exec(crc, max, FRESH, Recover), Append(r1, ALL_OK));
      var s4 := Exec(crc, max, Exec(crc, max, s2, Close(Full, true)), Recover);
      var s5 := Exec(crc, max, s4, Append(r2, ALL_OK));
      var s7 := Exec(crc, max, Exec(crc, max, s5, Crash(map[], {})), Recover);
      var end := Exec(crc, max, s7, Append(r3, ALL_OK));
      && Ack(0, n + FOOTER_SIZE, r2) in s5.acked && Ack(0, n + FOOTER_SIZE, r3) in end.acked
      && ReadRecord(crc, Content(end, 0), n + FOOTER_SIZE, true) == Some(r3)
  {
    hide Enc, Footer, Exec;
    var e3 := Enc(crc, r3);
    var c := Enc(crc, r1) + Footer(1, |Enc(crc, r1)| % TWO_64);
    AfterCleanClose(crc, max, r1);
    var s3 := State(map[0 := File(c, |c|)], None, [Ack(0, 0, r1)], map[], {});
    SecondSession(crc, max, r1, r2, c, s3);
    var s5 := Exec(crc, max, Exec(crc, max, s3, Recover), Append(r2, ALL_OK));
    SecondRecovery(crc, max, r1, r2, c, s5);
    var s7 := Exec(crc, max, Exec(crc, max, s5, Crash(map[], {})), Recover);
    PlainAppend(crc, max, s7, c, 1, r3);
    assert (c + e3)[|c|..|c| + |e3|] == e3;
    ReadsBack(crc, c + e3, |c|, r3, true);
  }

  // ---- footer bytes that begin a record ----

  /** Thirty bytes: filler, FOOT where a footer has it, then the first six bytes of a record of `n` bytes. */
  function Lure(n: nat): (p: Bytes)
    ensures |p| == 30
  {
    ZEROS + [0, 0, 0, 0] + U32(FOOTER_MAGIC) + U32(MAGIC_XML) + U32(n)[..2]
  }

  /**
   A lookalike footer followed by a record whose payload starts with two zero bytes, under a checksum
   that is always zero: footer and record together begin with a valid record of forty-two bytes,
   and the scan goes on in the middle of the appended one.
   */
  lemma LureScans(crc: Checksum, p: Bytes)
    requires (forall x :: crc(x) == 0) && 2 <= |p| < 0x1_0000 && p[..2] == [0, 0]
    ensures var r := Rec(MAGIC_XML, Lure(|p|)); var f := Enc(crc, r)[..FOOTER_SIZE];
      && LooksLikeFooter(f)
      && f + Enc(crc, Rec(MAGIC_XML, p)) == Enc(crc, r) + (p[2..] + U32(0))
  {
    hide U32, GetU32;
    var n := |p|;
    var r := Rec(MAGIC_XML, Lure(n));
    var e := Enc(crc, r);
    var head := U32(MAGIC_XML) + U32(30);
    SmallSize(n);
    RoundTrip32(FOOTER_MAGIC);
    var tail := U32(MAGIC_XML) + U32(n)[..2] + U32(0);
    assert e == head + (ZEROS + [0, 0, 0, 0]) + U32(FOOTER_MAGIC) + tail;
    assert e[..FOOTER_SIZE] == head + (ZEROS + [0, 0, 0, 0]) + U32(FOOTER_MAGIC);
    assert e[..FOOTER_SIZE][28..32] == U32(FOOTER_MAGIC);
    ZeroWord();
    assert U32(n) == U32(n)[..2] + [0, 0];
    assert p == [0, 0] + p[2..];
    assert Enc(crc, Rec(MAGIC_XML, p)) == tail + (p[2..] + U32(0));
    assert e == e[..FOOTER_SIZE] + tail;
  }

  lemma SmallSize(n: nat)
    requires n < 0x1_0000
    ensures U32(n)[2..] == [0, 0]
  {
    assert n / 256 / 256 == 0 && LE(0, 1) == [0] && LE(0, 2) == [0, 0];
    assert LE(n / 256, 3) == [(n / 256 % 256) as byte] + LE(0, 2);
    assert U32(n) == [(n % 256) as byte] + LE(n / 256, 3);
  }

  lemma ZeroWord()
    ensures U32(0) == [0, 0, 0, 0]
  {
  }

  /**
   So whether footer and appended bytes begin with a record does not decide what is cut: of these two
   appended records, both behind a footer that does, one is cut and the other is scanned to its end.
   */
  lemma BeginningRecordDoesNotDecide(crc: Checksum)
    requires forall x :: crc(x) == 0
    ensures var p: Bytes := [0, 0, 1]; var f := Enc(crc, Rec(MAGIC_XML, Lure(3)))[..FOOTER_SIZE]; var c := f + Enc(crc, Rec(MAGIC_XML, p));
      LooksLikeFooter(f) && Head(crc, c).Some? && ScanLen(crc, c) < |c|
    ensures var p := [0, 0] + U32(MAGIC_XML) + U32(1) + [7]; var f := Enc(crc, Rec(MAGIC_XML, Lure(11)))[..FOOTER_SIZE];
      var c := f + Enc(crc, Rec(MAGIC_XML, p));
      LooksLikeFooter(f) && Head(crc, c).Some? && ScanLen(crc, c) == |c|
  {
    hide U32, GetU32, Head, Lure, LooksLikeFooter, ScanLen;
    var r := Rec(MAGIC_XML, Lure(3));
    LureScans(crc, [0, 0, 1]);
    ZeroWord();
    var rest: Bytes := [1, 0, 0, 0, 0];
    assert [0, 0, 1][2..] + U32(0) == rest;
    LureCut(crc, r, rest);
    var q := [0, 0] + U32(MAGIC_XML) + U32(1) + [7];
    LureScans(crc, q);
    var s := Rec(MAGIC_XML, [7]);
    assert q[2..] + U32(0) == Enc(crc, s);
    LureKept(crc, Rec(MAGIC_XML, Lure(11)), s);
  }

  lemma LureCut(crc: Checksum, r: Rec, rest: Bytes)
    requires Scannable(r) && 0 < |rest| < HEADER_SIZE
    ensures Head(crc, Enc(crc, r) + rest).Some? && ScanLen(crc, Enc(crc, r) + rest) < |Enc(crc, r) + rest|
  {
    hide Enc;
    HeadOfEnc(crc, r, rest);
    SerialSnoc(crc, [], r);
    assert [] + [r] == [r] && Serial(crc, []) == [] && [] + Enc(crc, r) == Enc(crc, r);
    ScanBehind(crc, [r], rest);
  }

  lemma LureKept(crc: Checksum, r: Rec, s: Rec)
    requires Scannable(r) && Scannable(s)
    ensures var c := Enc(crc, r) + Enc(crc, s); Head(crc, c).Some? && ScanLen(crc, c) == |c|
  {
    hide Enc, Head;
    var c := Enc(crc, r) + Enc(crc, s);
    HeadOfEnc(crc, r, Enc(crc, s));
    SerialSnoc(crc, [], r);
    SerialSnoc(crc, [r], s);
    assert [] + [r] == [r] && Serial(crc, []) == [] && [] + Enc(crc, r) == Enc(crc, r) && [r] + [s] == [r, s];
    NothingHeads(crc);
    ScanBehind(crc, [r, s], []);
    assert c + [] == c;
  }

  lemma NothingHeads(crc: Checksum)
    ensures Head(crc, []) == None && FooterLen([]) == 0
  {
  }

  lemma RescanOne(crc: Checksum, r: Rec, f: Bytes, rest: Bytes)
    requires Scannable(r)
    requires exists count: uint32, total: uint64 :: count == 1 && f == Footer(count, total)
    ensures var c := Enc(crc, r) + (f + rest);
      ScanLen(crc, c) == |Enc(crc, r)| + FOOTER_SIZE && |Records(crc, c)| == 1 && Kept(crc, c) == |Enc(crc, r)|
  {
    hide Enc, Footer, GetU32;
    var count: uint32, total: uint64 :| count == 1 && f == Footer(count, total);
    WrittenFooterIsNoRecord(crc, count, total, rest);
    FooterRoundTrip([], count, total);
    SerialSnoc(crc, [], r);
    assert [] + [r] == [r] && Serial(crc, []) == [] && [] + Enc(crc, r) == Enc(crc, r);
    ScanBehind(crc, [r], f + rest);
    assert (f + rest)[..FOOTER_SIZE] == f;
  }

  lemma CrashWithoutLoss(crc: Checksum, max: int, st: State, c: Bytes)
    requires st.disk == map[0 := File(c, |c|)] && st.weak.Keys <= {0} && (0 in st.weak ==> st.weak[0] <= |c|)
    ensures Exec(crc, max, st, Crash(map[], {})) == st.(live := None)
  {
    assert c[..|c|] + [] == c;
    assert Crashed(st.disk, map[], {}) == st.disk;
  }
}
