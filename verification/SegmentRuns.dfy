/**
 What every run of the segment log keeps: each acknowledged record stays readable at its
 location through torn writes, failed fsyncs, rotations, crashes and recoveries.
 */
module SegmentRuns {
  import opened Bytes
  import opened Record
  import opened Scan
  import opened SegmentLog
  import opened SegmentNames

  /** A record acknowledged to a caller, with the place it was told. */
  datatype Ack = Ack(segment: nat, offset: nat, rec: Rec) {
    function End(): nat { offset + OVERHEAD + |rec.payload| }
  }

  // ---- one acknowledgement ----

  ghost predicate Placed(crc: Checksum, d: Disk, a: Ack) {
    && a.segment in d && Framed(a.rec)
    && a.End() <= |d[a.segment].content|
    && d[a.segment].content[a.offset..a.End()] == Enc(crc, a.rec)
  }

  /** Before the place behind which a scan of its segment may not reach. */
  predicate Within(weak: map<nat, nat>, a: Ack) {
    a.segment in weak ==> a.End() <= weak[a.segment]
  }

  /** Inside the bytes that survive a crash and, up to a weak place, inside what a later scan keeps of them. */
  ghost predicate Durable(crc: Checksum, d: Disk, weak: map<nat, nat>, a: Ack) {
    && a.segment in d
    && a.End() <= d[a.segment].durable <= |d[a.segment].content|
    && (Within(weak, a) ==> a.End() <= Kept(crc, d[a.segment].content[..d[a.segment].durable]))
  }

  predicate Frontier(s: Session, a: Ack) {
    a.segment <= s.activeID && (a.segment == s.activeID ==> a.End() <= s.offset)
  }

  /** Acknowledged: placed, durable, and behind the session's write position. */
  ghost predicate Settled(crc: Checksum, d: Disk, s: Session, weak: map<nat, nat>, a: Ack) {
    Placed(crc, d, a) && Durable(crc, d, weak, a) && Frontier(s, a)
  }

  /** Written in the current batch: durable as soon as its segment is no longer the active one. */
  ghost predicate Pending(crc: Checksum, d: Disk, s: Session, weak: map<nat, nat>, a: Ack) {
    Placed(crc, d, a) && Frontier(s, a) && (a.segment < s.activeID ==> Durable(crc, d, weak, a))
  }

  /** Only a segment's first record may leave too little room for the footer. */
  predicate Room(max: int, a: Ack) {
    a.offset == 0 || a.End() + FOOTER_SIZE <= max
  }

  predicate Before(a: Ack, b: Ack) {
    a.segment < b.segment || (a.segment == b.segment && a.End() <= b.offset)
  }

  predicate Ordered(acks: seq<Ack>) {
    forall i, j :: 0 <= i < j < |acks| ==> Before(acks[i], acks[j])
  }

  // ---- the session ----

  ghost predicate DiskOk(d: Disk) {
    forall id :: id in d ==> d[id].durable <= |d[id].content|
  }

  ghost predicate Base(crc: Checksum, d: Disk, s: Session, weak: map<nat, nat>) {
    && DiskOk(d) && SessionOk(d, s) && WeakOk(crc, d, weak)
    && (s.isOpen ==> Solid(crc, weak, s.activeID, d[s.activeID].content[..s.offset], s.count))
  }

  /** Whole records up to the write position, all counted; or whole records up to the weak place. */
  ghost predicate Solid(crc: Checksum, weak: map<nat, nat>, id: nat, c: Bytes, count: uint32) {
    if id in weak then WeakAt(crc, c, weak[id]) else Counted(crc, c, count)
  }

  /** The file starts with `n` bytes of whole records, so a scan gets at least that far. */
  ghost predicate WeakAt(crc: Checksum, c: Bytes, n: nat) {
    n <= |c| && Whole(crc, c[..n])
  }

  ghost predicate WeakOk(crc: Checksum, d: Disk, weak: map<nat, nat>) {
    forall id :: id in weak ==> id in d && WeakAt(crc, d[id].content, weak[id])
  }

  lemma WeakAtPrefix(crc: Checksum, b: Bytes, c: Bytes, m: nat, n: nat)
    requires n <= m <= |b| && m <= |c| && b[..m] == c[..m]
    ensures WeakAt(crc, b, n) <==> WeakAt(crc, c, n)
  {
    hide Whole;
    PrefixOfPrefix(b, m, n);
    PrefixOfPrefix(c, m, n);
  }

  lemma WeakBelow(crc: Checksum, d: Disk, e: Disk, id: nat, n: nat, weak: map<nat, nat>)
    requires KeepsBelow(d, e, id, n) && WeakOk(crc, d, weak) && (id in weak ==> weak[id] <= n)
    ensures WeakOk(crc, e, weak)
  {
    hide WeakAt;
    if id in weak { WeakAtPrefix(crc, d[id].content, e[id].content, n, weak[id]); }
  }

  lemma SolidReaches(crc: Checksum, weak: map<nat, nat>, c: Bytes, count: uint32, a: Ack)
    requires Solid(crc, weak, a.segment, c, count) && Within(weak, a) && a.End() <= |c|
    ensures a.End() <= Kept(crc, c)
  {
    hide Kept, Records;
    if a.segment in weak { KeptPrefix(crc, c, weak[a.segment]); }
  }

  ghost predicate Counted(crc: Checksum, c: Bytes, count: uint32) {
    Whole(crc, c) && count == |Records(crc, c)| % TWO_32
  }

  /** `e` differs from `d` only in segment `id`, and there only past the first `n` bytes. */
  ghost predicate KeepsBelow(d: Disk, e: Disk, id: nat, n: nat) {
    && id in d && e.Keys == d.Keys
    && (forall k :: k in d && k != id ==> e[k] == d[k])
    && n <= |d[id].content| && n <= |e[id].content|
    && e[id].content[..n] == d[id].content[..n]
    && Min(d[id].durable, n) <= e[id].durable <= |e[id].content|
  }

  lemma PlacedBelow(crc: Checksum, d: Disk, e: Disk, id: nat, n: nat, a: Ack)
    requires KeepsBelow(d, e, id, n) && Placed(crc, d, a)
    requires a.segment == id ==> a.End() <= n
    ensures Placed(crc, e, a)
  {
  }

  lemma SliceOfPrefix(s: Bytes, n: nat, i: nat, j: nat)
    requires i <= j <= n <= |s|
    ensures s[..n][i..j] == s[i..j]
  {
  }

  lemma PrefixOfPrefix(s: Bytes, n: nat, m: nat)
    requires m <= n <= |s|
    ensures s[..n][..m] == s[..m] && s[..m] <= s[..n]
  {
  }

  lemma DurableBelow(crc: Checksum, d: Disk, e: Disk, id: nat, n: nat, weak: map<nat, nat>, a: Ack)
    requires KeepsBelow(d, e, id, n) && Durable(crc, d, weak, a)
    requires a.segment == id ==> a.End() <= n && (Within(weak, a) ==> a.End() <= Kept(crc, d[id].content[..n]))
    ensures Durable(crc, e, weak, a)
  {
    hide Kept;
    if a.segment == id && Within(weak, a) {
      var m := Min(d[id].durable, n);
      PrefixOfPrefix(d[id].content, n, m);
      PrefixOfPrefix(e[id].content, n, m);
      PrefixOfPrefix(e[id].content, e[id].durable, m);
      KeptMonotone(crc, e[id].content[..m], e[id].content[..e[id].durable]);
    }
  }

  // ---- finalize, open, rotate ----

  lemma FinalizeKeeps(crc: Checksum, d: Disk, s: Session, w: Write, syncOk: bool)
    requires DiskOk(d) && SessionOk(d, s) && s.offset > 0
    ensures var (e, ok) := Finalize(d, s, w, syncOk);
      && KeepsBelow(d, e, s.activeID, s.offset) && DiskOk(e)
      && (ok ==> e[s.activeID].durable == |e[s.activeID].content|)
  {
  }

  /** Bytes below the write position decide. */
  lemma BaseBelow(crc: Checksum, d: Disk, e: Disk, s: Session, weak: map<nat, nat>)
    requires Base(crc, d, s, weak) && s.isOpen && KeepsBelow(d, e, s.activeID, s.offset) && DiskOk(e)
    ensures Base(crc, e, s, weak)
  {
    hide WeakAt, Counted;
    ActiveWeak(crc, d, s, weak);
    WeakBelow(crc, d, e, s.activeID, s.offset, weak);
  }

  lemma ActiveWeak(crc: Checksum, d: Disk, s: Session, weak: map<nat, nat>)
    requires Base(crc, d, s, weak) && s.isOpen
    ensures s.activeID in weak ==> weak[s.activeID] <= s.offset
  {
    hide Whole, Counted, WeakOk;
  }

  lemma FinalizeAck(crc: Checksum, d: Disk, s: Session, w: Write, syncOk: bool, weak: map<nat, nat>, a: Ack)
    requires Base(crc, d, s, weak) && s.offset > 0 && Pending(crc, d, s, weak, a)
    ensures var (e, ok) := Finalize(d, s, w, syncOk);
      && Base(crc, e, s, weak) && Pending(crc, e, s, weak, a)
      && (ok || Durable(crc, d, weak, a) ==> Settled(crc, e, s, weak, a))
  {
    hide Enc, Kept, Finalize, Solid;
    var (e, ok) := Finalize(d, s, w, syncOk);
    FinalizeKeeps(crc, d, s, w, syncOk);
    PlacedBelow(crc, d, e, s.activeID, s.offset, a);
    BaseBelow(crc, d, e, s, weak);
    ActiveReaches(crc, d, s, weak, a);
    if Durable(crc, d, weak, a) {
      DurableBelow(crc, d, e, s.activeID, s.offset, weak, a);
    } else if ok {
      KeptPrefix(crc, e[a.segment].content, s.offset);
      assert e[a.segment].content[..e[a.segment].durable] == e[a.segment].content;
    }
  }

  lemma KeptPrefix(crc: Checksum, c: Bytes, n: nat)
    requires n <= |c|
    ensures Kept(crc, c[..n]) <= Kept(crc, c)
  {
    hide Kept;
    KeptMonotone(crc, c[..n], c);
  }

  /** A scan of the active file up to the write position reaches what lies before a weak place. */
  lemma ActiveReaches(crc: Checksum, d: Disk, s: Session, weak: map<nat, nat>, a: Ack)
    requires Base(crc, d, s, weak) && Frontier(s, a)
    ensures s.isOpen && a.segment == s.activeID && Within(weak, a) ==> a.End() <= Kept(crc, d[s.activeID].content[..s.offset])
  {
    hide Kept, Solid;
    if s.isOpen && a.segment == s.activeID && Within(weak, a) {
      SolidReaches(crc, weak, d[s.activeID].content[..s.offset], s.count, a);
    }
  }

  lemma EmptyIsWhole(crc: Checksum)
    ensures Counted(crc, [], 0)
  {
  }

  /** Opening the next segment touches no existing file. */
  lemma OpenNext(crc: Checksum, d: Disk, s: Session, open: Open, weak: map<nat, nat>)
    requires DiskOk(d) && SessionOk(d, s) && WeakOk(crc, d, weak)
    ensures var (e, s1, ok) := OpenSegment(crc, d, s.activeID + 1, open);
      && Base(crc, e, s1, weak) && s1.activeID == s.activeID + 1 && s1.offset == 0
      && (forall k :: k in d ==> k in e && e[k] == d[k])
  {
  }

  lemma RotateBase(crc: Checksum, max: int, d: Disk, s: Session, len: nat, io: Io, weak: map<nat, nat>)
    requires Base(crc, d, s, weak)
    ensures var (e, s1, ok) := Rotate(crc, max, d, s, len, io);
      && Base(crc, e, s1, weak)
      && (ok ==> s1.offset == 0 || s1.offset + len + FOOTER_SIZE <= max)
  {
    hide Finalize, OpenSegment, Solid, WeakOk;
    if MustRotate(max, s, len) {
      FinalizeKeeps(crc, d, s, io.footer, io.footerSync);
      var (e, ok) := Finalize(d, s, io.footer, io.footerSync);
      BaseBelow(crc, d, e, s, weak);
      if ok { OpenNext(crc, e, s, io.open, weak); }
    }
  }

  lemma RotateAck(crc: Checksum, max: int, d: Disk, s: Session, len: nat, io: Io, weak: map<nat, nat>, a: Ack)
    requires Base(crc, d, s, weak) && Pending(crc, d, s, weak, a)
    ensures var (e, s1, _) := Rotate(crc, max, d, s, len, io);
      && Pending(crc, e, s1, weak, a)
      && (Settled(crc, d, s, weak, a) ==> Settled(crc, e, s1, weak, a))
  {
    hide Enc, Kept, Finalize, OpenSegment;
    if MustRotate(max, s, len) {
      FinalizeAck(crc, d, s, io.footer, io.footerSync, weak, a);
      var (e, ok) := Finalize(d, s, io.footer, io.footerSync);
      if ok { OpenNext(crc, e, s, io.open, weak); }
    }
  }

  // ---- the write ----

  function Lower(weak: map<nat, nat>, id: nat, n: nat): map<nat, nat> {
    weak[id := if id in weak then Min(weak[id], n) else n]
  }

  /** An empty payload makes its place the last a scan reaches. */
  function Tainted(weak: map<nat, nat>, loc: Option<Location>, r: Rec): map<nat, nat> {
    if loc.Some? && r.payload == [] then Lower(weak, loc.value.segment, loc.value.offset) else weak
  }

  lemma WriteKeeps(d: Disk, s: Session, b: Bytes, fsync: bool, io: Io)
    requires DiskOk(d) && SessionOk(d, s) && s.isOpen
    ensures var w := WriteRecord(d, s, b, fsync, io);
      && KeepsBelow(d, w.disk, s.activeID, s.offset) && DiskOk(w.disk)
      && (w.loc == None ==> w.s == s)
      && (w.loc.Some? ==>
        && w.loc.value == Location(s.activeID, s.offset, |b|)
        && w.s.activeID == s.activeID && w.s.isOpen && w.s.offset == s.offset + |b|
        && w.s.count == (s.count + 1) % TWO_32
        && w.disk[s.activeID].content[s.offset..s.offset + |b|] == b
        && w.disk[s.activeID].content[..s.offset + |b|] == d[s.activeID].content[..s.offset] + b
        && (fsync ==> w.disk[s.activeID].durable == |w.disk[s.activeID].content|))
  {
    var f := WriteAt(d[s.activeID], s.offset, Reached(b, io.write));
    assert f.content[..s.offset] + f.content[s.offset..s.offset + |Reached(b, io.write)|]
        == f.content[..s.offset + |Reached(b, io.write)|];
  }

  lemma CountedAppend(crc: Checksum, c: Bytes, count: uint32, r: Rec)
    requires Counted(crc, c, count) && Scannable(r)
    ensures Counted(crc, c + Enc(crc, r), (count + 1) % TWO_32)
  {
    hide Enc, Kept, Records;
    WholeAppend(crc, c, r);
  }

  /** Writing a record keeps the file solid, weaker from its own place on if it is empty. */
  lemma SolidAppend(crc: Checksum, weak: map<nat, nat>, id: nat, c: Bytes, count: uint32, r: Rec)
    requires Solid(crc, weak, id, c, count) && Framed(r)
    ensures Solid(crc, if r.payload == [] then Lower(weak, id, |c|) else weak, id, c + Enc(crc, r), (count + 1) % TWO_32)
  {
    hide Enc, Kept, Records;
    var e := c + Enc(crc, r);
    assert e[..|c|] == c == c[..|c|];
    if id in weak { WeakAtPrefix(crc, c, e, |c|, weak[id]); }
    if id !in weak && r.payload != [] { CountedAppend(crc, c, count, r); }
  }

  lemma WriteBase(crc: Checksum, d: Disk, s: Session, r: Rec, fsync: bool, io: Io, weak: map<nat, nat>)
    requires Base(crc, d, s, weak) && Framed(r)
    ensures var w := WriteRecord(d, s, Enc(crc, r), fsync, io);
      Base(crc, w.disk, w.s, Tainted(weak, w.loc, r))
  {
    hide Enc, Solid, WeakOk, Lower;
    if s.isOpen {
      hide WriteRecord;
      WriteKeeps(d, s, Enc(crc, r), fsync, io);
      var w := WriteRecord(d, s, Enc(crc, r), fsync, io);
      BaseBelow(crc, d, w.disk, s, weak);
      if w.loc.Some? {
        SolidAppend(crc, weak, s.activeID, d[s.activeID].content[..s.offset], s.count, r);
        if r.payload == [] { TaintOk(crc, w.disk, s.activeID, w.s.offset, s.offset, w.s.count, weak); }
      }
    }
  }

  /** The new weak place is seen in the whole file as it is below the write position. */
  lemma TaintOk(crc: Checksum, d: Disk, id: nat, n: nat, place: nat, count: uint32, weak: map<nat, nat>)
    requires WeakOk(crc, d, weak) && id in d && n <= |d[id].content|
    requires Solid(crc, Lower(weak, id, place), id, d[id].content[..n], count)
    ensures WeakOk(crc, d, Lower(weak, id, place))
  {
    hide Whole;
    PrefixOfPrefix(d[id].content, n, Lower(weak, id, place)[id]);
  }

  lemma WriteAck(crc: Checksum, d: Disk, s: Session, b: Bytes, fsync: bool, io: Io, weak: map<nat, nat>, a: Ack)
    requires Base(crc, d, s, weak) && Pending(crc, d, s, weak, a)
    ensures var w := WriteRecord(d, s, b, fsync, io);
      && Pending(crc, w.disk, w.s, weak, a)
      && (Settled(crc, d, s, weak, a) ==> Settled(crc, w.disk, w.s, weak, a))
  {
    hide Enc, Kept;
    if s.isOpen {
      hide WriteRecord;
      WriteKeeps(d, s, b, fsync, io);
      var w := WriteRecord(d, s, b, fsync, io);
      PlacedBelow(crc, d, w.disk, s.activeID, s.offset, a);
      ActiveReaches(crc, d, s, weak, a);
      if Durable(crc, d, weak, a) {
        DurableBelow(crc, d, w.disk, s.activeID, s.offset, weak, a);
      }
    }
  }

  lemma WriteNew(crc: Checksum, d: Disk, s: Session, r: Rec, fsync: bool, io: Io, weak: map<nat, nat>)
    requires Base(crc, d, s, weak) && Framed(r)
    requires WriteRecord(d, s, Enc(crc, r), fsync, io).loc.Some?
    ensures var w := WriteRecord(d, s, Enc(crc, r), fsync, io);
      var a := Ack(w.loc.value.segment, w.loc.value.offset, r);
      && a.segment == s.activeID && a.offset == s.offset
      && Pending(crc, w.disk, w.s, Tainted(weak, w.loc, r), a)
      && (fsync ==> Settled(crc, w.disk, w.s, Tainted(weak, w.loc, r), a))
  {
    hide Enc, Kept, WriteAt, Solid;
    WriteKeeps(d, s, Enc(crc, r), fsync, io);
    WriteBase(crc, d, s, r, fsync, io, weak);
    hide WriteRecord;
    var w := WriteRecord(d, s, Enc(crc, r), fsync, io);
    var c := w.disk[s.activeID].content;
    ActiveReaches(crc, w.disk, w.s, Tainted(weak, w.loc, r), Ack(s.activeID, s.offset, r));
    KeptPrefix(crc, c, w.s.offset);
    assert c[..|c|] == c;
  }

  // ---- one append ----

  /** What holds between any two appends of a batch: `acked` is settled, `written` written. */
  ghost predicate Log(crc: Checksum, max: int, d: Disk, s: Session, weak: map<nat, nat>, acked: seq<Ack>, written: seq<Ack>) {
    && Base(crc, d, s, weak)
    && (forall a :: a in acked ==> Settled(crc, d, s, weak, a))
    && (forall a :: a in written ==> Pending(crc, d, s, weak, a))
    && (forall a :: a in acked + written ==> Room(max, a))
    && Ordered(acked + written)
  }

  function NewAck(loc: Option<Location>, r: Rec): seq<Ack> {
    if loc.Some? then [Ack(loc.value.segment, loc.value.offset, r)] else []
  }

  lemma AppendOld(crc: Checksum, max: int, d: Disk, s: Session, b: Bytes, fsync: bool, io: Io, weak: map<nat, nat>, a: Ack)
    requires Base(crc, d, s, weak) && Pending(crc, d, s, weak, a)
    ensures var w := AppendLocked(crc, max, d, s, b, fsync, io);
      && Pending(crc, w.disk, w.s, weak, a)
      && (Settled(crc, d, s, weak, a) ==> Settled(crc, w.disk, w.s, weak, a))
      && (w.loc.Some? ==> Before(a, Ack(w.loc.value.segment, w.loc.value.offset, Rec(0, []))))
  {
    hide Enc, Kept, Rotate;
    RotateBase(crc, max, d, s, |b|, io, weak);
    RotateAck(crc, max, d, s, |b|, io, weak, a);
    var (e, s1, ok) := Rotate(crc, max, d, s, |b|, io);
    if ok {
      WriteAck(crc, e, s1, b, fsync, io, weak, a);
      if s1.isOpen { WriteKeeps(e, s1, b, fsync, io); }
    }
  }

  lemma AppendNew(crc: Checksum, max: int, d: Disk, s: Session, r: Rec, fsync: bool, io: Io, weak: map<nat, nat>)
    requires Base(crc, d, s, weak) && Framed(r)
    ensures var w := AppendLocked(crc, max, d, s, Enc(crc, r), fsync, io);
      var weak' := Tainted(weak, w.loc, r);
      && Base(crc, w.disk, w.s, weak')
      && (forall a :: a in NewAck(w.loc, r) ==>
          Pending(crc, w.disk, w.s, weak', a) && Room(max, a)
          && (fsync ==> Settled(crc, w.disk, w.s, weak', a)))
  {
    hide Enc, Kept, Rotate;
    var b := Enc(crc, r);
    RotateBase(crc, max, d, s, |b|, io, weak);
    var (e, s1, ok) := Rotate(crc, max, d, s, |b|, io);
    if ok {
      WriteBase(crc, e, s1, r, fsync, io, weak);
      if WriteRecord(e, s1, b, fsync, io).loc.Some? {
        WriteNew(crc, e, s1, r, fsync, io, weak);
      }
    }
  }

  /** A lower weak place asks for less. */
  lemma MoreWeak(crc: Checksum, d: Disk, s: Session, e: map<nat, nat>, f: map<nat, nat>, a: Ack)
    requires forall id :: id in e ==> id in f && f[id] <= e[id]
    ensures Settled(crc, d, s, e, a) ==> Settled(crc, d, s, f, a)
    ensures Pending(crc, d, s, e, a) ==> Pending(crc, d, s, f, a)
  {
  }

  lemma OrderedSnoc(acks: seq<Ack>, more: seq<Ack>)
    requires Ordered(acks) && |more| <= 1
    requires forall a, b :: a in acks && b in more ==> Before(a, b)
    ensures Ordered(acks + more)
  {
  }

  /** One append keeps the log; an fsynced one settles its own record at once. */
  lemma AppendKeepsLog(crc: Checksum, max: int, d: Disk, s: Session, r: Rec, io: Io, weak: map<nat, nat>, acked: seq<Ack>, written: seq<Ack>)
    requires Log(crc, max, d, s, weak, acked, written) && Framed(r)
    ensures var w := AppendLocked(crc, max, d, s, Enc(crc, r), false, io);
      Log(crc, max, w.disk, w.s, Tainted(weak, w.loc, r), acked, written + NewAck(w.loc, r))
  {
    hide Enc, Whole, AppendLocked, Settled, Pending;
    var w := AppendLocked(crc, max, d, s, Enc(crc, r), false, io);
    var weak' := Tainted(weak, w.loc, r);
    var new' := NewAck(w.loc, r);
    AppendNew(crc, max, d, s, r, false, io, weak);
    forall a | a in acked + written
      ensures Pending(crc, w.disk, w.s, weak', a)
      ensures a in acked ==> Settled(crc, w.disk, w.s, weak', a)
      ensures forall b :: b in new' ==> Before(a, b)
    {
      SettledIsPending(crc, d, s, weak, a);
      AppendOld(crc, max, d, s, Enc(crc, r), false, io, weak, a);
      MoreWeak(crc, w.disk, w.s, weak, weak', a);
    }
    assert acked + (written + new') == (acked + written) + new';
    OrderedSnoc(acked + written, new');
  }

  lemma SettledIsPending(crc: Checksum, d: Disk, s: Session, e: map<nat, nat>, a: Ack)
    ensures Settled(crc, d, s, e, a) ==> Pending(crc, d, s, e, a)
  {
  }

  lemma AppendSyncKeepsLog(crc: Checksum, max: int, d: Disk, s: Session, r: Rec, io: Io, weak: map<nat, nat>, acked: seq<Ack>)
    requires Log(crc, max, d, s, weak, acked, []) && Framed(r)
    ensures var w := AppendLocked(crc, max, d, s, Enc(crc, r), true, io);
      Log(crc, max, w.disk, w.s, Tainted(weak, w.loc, r), acked + NewAck(w.loc, r), [])
  {
    hide Enc, Whole, AppendLocked, Settled, Pending;
    var w := AppendLocked(crc, max, d, s, Enc(crc, r), true, io);
    var weak' := Tainted(weak, w.loc, r);
    var new' := NewAck(w.loc, r);
    AppendNew(crc, max, d, s, r, true, io, weak);
    assert acked + [] == acked && (acked + new') + [] == acked + new';
    forall a | a in acked
      ensures Settled(crc, w.disk, w.s, weak', a)
      ensures forall b :: b in new' ==> Before(a, b)
    {
      SettledIsPending(crc, d, s, weak, a);
      AppendOld(crc, max, d, s, Enc(crc, r), true, io, weak, a);
      MoreWeak(crc, w.disk, w.s, weak, weak', a);
    }
    OrderedSnoc(acked, new');
  }

  // ---- one batch ----

  function Encs(crc: Checksum, rs: seq<Rec>): (bs: seq<Bytes>)
    ensures |bs| == |rs|
  {
    seq(|rs|, i requires 0 <= i < |rs| => Enc(crc, rs[i]))
  }

  /** The records of a batch that got a location. */
  function Acks(locs: seq<Option<Location>>, rs: seq<Rec>): seq<Ack>
    requires |locs| == |rs|
  {
    if rs == [] then [] else
    var n := |rs| - 1;
    Acks(locs[..n], rs[..n]) + NewAck(locs[n], rs[n])
  }

  function TaintedBy(weak: map<nat, nat>, locs: seq<Option<Location>>, rs: seq<Rec>): map<nat, nat>
    requires |locs| == |rs|
  {
    if rs == [] then weak else
    var n := |rs| - 1;
    Tainted(TaintedBy(weak, locs[..n], rs[..n]), locs[n], rs[n])
  }

  lemma {:induction false} BatchKeepsLog(crc: Checksum, max: int, d: Disk, s: Session, rs: seq<Rec>, ios: seq<Io>, weak: map<nat, nat>, acked: seq<Ack>)
    requires Log(crc, max, d, s, weak, acked, []) && |ios| == |rs|
    requires forall r :: r in rs ==> Framed(r)
    ensures var w := BatchWrites(crc, max, d, s, Encs(crc, rs), ios);
      Log(crc, max, w.disk, w.s, TaintedBy(weak, w.locs, rs), acked, Acks(w.locs, rs))
  {
    hide Enc, Kept, AppendLocked, Log;
    LogBase(crc, max, d, s, weak, acked, []);
    if rs != [] {
      var n := |rs| - 1;
      var p := BatchWrites(crc, max, d, s, Encs(crc, rs[..n]), ios[..n]);
      BatchKeepsLog(crc, max, d, s, rs[..n], ios[..n], weak, acked);
      assert Encs(crc, rs)[..n] == Encs(crc, rs[..n]);
      LogBase(crc, max, p.disk, p.s, TaintedBy(weak, p.locs, rs[..n]), acked, Acks(p.locs, rs[..n]));
      AppendKeepsLog(crc, max, p.disk, p.s, rs[n], ios[n], TaintedBy(weak, p.locs, rs[..n]), acked, Acks(p.locs, rs[..n]));
      var w := BatchWrites(crc, max, d, s, Encs(crc, rs), ios);
      assert w.locs[..n] == p.locs;
    }
  }

  lemma LogBase(crc: Checksum, max: int, d: Disk, s: Session, weak: map<nat, nat>, acked: seq<Ack>, written: seq<Ack>)
    requires Log(crc, max, d, s, weak, acked, written)
    ensures Base(crc, d, s, weak)
  {
  }

  lemma SyncSettles(crc: Checksum, d: Disk, s: Session, weak: map<nat, nat>, a: Ack)
    requires Base(crc, d, s, weak) && s.isOpen && Pending(crc, d, s, weak, a)
    ensures Settled(crc, d[s.activeID := Sync(d[s.activeID])], s, weak, a)
  {
    hide Enc, Kept, Solid;
    var c := d[s.activeID].content;
    ActiveReaches(crc, d, s, weak, a);
    KeptPrefix(crc, c, s.offset);
    assert c[..|c|] == c;
    var e := d[s.activeID := Sync(d[s.activeID])];
    assert KeepsBelow(d, e, s.activeID, s.offset);
    PlacedBelow(crc, d, e, s.activeID, s.offset, a);
  }

  /** The one fsync at the end settles the whole batch, including records of rotated-out segments. */
  lemma SyncKeepsLog(crc: Checksum, max: int, d: Disk, s: Session, weak: map<nat, nat>, acked: seq<Ack>, written: seq<Ack>)
    requires Log(crc, max, d, s, weak, acked, written) && s.isOpen
    ensures Log(crc, max, d[s.activeID := Sync(d[s.activeID])], s, weak, acked + written, [])
  {
    hide Kept, Settled, Pending, Whole;
    assert (acked + written) + [] == acked + written;
    forall a | a in acked + written
      ensures Settled(crc, d[s.activeID := Sync(d[s.activeID])], s, weak, a)
    {
      SettledIsPending(crc, d, s, weak, a);
      SyncSettles(crc, d, s, weak, a);
    }
  }

  lemma ForgetFresh(crc: Checksum, max: int, d: Disk, s: Session, weak: map<nat, nat>, acked: seq<Ack>, written: seq<Ack>)
    requires Log(crc, max, d, s, weak, acked, written)
    ensures Log(crc, max, d, s, weak, acked, [])
  {
    hide Whole, Settled, Pending;
    var all := acked + written;
    assert acked + [] == acked == all[..|acked|];
    assert forall i :: 0 <= i < |acked| ==> all[i] == acked[i];
  }

  // ---- whole runs ----

  /**
   All but the first two are history. `acked` is what callers were told and what has not been cut
   off since; a recovery moves what its truncation cuts from `acked` to `gone`. `weak` names
   segments with a place behind which a scan may not reach: the first empty-payload record, or a
   footer a recovery accepted.
   */
  datatype State = State(disk: Disk, live: Option<Session>, acked: seq<Ack>, weak: map<nat, nat>, gone: set<Ack>)

  const FRESH: State := State(map[], None, [], map[], {})

  /** What a recovery of segment `id` leaves of the acknowledgements when it cuts the file at `n`. */
  function Survivors(acks: seq<Ack>, id: nat, n: nat): seq<Ack> {
    if acks == [] then [] else
    var last := |acks| - 1;
    Survivors(acks[..last], id, n) + if acks[last].segment == id && acks[last].End() > n then [] else [acks[last]]
  }

  lemma {:induction false} SurvivorsAre(acks: seq<Ack>, id: nat, n: nat)
    ensures forall a :: a in Survivors(acks, id, n) <==> a in acks && (a.segment == id ==> a.End() <= n)
  {
    if acks != [] {
      var last := |acks| - 1;
      SurvivorsAre(acks[..last], id, n);
      assert acks == acks[..last] + [acks[last]];
    }
  }

  lemma {:induction false} SurvivorsOrdered(acks: seq<Ack>, id: nat, n: nat)
    requires Ordered(acks)
    ensures Ordered(Survivors(acks, id, n))
  {
    if acks != [] {
      var last := |acks| - 1;
      SurvivorsOrdered(acks[..last], id, n);
      SurvivorsAre(acks[..last], id, n);
      var more := if acks[last].segment == id && acks[last].End() > n then [] else [acks[last]];
      forall a, b | a in Survivors(acks[..last], id, n) && b in more ensures Before(a, b) {
        var i :| 0 <= i < last && acks[..last][i] == a;
        assert acks[i] == a;
      }
      OrderedSnoc(Survivors(acks[..last], id, n), more);
    }
  }

  lemma {:induction false} AllSurvive(acks: seq<Ack>, id: nat, n: nat)
    requires forall a :: a in acks && a.segment == id ==> a.End() <= n
    ensures Survivors(acks, id, n) == acks
  {
    if acks != [] {
      AllSurvive(acks[..|acks| - 1], id, n);
      assert acks == acks[..|acks| - 1] + [acks[|acks| - 1]];
    }
  }

  datatype Step =
    | Append(rec: Rec, io: Io)
    | Batch(recs: seq<Rec>, ios: seq<Io>, sync: bool)
    | Close(footer: Write, footerSync: bool)
    | Crash(junk: map<nat, Bytes>, lost: set<nat>)
    | Recover

  ghost function MaxId(d: Disk): (m: nat)
    requires d != map[]
    ensures m in d && forall k :: k in d ==> k <= m
  {
    HasMax(d.Keys);
    var m :| m in d && forall k :: k in d ==> k <= m;
    m
  }

  lemma {:induction false} HasMax(ids: set<nat>)
    requires ids != {}
    ensures exists m :: m in ids && forall k :: k in ids ==> k <= m
  {
    var x :| x in ids;
    if ids != {x} {
      HasMax(ids - {x});
      var m :| m in ids - {x} && forall k :: k in ids - {x} ==> k <= m;
      assert forall k :: k in ids ==> k == x || k in ids - {x};
      var top := if x > m then x else m;
      assert top in ids && forall k :: k in ids ==> k <= top;
    }
  }

  /** Bytes past the durable prefix become `junk`; a file with nothing durable may be gone. */
  function Crashed(d: Disk, junk: map<nat, Bytes>, lost: set<nat>): Disk {
    map id | id in d && (id !in lost || d[id].durable > 0) ::
      File(d[id].content[..Min(d[id].durable, |d[id].content|)] + (if id in junk then junk[id] else []),
           Min(d[id].durable, |d[id].content|))
  }

  /** recover: opens the highest segment, here over a listing that sees every file. */
  ghost function Recovered(crc: Checksum, d: Disk): (r: (Disk, Session))
    ensures SessionOk(r.0, r.1)
  {
    var id := if d == map[] then 0 else MaxId(d);
    var (e, off, count) := OpenFile(crc, d, id);
    (e, Session(id, true, off, count))
  }

  predicate Running(st: State) {
    st.live.Some? && SessionOk(st.disk, st.live.value)
  }

  ghost function Exec(crc: Checksum, max: int, st: State, step: Step): State {
    match step
    case Append(r, io) =>
      if !Running(st) then st else
      var w := AppendLocked(crc, max, st.disk, st.live.value, Enc(crc, r), true, io);
      State(w.disk, Some(w.s), st.acked + NewAck(w.loc, r), Tainted(st.weak, w.loc, r), st.gone)
    case Batch(rs, ios, sync) =>
      if !Running(st) || |rs| != |ios| then st else
      var w := BatchWrites(crc, max, st.disk, st.live.value, Encs(crc, rs), ios);
      var b := BatchAppend(crc, max, st.disk, st.live.value, Encs(crc, rs), ios, sync);
      State(b.disk, Some(b.s), st.acked + Acks(b.locs, rs), TaintedBy(st.weak, w.locs, rs), st.gone)
    case Close(w, syncOk) =>
      if !Running(st) then st else
      st.(disk := Finalize(st.disk, st.live.value, w, syncOk).0, live := None)
    case Crash(junk, lost) =>
      var d := Crashed(st.disk, junk, lost);
      st.(disk := d, live := None, weak := map id | id in st.weak && id in d && st.weak[id] <= d[id].durable :: st.weak[id])
    case Recover => if st.live.Some? then st else RecoverFrom(crc, st)
  }

  ghost function RecoverFrom(crc: Checksum, st: State): State {
    var (d, s) := Recovered(crc, st.disk);
    if st.disk == map[] then st.(disk := d, live := Some(s)) else
    var left := StillAcked(crc, st);
    State(d, Some(s), left, WeakAfter(crc, st), st.gone + set a | a in st.acked && a !in left)
  }

  /** What the truncation of the reopened file leaves. */
  ghost function StillAcked(crc: Checksum, st: State): seq<Ack>
    requires st.disk != map[]
  {
    var id := MaxId(st.disk);
    Survivors(st.acked, id, ScanLen(crc, st.disk[id].content))
  }

  /** A footer accepted behind the records is weak, and a weak segment stays so. */
  ghost function WeakAfter(crc: Checksum, st: State): map<nat, nat>
    requires st.disk != map[]
  {
    var id := MaxId(st.disk);
    var c := st.disk[id].content;
    if id in st.weak || ScanLen(crc, c) != Kept(crc, c) then Lower(st.weak, id, Kept(crc, c)) else st.weak
  }

  /** What the guarantee asks of one step: framed records, and recoveries that see every file. */
  predicate CleanStep(st: State, step: Step) {
    match step
    case Append(r, _) => Framed(r)
    case Batch(rs, _, _) => forall r :: r in rs ==> Framed(r)
    case Recover => forall id :: id in st.disk ==> Found(id)
    case _ => true
  }

  ghost predicate Inv(crc: Checksum, max: int, st: State) {
    && DiskOk(st.disk) && WeakOk(crc, st.disk, st.weak)
    && (forall a :: a in st.acked ==> Placed(crc, st.disk, a) && Durable(crc, st.disk, st.weak, a) && Room(max, a))
    && Ordered(st.acked)
    && (st.live.Some? ==>
      && Base(crc, st.disk, st.live.value, st.weak)
      && forall a :: a in st.acked ==> Frontier(st.live.value, a))
  }

  lemma InvIsLog(crc: Checksum, max: int, st: State)
    requires st.live.Some?
    ensures Inv(crc, max, st) <==> Log(crc, max, st.disk, st.live.value, st.weak, st.acked, [])
  {
    hide Placed, Durable, Base;
    assert st.acked + [] == st.acked;
    if Log(crc, max, st.disk, st.live.value, st.weak, st.acked, []) {
      LogBase(crc, max, st.disk, st.live.value, st.weak, st.acked, []);
      BaseDisk(crc, st.disk, st.live.value, st.weak);
    }
  }

  lemma BaseDisk(crc: Checksum, d: Disk, s: Session, weak: map<nat, nat>)
    requires Base(crc, d, s, weak)
    ensures DiskOk(d) && SessionOk(d, s) && WeakOk(crc, d, weak)
  {
  }

  lemma BatchStep(crc: Checksum, max: int, st: State, step: Step)
    requires Inv(crc, max, st) && st.live.Some? && step.Batch? && |step.recs| == |step.ios| && CleanStep(st, step)
    ensures Inv(crc, max, Exec(crc, max, st, step))
  {
    hide Enc, Kept, Log, Inv, Base, BatchWrites;
    InvIsLog(crc, max, st);
    LogBase(crc, max, st.disk, st.live.value, st.weak, st.acked, []);
    BaseDisk(crc, st.disk, st.live.value, st.weak);
    var w := BatchWrites(crc, max, st.disk, st.live.value, Encs(crc, step.recs), step.ios);
    var b := BatchAppend(crc, max, st.disk, st.live.value, Encs(crc, step.recs), step.ios, step.sync);
    var weak := TaintedBy(st.weak, w.locs, step.recs);
    BatchKeepsLog(crc, max, st.disk, st.live.value, step.recs, step.ios, st.weak, st.acked);
    if (exists i :: 0 <= i < |w.locs| && w.locs[i].Some?) && step.sync && w.s.isOpen {
      SyncKeepsLog(crc, max, w.disk, w.s, weak, st.acked, Acks(w.locs, step.recs));
    } else {
      ForgetFresh(crc, max, w.disk, w.s, weak, st.acked, Acks(w.locs, step.recs));
      NoAcks(b.locs, step.recs);
      assert st.acked + [] == st.acked;
    }
    InvIsLog(crc, max, Exec(crc, max, st, step));
  }

  lemma {:induction false} NoAcks(locs: seq<Option<Location>>, rs: seq<Rec>)
    requires |locs| == |rs| && forall i :: 0 <= i < |locs| ==> locs[i] == None
    ensures Acks(locs, rs) == []
  {
    if rs != [] { NoAcks(locs[..|rs| - 1], rs[..|rs| - 1]); }
  }

  lemma AppendStep(crc: Checksum, max: int, st: State, step: Step)
    requires Inv(crc, max, st) && st.live.Some? && step.Append? && CleanStep(st, step)
    ensures Inv(crc, max, Exec(crc, max, st, step))
  {
    hide Enc, Kept, Log, Inv, Base, AppendLocked;
    InvIsLog(crc, max, st);
    LogBase(crc, max, st.disk, st.live.value, st.weak, st.acked, []);
    BaseDisk(crc, st.disk, st.live.value, st.weak);
    AppendSyncKeepsLog(crc, max, st.disk, st.live.value, step.rec, step.io, st.weak, st.acked);
    InvIsLog(crc, max, Exec(crc, max, st, step));
  }

  lemma CloseStep(crc: Checksum, max: int, st: State, step: Step)
    requires Inv(crc, max, st) && st.live.Some? && step.Close?
    ensures Inv(crc, max, Exec(crc, max, st, step))
  {
    hide Enc, Kept, Finalize, Solid, WeakOk;
    var s := st.live.value;
    var d := Finalize(st.disk, s, step.footer, step.footerSync).0;
    if s.offset > 0 {
      FinalizeKeeps(crc, st.disk, s, step.footer, step.footerSync);
      BaseBelow(crc, st.disk, d, s, st.weak);
      forall a | a in st.acked ensures Placed(crc, d, a) && Durable(crc, d, st.weak, a) {
        FinalizeAck(crc, st.disk, s, step.footer, step.footerSync, st.weak, a);
      }
    } else {
      NothingToFinalize(st.disk, s, step.footer, step.footerSync);
    }
  }

  lemma NothingToFinalize(d: Disk, s: Session, w: Write, syncOk: bool)
    requires SessionOk(d, s) && s.offset == 0
    ensures Finalize(d, s, w, syncOk) == (d, true)
  {
  }

  lemma CrashStep(crc: Checksum, max: int, st: State, step: Step)
    requires Inv(crc, max, st) && step.Crash?
    ensures Inv(crc, max, Exec(crc, max, st, step))
  {
    hide Placed, Durable, WeakOk;
    var u := Exec(crc, max, st, step);
    assert DiskOk(u.disk);
    CrashWeak(crc, st, step);
    forall a | a in st.acked ensures Placed(crc, u.disk, a) && Durable(crc, u.disk, u.weak, a) { CrashAck(crc, st, step, a); }
  }

  /** A weak place inside the durable bytes stays; one behind them is gone with them. */
  lemma CrashWeak(crc: Checksum, st: State, step: Step)
    requires DiskOk(st.disk) && WeakOk(crc, st.disk, st.weak) && step.Crash?
    ensures WeakOk(crc, Exec(crc, 0, st, step).disk, Exec(crc, 0, st, step).weak)
  {
    hide WeakAt;
    var u := Exec(crc, 0, st, step);
    forall id | id in u.weak ensures WeakAt(crc, u.disk[id].content, u.weak[id]) {
      var n := st.disk[id].durable;
      assert u.disk[id].content[..n] == st.disk[id].content[..n];
      WeakAtPrefix(crc, st.disk[id].content, u.disk[id].content, n, st.weak[id]);
    }
  }

  lemma CrashAck(crc: Checksum, st: State, step: Step, a: Ack)
    requires DiskOk(st.disk) && step.Crash? && Placed(crc, st.disk, a) && Durable(crc, st.disk, st.weak, a)
    ensures var u := Exec(crc, 0, st, step); Placed(crc, u.disk, a) && Durable(crc, u.disk, u.weak, a)
  {
    hide Enc, Kept;
    var d := Crashed(st.disk, step.junk, step.lost);
    var n := st.disk[a.segment].durable;
    SliceOfPrefix(st.disk[a.segment].content, n, a.offset, a.End());
    SliceOfPrefix(d[a.segment].content, n, a.offset, a.End());
    assert d[a.segment].content[..n] == st.disk[a.segment].content[..n];
  }

  /**
   A finalized active segment rescans to exactly the records below the write position, and its
   footer holds their count and length. Below about 15.1e9 bytes the count cannot be mistaken
   for a record magic.
   */
  lemma FinalizedSegment(crc: Checksum, d: Disk, s: Session, weak: map<nat, nat>)
    requires Base(crc, d, s, weak) && s.activeID !in weak
    requires 0 < s.offset < (OVERHEAD + 1) * MAGIC_ERR
    ensures var (e, ok) := Finalize(d, s, Full, true);
      var c, n := e[s.activeID].content, s.offset + FOOTER_SIZE;
      var rs := Records(crc, d[s.activeID].content[..s.offset]);
      && ok && e[s.activeID].durable == |c|
      && Records(crc, c) == rs && ScanLen(crc, c) == n <= |c|
      && ValidateFooter(c[..n]) == Some((|rs|, s.offset))
  {
    hide Counted, Records, ScanLen, ValidateFooter, Finalize, Footer;
    var c := d[s.activeID].content[..s.offset];
    FinalizedContent(d, s);
    CountedRescans(crc, c, s.count, Finalize(d, s, Full, true).0[s.activeID].content);
  }

  lemma FinalizedContent(d: Disk, s: Session)
    requires SessionOk(d, s) && 0 < s.offset
    ensures var (e, ok) := Finalize(d, s, Full, true);
      && ok && e[s.activeID].durable == |e[s.activeID].content|
      && d[s.activeID].content[..s.offset] + Footer(s.count, s.offset % TWO_64) <= e[s.activeID].content
  {
  }

  lemma CountedRescans(crc: Checksum, c: Bytes, count: uint32, file: Bytes)
    requires Counted(crc, c, count) && |c| < (OVERHEAD + 1) * MAGIC_ERR
    requires c + Footer(count, |c|) <= file
    ensures var n := |c| + FOOTER_SIZE;
      && Records(crc, file) == Records(crc, c) && ScanLen(crc, file) == n <= |file|
      && ValidateFooter(file[..n]) == Some((|Records(crc, c)|, |c|))
  {
    hide Records, Serial, ScanLen, Footer, LooksLikeFooter, ValidateFooter, Kept;
    var rs := Records(crc, c);
    SplitBehind(c, Footer(count, |c|), file);
    FooterRoundTrip(c, count, |c|);
    WholeIsSerial(crc, c);
    SizeLimitBoundsCount(crc, rs, |c|);
    assert count == |rs|;
    FinalizedRescans(crc, rs, |c|, file[|c| + FOOTER_SIZE..]);
  }

  lemma SplitBehind(c: Bytes, f: Bytes, file: Bytes)
    requires c + f <= file
    ensures file == c + f + file[|c| + |f|..] && file[..|c| + |f|] == c + f
  {
  }

  lemma WholeIsSerial(crc: Checksum, c: Bytes)
    requires Whole(crc, c)
    ensures c == Serial(crc, Records(crc, c)) && AllScannable(Records(crc, c))
  {
    hide Records, Head, Serial;
    RecordsArePrefix(crc, c);
  }

  /** What a recovery does to a nonempty directory: the highest file is cut to its records and at most one footer. */
  lemma RecoverCuts(crc: Checksum, st: State)
    requires DiskOk(st.disk) && WeakOk(crc, st.disk, st.weak) && st.live == None && st.disk != map[]
    ensures var id := MaxId(st.disk); var (d, s) := Recovered(crc, st.disk); var c := st.disk[id].content;
      && KeepsBelow(st.disk, d, id, s.offset) && DiskOk(d)
      && s.activeID == id && s.isOpen && Kept(crc, c) <= s.offset <= |c| && s.offset == ScanLen(crc, c) == |d[id].content|
      && Kept(crc, c) <= Kept(crc, c[..s.offset])
      && Solid(crc, WeakAfter(crc, st), id, d[id].content[..s.offset], s.count)
  {
    hide Kept, Solid, ScanLen, Records, WeakOk;
    var c := st.disk[MaxId(st.disk)].content;
    KeptBound(crc, c);
    KeptScan(crc, c);
    PrefixOfPrefix(c, ScanLen(crc, c), ScanLen(crc, c));
    SolidAfter(crc, st);
    EmptyScan(crc);
    assert c[..ScanLen(crc, c)][..ScanLen(crc, c)] == c[..ScanLen(crc, c)];
  }

  lemma EmptyScan(crc: Checksum)
    ensures ScanLen(crc, []) == 0 && Records(crc, []) == []
  {
  }

  lemma KeptScan(crc: Checksum, c: Bytes)
    ensures Kept(crc, c) <= ScanLen(crc, c) <= |c| && Kept(crc, c) <= Kept(crc, c[..ScanLen(crc, c)])
  {
    hide Kept;
    KeptBound(crc, c);
    CountedKept(crc, c);
    KeptMonotone(crc, c[..Kept(crc, c)], c[..ScanLen(crc, c)]);
  }

  /** Up to where the records end, and up to any weak place, the file is whole records. */
  lemma WeakWithin(crc: Checksum, c: Bytes, n: nat)
    requires WeakAt(crc, c, n)
    ensures n <= Kept(crc, c) && WeakAt(crc, c[..ScanLen(crc, c)], n)
  {
    hide Kept, ScanLen;
    KeptScan(crc, c);
    KeptPrefix(crc, c, n);
    WeakAtPrefix(crc, c, c[..ScanLen(crc, c)], ScanLen(crc, c), n);
  }

  lemma SolidAfter(crc: Checksum, st: State)
    requires st.disk != map[] && WeakOk(crc, st.disk, st.weak)
    ensures var id := MaxId(st.disk); var c := st.disk[id].content;
      ScanLen(crc, c) <= |c| && Solid(crc, WeakAfter(crc, st), id, c[..ScanLen(crc, c)], |Records(crc, c)| % TWO_32)
  {
    hide Kept, Counted, ScanLen, Records;
    var id := MaxId(st.disk);
    var c := st.disk[id].content;
    KeptBound(crc, c);
    KeptScan(crc, c);
    CountedKept(crc, c);
    WeakWithin(crc, c, Kept(crc, c));
    if id in st.weak { WeakWithin(crc, c, st.weak[id]); }
  }

  lemma WeakOkAfter(crc: Checksum, st: State)
    requires DiskOk(st.disk) && WeakOk(crc, st.disk, st.weak) && st.live == None && st.disk != map[]
    ensures WeakOk(crc, Recovered(crc, st.disk).0, WeakAfter(crc, st))
  {
    hide Kept, ScanLen, Recovered, Counted, WeakAt;
    RecoverCuts(crc, st);
    var id := MaxId(st.disk);
    var (d, s) := Recovered(crc, st.disk);
    assert d[id].content[..s.offset] == d[id].content;
  }

  lemma DurableWeaker(crc: Checksum, d: Disk, e: map<nat, nat>, f: map<nat, nat>, a: Ack)
    requires Durable(crc, d, e, a) && forall id :: id in e ==> id in f && f[id] <= e[id]
    ensures Durable(crc, d, f, a)
  {
    hide Kept;
  }

  lemma RecoverAck(crc: Checksum, max: int, st: State, a: Ack)
    requires Inv(crc, max, st) && st.live == None && st.disk != map[] && a in StillAcked(crc, st)
    ensures var (d, s) := Recovered(crc, st.disk);
      Placed(crc, d, a) && Durable(crc, d, WeakAfter(crc, st), a) && Frontier(s, a) && Room(max, a)
  {
    hide Enc, Kept, Solid, Recovered, ScanLen, Whole;
    var id := MaxId(st.disk);
    var f := st.disk[id];
    var (d, s) := Recovered(crc, st.disk);
    RecoverCuts(crc, st);
    if id in st.weak { WeakWithin(crc, f.content, st.weak[id]); }
    SurvivorsAre(st.acked, id, ScanLen(crc, f.content));
    if a.segment == id { KeptMonotone(crc, f.content[..f.durable], f.content); }
    PlacedBelow(crc, st.disk, d, id, s.offset, a);
    DurableBelow(crc, st.disk, d, id, s.offset, st.weak, a);
    DurableWeaker(crc, d, st.weak, WeakAfter(crc, st), a);
  }

  lemma RecoverStep(crc: Checksum, max: int, st: State)
    requires Inv(crc, max, st) && st.live == None
    ensures Inv(crc, max, Exec(crc, max, st, Recover))
  {
    hide Enc, Kept, Solid, Placed, Durable, WeakOk;
    if st.disk == map[] {
      EmptyIsSolid(crc);
      NothingOnDisk(crc, max, st);
    } else {
      hide Recovered;
      RecoverCuts(crc, st);
      var id := MaxId(st.disk);
      WeakOkAfter(crc, st);
      SurvivorsOrdered(st.acked, id, ScanLen(crc, st.disk[id].content));
      var (d, s) := Recovered(crc, st.disk);
      forall a | a in StillAcked(crc, st)
        ensures Placed(crc, d, a) && Durable(crc, d, WeakAfter(crc, st), a) && Frontier(s, a) && Room(max, a)
      {
        RecoverAck(crc, max, st, a);
      }
    }
  }

  lemma NothingOnDisk(crc: Checksum, max: int, st: State)
    requires Inv(crc, max, st) && st.disk == map[]
    ensures (forall a :: a !in st.acked) && st.weak == map[] && WeakOk(crc, map[0 := File([], 0)], map[])
  {
    assert st.weak.Keys == {};
  }

  lemma EmptyIsSolid(crc: Checksum)
    ensures Solid(crc, map[], 0, [], 0)
  {
    EmptyIsWhole(crc);
  }

  lemma CountedKept(crc: Checksum, d: Bytes)
    requires Kept(crc, d) <= |d|
    ensures var p := d[..Kept(crc, d)]; Whole(crc, p) && Counted(crc, p, |Records(crc, d)| % TWO_32)
  {
    hide Records, Kept;
    WholeKept(crc, d);
  }

  lemma KeptBound(crc: Checksum, d: Bytes)
    ensures Kept(crc, d) <= |d|
    ensures d == [] ==> Kept(crc, d) == 0
  {
    RecordsArePrefix(crc, d);
  }

  lemma StepKeepsInv(crc: Checksum, max: int, st: State, step: Step)
    requires Inv(crc, max, st) && CleanStep(st, step)
    ensures Inv(crc, max, Exec(crc, max, st, step))
  {
    hide Inv, Placed, Durable, Base;
    LiveOk(crc, max, st);
    match step
    case Append(_, _) => if st.live.Some? { AppendStep(crc, max, st, step); }
    case Batch(rs, ios, _) => if st.live.Some? && |rs| == |ios| { BatchStep(crc, max, st, step); }
    case Close(_, _) => if st.live.Some? { CloseStep(crc, max, st, step); }
    case Crash(_, _) => CrashStep(crc, max, st, step);
    case Recover => if st.live == None { RecoverStep(crc, max, st); }
  }

  lemma LiveOk(crc: Checksum, max: int, st: State)
    requires Inv(crc, max, st)
    ensures st.live.Some? ==> SessionOk(st.disk, st.live.value)
  {
  }

  /** `run` is a clean run from `st` to its last state, step by step. */
  ghost predicate CleanRun(crc: Checksum, max: int, st: State, steps: seq<Step>, end: State)
    decreases |steps|
  {
    if steps == [] then end == st else
    && CleanStep(st, steps[0])
    && CleanRun(crc, max, Exec(crc, max, st, steps[0]), steps[1..], end)
  }

  lemma {:induction false} RunKeepsInv(crc: Checksum, max: int, st: State, steps: seq<Step>, end: State)
    requires Inv(crc, max, st) && CleanRun(crc, max, st, steps, end)
    ensures Inv(crc, max, end)
    decreases |steps|
  {
    hide Inv, Exec, CleanStep;
    if steps != [] {
      StepKeepsInv(crc, max, st, steps[0]);
      RunKeepsInv(crc, max, Exec(crc, max, st, steps[0]), steps[1..], end);
    }
  }

  /**
   The promise of the segment log. Over every run of appends, batches, closes, crashes and recoveries
   with arbitrary I/O failures and any number of reopened files, every record that is still
   acknowledged reads back unchanged at its location, these locations never overlap and only grow,
   and only a segment's first record may exceed the size limit. SegmentLoss says which records a
   step cuts off.
   */
  lemma AcknowledgedRecordsSurvive(crc: Checksum, max: int, steps: seq<Step>, end: State, verify: bool)
    requires CleanRun(crc, max, FRESH, steps, end)
    ensures forall a :: a in end.acked ==>
      && a.segment in end.disk
      && ReadRecord(crc, end.disk[a.segment].content, a.offset, verify) == Some(a.rec)
      && Room(max, a)
    ensures Ordered(end.acked)
  {
    hide Enc, Exec, CleanStep;
    RunKeepsInv(crc, max, FRESH, steps, end);
    forall a | a in end.acked
      ensures a.segment in end.disk && ReadRecord(crc, end.disk[a.segment].content, a.offset, verify) == Some(a.rec)
    {
      ReadsBack(crc, end.disk[a.segment].content, a.offset, a.rec, verify);
    }
  }

  /** In every clean run, finalizing the active segment gives a file that rescans to its records. */
  lemma RunsFinalizeExactly(crc: Checksum, max: int, steps: seq<Step>, end: State)
    requires CleanRun(crc, max, FRESH, steps, end) && end.live.Some? && end.live.value.activeID !in end.weak
    requires 0 < end.live.value.offset < (OVERHEAD + 1) * MAGIC_ERR
    ensures var s := end.live.value;
      && SessionOk(end.disk, s)
      && var (e, ok) := Finalize(end.disk, s, Full, true);
      var c, n := e[s.activeID].content, s.offset + FOOTER_SIZE;
      var rs := Records(crc, end.disk[s.activeID].content[..s.offset]);
      && ok && Records(crc, c) == rs && ScanLen(crc, c) == n <= |c|
      && ValidateFooter(c[..n]) == Some((|rs|, s.offset))
  {
    hide Enc, Exec, CleanStep, Finalize, Records, ScanLen, ValidateFooter;
    RunKeepsInv(crc, max, FRESH, steps, end);
    FinalizedSegment(crc, end.disk, end.live.value, end.weak);
  }

  /** Acknowledged once, and relied on since or withdrawn. */
  predicate EverAcked(st: State, a: Ack) {
    a in st.acked || a in st.gone
  }

  lemma EverAckedStays(crc: Checksum, max: int, st: State, step: Step)
    ensures st.gone <= Exec(crc, max, st, step).gone
    ensures forall a :: EverAcked(st, a) ==> EverAcked(Exec(crc, max, st, step), a)
  {
    hide AppendLocked, BatchWrites, BatchAppend, Finalize, Crashed, Recovered, ScanLen, Kept;
    if step.Recover? && st.live == None && st.disk != map[] {
      SurvivorsAre(st.acked, MaxId(st.disk), ScanLen(crc, st.disk[MaxId(st.disk)].content));
    }
  }
}
