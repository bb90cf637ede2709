/**
 Which acknowledged records a recovery cuts off, read from the bytes of the file it reopens, step by
 step and over whole runs (openSegmentFile and scanValidTail in internal/storage/segment.go).
 */
module SegmentLoss {
  import opened Bytes
  import opened Record
  import opened Scan
  import opened SegmentLog
  import opened SegmentRuns

  /** The record is read back at its place, its checksum verified. */
  predicate Readable(crc: Checksum, st: State, a: Ack) {
    a.segment in st.disk && ReadRecord(crc, st.disk[a.segment].content, a.offset, true) == Some(a.rec)
  }

  /** The step reopens the record's segment and its scan stops before the record's end. */
  ghost predicate Cuts(crc: Checksum, st: State, step: Step, a: Ack) {
    && step.Recover? && st.live == None && a.segment in st.disk && a.segment == MaxId(st.disk)
    && a.End() > ScanLen(crc, st.disk[a.segment].content)
  }

  /** A record whose file ends before its own end is not read back. */
  lemma CutIsUnreadable(crc: Checksum, c: Bytes, n: nat, off: nat, r: Rec)
    requires Framed(r) && off + |Enc(crc, r)| <= |c| && c[off..off + |Enc(crc, r)|] == Enc(crc, r)
    requires n < off + |Enc(crc, r)|
    ensures ReadRecord(crc, c[..n], off, true) == None
  {
    hide GetU32, Enc;
    if off + HEADER_SIZE <= n {
      SliceOfPrefix(c, n, off + 4, off + 8);
      SliceOfSlice(c, off, off + |Enc(crc, r)|, 4, 8);
      EncLayout(crc, r, []);
      assert Enc(crc, r) + [] == Enc(crc, r);
    }
  }

  lemma AckedReads(crc: Checksum, max: int, st: State, a: Ack)
    requires Inv(crc, max, st) && a in st.acked
    ensures Readable(crc, st, a)
  {
    hide Enc, Durable, Base, WeakOk, Ordered;
    ReadsBack(crc, st.disk[a.segment].content, a.offset, a.rec, true);
  }

  lemma StillAckedIff(crc: Checksum, max: int, st: State, step: Step, a: Ack)
    requires a in st.acked && a.segment in st.disk
    ensures a in Exec(crc, max, st, step).acked <==> !Cuts(crc, st, step, a)
  {
    hide AppendLocked, BatchWrites, BatchAppend, Finalize, Crashed, Recovered, ScanLen, Kept;
    if step.Recover? && st.live == None {
      SurvivorsAre(st.acked, MaxId(st.disk), ScanLen(crc, st.disk[MaxId(st.disk)].content));
    }
  }

  lemma CutFile(crc: Checksum, max: int, st: State, step: Step, a: Ack)
    requires Inv(crc, max, st) && a in st.acked && Cuts(crc, st, step, a)
    ensures var u := Exec(crc, max, st, step); var c := st.disk[a.segment].content;
      a.segment in u.disk && ScanLen(crc, c) <= |c| && u.disk[a.segment].content == c[..ScanLen(crc, c)]
  {
    hide Enc, Kept, Solid, Recovered, WeakOk, Ordered, ScanLen, Placed, Durable;
    RecoverCuts(crc, st);
    var (d, s) := Recovered(crc, st.disk);
    assert d[a.segment].content[..s.offset] == d[a.segment].content;
  }

  /**
   In every state a run reaches and for every step: an acknowledged record is unreadable after the step
   exactly when the step is a recovery that reopens its segment and its scan stops before the
   record's end. No append, rotation, failed I/O, close or crash makes one unreadable, nor does a
   recovery in any other segment.
   */
  lemma UnreadableIffCut(crc: Checksum, max: int, st: State, step: Step, a: Ack)
    requires Inv(crc, max, st) && CleanStep(st, step) && a in st.acked
    ensures Readable(crc, Exec(crc, max, st, step), a) <==> !Cuts(crc, st, step, a)
    ensures a in Exec(crc, max, st, step).acked <==> Readable(crc, Exec(crc, max, st, step), a)
  {
    hide Exec, Enc, Readable, Cuts, Inv, Durable, WeakOk;
    AckPlaced(crc, max, st, a);
    StepKeepsInv(crc, max, st, step);
    StillAckedIff(crc, max, st, step, a);
    if Cuts(crc, st, step, a) {
      CutReads(crc, max, st, step, a);
    } else {
      AckedReads(crc, max, Exec(crc, max, st, step), a);
    }
  }

  lemma CutReads(crc: Checksum, max: int, st: State, step: Step, a: Ack)
    requires Inv(crc, max, st) && a in st.acked && Cuts(crc, st, step, a)
    ensures !Readable(crc, Exec(crc, max, st, step), a)
  {
    hide Exec, Enc, ReadRecord, ScanLen, Inv, Durable, WeakOk;
    AckPlaced(crc, max, st, a);
    CutFile(crc, max, st, step, a);
    var c := st.disk[a.segment].content;
    CutIsUnreadable(crc, c, ScanLen(crc, c), a.offset, a.rec);
  }

  lemma AckPlaced(crc: Checksum, max: int, st: State, a: Ack)
    requires Inv(crc, max, st) && a in st.acked
    ensures Placed(crc, st.disk, a) && Durable(crc, st.disk, st.weak, a) && WeakOk(crc, st.disk, st.weak) && DiskOk(st.disk)
  {
    hide Enc, Kept, Ordered, Base, Whole;
  }

  // ---- where the scan stops ----

  /** A scan over whole records goes on as a scan of what lies behind them. */
  lemma ScanSplits(crc: Checksum, c: Bytes, n: nat)
    requires WeakAt(crc, c, n)
    ensures Kept(crc, c) == n + Kept(crc, c[n..]) && ScanLen(crc, c) == n + ScanLen(crc, c[n..])
    ensures Records(crc, c) == Records(crc, c[..n]) + Records(crc, c[n..])
  {
    hide Records, Serial, FooterLen;
    var rs := Records(crc, c[..n]);
    WholeIsSerial(crc, c[..n]);
    RecordsAreMaximal(crc, rs, c);
    SerialConcat(crc, rs, Records(crc, c[n..]));
    KeptBound(crc, c[n..]);
    assert c[n..][Kept(crc, c[n..])..] == c[Kept(crc, c)..];
  }

  /**
   Behind a weak place: a record there is cut exactly when the scan of the bytes from that place on
   stops before its end. If these bytes do not begin with a valid record, that is every
   record but one that a footer lookalike happens to cover, so every record ending more than 32
   bytes behind the place; records before it are never cut.
   */
  lemma CutBehindWeakPlace(crc: Checksum, max: int, st: State, a: Ack)
    requires Inv(crc, max, st) && st.live == None && a in st.acked && a.segment in st.weak && a.segment == MaxId(st.disk)
    ensures var n := st.weak[a.segment];
      && n <= |st.disk[a.segment].content|
      && var rest := st.disk[a.segment].content[n..];
      && (Cuts(crc, st, Recover, a) <==> a.End() > n + ScanLen(crc, rest))
      && (a.End() <= n ==> !Cuts(crc, st, Recover, a))
      && (Head(crc, rest) == None ==> (Cuts(crc, st, Recover, a) <==> a.End() > n + FooterLen(rest)))
      && (Head(crc, rest) == None && a.End() > n + FOOTER_SIZE ==> Cuts(crc, st, Recover, a))
  {
    hide Enc, ScanLen, Kept, Head, FooterLen, LooksLikeFooter, Inv, Whole;
    AckPlaced(crc, max, st, a);
    var c := st.disk[a.segment].content;
    var n := st.weak[a.segment];
    ScanSplits(crc, c, n);
    if Head(crc, c[n..]) == None { NoRecordScan(crc, c[n..]); }
  }

  lemma NoRecordScan(crc: Checksum, rest: Bytes)
    requires Head(crc, rest) == None
    ensures ScanLen(crc, rest) == FooterLen(rest) <= FOOTER_SIZE
  {
    hide Head, LooksLikeFooter;
    assert Records(crc, rest) == [] && Kept(crc, rest) == 0;
    assert rest[0..] == rest;
  }

  /** Without a weak place in its segment a record is never cut. */
  lemma OnlyWeakSegmentsLose(crc: Checksum, max: int, st: State, step: Step, a: Ack)
    requires Inv(crc, max, st) && a in st.acked && Cuts(crc, st, step, a)
    ensures a.segment in st.weak && a.End() > st.weak[a.segment]
  {
    hide Enc, Kept, Inv, Whole, ScanLen;
    AckPlaced(crc, max, st, a);
    var f := st.disk[a.segment];
    KeptScan(crc, f.content);
    KeptMonotone(crc, f.content[..f.durable], f.content);
  }

  /** A segment gets a weak place only by an empty payload written there or a footer accepted there. */
  lemma WeakOnlyByEmptyOrFooter(crc: Checksum, max: int, st: State, step: Step, id: nat)
    requires id !in st.weak && id in Exec(crc, max, st, step).weak
    ensures match step
      case Append(r, _) => r.payload == []
      case Batch(rs, _, _) => exists r :: r in rs && r.payload == []
      case Recover => st.disk != map[] && id == MaxId(st.disk) && ScanLen(crc, st.disk[id].content) != Kept(crc, st.disk[id].content)
        && Exec(crc, max, st, step).weak[id] == Kept(crc, st.disk[id].content)
      case _ => false
  {
    hide AppendLocked, BatchWrites, BatchAppend, Finalize, Crashed, Recovered, ScanLen, Kept;
    if step.Batch? && Running(st) && |step.recs| == |step.ios| {
      TaintedByEmpty(st.weak, BatchWrites(crc, max, st.disk, st.live.value, Encs(crc, step.recs), step.ios).locs, step.recs, id);
    }
  }

  lemma {:induction false} TaintedByEmpty(weak: map<nat, nat>, locs: seq<Option<Location>>, rs: seq<Rec>, id: nat)
    requires |locs| == |rs| && id !in weak
    ensures id in TaintedBy(weak, locs, rs) ==> exists r :: r in rs && r.payload == []
  {
    if rs != [] {
      var n := |rs| - 1;
      TaintedByEmpty(weak, locs[..n], rs[..n], id);
      assert rs == rs[..n] + [rs[n]];
    }
  }

  // ---- whole runs ----

  ghost function After(crc: Checksum, max: int, st: State, steps: seq<Step>): State {
    if steps == [] then st else Exec(crc, max, After(crc, max, st, steps[..|steps| - 1]), steps[|steps| - 1])
  }

  /** The state before step `i`. */
  ghost function At(crc: Checksum, max: int, st: State, steps: seq<Step>, i: nat): State
    requires i <= |steps|
  {
    After(crc, max, st, steps[..i])
  }

  ghost predicate AllClean(crc: Checksum, max: int, st: State, steps: seq<Step>) {
    forall i: nat :: i < |steps| ==> CleanStep(At(crc, max, st, steps, i), steps[i])
  }

  lemma AtNext(crc: Checksum, max: int, st: State, steps: seq<Step>, i: nat)
    requires i < |steps|
    ensures At(crc, max, st, steps, i + 1) == Exec(crc, max, At(crc, max, st, steps, i), steps[i])
  {
    hide Exec;
    assert steps[..i + 1][..i] == steps[..i] && steps[..i + 1][i] == steps[i];
  }

  lemma {:induction false} AtInv(crc: Checksum, max: int, st: State, steps: seq<Step>, i: nat)
    requires Inv(crc, max, st) && AllClean(crc, max, st, steps) && i <= |steps|
    ensures Inv(crc, max, At(crc, max, st, steps, i))
  {
    hide Exec, Inv, CleanStep, At;
    if i == 0 {
      AtStart(crc, max, st, steps);
    } else {
      AtInv(crc, max, st, steps, i - 1);
      AtNext(crc, max, st, steps, i - 1);
      StepKeepsInv(crc, max, At(crc, max, st, steps, i - 1), steps[i - 1]);
    }
  }

  lemma AtStart(crc: Checksum, max: int, st: State, steps: seq<Step>)
    ensures At(crc, max, st, steps, 0) == st
  {
    assert steps[..0] == [];
  }

  ghost predicate ReadableAt(crc: Checksum, max: int, st: State, steps: seq<Step>, a: Ack, i: nat)
    requires i <= |steps|
  {
    Readable(crc, At(crc, max, st, steps, i), a)
  }

  ghost predicate CutAt(crc: Checksum, max: int, st: State, steps: seq<Step>, a: Ack, i: nat)
    requires i < |steps|
  {
    Cuts(crc, At(crc, max, st, steps, i), steps[i], a)
  }

  /** As long as nothing cut it, the record is acknowledged and read back. */
  lemma {:induction false} UncutIsAcked(crc: Checksum, max: int, st: State, steps: seq<Step>, a: Ack, n: nat)
    requires Inv(crc, max, st) && AllClean(crc, max, st, steps) && a in st.acked && n <= |steps|
    requires forall i: nat :: i < n ==> !CutAt(crc, max, st, steps, a, i)
    ensures a in At(crc, max, st, steps, n).acked && ReadableAt(crc, max, st, steps, a, n)
  {
    hide Exec, Inv, CleanStep, At, Cuts, Readable;
    AtInv(crc, max, st, steps, n);
    if n == 0 {
      AtStart(crc, max, st, steps);
    } else {
      UncutIsAcked(crc, max, st, steps, a, n - 1);
      AtInv(crc, max, st, steps, n - 1);
      AtNext(crc, max, st, steps, n - 1);
      assert !CutAt(crc, max, st, steps, a, n - 1);
      UnreadableIffCut(crc, max, At(crc, max, st, steps, n - 1), steps[n - 1], a);
    }
    AckedReads(crc, max, At(crc, max, st, steps, n), a);
  }

  /**
   Over every run: an acknowledged record is readable throughout exactly when no recovery of its
   segment stops its scan before the record's end.
   */
  lemma ReadableThroughoutIff(crc: Checksum, max: int, st: State, steps: seq<Step>, a: Ack)
    requires Inv(crc, max, st) && AllClean(crc, max, st, steps) && a in st.acked
    ensures (forall i: nat :: i <= |steps| ==> ReadableAt(crc, max, st, steps, a, i)) <==>
      (forall i: nat :: i < |steps| ==> !CutAt(crc, max, st, steps, a, i))
  {
    hide Inv, CleanStep, At, Cuts, Readable, ReadableAt, CutAt, AllClean;
    if forall i: nat :: i < |steps| ==> !CutAt(crc, max, st, steps, a, i) {
      forall i: nat | i <= |steps| ensures ReadableAt(crc, max, st, steps, a, i) { UncutIsAcked(crc, max, st, steps, a, i); }
    } else {
      FirstCut(crc, max, st, steps, a);
    }
  }

  lemma FirstCut(crc: Checksum, max: int, st: State, steps: seq<Step>, a: Ack)
    requires Inv(crc, max, st) && AllClean(crc, max, st, steps) && a in st.acked
    requires exists i: nat :: i < |steps| && CutAt(crc, max, st, steps, a, i)
    ensures exists i: nat :: i <= |steps| && !ReadableAt(crc, max, st, steps, a, i)
  {
    hide Inv, CleanStep, At, Cuts, Readable, Exec;
    var i: nat :| i < |steps| && CutAt(crc, max, st, steps, a, i);
    var k := LeastCut(crc, max, st, steps, a, i);
    UncutIsAcked(crc, max, st, steps, a, k);
    AtInv(crc, max, st, steps, k);
    AtNext(crc, max, st, steps, k);
    UnreadableIffCut(crc, max, At(crc, max, st, steps, k), steps[k], a);
    assert !ReadableAt(crc, max, st, steps, a, k + 1);
  }

  lemma {:induction false} LeastCut(crc: Checksum, max: int, st: State, steps: seq<Step>, a: Ack, i: nat) returns (k: nat)
    requires i < |steps| && CutAt(crc, max, st, steps, a, i)
    ensures k < |steps| && CutAt(crc, max, st, steps, a, k) && forall j: nat :: j < k ==> !CutAt(crc, max, st, steps, a, j)
  {
    hide CutAt;
    k := i;
    if j: nat :| j < i && CutAt(crc, max, st, steps, a, j) { k := LeastCut(crc, max, st, steps, a, j); }
  }
}
