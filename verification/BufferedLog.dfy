/**
 The write buffer over the segment log: the flushes of the one are the batches of the other
 (internal/storage/write_buffer.go, internal/storage/segment.go).
 */
module BufferedLog {
  import opened Bytes
  import opened Record
  import opened SegmentLog
  import Runs = SegmentRuns
  import Acks = SegmentAcks
  import WB = WriteBuffer

  /** `recs` holds the record of each Append call; `told` the location each successful one returned. */
  datatype Service = Service(buf: WB.Buffer, log: Runs.State, recs: map<nat, Rec>, told: map<nat, Location>)

  datatype Step =
    | Arrive(id: nat, rec: Rec)
    | Cut
    | Flush(batch: nat, ios: seq<Io>, sync: bool)
    | Panic(batch: nat, ios: seq<Io>, errs: seq<bool>)

  function Start(log: Runs.State): Service {
    Service(WB.FRESH, log, map[], map[])
  }

  function RecsOf(recs: map<nat, Rec>, ws: seq<WB.Write>): (rs: seq<Rec>)
    ensures |rs| == |ws|
  {
    seq(|ws|, i requires 0 <= i < |ws| => if ws[i].id in recs then recs[ws[i].id] else Rec(0, []))
  }

  /** The locations batchAppend puts on the pending writes. */
  function Locs(crc: Checksum, max: int, log: Runs.State, rs: seq<Rec>, ios: seq<Io>, sync: bool): (locs: seq<Option<Location>>)
    requires |ios| == |rs|
    ensures |locs| == |rs|
  {
    if !Runs.Running(log) then seq(|rs|, _ => None) else
    BatchAppend(crc, max, log.disk, log.live.value, Runs.Encs(crc, rs), ios, sync).locs
  }

  /** The error flags batchAppend puts there. */
  function Errs(locs: seq<Option<Location>>): (errs: seq<bool>)
    ensures |errs| == |locs|
  {
    seq(|locs|, i requires 0 <= i < |locs| => locs[i] == None)
  }

  /** What the callers of a batch get back. */
  function Hand(told: map<nat, Location>, ws: seq<WB.Write>, locs: seq<Option<Location>>): map<nat, Location>
    requires |locs| == |ws|
  {
    if ws == [] then told else
    var n := |ws| - 1;
    var before := Hand(told, ws[..n], locs[..n]);
    if locs[n].Some? then before[ws[n].id := locs[n].value] else before
  }

  predicate Open(b: WB.Buffer, k: nat) {
    k < |b.batches| && b.batches[k].result == None
  }

  /** A panic leaves the writes made so far, without their fsync. */
  ghost function Exec(crc: Checksum, max: int, s: Service, step: Step): Service {
    match step
    case Arrive(id, rec) =>
      if id in s.recs then s else
      s.(buf := WB.Exec(s.buf, WB.Arrive(WB.Write(id, |Enc(crc, rec)|))), recs := s.recs[id := rec])
    case Cut => s.(buf := WB.Exec(s.buf, WB.Cut))
    case Flush(k, ios, sync) =>
      if !Open(s.buf, k) || |ios| != |s.buf.batches[k].writes| then s else
      var ws := s.buf.batches[k].writes;
      var rs := RecsOf(s.recs, ws);
      var locs := Locs(crc, max, s.log, rs, ios, sync);
      s.(buf := WB.Exec(s.buf, WB.Complete(k, Errs(locs), false)),
         log := Runs.Exec(crc, max, s.log, Runs.Batch(rs, ios, sync)),
         told := Hand(s.told, ws, locs))
    case Panic(k, ios, errs) =>
      if !Open(s.buf, k) || |ios| > |s.buf.batches[k].writes| || |errs| != |s.buf.batches[k].writes| then s else
      var ws := s.buf.batches[k].writes;
      s.(buf := WB.Exec(s.buf, WB.Complete(k, errs, true)),
         log := Runs.Exec(crc, max, s.log, Runs.Batch(RecsOf(s.recs, ws)[..|ios|], ios, false)))
  }

  ghost function Run(crc: Checksum, max: int, s: Service, steps: seq<Step>): Service {
    if steps == [] then s else Exec(crc, max, Run(crc, max, s, steps[..|steps| - 1]), steps[|steps| - 1])
  }

  // ---- what a waiter is told about a flush ----

  predicate Distinct(ws: seq<WB.Write>) {
    forall i, j :: 0 <= i < j < |ws| ==> ws[i].id != ws[j].id
  }

  lemma {:induction false} IdsDistinct(ws: seq<WB.Write>)
    requires forall id :: WB.Ids(ws)[id] <= 1
    ensures Distinct(ws)
  {
    if ws != [] {
      var n := |ws| - 1;
      assert forall id :: WB.Ids(ws[..n])[id] <= WB.Ids(ws)[id];
      IdsDistinct(ws[..n]);
      forall i | 0 <= i < n ensures ws[i].id != ws[n].id { WB.InIds(ws[..n], i); }
    }
  }

  lemma {:induction false} HandAre(told: map<nat, Location>, ws: seq<WB.Write>, locs: seq<Option<Location>>, id: nat)
    requires |locs| == |ws| && Distinct(ws)
    ensures var h := Hand(told, ws, locs);
      && (forall i :: 0 <= i < |ws| && ws[i].id == id && locs[i].Some? ==> id in h && h[id] == locs[i].value)
      && ((forall i :: 0 <= i < |ws| && ws[i].id == id ==> locs[i] == None) ==> (id in h <==> id in told) && (id in told ==> h[id] == told[id]))
  {
    if ws != [] {
      var n := |ws| - 1;
      HandAre(told, ws[..n], locs[..n], id);
    }
  }

  lemma {:induction false} AckedAt(locs: seq<Option<Location>>, rs: seq<Rec>, i: nat)
    requires |locs| == |rs| && i < |rs| && locs[i].Some?
    ensures Runs.Ack(locs[i].value.segment, locs[i].value.offset, rs[i]) in Runs.Acks(locs, rs)
  {
    if i < |rs| - 1 { AckedAt(locs[..|rs| - 1], rs[..|rs| - 1], i); }
  }

  // ---- the joint invariant ----

  /** The caller got this answer. */
  predicate Told(s: Service, id: nat, ok: bool) {
    WB.Answer(id, ok) in s.buf.answers
  }

  /** The location returned for `id` is that of an acknowledged record, the caller's own. */
  ghost predicate Backed(s: Service, id: nat) {
    id in s.told && id in s.recs && Runs.Ack(s.told[id].segment, s.told[id].offset, s.recs[id]) in s.log.acked
  }

  ghost predicate Known(s: Service) {
    forall id :: (id in WB.Ids(s.buf.arrivals) ==> id in s.recs) && WB.Ids(s.buf.arrivals)[id] <= 1
  }

  ghost predicate Inv(crc: Checksum, max: int, s: Service) {
    && Runs.Inv(crc, max, s.log) && WB.Inv(s.buf) && Known(s)
    && (forall id :: id in s.recs ==> Framed(s.recs[id]))
    && (forall id :: Told(s, id, true) <==> id in s.told)
    && (forall id :: Told(s, id, false) ==> id !in s.told)
    && (forall id :: id in s.told ==> Backed(s, id))
  }

  lemma {:induction false} AnsweredMember(as': seq<WB.Answer>, a: WB.Answer)
    requires a in as'
    ensures a.id in WB.AnsweredIds(as')
  {
    var n := |as'| - 1;
    if a != as'[n] { AnsweredMember(as'[..n], a); }
  }

  /** The writes of a batch still out are distinct, known and not yet answered. */
  lemma OpenBatch(s: Service, k: nat)
    requires WB.Inv(s.buf) && Known(s) && Open(s.buf, k)
    ensures var ws := s.buf.batches[k].writes;
      && Distinct(ws)
      && (forall i :: 0 <= i < |ws| ==> ws[i].id in s.recs)
      && (forall i, ok :: 0 <= i < |ws| ==> !Told(s, ws[i].id, ok))
  {
    hide WB.Ids, WB.AnsweredIds, WB.Settled, WB.Flatten;
    var bs, ws := s.buf.batches, s.buf.batches[k].writes;
    var r := WB.Outcome([], false);
    WB.SetAnswered(bs, k, r);
    WB.SettledIsPart(bs[k := bs[k].(result := Some(r))]);
    WB.IdsConcat(WB.Flatten(bs), s.buf.pending);
    var all := WB.Ids(s.buf.arrivals);
    assert WB.AnsweredIds(s.buf.answers) + WB.Ids(ws) <= WB.Ids(WB.Flatten(bs)) <= all;
    forall id ensures WB.AnsweredIds(s.buf.answers)[id] + WB.Ids(ws)[id] <= all[id] <= 1 {
      assert (WB.AnsweredIds(s.buf.answers) + WB.Ids(ws))[id] <= all[id];
    }
    IdsDistinct(ws);
    forall i | 0 <= i < |ws| ensures ws[i].id in s.recs && ws[i].id in WB.Ids(ws) {
      WB.InIds(ws, i);
    }
    forall i, ok | 0 <= i < |ws| ensures !Told(s, ws[i].id, ok) {
      if Told(s, ws[i].id, ok) { AnsweredMember(s.buf.answers, WB.Answer(ws[i].id, ok)); }
    }
  }

  lemma NewAnswers(b: WB.Buffer, k: nat, errs: seq<bool>, panicked: bool, a: WB.Answer)
    requires Open(b, k) && |errs| == |b.batches[k].writes|
    ensures var c := WB.Exec(b, WB.Complete(k, errs, panicked)); var ws := b.batches[k].writes;
      && (a in c.answers <==> a in b.answers || exists i :: 0 <= i < |ws| && a == WB.Answer(ws[i].id, !errs[i] && !panicked))
      && c.arrivals == b.arrivals
  {
    var ws, more := b.batches[k].writes, WB.Answers(b.batches[k].writes, errs, panicked);
    if i :| 0 <= i < |ws| && a == WB.Answer(ws[i].id, !errs[i] && !panicked) { assert more[i] == a; }
  }

  lemma BatchGrows(crc: Checksum, max: int, log: Runs.State, rs: seq<Rec>, ios: seq<Io>, sync: bool)
    requires Runs.Inv(crc, max, log) && |ios| == |rs| && forall r :: r in rs ==> Framed(r)
    ensures var log1 := Runs.Exec(crc, max, log, Runs.Batch(rs, ios, sync)); var locs := Locs(crc, max, log, rs, ios, sync);
      && Runs.Inv(crc, max, log1)
      && log1.acked == log.acked + (if Runs.Running(log) then Runs.Acks(locs, rs) else [])
      && (!Runs.Running(log) ==> forall i :: 0 <= i < |rs| ==> locs[i] == None)
  {
    hide Runs.Inv, Runs.Exec, Locs, Runs.Acks, Runs.Running, Framed;
    BatchIs(crc, max, log, rs, ios, sync);
    Runs.StepKeepsInv(crc, max, log, Runs.Batch(rs, ios, sync));
  }

  lemma BatchIs(crc: Checksum, max: int, log: Runs.State, rs: seq<Rec>, ios: seq<Io>, sync: bool)
    requires |ios| == |rs|
    ensures var log1 := Runs.Exec(crc, max, log, Runs.Batch(rs, ios, sync)); var locs := Locs(crc, max, log, rs, ios, sync);
      && log1.acked == log.acked + (if Runs.Running(log) then Runs.Acks(locs, rs) else [])
      && (!Runs.Running(log) ==> forall i :: 0 <= i < |rs| ==> locs[i] == None)
  {
    hide BatchWrites, BatchAppend, AppendLocked, Finalize, Runs.Acks, Runs.TaintedBy, Runs.Encs, Runs.RecoverFrom, Runs.Crashed, SessionOk;
  }

  lemma RecsFramed(recs: map<nat, Rec>, ws: seq<WB.Write>)
    requires forall id :: id in recs ==> Framed(recs[id])
    requires forall i :: 0 <= i < |ws| ==> ws[i].id in recs
    ensures forall r :: r in RecsOf(recs, ws) ==> Framed(r)
    ensures forall i :: 0 <= i < |ws| ==> RecsOf(recs, ws)[i] == recs[ws[i].id]
  {
    hide Framed;
  }

  lemma FlushKeeps(crc: Checksum, max: int, s: Service, k: nat, ios: seq<Io>, sync: bool)
    requires Inv(crc, max, s) && Open(s.buf, k) && |ios| == |s.buf.batches[k].writes|
    ensures Inv(crc, max, Exec(crc, max, s, Flush(k, ios, sync)))
  {
    hide Runs.Inv, WB.Inv, Locs, Runs.Exec, Hand, Errs, Framed, WB.Exec, RecsOf, Runs.Acks, Distinct, Known;
    var ws := s.buf.batches[k].writes;
    var rs := RecsOf(s.recs, ws);
    var locs := Locs(crc, max, s.log, rs, ios, sync);
    var u := Exec(crc, max, s, Flush(k, ios, sync));
    OpenBatch(s, k);
    RecsFramed(s.recs, ws);
    BatchGrows(crc, max, s.log, rs, ios, sync);
    WB.StepKeepsInv(s.buf, WB.Complete(k, Errs(locs), false));
    StaysKnown(s, u, k, Errs(locs));
    forall id ensures (Told(u, id, true) <==> id in u.told) && (Told(u, id, false) ==> id !in u.told) && (id in u.told ==> Backed(u, id)) {
      FlushTells(crc, max, s, k, ios, sync, id);
    }
  }

  lemma StaysKnown(s: Service, u: Service, k: nat, errs: seq<bool>)
    requires Known(s) && Open(s.buf, k) && |errs| == |s.buf.batches[k].writes| && u.recs == s.recs
    requires u.buf == WB.Exec(s.buf, WB.Complete(k, errs, false)) || u.buf == WB.Exec(s.buf, WB.Complete(k, errs, true))
    ensures Known(u)
  {
    hide WB.Ids;
  }

  /** One id before and after a flush. */
  lemma FlushTells(crc: Checksum, max: int, s: Service, k: nat, ios: seq<Io>, sync: bool, id: nat)
    requires Inv(crc, max, s) && Open(s.buf, k) && |ios| == |s.buf.batches[k].writes|
    ensures var u := Exec(crc, max, s, Flush(k, ios, sync));
      (Told(u, id, true) <==> id in u.told) && (Told(u, id, false) ==> id !in u.told) && (id in u.told ==> Backed(u, id))
  {
    hide Runs.Inv, WB.Inv, Locs, Runs.Exec, Hand, Framed, WB.Exec, RecsOf, Runs.Acks, Known;
    var ws := s.buf.batches[k].writes;
    var rs := RecsOf(s.recs, ws);
    var locs := Locs(crc, max, s.log, rs, ios, sync);
    var errs := Errs(locs);
    OpenBatch(s, k);
    RecsFramed(s.recs, ws);
    BatchGrows(crc, max, s.log, rs, ios, sync);
    NewAnswers(s.buf, k, errs, false, WB.Answer(id, true));
    NewAnswers(s.buf, k, errs, false, WB.Answer(id, false));
    HandAre(s.told, ws, locs, id);
    if i :| 0 <= i < |ws| && ws[i].id == id {
      assert forall j :: 0 <= j < |ws| && ws[j].id == id ==> j == i;
      assert !Told(s, id, true) && !Told(s, id, false);
      if locs[i].Some? { AckedAt(locs, rs, i); }
    }
  }

  lemma PanicKeeps(crc: Checksum, max: int, s: Service, k: nat, ios: seq<Io>, errs: seq<bool>)
    requires Inv(crc, max, s) && Open(s.buf, k) && |ios| <= |s.buf.batches[k].writes| == |errs|
    ensures Inv(crc, max, Exec(crc, max, s, Panic(k, ios, errs)))
  {
    hide Runs.Inv, WB.Inv, Runs.Exec, Framed, WB.Exec, RecsOf, Runs.Acks, Distinct, Known, Locs;
    var ws := s.buf.batches[k].writes;
    var rs := RecsOf(s.recs, ws);
    var u := Exec(crc, max, s, Panic(k, ios, errs));
    OpenBatch(s, k);
    RecsFramed(s.recs, ws);
    BatchGrows(crc, max, s.log, rs[..|ios|], ios, false);
    WB.StepKeepsInv(s.buf, WB.Complete(k, errs, true));
    StaysKnown(s, u, k, errs);
    forall id ensures Told(u, id, true) == Told(s, id, true) && (Told(u, id, false) ==> id !in s.told) {
      NewAnswers(s.buf, k, errs, true, WB.Answer(id, true));
      NewAnswers(s.buf, k, errs, true, WB.Answer(id, false));
    }
  }

  lemma ArriveKeeps(crc: Checksum, max: int, s: Service, id: nat, rec: Rec)
    requires Inv(crc, max, s) && Framed(rec)
    ensures Inv(crc, max, Exec(crc, max, s, Arrive(id, rec)))
  {
    hide Runs.Inv, WB.Inv, Framed, WB.Ids, Enc;
    var w := WB.Write(id, |Enc(crc, rec)|);
    WB.StepKeepsInv(s.buf, WB.Arrive(w));
    WB.IdsSnoc(s.buf.arrivals, w);
  }

  lemma CutKeeps(crc: Checksum, max: int, s: Service)
    requires Inv(crc, max, s)
    ensures Inv(crc, max, Exec(crc, max, s, Cut))
  {
    hide Runs.Inv, WB.Inv;
    WB.StepKeepsInv(s.buf, WB.Cut);
  }

  predicate Clean(step: Step) {
    step.Arrive? ==> Framed(step.rec)
  }

  lemma StepKeepsInv(crc: Checksum, max: int, s: Service, step: Step)
    requires Inv(crc, max, s) && Clean(step)
    ensures Inv(crc, max, Exec(crc, max, s, step))
  {
    hide Inv;
    match step
    case Arrive(id, rec) => ArriveKeeps(crc, max, s, id, rec);
    case Cut => CutKeeps(crc, max, s);
    case Flush(k, ios, sync) =>
      if Open(s.buf, k) && |ios| == |s.buf.batches[k].writes| { FlushKeeps(crc, max, s, k, ios, sync); }
    case Panic(k, ios, errs) =>
      if Open(s.buf, k) && |ios| <= |s.buf.batches[k].writes| == |errs| { PanicKeeps(crc, max, s, k, ios, errs); }
  }

  lemma {:induction false} RunKeepsInv(crc: Checksum, max: int, s: Service, steps: seq<Step>)
    requires Inv(crc, max, s) && forall i :: 0 <= i < |steps| ==> Clean(steps[i])
    ensures Inv(crc, max, Run(crc, max, s, steps))
  {
    hide Exec, Inv, Clean;
    if steps != [] {
      RunKeepsInv(crc, max, s, steps[..|steps| - 1]);
      StepKeepsInv(crc, max, Run(crc, max, s, steps[..|steps| - 1]), steps[|steps| - 1]);
    }
  }

  lemma StartOk(crc: Checksum, max: int, log: Runs.State)
    requires Runs.Inv(crc, max, log)
    ensures Inv(crc, max, Start(log))
  {
    hide Runs.Inv;
  }

  /**
   In every interleaving of appends, flushes, failing and torn I/O and panics, on a log with any history: a caller is told
   "durable" exactly if it got a location, and then the log has acknowledged that caller's record there
   and a read returns it; a caller that was told of an error got none.
   */
  lemma ToldDurableIsDurable(crc: Checksum, max: int, log: Runs.State, steps: seq<Step>, id: nat, verify: bool)
    requires Runs.Inv(crc, max, log) && forall i :: 0 <= i < |steps| ==> Clean(steps[i])
    ensures var s := Run(crc, max, Start(log), steps);
      && (Told(s, id, true) <==> id in s.told) && !(Told(s, id, true) && Told(s, id, false))
      && (id in s.told ==>
          && Backed(s, id) && s.told[id].segment in s.log.disk
          && ReadRecord(crc, s.log.disk[s.told[id].segment].content, s.told[id].offset, verify) == Some(s.recs[id]))
  {
    hide Run, Clean, Inv, Runs.Inv, ReadRecord;
    StartOk(crc, max, log);
    RunKeepsInv(crc, max, Start(log), steps);
    var s := Run(crc, max, Start(log), steps);
    TellsTruth(crc, max, s, id);
    if id in s.told { AckReads(crc, max, s.log, Runs.Ack(s.told[id].segment, s.told[id].offset, s.recs[id]), verify); }
  }

  lemma TellsTruth(crc: Checksum, max: int, s: Service, id: nat)
    requires Inv(crc, max, s)
    ensures Runs.Inv(crc, max, s.log) && (Told(s, id, true) <==> id in s.told) && !(Told(s, id, true) && Told(s, id, false))
    ensures id in s.told ==> Backed(s, id)
  {
    hide Runs.Inv, WB.Inv, Known;
  }

  lemma AckReads(crc: Checksum, max: int, log: Runs.State, a: Runs.Ack, verify: bool)
    requires Runs.Inv(crc, max, log) && a in log.acked
    ensures a.segment in log.disk && ReadRecord(crc, log.disk[a.segment].content, a.offset, verify) == Some(a.rec)
  {
    hide Runs.Durable, Runs.Base, Runs.Ordered, Runs.WeakOk, Enc, ReadRecord;
    assert Runs.Placed(crc, log.disk, a);
    ReadsBack(crc, log.disk[a.segment].content, a.offset, a.rec, verify);
  }

  /**
   A flush tells each waiter of its batch "durable" if and only if that record's own rotation, open and write succeed and
   so does the one fsync, and hands it the write position reached just before; every other waiter of the batch
   is told of an error.
   */
  lemma FlushTellsIff(crc: Checksum, max: int, s: Service, k: nat, ios: seq<Io>, sync: bool, i: nat)
    requires Inv(crc, max, s) && Runs.Running(s.log) && Open(s.buf, k) && |ios| == |s.buf.batches[k].writes| && i < |ios|
    ensures var u := Exec(crc, max, s, Flush(k, ios, sync)); var ws := s.buf.batches[k].writes;
      var bs := Runs.Encs(crc, RecsOf(s.recs, ws)); var live := s.log.live.value;
      var well := Acks.GetsThrough(max, live, bs, ios, i) && sync && Acks.PositionBefore(max, live, bs, ios, |bs|).isOpen;
      && Told(u, ws[i].id, well) && !Told(u, ws[i].id, !well)
      && (well ==> ws[i].id in u.told && u.told[ws[i].id] == Acks.PlaceOf(max, Acks.PositionBefore(max, live, bs, ios, i), |bs[i]|))
  {
    hide Runs.Inv, WB.Inv, Runs.Exec, Hand, Framed, WB.Exec, RecsOf, Known, Acks.GetsThrough, Acks.PositionBefore, Acks.PlaceOf, BatchAppend;
    var ws := s.buf.batches[k].writes;
    var rs := RecsOf(s.recs, ws);
    var locs := Locs(crc, max, s.log, rs, ios, sync);
    Acks.BatchAckedIff(crc, max, s.log.disk, s.log.live.value, Runs.Encs(crc, rs), ios, sync, i);
    OpenBatch(s, k);
    NewAnswers(s.buf, k, Errs(locs), false, WB.Answer(ws[i].id, true));
    NewAnswers(s.buf, k, Errs(locs), false, WB.Answer(ws[i].id, false));
    HandAre(s.told, ws, locs, ws[i].id);
    assert forall j :: 0 <= j < |ws| && ws[j].id == ws[i].id ==> j == i;
    assert !Told(s, ws[i].id, true) && !Told(s, ws[i].id, false);
  }

  /** An append alone, from the call to its answer: durable exactly if no I/O call it needs fails, at the log's write position. */
  lemma LoneAppend(crc: Checksum, max: int, s: Service, id: nat, rec: Rec, io: Io, sync: bool)
    requires Inv(crc, max, s) && Runs.Running(s.log) && Framed(rec) && id !in s.recs && s.buf.pending == []
    ensures var k := |s.buf.batches|; var live, len := s.log.live.value, |Enc(crc, rec)|;
      var end := Exec(crc, max, Exec(crc, max, Exec(crc, max, s, Arrive(id, rec)), Cut), Flush(k, [io], sync));
      var well := Acks.NoCallFails(max, live, len, false, io) && sync;
      && Told(end, id, well) && !Told(end, id, !well)
      && (well ==> id in end.told && end.told[id] == Acks.PlaceOf(max, live, len))
  {
    hide Inv, Enc, Exec, Acks.NoCallFails, Acks.PlaceOf, Acks.PositionBefore, Framed, Runs.Encs, RecsOf, Told;
    var s2 := Exec(crc, max, Exec(crc, max, s, Arrive(id, rec)), Cut);
    var k := |s.buf.batches|;
    TakenAlone(crc, max, s, id, rec);
    FlushTellsIff(crc, max, s2, k, [io], sync, 0);
    OneWrite(max, s.log.live.value, [Enc(crc, rec)], [io]);
  }

  lemma TakenAlone(crc: Checksum, max: int, s: Service, id: nat, rec: Rec)
    requires Inv(crc, max, s) && Framed(rec) && id !in s.recs && s.buf.pending == []
    ensures var u := Exec(crc, max, Exec(crc, max, s, Arrive(id, rec)), Cut); var k := |s.buf.batches|;
      && Inv(crc, max, u) && Open(u.buf, k) && u.log == s.log
      && var ws := u.buf.batches[k].writes; |ws| == 1 && ws[0].id == id && Runs.Encs(crc, RecsOf(u.recs, ws)) == [Enc(crc, rec)]
  {
    hide Inv, Enc, Framed;
    StepKeepsInv(crc, max, s, Arrive(id, rec));
    StepKeepsInv(crc, max, Exec(crc, max, s, Arrive(id, rec)), Cut);
  }

  lemma OneWrite(max: int, live: Session, bs: seq<Bytes>, ios: seq<Io>)
    requires |bs| == |ios| == 1
    ensures Acks.PositionBefore(max, live, bs, ios, 0) == live
    ensures Acks.NoCallFails(max, live, |bs[0]|, false, ios[0]) ==> Acks.PositionBefore(max, live, bs, ios, 1).isOpen
  {
  }
}
