/** The write buffer that batches appends for one fsync (internal/storage/write_buffer.go). */
module WriteBuffer {
  import opened Bytes

  /** One Append call; `id` tells callers apart. */
  datatype Write = Write(id: nat, len: nat)

  /** What a waiter is told: nil error or not. */
  datatype Answer = Answer(id: nat, ok: bool)

  /** How a flush came back: an error or none for each write, and whether it panicked. */
  datatype Outcome = Outcome(errs: seq<bool>, panicked: bool)

  datatype Batch = Batch(writes: seq<Write>, result: Option<Outcome>)

  /** `arrivals`, `batches` and `answers` are the history of appends, cuts and channel sends. */
  datatype Buffer = Buffer(pending: seq<Write>, bufSize: nat, arrivals: seq<Write>, batches: seq<Batch>, answers: seq<Answer>)

  const FRESH: Buffer := Buffer([], 0, [], [], [])

  datatype Step =
    | Arrive(w: Write)
    | Cut
    | Complete(batch: nat, errs: seq<bool>, panicked: bool)

  function Total(ws: seq<Write>): nat {
    if ws == [] then 0 else Total(ws[..|ws| - 1]) + ws[|ws| - 1].len
  }

  /** The sends at the end of Flush: after a panic no write is reported as durable. */
  function Answers(ws: seq<Write>, errs: seq<bool>, panicked: bool): (as': seq<Answer>)
    requires |errs| == |ws|
    ensures |as'| == |ws|
  {
    seq(|ws|, i requires 0 <= i < |ws| => Answer(ws[i].id, !errs[i] && !panicked))
  }

  function Exec(b: Buffer, step: Step): Buffer {
    match step
    case Arrive(w) => b.(pending := b.pending + [w], bufSize := b.bufSize + w.len, arrivals := b.arrivals + [w])
    case Cut =>
      if b.pending == [] then b else
      b.(pending := [], bufSize := 0, batches := b.batches + [Batch(b.pending, None)])
    case Complete(i, errs, panicked) =>
      if i >= |b.batches| || b.batches[i].result.Some? || |errs| != |b.batches[i].writes| then b else
      b.(batches := b.batches[i := b.batches[i].(result := Some(Outcome(errs, panicked)))],
         answers := b.answers + Answers(b.batches[i].writes, errs, panicked))
  }

  function Flatten(bs: seq<Batch>): seq<Write> {
    if bs == [] then [] else Flatten(bs[..|bs| - 1]) + bs[|bs| - 1].writes
  }

  /** The writes whose batch has been answered. */
  function Settled(bs: seq<Batch>): multiset<nat> {
    if bs == [] then multiset{} else
    Settled(bs[..|bs| - 1]) + if bs[|bs| - 1].result.Some? then Ids(bs[|bs| - 1].writes) else multiset{}
  }

  function Ids(ws: seq<Write>): multiset<nat> {
    if ws == [] then multiset{} else Ids(ws[..|ws| - 1]) + multiset{ws[|ws| - 1].id}
  }

  function AnsweredIds(as': seq<Answer>): multiset<nat> {
    if as' == [] then multiset{} else AnsweredIds(as'[..|as'| - 1]) + multiset{as'[|as'| - 1].id}
  }

  ghost predicate Inv(b: Buffer) {
    && Flatten(b.batches) + b.pending == b.arrivals
    && b.bufSize == Total(b.pending)
    && AnsweredIds(b.answers) == Settled(b.batches)
  }

  lemma {:induction false} SetAnswered(bs: seq<Batch>, i: nat, r: Outcome)
    requires i < |bs| && bs[i].result == None
    ensures var cs := bs[i := bs[i].(result := Some(r))];
      Flatten(cs) == Flatten(bs) && Settled(cs) == Settled(bs) + Ids(bs[i].writes)
  {
    hide Ids;
    var n := |bs| - 1;
    var cs := bs[i := bs[i].(result := Some(r))];
    if i < n {
      SetAnswered(bs[..n], i, r);
      assert cs[..n] == bs[..n][i := bs[i].(result := Some(r))] && cs[n] == bs[n];
      var more := if bs[n].result.Some? then Ids(bs[n].writes) else multiset{};
      assert Settled(bs) == Settled(bs[..n]) + more && Settled(cs) == Settled(cs[..n]) + more;
    } else {
      assert cs[..n] == bs[..n];
    }
  }

  lemma Assoc(a: multiset<nat>, b: multiset<nat>, c: multiset<nat>)
    ensures (a + b) + c == a + (b + c)
  {
  }

  lemma IdsSnoc(ws: seq<Write>, w: Write)
    ensures Ids(ws + [w]) == Ids(ws) + multiset{w.id}
  {
  }

  lemma AnsweredSnoc(as': seq<Answer>, a: Answer)
    ensures AnsweredIds(as' + [a]) == AnsweredIds(as') + multiset{a.id}
  {
  }

  lemma {:induction false} AnswersAdd(as': seq<Answer>, ws: seq<Write>, errs: seq<bool>, panicked: bool)
    requires |errs| == |ws|
    ensures AnsweredIds(as' + Answers(ws, errs, panicked)) == AnsweredIds(as') + Ids(ws)
  {
    hide AnsweredIds;
    var more := Answers(ws, errs, panicked);
    if ws == [] {
      assert as' + more == as';
    } else {
      var n := |ws| - 1;
      AnswersAdd(as', ws[..n], errs[..n], panicked);
      var front := Answers(ws[..n], errs[..n], panicked);
      assert more == front + [more[n]];
      assert as' + more == (as' + front) + [more[n]];
      AnsweredSnoc(as' + front, more[n]);
      Assoc(AnsweredIds(as'), Ids(ws[..n]), multiset{ws[n].id});
    }
  }

  lemma StepKeepsInv(b: Buffer, step: Step)
    requires Inv(b)
    ensures Inv(Exec(b, step))
  {
    match step
    case Arrive(w) =>
      assert (b.pending + [w])[..|b.pending|] == b.pending;
      assert Flatten(b.batches) + (b.pending + [w]) == (Flatten(b.batches) + b.pending) + [w];
    case Cut =>
      var bs := b.batches + [Batch(b.pending, None)];
      assert bs[..|b.batches|] == b.batches;
    case Complete(i, errs, panicked) =>
      if i < |b.batches| && b.batches[i].result == None && |errs| == |b.batches[i].writes| {
        SetAnswered(b.batches, i, Outcome(errs, panicked));
        AnswersAdd(b.answers, b.batches[i].writes, errs, panicked);
      }
  }

  function Run(steps: seq<Step>): Buffer {
    if steps == [] then FRESH else Exec(Run(steps[..|steps| - 1]), steps[|steps| - 1])
  }

  lemma {:induction false} RunKeepsInv(steps: seq<Step>)
    ensures Inv(Run(steps))
  {
    hide Exec;
    if steps != [] {
      RunKeepsInv(steps[..|steps| - 1]);
      StepKeepsInv(Run(steps[..|steps| - 1]), steps[|steps| - 1]);
    }
  }

  predicate AllAnswered(bs: seq<Batch>) {
    forall i :: 0 <= i < |bs| ==> bs[i].result.Some?
  }

  lemma {:induction false} SettledIsPart(bs: seq<Batch>)
    ensures Settled(bs) <= Ids(Flatten(bs))
    ensures AllAnswered(bs) ==> Settled(bs) == Ids(Flatten(bs))
  {
    hide Ids;
    if bs == [] {
      NoIds();
    } else {
      var n := |bs| - 1;
      SettledIsPart(bs[..n]);
      IdsConcat(Flatten(bs[..n]), bs[n].writes);
    }
  }

  lemma NoIds()
    ensures Ids([]) == multiset{}
  {
  }

  lemma {:induction false} IdsConcat(a: seq<Write>, c: seq<Write>)
    ensures Ids(a + c) == Ids(a) + Ids(c)
  {
    if c == [] {
      assert a + c == a;
      assert Ids(c) == multiset{};
    } else {
      IdsConcat(a, c[..|c| - 1]);
      IdsConcatStep(a, c);
    }
  }

  lemma IdsConcatStep(a: seq<Write>, c: seq<Write>)
    requires c != [] && Ids(a + c[..|c| - 1]) == Ids(a) + Ids(c[..|c| - 1])
    ensures Ids(a + c) == Ids(a) + Ids(c)
  {
    hide Ids;
    var front, last := c[..|c| - 1], c[|c| - 1];
    Rejoin(a, c);
    IdsSnoc(a + front, last);
    IdsSnoc(front, last);
    Assoc(Ids(a), Ids(front), multiset{last.id});
  }

  lemma Rejoin(a: seq<Write>, c: seq<Write>)
    requires c != []
    ensures c == c[..|c| - 1] + [c[|c| - 1]] && a + c == (a + c[..|c| - 1]) + [c[|c| - 1]]
  {
  }

  /**
   For every interleaving of appenders, timer and size flushes and panics: the batches in cut order
   followed by what is pending are exactly the arrivals in order, bufSize is their pending bytes,
   no waiter is answered more often than it asked, and once nothing is pending and every batch
   has come back - as after Close's final flush - every waiter has been answered exactly once.
   */
  lemma EveryWriteInOneBatchAnsweredOnce(steps: seq<Step>)
    ensures var b := Run(steps);
      && Flatten(b.batches) + b.pending == b.arrivals
      && b.bufSize == Total(b.pending)
      && AnsweredIds(b.answers) <= Ids(b.arrivals)
      && (b.pending == [] && AllAnswered(b.batches) ==> AnsweredIds(b.answers) == Ids(b.arrivals))
  {
    hide Run;
    RunKeepsInv(steps);
    var b := Run(steps);
    SettledIsPart(b.batches);
    IdsConcat(Flatten(b.batches), b.pending);
    if b.pending == [] { assert Flatten(b.batches) + b.pending == Flatten(b.batches); }
  }

  /** The flushes under way come back one after the other, each with its outcome. */
  function BackAll(b: Buffer, outs: seq<Outcome>, n: nat): Buffer
    requires n <= |outs|
  {
    if n == 0 then b else Exec(BackAll(b, outs, n - 1), Complete(n - 1, outs[n - 1].errs, outs[n - 1].panicked))
  }

  lemma {:induction false} BackSoFar(b: Buffer, outs: seq<Outcome>, n: nat)
    requires Inv(b) && n <= |outs| == |b.batches| && forall i :: 0 <= i < |outs| ==> |outs[i].errs| == |b.batches[i].writes|
    ensures var c := BackAll(b, outs, n);
      && Inv(c) && c.pending == b.pending && c.arrivals == b.arrivals && |c.batches| == |b.batches|
      && (forall i :: 0 <= i < |b.batches| ==> c.batches[i].writes == b.batches[i].writes)
      && (forall i :: 0 <= i < n ==> c.batches[i].result.Some?)
  {
    hide Inv;
    if n > 0 {
      BackSoFar(b, outs, n - 1);
      StepKeepsInv(BackAll(b, outs, n - 1), Complete(n - 1, outs[n - 1].errs, outs[n - 1].panicked));
    }
  }

  /**
   Close: whatever is pending goes into the last flush, and once every flush under way has come back, with errors
   or panics or without, nothing is pending and every Append so far has exactly one answer.
   */
  lemma CloseAnswersEverybody(b: Buffer, outs: seq<Outcome>)
    requires Inv(b)
    requires var bs := Exec(b, Cut).batches; |outs| == |bs| && forall i :: 0 <= i < |outs| ==> |outs[i].errs| == |bs[i].writes|
    ensures var end := BackAll(Exec(b, Cut), outs, |outs|);
      end.pending == [] && AllAnswered(end.batches) && AnsweredIds(end.answers) == Ids(b.arrivals) && end.arrivals == b.arrivals
  {
    hide Settled, Flatten, Ids, AnsweredIds, Total;
    var c := Exec(b, Cut);
    StepKeepsInv(b, Cut);
    BackSoFar(c, outs, |outs|);
    var end := BackAll(c, outs, |outs|);
    SettledIsPart(end.batches);
    assert Flatten(end.batches) + [] == Flatten(end.batches);
  }

  // ---- every waiter is told the truth ----

  /** Write `i` of batch `j` has come back. */
  predicate CameBack(bs: seq<Batch>, j: int, i: int) {
    0 <= j < |bs| && 0 <= i < |bs[j].writes| && bs[j].result.Some? && |bs[j].result.value.errs| == |bs[j].writes|
  }

  /** What its waiter must be told: durable if its flush did not panic and had no error for it. */
  function Verdict(bs: seq<Batch>, j: int, i: int): Answer
    requires CameBack(bs, j, i)
  {
    Answer(bs[j].writes[i].id, !bs[j].result.value.panicked && !bs[j].result.value.errs[i])
  }

  ghost predicate IsVerdict(bs: seq<Batch>, a: Answer) {
    exists j, i :: CameBack(bs, j, i) && Verdict(bs, j, i) == a
  }

  /** Every answer is the verdict on a write that came back, every write that came back got its verdict, and batches come back whole. */
  ghost predicate Truthful(b: Buffer) {
    && (forall a :: a in b.answers ==> IsVerdict(b.batches, a))
    && (forall j, i :: CameBack(b.batches, j, i) ==> Verdict(b.batches, j, i) in b.answers)
    && forall j :: 0 <= j < |b.batches| && b.batches[j].result.Some? ==> |b.batches[j].result.value.errs| == |b.batches[j].writes|
  }

  /** Batch `k` comes back; the others are as before. */
  lemma VerdictsAfter(bs: seq<Batch>, k: nat, r: Outcome, j: int, i: int)
    requires k < |bs| && bs[k].result == None && |r.errs| == |bs[k].writes|
    ensures var cs := bs[k := bs[k].(result := Some(r))];
      && (CameBack(cs, j, i) <==> CameBack(bs, j, i) || (j == k && 0 <= i < |bs[k].writes|))
      && (CameBack(bs, j, i) ==> Verdict(cs, j, i) == Verdict(bs, j, i))
      && (CameBack(cs, j, i) && j == k ==> Verdict(cs, j, i) == Answer(bs[k].writes[i].id, !r.errs[i] && !r.panicked))
  {
  }

  lemma StaysVerdict(bs: seq<Batch>, k: nat, r: Outcome, a: Answer)
    requires k < |bs| && bs[k].result == None && |r.errs| == |bs[k].writes| && IsVerdict(bs, a)
    ensures IsVerdict(bs[k := bs[k].(result := Some(r))], a)
  {
    hide CameBack, Verdict;
    var j, i :| CameBack(bs, j, i) && Verdict(bs, j, i) == a;
    VerdictsAfter(bs, k, r, j, i);
  }

  lemma CompleteTellsTruth(b: Buffer, k: nat, errs: seq<bool>, panicked: bool)
    requires Truthful(b) && k < |b.batches| && b.batches[k].result == None && |errs| == |b.batches[k].writes|
    ensures Truthful(Exec(b, Complete(k, errs, panicked)))
  {
    hide CameBack, Verdict, IsVerdict;
    var c := Exec(b, Complete(k, errs, panicked));
    var ws, r := b.batches[k].writes, Outcome(errs, panicked);
    var more := Answers(ws, errs, panicked);
    forall a | a in c.answers ensures IsVerdict(c.batches, a) {
      if a in b.answers {
        StaysVerdict(b.batches, k, r, a);
      } else {
        var i :| 0 <= i < |more| && more[i] == a;
        VerdictsAfter(b.batches, k, r, k, i);
        VerdictIs(c.batches, k, i);
      }
    }
    forall j, i | CameBack(c.batches, j, i) ensures Verdict(c.batches, j, i) in c.answers {
      VerdictsAfter(b.batches, k, r, j, i);
      if !CameBack(b.batches, j, i) { assert more[i] in c.answers; }
      if CameBack(b.batches, j, i) { assert Verdict(b.batches, j, i) in b.answers; }
    }
  }

  lemma VerdictIs(bs: seq<Batch>, j: int, i: int)
    requires CameBack(bs, j, i)
    ensures IsVerdict(bs, Verdict(bs, j, i))
  {
  }

  lemma VerdictsBefore(bs: seq<Batch>, ws: seq<Write>, j: int, i: int)
    ensures var cs := bs + [Batch(ws, None)];
      (CameBack(cs, j, i) <==> CameBack(bs, j, i)) && (CameBack(bs, j, i) ==> Verdict(cs, j, i) == Verdict(bs, j, i))
  {
  }

  lemma CutTellsTruth(b: Buffer, ws: seq<Write>)
    requires Truthful(b)
    ensures Truthful(b.(pending := [], bufSize := 0, batches := b.batches + [Batch(ws, None)]))
  {
    hide CameBack, Verdict;
    var bs, cs := b.batches, b.batches + [Batch(ws, None)];
    forall a | a in b.answers ensures IsVerdict(cs, a) {
      assert IsVerdict(bs, a);
      var j, i :| CameBack(bs, j, i) && Verdict(bs, j, i) == a;
      VerdictsBefore(bs, ws, j, i);
    }
    forall j, i | CameBack(cs, j, i) ensures Verdict(cs, j, i) in b.answers {
      VerdictsBefore(bs, ws, j, i);
    }
  }

  lemma StepTellsTruth(b: Buffer, step: Step)
    requires Truthful(b)
    ensures Truthful(Exec(b, step))
  {
    hide CameBack, Verdict, IsVerdict;
    match step
    case Arrive(w) =>
    case Cut => CutTellsTruth(b, b.pending);
    case Complete(k, errs, panicked) =>
      if k < |b.batches| && b.batches[k].result == None && |errs| == |b.batches[k].writes| {
        CompleteTellsTruth(b, k, errs, panicked);
      }
  }

  /**
   For every interleaving: a waiter is told "durable" only if the flush of the batch holding its write came back without
   a panic and without an error for that very write, every other answer is an error, and every write
   of a batch that came back has its answer.
   */
  lemma {:induction false} EveryWaiterIsToldTheTruth(steps: seq<Step>)
    ensures Truthful(Run(steps))
  {
    hide Exec, Truthful;
    if steps == [] {
      FreshIsTrue();
    } else {
      var n := |steps| - 1;
      EveryWaiterIsToldTheTruth(steps[..n]);
      StepTellsTruth(Run(steps[..n]), steps[n]);
    }
  }

  lemma FreshIsTrue()
    ensures Truthful(FRESH)
  {
  }

  // ---- after Close ----

  /** Only a flush takes writes out of the buffer. */
  lemma {:induction false} PendingWaits(before: seq<Step>, later: seq<Step>)
    requires forall i :: 0 <= i < |later| ==> !later[i].Cut?
    ensures Run(before).pending <= Run(before + later).pending
  {
    if later == [] {
      assert before + later == before;
    } else {
      var n := |later| - 1;
      PendingWaits(before, later[..n]);
      assert (before + later)[..|before + later| - 1] == before + later[..n];
    }
  }

  /**
   After Close the timer flushes no more. An append that comes then, and is too small to fill the buffer,
   is in no batch and its waiter gets no answer, however long the run goes on without a flush.
   */
  lemma LateAppendIsNotAnswered(before: seq<Step>, w: Write, later: seq<Step>)
    requires forall i :: 0 <= i < |later| ==> !later[i].Cut?
    requires Ids(Run(before + [Arrive(w)] + later).arrivals)[w.id] == 1
    ensures var b := Run(before + [Arrive(w)] + later); w in b.pending && AnsweredIds(b.answers)[w.id] == 0
  {
    hide Run, Ids, AnsweredIds;
    var mid := before + [Arrive(w)];
    PendingWaits(mid, later);
    LastArrival(before, w);
    OldestStay(Run(mid).pending, Run(mid + later).pending);
    PendingIsUnanswered(mid + later, w.id);
  }

  lemma OldestStay(p: seq<Write>, q: seq<Write>)
    requires p <= q && p != []
    ensures p[|p| - 1] in q && p[|p| - 1].id in Ids(q)
  {
    hide Ids;
    assert q[|p| - 1] == p[|p| - 1];
    InIds(q, |p| - 1);
  }

  lemma PendingIsUnanswered(steps: seq<Step>, id: nat)
    requires Ids(Run(steps).arrivals)[id] == 1 && id in Ids(Run(steps).pending)
    ensures AnsweredIds(Run(steps).answers)[id] == 0
  {
    hide Run, Ids, AnsweredIds, Settled, Flatten;
    RunKeepsInv(steps);
    var b := Run(steps);
    SettledIsPart(b.batches);
    IdsConcat(Flatten(b.batches), b.pending);
  }

  lemma LastArrival(before: seq<Step>, w: Write)
    ensures var p := Run(before + [Arrive(w)]).pending; p != [] && p[|p| - 1] == w
  {
    assert (before + [Arrive(w)])[..|before|] == before;
  }

  lemma {:induction false} InIds(ws: seq<Write>, i: nat)
    requires i < |ws|
    ensures ws[i].id in Ids(ws)
  {
    if i < |ws| - 1 { InIds(ws[..|ws| - 1], i); }
  }

  class WriteBuffer {
    const maxSize: nat
    var pending: seq<Write>
    var bufSize: nat

    constructor (maxSize: nat)
      ensures this.maxSize == maxSize && pending == [] && bufSize == 0
    {
      this.maxSize, pending, bufSize := maxSize, [], 0;
    }

    /** The locked half of Append. */
    method Add(w: Write) returns (shouldFlush: bool)
      requires bufSize == Total(pending)
      modifies this
      ensures pending == old(pending) + [w] && bufSize == Total(pending)
      ensures shouldFlush <==> Total(pending) >= maxSize
    {
      assert (pending + [w])[..|pending|] == pending;
      pending, bufSize := pending + [w], bufSize + w.len;
      shouldFlush := bufSize >= maxSize;
    }

    /** The locked half of Flush. */
    method TakeBatch() returns (batch: seq<Write>)
      modifies this
      ensures batch == old(pending) && pending == [] && (batch != [] ==> bufSize == 0)
      ensures old(bufSize) == Total(old(pending)) ==> bufSize == Total(pending)
    {
      batch := pending;
      if |pending| == 0 { return; }
      pending, bufSize := [], 0;
    }

    /** The sends at the end of Flush, or in its recover handler. */
    method Deliver(batch: seq<Write>, errs: seq<bool>, panicked: bool) returns (sent: seq<Answer>)
      requires |errs| == |batch|
      ensures sent == Answers(batch, errs, panicked)
      ensures |sent| == |batch| && forall i :: 0 <= i < |batch| ==> sent[i] == Answer(batch[i].id, !(panicked || errs[i]))
    {
      sent := [];
      for i := 0 to |batch|
        invariant sent == Answers(batch, errs, panicked)[..i]
      {
        var failed := errs[i];
        if panicked && !failed { failed := true; }
        sent := sent + [Answer(batch[i].id, !failed)];
      }
    }
  }
}
