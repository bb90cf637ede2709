/** The in-memory unpack queue and its in-flight set (internal/ingestion/unpack_worker.go). */
module UnpackQueue {

  /**
   `sending` holds ids marked by an enqueuer that has not yet sent or given up, `working` the ids
   workers are unpacking; `chan` is the buffered channel.
   */
  datatype Queue = Queue(inflight: set<nat>, sending: multiset<nat>, chan: seq<nat>, working: multiset<nat>)

  const IDLE: Queue := Queue({}, multiset{}, [], multiset{})

  /** The steps of Enqueue and worker that happen at once; any goroutine may take any of them. */
  datatype Step = Mark(id: nat) | Send(id: nat) | Take | Finish(id: nat)

  function MarkStep(q: Queue, id: nat): Queue {
    if id in q.inflight then q else q.(inflight := q.inflight + {id}, sending := q.sending + multiset{id})
  }

  /** A full channel drops the job and unmarks it. */
  function SendStep(q: Queue, id: nat, capacity: nat): Queue {
    if id !in q.sending then q else
    var r := q.(sending := q.sending - multiset{id});
    if |q.chan| < capacity then r.(chan := q.chan + [id]) else r.(inflight := q.inflight - {id})
  }

  function TakeStep(q: Queue): Queue {
    if q.chan == [] then q else q.(chan := q.chan[1..], working := q.working + multiset{q.chan[0]})
  }

  /** The deferred unmark runs whether the unpack succeeded, failed or panicked. */
  function FinishStep(q: Queue, id: nat): Queue {
    if id !in q.working then q else q.(working := q.working - multiset{id}, inflight := q.inflight - {id})
  }

  function Exec(q: Queue, step: Step, capacity: nat): Queue {
    match step
    case Mark(id) => MarkStep(q, id)
    case Send(id) => SendStep(q, id, capacity)
    case Take => TakeStep(q)
    case Finish(id) => FinishStep(q, id)
  }

  function Tokens(q: Queue): multiset<nat> {
    q.sending + multiset(q.chan) + q.working
  }

  /** The in-flight set is the set of tokens, each there exactly once. */
  predicate Inv(q: Queue) {
    Tokens(q) == multiset(q.inflight)
  }

  lemma Removed(inflight: set<nat>, a: multiset<nat>, b: multiset<nat>, id: nat)
    requires a + b == multiset(inflight) && id in a
    ensures (a - multiset{id}) + b == multiset(inflight - {id})
  {
    var left, right := (a - multiset{id}) + b, multiset(inflight - {id});
    forall k: nat ensures left[k] == right[k] {
      assert (a + b)[k] == multiset(inflight)[k] <= 1;
    }
    assert left == right;
  }

  lemma MarkKeeps(q: Queue, id: nat)
    requires Inv(q)
    ensures Inv(MarkStep(q, id))
  {
    if id !in q.inflight {
      var chan := multiset(q.chan);
      assert multiset(q.inflight + {id}) == multiset(q.inflight) + multiset{id};
      assert (q.sending + multiset{id}) + chan + q.working == (q.sending + chan + q.working) + multiset{id};
    }
  }

  lemma SendKeeps(q: Queue, id: nat, capacity: nat)
    requires Inv(q)
    ensures Inv(SendStep(q, id, capacity))
  {
  }

  lemma FinishKeeps(q: Queue, id: nat)
    requires Inv(q)
    ensures Inv(FinishStep(q, id))
  {
    if id in q.working {
      var chan := multiset(q.chan);
      assert q.sending + chan + q.working == q.working + (q.sending + chan);
      Removed(q.inflight, q.working, q.sending + chan, id);
      assert q.sending + chan + (q.working - multiset{id}) == (q.working - multiset{id}) + (q.sending + chan);
    }
  }

  lemma StepKeepsInv(q: Queue, step: Step, capacity: nat)
    requires Inv(q)
    ensures Inv(Exec(q, step, capacity))
  {
    hide Inv, MarkStep, SendStep, TakeStep, FinishStep;
    match step
    case Mark(id) => MarkKeeps(q, id);
    case Send(id) => SendKeeps(q, id, capacity);
    case Take => TakeKeeps(q);
    case Finish(id) => FinishKeeps(q, id);
  }

  lemma TakeKeeps(q: Queue)
    requires Inv(q)
    ensures Inv(TakeStep(q))
  {
    if q.chan != [] {
      var id, rest := q.chan[0], q.chan[1..];
      assert q.chan == [id] + rest;
      assert multiset(q.chan) == multiset{id} + multiset(rest);
      assert q.sending + multiset(rest) + (q.working + multiset{id}) == q.sending + (multiset{id} + multiset(rest)) + q.working;
    }
  }

  function Run(steps: seq<Step>, capacity: nat): Queue {
    if steps == [] then IDLE else Exec(Run(steps[..|steps| - 1], capacity), steps[|steps| - 1], capacity)
  }

  lemma {:induction false} RunKeepsInv(steps: seq<Step>, capacity: nat)
    ensures Inv(Run(steps, capacity))
  {
    hide Exec, Inv;
    if steps == [] {
      assert Inv(IDLE) by { StartsIdle(); }
    } else {
      RunKeepsInv(steps[..|steps| - 1], capacity);
      StepKeepsInv(Run(steps[..|steps| - 1], capacity), steps[|steps| - 1], capacity);
    }
  }

  lemma StartsIdle()
    ensures Inv(IDLE)
  {
  }

  /**
   For any number of enqueuers and workers in any interleaving: an id is in flight iff exactly one
   token for it exists, so no package is being unpacked twice at once, queued twice, or both.
   */
  lemma NeverUnpackedTwiceAtOnce(steps: seq<Step>, capacity: nat, id: nat)
    ensures var q := Run(steps, capacity);
      && (id in q.inflight <==> Tokens(q)[id] == 1) && Tokens(q)[id] <= 1
      && q.working[id] <= 1
      && (id in q.working ==> id !in q.chan && id !in q.sending)
  {
    hide Run;
    RunKeepsInv(steps, capacity);
    var q := Run(steps, capacity);
    assert Tokens(q)[id] == multiset(q.inflight)[id];
    assert id in q.chan ==> multiset(q.chan)[id] >= 1;
  }

  class UnpackQueue {
    const capacity: nat
    var inflight: set<nat>
    var ch: seq<nat>
    ghost var sending: multiset<nat>
    ghost var working: multiset<nat>

    constructor (queueSize: int)
      ensures View() == IDLE && capacity >= 1 && (queueSize >= 1 ==> capacity == queueSize)
    {
      capacity := if queueSize < 1 then 64 else queueSize;
      inflight, ch, sending, working := {}, [], multiset{}, multiset{};
    }

    ghost function View(): Queue
      reads this
    {
      Queue(inflight, sending, ch, working)
    }

    /** Enqueue with nothing in between its two halves. */
    method Enqueue(id: nat)
      requires Inv(View())
      modifies this
      ensures View() == if id in old(inflight) then old(View()) else SendStep(MarkStep(old(View()), id), id, capacity)
      ensures Inv(View()) && old(inflight) <= inflight && |ch| >= |old(ch)|
      ensures id in inflight || |ch| >= capacity
      ensures id !in old(inflight) && |old(ch)| < capacity ==> inflight == old(inflight) + {id} && ch == old(ch) + [id]
      ensures id in old(inflight) || |old(ch)| >= capacity ==> inflight == old(inflight) && ch == old(ch)
    {
      if id in inflight { return; }
      ghost var q := View();
      StepKeepsInv(q, Mark(id), capacity);
      StepKeepsInv(MarkStep(q, id), Send(id), capacity);
      assert q.sending + multiset{id} - multiset{id} == q.sending;
      if |ch| < capacity {
        inflight, ch := inflight + {id}, ch + [id];
      } else {
        assert inflight + {id} - {id} == inflight;
      }
    }

    /** recoverPending: every listed package ends up in flight unless the channel is full. */
    method RecoverPending(ids: seq<nat>)
      requires Inv(View())
      modifies this
      ensures Inv(View()) && old(inflight) <= inflight
      ensures forall i :: 0 <= i < |ids| ==> ids[i] in inflight || |ch| >= capacity
    {
      for i := 0 to |ids|
        invariant Inv(View()) && old(inflight) <= inflight
        invariant forall j :: 0 <= j < i ==> ids[j] in inflight || |ch| >= capacity
      {
        if ids[i] !in inflight { Enqueue(ids[i]); }
      }
    }

    method Receive() returns (id: nat)
      requires ch != []
      modifies this
      ensures View() == TakeStep(old(View()))
      ensures old(ch) == [id] + ch && id in working && inflight == old(inflight)
    {
      id := ch[0];
      ch := ch[1..];
      working := working + multiset{id};
    }

    method Done(id: nat)
      requires id in working
      modifies this
      ensures View() == FinishStep(old(View()), id)
      ensures inflight == old(inflight) - {id} && working[id] == old(working)[id] - 1 && ch == old(ch)
    {
      inflight := inflight - {id};
      working := working - multiset{id};
    }
  }
}
