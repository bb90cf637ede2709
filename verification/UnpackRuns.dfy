/**
 Requests, the unpack queue and its workers together: which clones are ever filled. Unpacks and
 propagations happen only in a worker that holds the package's token; a failed job is logged and its
 token dropped; the recovery scan lists canonical raw_large packages only.
 */
module UnpackRuns {
  import opened Bytes
  import opened Metadata
  import opened Ingestion
  import opened IngestEffects
  import opened IngestRuns
  import opened CloneRuns
  import opened Mirror
  import opened MirrorRuns
  import opened Commits
  import Q = UnpackQueue

  /** How far a worker is with its package: fetched, or propagating to the clones it listed. */
  datatype Job = Fetched | Listed(clones: set<nat>)

  /** `due` holds ids some enqueuer is about to pass to Enqueue: after an upload, or off a scan's list. */
  datatype Sys = Sys(st: State, q: Q.Queue, due: multiset<nat>, jobs: map<nat, Job>)

  const INITIAL: Sys := Sys(START, Q.IDLE, multiset{}, map[])

  datatype Act =
    | Request(step: Step)
    | Scan
    | Mark(id: nat)
    | Skip(id: nat)
    | Send(id: nat)
    | Take
    | UnpackJob(id: nat, items: seq<Item>, errStore: Store)
    | ListClones(id: nat)
    | Fill(id: nat, clone: nat)
    | Finish(id: nat)
    | Restart

  function PendingIds(t: Tables): set<nat> {
    set p | p in t.pkgs && t.pkgs[p].mode == RawLarge && t.pkgs[p].canonical == None
  }

  function CloneIds(t: Tables, c: nat): set<nat> {
    set k | k in t.pkgs && t.pkgs[k].canonical == Some(c)
  }

  /** A large upload that commits is handed to the queue. */
  function Handed(t: Tables, u: Tables, step: Step): multiset<nat> {
    if step.UploadLargeZip? && step.id !in t.pkgs && step.id in u.pkgs then multiset{step.id} else multiset{}
  }

  predicate HasJob(y: Sys, id: nat, listed: bool) {
    id in y.q.working && id in y.jobs && y.jobs[id].Listed? == listed
  }

  function Do(sha: Sha, capacity: nat, y: Sys, act: Act): Sys {
    match act
    case Request(step) =>
      if step.Unpack? || step.Propagate? then y else
      var st := Exec(sha, y.st, step);
      y.(st := st, due := y.due + Handed(y.st.db.t, st.db.t, step))
    case Scan => y.(due := y.due + multiset(PendingIds(y.st.db.t)))
    case Mark(id) => if id in y.due then y.(due := y.due - multiset{id}, q := Q.MarkStep(y.q, id)) else y
    case Skip(id) => y.(due := y.due - multiset{id})
    case Send(id) => y.(q := Q.SendStep(y.q, id, capacity))
    case Take => if y.q.chan == [] then y else y.(q := Q.TakeStep(y.q), jobs := y.jobs[y.q.chan[0] := Fetched])
    case UnpackJob(id, items, errStore) =>
      if HasJob(y, id, false) then y.(st := Exec(sha, y.st, Unpack(id, items, errStore))) else y
    case ListClones(id) =>
      if HasJob(y, id, false) && id in y.st.db.t.pkgs && y.st.db.t.pkgs[id].mode == ZipWithMembers
      then y.(jobs := y.jobs[id := Listed(CloneIds(y.st.db.t, id))]) else y
    case Fill(id, k) =>
      if HasJob(y, id, true) && k in y.jobs[id].clones then y.(st := Exec(sha, y.st, Propagate(id, k, false))) else y
    case Finish(id) => y.(q := Q.FinishStep(y.q, id), jobs := y.jobs - {id})
    case Restart => Sys(y.st.(tickets := map[]), Q.IDLE, multiset{}, map[])
  }

  function DoAll(sha: Sha, capacity: nat, y: Sys, acts: seq<Act>): Sys {
    if acts == [] then y else Do(sha, capacity, DoAll(sha, capacity, y, acts[..|acts| - 1]), acts[|acts| - 1])
  }

  // ---- what every run keeps ----

  ghost predicate Right(y: Sys) {
    Fine(y.st) && Balanced(y.st.db) && Q.Inv(y.q)
  }

  /** The ingest step inside an action, if it takes one. */
  function Inner(y: Sys, act: Act): Option<Step> {
    match act
    case Request(step) => if step.Unpack? || step.Propagate? then None else Some(step)
    case UnpackJob(id, items, errStore) => if HasJob(y, id, false) then Some(Unpack(id, items, errStore)) else None
    case Fill(id, k) => if HasJob(y, id, true) && k in y.jobs[id].clones then Some(Propagate(id, k, false)) else None
    case _ => None
  }

  lemma InnerIsExec(sha: Sha, capacity: nat, y: Sys, act: Act)
    ensures var u := Do(sha, capacity, y, act);
      if Inner(y, act).Some? then u.st == Exec(sha, y.st, Inner(y, act).value)
      else u.st.db == y.st.db && (u.st.tickets == y.st.tickets || u.st.tickets == map[])
  {
    hide Exec, HasJob, PendingIds, CloneIds, Handed, Q.MarkStep, Q.SendStep, Q.TakeStep, Q.FinishStep;
    match act
    case Request(_) =>
    case UnpackJob(_, _, _) =>
    case Fill(_, _) =>
    case _ =>
  }

  lemma DoRight(sha: Sha, capacity: nat, y: Sys, act: Act)
    requires Right(y)
    ensures Right(Do(sha, capacity, y, act))
  {
    hide Exec, Balanced, Fits, WellShaped, Do, Q.Inv;
    InnerIsExec(sha, capacity, y, act);
    QueueInv(sha, capacity, y, act);
    if Inner(y, act).Some? {
      StepFine(sha, y.st, Inner(y, act).value);
      StepBalances(sha, y.st, Inner(y, act).value);
    }
  }

  lemma QueueInv(sha: Sha, capacity: nat, y: Sys, act: Act)
    requires Q.Inv(y.q)
    ensures Q.Inv(Do(sha, capacity, y, act).q)
  {
    hide Exec, Q.Inv, Q.MarkStep, Q.SendStep, Q.TakeStep, Q.FinishStep;
    match act
    case Mark(id) => Q.MarkKeeps(y.q, id);
    case Send(id) => Q.SendKeeps(y.q, id, capacity);
    case Take => Q.TakeKeeps(y.q);
    case Finish(id) => Q.FinishKeeps(y.q, id);
    case Restart => Q.StartsIdle();
    case _ =>
  }

  lemma {:induction false} AllRight(sha: Sha, capacity: nat, y: Sys, acts: seq<Act>)
    requires Right(y)
    ensures Right(DoAll(sha, capacity, y, acts))
  {
    hide Do, Right;
    if acts != [] {
      AllRight(sha, capacity, y, acts[..|acts| - 1]);
      DoRight(sha, capacity, DoAll(sha, capacity, y, acts[..|acts| - 1]), acts[|acts| - 1]);
    }
  }

  lemma InitiallyRight()
    ensures Right(INITIAL)
  {
    StartFine();
    Q.StartsIdle();
  }

  /** Every state a run reaches is one the results below speak of. */
  lemma ReachableIsRight(sha: Sha, capacity: nat, acts: seq<Act>)
    ensures Right(DoAll(sha, capacity, INITIAL, acts))
  {
    hide Right, Do;
    InitiallyRight();
    AllRight(sha, capacity, INITIAL, acts);
  }

  // ---- a clone is filled exactly by a propagation that lists it ----

  ghost predicate Waits(y: Sys, c: nat, k: nat) {
    IsClone(y.st.db.t, k, c) && Behind(y.st.db.t, c, k)
  }

  ghost predicate Shows(y: Sys, c: nat, k: nat) {
    IsClone(y.st.db.t, k, c) && Mirrors(y.st.db.t, c, k) && y.st.db.t.pkgs[c].mode == ZipWithMembers
  }

  /** The worker with `c`'s token has listed `k` and its transaction for `k` is run. */
  predicate Fills(y: Sys, act: Act, c: nat, k: nat) {
    act == Fill(c, k) && HasJob(y, c, true) && k in y.jobs[c].clones
  }

  lemma DoWaits(sha: Sha, capacity: nat, y: Sys, act: Act, c: nat, k: nat)
    requires Right(y) && Waits(y, c, k)
    ensures var u := Do(sha, capacity, y, act); if Fills(y, act, c, k) then Shows(u, c, k) else Waits(u, c, k)
  {
    hide Do, Exec, WellShaped, Balanced, Fits, RowsOf;
    InnerIsExec(sha, capacity, y, act);
    FineParts(y.st);
    var u := Do(sha, capacity, y, act);
    if Inner(y, act).Some? {
      var step := Inner(y, act).value;
      StepDid(sha, y.st, step);
      var e := EffectOf(y.st.db.t, u.st.db.t, step);
      BehindAfter(y.st.db.t, u.st.db.t, e, c, k);
      if Fills(y, act, c, k) { FillCommits(sha, y.st, c, k); }
    }
  }

  lemma FillCommits(sha: Sha, st: State, c: nat, k: nat)
    requires Fine(st) && Balanced(st.db) && IsClone(st.db.t, k, c) && Behind(st.db.t, c, k)
    ensures var u := Exec(sha, st, Propagate(c, k, false)).db.t;
      EffectOf(st.db.t, u, Propagate(c, k, false)) == MirrorRuns.Fills(c, k) && c in u.pkgs && u.pkgs[c].mode == ZipWithMembers
  {
    hide WellShaped, Balanced, Fits, RowsOf, PropagateTx, Present;
    FineParts(st);
    PropagateAlwaysCommits(st.db, c, k);
    PropagateDid(st.db, c, k, false);
    CloneAt(st.db.t, k, c);
  }

  lemma DoShows(sha: Sha, capacity: nat, y: Sys, act: Act, c: nat, k: nat)
    requires Right(y) && Shows(y, c, k)
    ensures Shows(Do(sha, capacity, y, act), c, k)
  {
    hide Do, Exec, WellShaped, Balanced, Fits, RowsOf;
    InnerIsExec(sha, capacity, y, act);
    var u := Do(sha, capacity, y, act);
    if Inner(y, act).Some? {
      var step := Inner(y, act).value;
      StepDid(sha, y.st, step);
      var e := EffectOf(y.st.db.t, u.st.db.t, step);
      UnpackedAfter(y.st.db.t, u.st.db.t, e, c);
      UnpackedAfter(y.st.db.t, u.st.db.t, e, k);
    }
  }

  ghost predicate FilledIn(sha: Sha, capacity: nat, y: Sys, acts: seq<Act>, c: nat, k: nat) {
    exists i :: 0 <= i < |acts| && Fills(DoAll(sha, capacity, y, acts[..i]), acts[i], c, k)
  }

  lemma FilledSnoc(sha: Sha, capacity: nat, y: Sys, acts: seq<Act>, c: nat, k: nat)
    requires acts != []
    ensures var n := |acts| - 1;
      FilledIn(sha, capacity, y, acts, c, k) <==>
        FilledIn(sha, capacity, y, acts[..n], c, k) || Fills(DoAll(sha, capacity, y, acts[..n]), acts[n], c, k)
  {
    hide DoAll, Fills;
    var n := |acts| - 1;
    assert forall i :: 0 <= i < n ==> acts[..n][..i] == acts[..i] && acts[..n][i] == acts[i];
    if FilledIn(sha, capacity, y, acts[..n], c, k) {
      var i :| 0 <= i < n && Fills(DoAll(sha, capacity, y, acts[..n][..i]), acts[..n][i], c, k);
      assert Fills(DoAll(sha, capacity, y, acts[..i]), acts[i], c, k);
    }
    if FilledIn(sha, capacity, y, acts, c, k) {
      var i :| 0 <= i < |acts| && Fills(DoAll(sha, capacity, y, acts[..i]), acts[i], c, k);
      if i < n { assert Fills(DoAll(sha, capacity, y, acts[..n][..i]), acts[..n][i], c, k); }
    }
  }

  /**
   A clone that waits behind its canonical shows the canonical's content at the end of a run exactly
   when somewhere in it a worker holding the canonical's token ran its transaction for that clone,
   having listed it; otherwise it still waits. New uploads, clones, scans, restarts and other jobs
   make no difference.
   */
  lemma {:induction false} FilledIffPropagated(sha: Sha, capacity: nat, y: Sys, acts: seq<Act>, c: nat, k: nat)
    requires Right(y) && Waits(y, c, k)
    ensures var end := DoAll(sha, capacity, y, acts);
      if FilledIn(sha, capacity, y, acts, c, k) then Shows(end, c, k) else Waits(end, c, k)
  {
    hide Do, Right, Waits, Shows, Fills;
    if acts != [] {
      var n := |acts| - 1;
      FilledIffPropagated(sha, capacity, y, acts[..n], c, k);
      AllRight(sha, capacity, y, acts[..n]);
      FilledSnoc(sha, capacity, y, acts, c, k);
      var mid := DoAll(sha, capacity, y, acts[..n]);
      if FilledIn(sha, capacity, y, acts[..n], c, k) {
        DoShows(sha, capacity, mid, acts[n], c, k);
      } else {
        DoWaits(sha, capacity, mid, acts[n], c, k);
      }
    }
  }

  // ---- no token, no filling ----

  /** Nobody holds the package: no token, no enqueuer about to make one. */
  predicate Unattended(y: Sys, c: nat) {
    c !in y.due && Absent(y.q, c)
  }

  predicate Absent(q: Q.Queue, c: nat) {
    c !in q.sending && c !in q.chan && c !in q.working
  }

  lemma UnattendedStays(sha: Sha, capacity: nat, y: Sys, act: Act, c: nat)
    requires Unattended(y, c) && c in y.st.db.t.pkgs && y.st.db.t.pkgs[c].mode == ZipWithMembers
    ensures Unattended(Do(sha, capacity, y, act), c)
    ensures forall k :: !Fills(y, act, c, k)
  {
    hide Exec, Q.MarkStep, Q.SendStep, Q.TakeStep, Q.FinishStep;
    QueueWithout(y.q, c, capacity, if act.Mark? || act.Send? || act.Finish? then act.id else 0);
  }

  /** No queue step but a mark makes a token. */
  lemma QueueWithout(q: Q.Queue, c: nat, capacity: nat, id: nat)
    requires Absent(q, c)
    ensures Absent(Q.IDLE, c) && (id != c ==> Absent(Q.MarkStep(q, id), c))
    ensures Absent(Q.SendStep(q, id, capacity), c) && Absent(Q.TakeStep(q), c) && Absent(Q.FinishStep(q, id), c)
  {
  }

  /**
   Once its canonical is unpacked and unattended, a clone that waits does so in every continuation:
   the pending list no longer has the canonical and nothing else enqueues it.
   */
  lemma {:induction false} StrandedForever(sha: Sha, capacity: nat, y: Sys, acts: seq<Act>, c: nat, k: nat)
    requires Right(y) && Waits(y, c, k) && Unattended(y, c)
    ensures var end := DoAll(sha, capacity, y, acts); Waits(end, c, k) && Unattended(end, c) && Right(end)
  {
    hide Do, Right, Fills, Unattended, RowsOf;
    if acts != [] {
      var n := |acts| - 1;
      StrandedForever(sha, capacity, y, acts[..n], c, k);
      var mid := DoAll(sha, capacity, y, acts[..n]);
      UnattendedStays(sha, capacity, mid, acts[n], c);
      DoWaits(sha, capacity, mid, acts[n], c, k);
      DoRight(sha, capacity, mid, acts[n]);
    }
  }

  lemma UnpackStrands(sha: Sha, st: State, p: nat, items: seq<Item>, errStore: Store, k: nat)
    requires Fine(st) && Pending(st.db.t, p) && IsClone(st.db.t, k, p) && UnpackTx(sha, st.db, p, items, errStore).Some?
    ensures var u := Exec(sha, st, Unpack(p, items, errStore)).db.t; IsClone(u, k, p) && Behind(u, p, k)
  {
    hide WellShaped, Fits, RowsOf, UnpackTx;
    FineParts(st);
    UnpackDid(sha, st.db, p, items, errStore);
    var u := Exec(sha, st, Unpack(p, items, errStore)).db.t;
    CloneAt(st.db.t, k, p);
    CloneAt(u, k, p);
  }

  /** The worker's unpack commits; then its propagation fails before reaching `k`, or the process stops. */
  function AfterFailure(p: nat, items: seq<Item>, errStore: Store, restart: bool): seq<Act> {
    [UnpackJob(p, items, errStore)] + if restart then [Restart] else [ListClones(p), Finish(p)]
  }

  lemma FailureLeaves(sha: Sha, capacity: nat, y: Sys, p: nat, items: seq<Item>, errStore: Store, restart: bool)
    requires HasJob(y, p, false) && Q.Inv(y.q) && (restart || p !in y.due)
    ensures var end := DoAll(sha, capacity, y, AfterFailure(p, items, errStore, restart));
      end.st.db == Exec(sha, y.st, Unpack(p, items, errStore)).db && Unattended(end, p)
  {
    hide Exec;
    var acts := AfterFailure(p, items, errStore, restart);
    assert acts[..1] == [UnpackJob(p, items, errStore)] && acts[..1][..0] == [];
    var y1 := Do(sha, capacity, y, acts[0]);
    assert DoAll(sha, capacity, y, acts[..1]) == y1;
    if restart {
      assert acts[..|acts| - 1] == acts[..1];
    } else {
      assert acts[..2][..1] == acts[..1] && acts[..|acts| - 1] == acts[..2];
      var y2 := Do(sha, capacity, y1, acts[1]);
      assert DoAll(sha, capacity, y, acts[..2]) == y2 && y2.q == y.q;
      LastToken(y.q, p);
    }
  }

  lemma LastToken(q: Q.Queue, p: nat)
    requires Q.Inv(q) && p in q.working
    ensures Absent(Q.FinishStep(q, p), p)
  {
    Q.FinishKeeps(q, p);
    var u := Q.FinishStep(q, p);
    assert Q.Tokens(u)[p] == multiset(q.inflight - {p})[p] == 0;
    assert p in u.chan ==> multiset(u.chan)[p] >= 1;
  }

  lemma {:induction false} DoAllConcat(sha: Sha, capacity: nat, y: Sys, a: seq<Act>, b: seq<Act>)
    ensures DoAll(sha, capacity, y, a + b) == DoAll(sha, capacity, DoAll(sha, capacity, y, a), b)
  {
    hide Do;
    if b == [] {
      assert a + b == a;
    } else {
      var n := |b| - 1;
      assert (a + b)[..|a + b| - 1] == a + b[..n];
      DoAllConcat(sha, capacity, y, a, b[..n]);
    }
  }

  /**
   The unpack commits and its propagation then fails, or the process dies: every clone made before
   stays raw_large with the original only, in every continuation.
   */
  lemma FailedPropagationStrandsClones(sha: Sha, capacity: nat, y: Sys, p: nat, items: seq<Item>, errStore: Store,
                                       restart: bool, k: nat, later: seq<Act>)
    requires Right(y) && HasJob(y, p, false) && (restart || p !in y.due)
    requires Pending(y.st.db.t, p) && IsClone(y.st.db.t, k, p) && UnpackTx(sha, y.st.db, p, items, errStore).Some?
    ensures var t := DoAll(sha, capacity, y, AfterFailure(p, items, errStore, restart) + later).st.db.t;
      IsClone(t, k, p) && Behind(t, p, k) && !Pending(t, p) && !Pending(t, k)
  {
    hide Do, Exec, UnpackTx, Right, RowsOf, AfterFailure, Unattended;
    var acts := AfterFailure(p, items, errStore, restart);
    RightIsFine(y);
    UnpackStrands(sha, y.st, p, items, errStore, k);
    FailureLeaves(sha, capacity, y, p, items, errStore, restart);
    AllRight(sha, capacity, y, acts);
    StrandedForever(sha, capacity, DoAll(sha, capacity, y, acts), later, p, k);
    DoAllConcat(sha, capacity, y, acts, later);
  }

  lemma RightIsFine(y: Sys)
    requires Right(y)
    ensures Fine(y.st) && Balanced(y.st.db) && Q.Inv(y.q)
  {
  }

  /**
   A clone whose canonical was read before the unpack and which is inserted once the canonical is
   unattended commits, and stays raw_large with the original only, in every continuation.
   */
  lemma LateCloneIsStranded(sha: Sha, capacity: nat, y: Sys, ticket: nat, id: nat, supplier: int, filename: Option<string>, later: seq<Act>)
    requires Right(y) && ticket in y.st.tickets && id !in y.st.db.t.pkgs
    requires var x := y.st.tickets[ticket];
      && x.canonical < id && Unattended(y, x.canonical) && x.snap.mode == RawLarge
      && x.canonical in y.st.db.t.pkgs && y.st.db.t.pkgs[x.canonical].mode == ZipWithMembers
    ensures var c := y.st.tickets[ticket].canonical;
      var t := DoAll(sha, capacity, y, [Request(Clone(id, ticket, supplier, filename))] + later).st.db.t;
      IsClone(t, id, c) && Behind(t, c, id) && !Pending(t, c) && !Pending(t, id)
  {
    hide WellShaped, Balanced, ClonePackage, RowsOf, Fits;
    var act := Request(Clone(id, ticket, supplier, filename));
    FineParts(y.st);
    CloneAlwaysCommits(y.st.db, id, y.st.tickets[ticket], supplier, filename);
    CloneShape(y.st.db, id, y.st.tickets[ticket], supplier, filename);
    UnattendedStays(sha, capacity, y, act, y.st.tickets[ticket].canonical);
    DoRight(sha, capacity, y, act);
    hide Do;
    assert [act][..0] == [] && DoAll(sha, capacity, y, []) == y;
    assert DoAll(sha, capacity, y, [act]) == Do(sha, capacity, y, act);
    StrandedForever(sha, capacity, Do(sha, capacity, y, act), later, y.st.tickets[ticket].canonical, id);
    DoAllConcat(sha, capacity, y, [act], later);
  }
}
