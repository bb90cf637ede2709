/**
 That operations of the coordinator get done: when each commit takes effect, and that an operation whose own calls succeed
 ends as promised, alone or against the phases of others (internal/coordinator/registry.go, repo.go).
 */
module CoordinatorProgress {
  import opened Bytes
  import opened ShardTable
  import opened Coordinator
  import Guards = CoordinatorGuards

  // ---- one commit, whatever went before ----

  /** The shard an operation sealed on its way to the promotion. */
  function SealedBy(op: Op): Option<SealedShard> {
    if op.Rotating? then Some(SealedShard(op.a.id, op.total, op.at)) else None
  }

  /** The target is still a standby, and active is exactly what the promotion expects. */
  predicate MayTakeOver(rows: Rows, target: int, sealed: Option<SealedShard>) {
    InState(rows, target, Standby) && StateIds(rows, Active) == Expected(sealed)
  }

  lemma CommitExactly(st: Registry, target: int, sealed: Option<SealedShard>, dbOk: bool)
    ensures var u := Commit(st, target, sealed, dbOk);
      && (u.ops, u.readOnly, u.entered) == (st.ops, st.readOnly, st.entered)
      && (if dbOk && MayTakeOver(st.rows, target, sealed)
          then TookOver(st.rows, u.rows, target, sealed) && StateIds(u.rows, Active) == {target} && u.promoted == st.promoted + 1
          else u == st)
  {
    hide PromoteStandby, TookOver, StateIds;
    PromotedIff(st.rows, target, sealed);
  }

  /**
   The commit of a rotation or a manual promotion, after any interleaving: it takes effect if and only if at that
   moment the target is a standby and the active shard is the one that was sealed, or none.
   */
  lemma PromotionCommitsIff(st: Registry, o: nat, dbOk: bool)
    requires o in st.ops && (st.ops[o].Promoting? || st.ops[o].Rotating?)
    ensures var op := st.ops[o]; var sealed := SealedBy(op); var u := Exec(st, CommitPromote(o, dbOk));
      && u.ops == st.ops - {o} && u.readOnly == st.readOnly
      && (if dbOk && MayTakeOver(st.rows, op.target, sealed)
          then TookOver(st.rows, u.rows, op.target, sealed) && StateIds(u.rows, Active) == {op.target}
          else u.rows == st.rows)
  {
    hide Commit, TookOver;
    var op := st.ops[o];
    CommitExactly(Drop(st, o), op.target, SealedBy(op), dbOk);
    if op.Rotating? && MayTakeOver(st.rows, op.target, SealedBy(op)) { assert op.a.id in StateIds(st.rows, Active); }
  }

  /**
   The commit of an automatic activation: it takes effect if and only if no shard is active and the probed one is still a standby.
   Otherwise it ends if a shard has become active, and goes on to the next standby if not.
   */
  lemma EnsureCommitsIff(st: Registry, o: nat, dbOk: bool)
    requires o in st.ops && st.ops[o].Ensuring? && st.ops[o].probed && st.ops[o].standbys != []
    ensures var standbys := st.ops[o].standbys; var u := Exec(st, EnsureCommit(o, dbOk));
      if dbOk && MayTakeOver(st.rows, standbys[0], None)
      then TookOver(st.rows, u.rows, standbys[0], None) && StateIds(u.rows, Active) == {standbys[0]} && o !in u.ops
      else
        && u.rows == st.rows
        && OpAt(u, o) == (if |standbys| == 1 || (dbOk && standbys[0] in st.rows && StateIds(st.rows, Active) != {}) then None
                          else Some(Ensuring(standbys[1..], false)))
  {
    hide PromoteStandby, TookOver, StateIds;
    PromotedIff(st.rows, st.ops[o].standbys[0], None);
    CommitExactly(st, st.ops[o].standbys[0], None, dbOk);
  }

  // ---- a rotation among the phases of others ----

  /** The operation a step belongs to. */
  function Owner(step: Step): Option<nat> {
    if step.Register? || step.Bootstrap? then None else Some(step.o)
  }

  predicate ByOthers(steps: seq<Step>, o: nat) {
    forall i :: 0 <= i < |steps| ==> Owner(steps[i]) != Some(o)
  }

  /** No other seal or promotion is committed. */
  predicate NoRival(steps: seq<Step>) {
    forall i :: 0 <= i < |steps| ==> !steps[i].CommitSeal? && !steps[i].CommitPromote?
  }

  lemma OthersKeepOp(st: Registry, step: Step, o: nat)
    requires Owner(step) != Some(o)
    ensures OpAt(Exec(st, step), o) == OpAt(st, o)
  {
    hide PromoteStandby, RegisterShard, Seed, SetShardState, StateIds, IsMax;
  }

  lemma {:induction false} RunKeepsOp(st: Registry, steps: seq<Step>, o: nat)
    requires ByOthers(steps, o)
    ensures OpAt(Run(st, steps), o) == OpAt(st, o)
  {
    hide Exec;
    if steps != [] {
      var n := |steps| - 1;
      RunKeepsOp(st, steps[..n], o);
      OthersKeepOp(Run(st, steps[..n]), steps[n], o);
    }
  }

  predicate Pair(rows: Rows, active: int, target: int) {
    InState(rows, active, Active) && InState(rows, target, Standby)
  }

  lemma PairIsExpected(rows: Rows, active: int, target: int, total: nat, at: nat)
    requires SingleActive(rows) && Pair(rows, active, target)
    ensures MayTakeOver(rows, target, Some(SealedShard(active, total, at)))
  {
    assert forall k :: k in StateIds(rows, Active) <==> k == active;
  }

  lemma WriteKeepsPair(rows: Rows, active: int, target: int, id: int, total: nat)
    requires Keyed(rows) && Pair(rows, active, target) && id != target
    ensures Pair(SetShardState(rows, id, Active, total, None).0, active, target)
  {
    hide SetShardState, Keyed;
    SetStateExactly(rows, id, Active, total, None);
    assert active in StateIds(rows, Active);
  }

  lemma EnsureKeepsPair(st: Registry, o: nat, dbOk: bool, active: int, target: int)
    requires Pair(st.rows, active, target)
    ensures Exec(st, EnsureCommit(o, dbOk)).rows == st.rows
  {
    hide Commit, PromoteStandby, TookOver;
    assert active in StateIds(st.rows, Active);
    if o in st.ops && st.ops[o].Ensuring? && st.ops[o].standbys != [] {
      CommitExactly(st, st.ops[o].standbys[0], None, dbOk);
    }
  }

  /** While a shard is active, nothing but a seal or another promotion changes which one, or takes the standby away. */
  lemma StepKeepsPair(st: Registry, step: Step, active: int, target: int)
    requires Inv(st) && Pair(st.rows, active, target) && !step.CommitSeal? && !step.CommitPromote?
    ensures Pair(Exec(st, step).rows, active, target)
  {
    hide Keyed, PromoteStandby, RegisterShard, Seed, SetShardState, StateIds, Commit;
    if !WritesRows(step) { Guards.PhaseRows(st, step); }
    match step
    case EnsureCommit(o, dbOk) => EnsureKeepsPair(st, o, dbOk, active, target);
    case CheckWrite(o, dbOk) =>
      if o in st.ops && st.ops[o].CheckedStats? {
        assert SnapOf(st.ops[o]) == Some(st.ops[o].a);
        WriteKeepsPair(st.rows, active, target, st.ops[o].a.id, st.ops[o].total);
      }
    case Register(uuid, url, max, dbOk) =>
      if IsMax(st.rows, max) { RegisterOneWay(st.rows, uuid, url, max); }
    case Bootstrap(id, uuid, s, url, dbOk) => SeedOneWay(st.rows, id, uuid, s, url);
    case _ =>
  }

  lemma {:induction false} RunKeepsPair(st: Registry, steps: seq<Step>, active: int, target: int)
    requires Inv(st) && Pair(st.rows, active, target) && NoRival(steps)
    ensures Pair(Run(st, steps).rows, active, target)
  {
    hide Exec, Inv, Pair;
    if steps != [] {
      var n := |steps| - 1;
      RunKeeps(st, steps[..n]);
      RunKeepsPair(st, steps[..n], active, target);
      StepKeepsPair(Run(st, steps[..n]), steps[n], active, target);
    }
  }

  /** How a promotion that replaces `active` begins: the timer's rotation or a confirmed request. */
  predicate Begins(step: Step, o: nat, active: int, target: int) {
    step == StartRotate(o, active, target) || step == StartPromote(o, target, Some(active), true)
  }

  /** The state in which the operation commits: its calls have succeeded, and others ran in between. */
  function UpToCommit(st: Registry, begin: Step, o: nat, total: nat, at: nat, d1: seq<Step>, d2: seq<Step>, d3: seq<Step>): Registry {
    var s1 := Run(Exec(st, begin), d1);
    var s2 := Run(Exec(s1, Probe(o, true)), d2);
    Run(Exec(s2, RemoteSeal(o, true, true, total, at)), d3)
  }

  lemma ReachesCommit(st: Registry, begin: Step, o: nat, active: int, target: int, total: nat, at: nat,
                      d1: seq<Step>, d2: seq<Step>, d3: seq<Step>)
    requires Pair(st.rows, active, target) && o !in st.ops && Begins(begin, o, active, target)
    requires ByOthers(d1, o) && ByOthers(d2, o) && ByOthers(d3, o)
    ensures var op := OpAt(UpToCommit(st, begin, o, total, at, d1, d2, d3), o);
      op.Some? && op.value.Rotating? && op.value.target == target && SealedBy(op.value) == Some(SealedShard(active, total, at))
  {
    hide Run, StateIds, ByOthers;
    var s0 := Exec(st, begin);
    assert OpAt(s0, o) == Some(Probing(target, Some(SnapAt(st.rows, active)), begin.StartRotate?));
    var s1 := Run(s0, d1);
    RunKeepsOp(s0, d1, o);
    var t1 := Exec(s1, Probe(o, true));
    RunKeepsOp(t1, d2, o);
    var s2 := Run(t1, d2);
    RunKeepsOp(Exec(s2, RemoteSeal(o, true, true, total, at)), d3, o);
  }

  lemma StaysPair(st: Registry, begin: Step, o: nat, active: int, target: int, total: nat, at: nat,
                  d1: seq<Step>, d2: seq<Step>, d3: seq<Step>)
    requires Inv(st) && Pair(st.rows, active, target) && Begins(begin, o, active, target)
    requires NoRival(d1) && NoRival(d2) && NoRival(d3)
    ensures var u := UpToCommit(st, begin, o, total, at, d1, d2, d3); Inv(u) && Pair(u.rows, active, target)
  {
    hide Exec, Inv, Run, NoRival, Pair;
    var s0 := Exec(st, begin);
    StepKeeps(st, begin);
    StepKeepsPair(st, begin, active, target);
    RunKeeps(s0, d1);
    RunKeepsPair(s0, d1, active, target);
    var s1 := Run(s0, d1);
    var t1 := Exec(s1, Probe(o, true));
    StepKeeps(s1, Probe(o, true));
    StepKeepsPair(s1, Probe(o, true), active, target);
    RunKeeps(t1, d2);
    RunKeepsPair(t1, d2, active, target);
    var s2 := Run(t1, d2);
    var seal := RemoteSeal(o, true, true, total, at);
    StepKeeps(s2, seal);
    StepKeepsPair(s2, seal, active, target);
    RunKeeps(Exec(s2, seal), d3);
    RunKeepsPair(Exec(s2, seal), d3, active, target);
  }

  /**
   A rotation or confirmed promotion whose own calls succeed, with any steps of other operations between its phases: the
   target takes over from the sealed shard if and only if, when it commits, the target is still
   a standby and that shard the active one; otherwise no row changes.
   */
  lemma RotationCommitsIff(st: Registry, begin: Step, o: nat, active: int, target: int, total: nat, at: nat,
                           d1: seq<Step>, d2: seq<Step>, d3: seq<Step>)
    requires Pair(st.rows, active, target) && o !in st.ops && Begins(begin, o, active, target)
    requires ByOthers(d1, o) && ByOthers(d2, o) && ByOthers(d3, o)
    ensures var u := UpToCommit(st, begin, o, total, at, d1, d2, d3); var end := Exec(u, CommitPromote(o, true));
      var sealed := Some(SealedShard(active, total, at));
      if MayTakeOver(u.rows, target, sealed)
      then TookOver(u.rows, end.rows, target, sealed) && StateIds(end.rows, Active) == {target}
      else end.rows == u.rows
  {
    hide Exec, Run, UpToCommit, TookOver, MayTakeOver;
    ReachesCommit(st, begin, o, active, target, total, at, d1, d2, d3);
    PromotionCommitsIff(UpToCommit(st, begin, o, total, at, d1, d2, d3), o, true);
  }

  /**
   Such a rotation goes through against every interleaving in which no other seal or promotion commits: size checks with
   their unlocked writes, activations, registrations, restarts, bootstraps and the calls of other rotations
   cannot stop it. The target ends as the one active shard and the old one sealed.
   */
  lemma RotationGoesThrough(st: Registry, begin: Step, o: nat, active: int, target: int, total: nat, at: nat,
                            d1: seq<Step>, d2: seq<Step>, d3: seq<Step>)
    requires Inv(st) && Pair(st.rows, active, target) && o !in st.ops && Begins(begin, o, active, target)
    requires ByOthers(d1, o) && ByOthers(d2, o) && ByOthers(d3, o) && NoRival(d1) && NoRival(d2) && NoRival(d3)
    ensures var end := Exec(UpToCommit(st, begin, o, total, at, d1, d2, d3), CommitPromote(o, true));
      && StateIds(end.rows, Active) == {target} && InState(end.rows, active, Sealed)
      && end.rows[active].totalBytes == total && end.rows[active].sealedAt == Some(at)
  {
    hide Exec, Run, UpToCommit, MayTakeOver, Keyed;
    StaysPair(st, begin, o, active, target, total, at, d1, d2, d3);
    var u := UpToCommit(st, begin, o, total, at, d1, d2, d3);
    Guards.InvKeyed(u);
    assert SingleActive(u.rows) by { Single(u.rows); }
    PairIsExpected(u.rows, active, target, total, at);
    RotationCommitsIff(st, begin, o, active, target, total, at, d1, d2, d3);
  }

  lemma Single(rows: Rows)
    requires Keyed(rows)
    ensures SingleActive(rows)
  {
  }

  /** Alone, it changes those two rows and nothing else, and the old shard refuses packages. */
  lemma RotationAlone(st: Registry, begin: Step, o: nat, active: int, target: int, total: nat, at: nat)
    requires Inv(st) && Pair(st.rows, active, target) && o !in st.ops && Begins(begin, o, active, target)
    ensures var end := Exec(UpToCommit(st, begin, o, total, at, [], [], []), CommitPromote(o, true));
      && TookOver(st.rows, end.rows, target, Some(SealedShard(active, total, at))) && StateIds(end.rows, Active) == {target}
      && end.readOnly == st.readOnly + {st.rows[active].url} && end.ops == st.ops
  {
    hide PromoteStandby, TookOver, Inv, Keyed, StateIds, Commit;
    Guards.InvKeyed(st);
    Single(st.rows);
    PairIsExpected(st.rows, active, target, total, at);
    var u := UpToCommit(st, begin, o, total, at, [], [], []);
    assert u.rows == st.rows && u.readOnly == st.readOnly + {st.rows[active].url} by {
      Unhurried(st, begin, o, active, target, total, at);
    }
    ReachesCommit(st, begin, o, active, target, total, at, [], [], []);
    PromotionCommitsIff(u, o, true);
    assert u.ops - {o} == st.ops by { Unhurried(st, begin, o, active, target, total, at); }
  }

  lemma Unhurried(st: Registry, begin: Step, o: nat, active: int, target: int, total: nat, at: nat)
    requires Pair(st.rows, active, target) && o !in st.ops && Begins(begin, o, active, target)
    ensures var u := UpToCommit(st, begin, o, total, at, [], [], []);
      u.rows == st.rows && u.readOnly == st.readOnly + {st.rows[active].url} && u.ops - {o} == st.ops
  {
    hide StateIds;
    var s0 := Exec(st, begin);
    assert s0 == st.(ops := st.ops[o := Probing(target, Some(SnapAt(st.rows, active)), begin.StartRotate?)]);
    var s1 := Exec(s0, Probe(o, true));
    assert s1 == st.(ops := st.ops[o := SealingFirst(target, SnapAt(st.rows, active), begin.StartRotate?)]);
    assert Run(s0, []) == s0 && Run(s1, []) == s1;
  }

  // ---- activation without an active shard ----

  /** A confirmed promotion of a reachable standby, with no shard active. */
  lemma ActivationAlone(st: Registry, o: nat, target: int)
    requires InState(st.rows, target, Standby) && StateIds(st.rows, Active) == {} && o !in st.ops
    ensures var end := Exec(Exec(Exec(st, StartPromote(o, target, None, true)), Probe(o, true)), CommitPromote(o, true));
      TookOver(st.rows, end.rows, target, None) && StateIds(end.rows, Active) == {target} && end.ops == st.ops
  {
    hide Commit, PromoteStandby, TookOver, StateIds;
    var s2 := Exec(Exec(st, StartPromote(o, target, None, true)), Probe(o, true));
    assert s2 == st.(ops := st.ops[o := Promoting(target)]);
    PromotionCommitsIff(s2, o, true);
  }

  /** The automatic activation left to itself: probe the standbys in turn, promote the first that answers. */
  function EnsureSteps(o: nat, probes: seq<bool>): seq<Step> {
    if probes == [] then [] else
    [EnsureProbe(o, probes[0])] + if probes[0] then [EnsureCommit(o, true)] else EnsureSteps(o, probes[1..])
  }

  predicate FirstReachable(probes: seq<bool>, k: int) {
    0 <= k < |probes| && probes[k] && forall i :: 0 <= i < k ==> !probes[i]
  }

  lemma {:induction false} RunFront(st: Registry, step: Step, steps: seq<Step>)
    ensures Run(st, [step] + steps) == Run(Exec(st, step), steps)
  {
    hide Exec;
    if steps == [] {
      assert ([step] + steps)[..0] == [] && ([step] + steps)[0] == step;
    } else {
      var n := |steps| - 1;
      RunFront(st, step, steps[..n]);
      assert ([step] + steps)[..n + 1] == [step] + steps[..n] && ([step] + steps)[n + 1] == steps[n];
    }
  }

  predicate Idle(st: Registry, standbys: seq<int>) {
    StateIds(st.rows, Active) == {} && forall i :: 0 <= i < |standbys| ==> InState(st.rows, standbys[i], Standby)
  }

  lemma {:induction false} EnsureFrom(st: Registry, o: nat, standbys: seq<int>, probes: seq<bool>)
    requires Idle(st, standbys) && |probes| == |standbys| > 0 && OpAt(st, o) == Some(Ensuring(standbys, false))
    ensures var end := Run(st, EnsureSteps(o, probes));
      && o !in end.ops
      && ((forall i :: 0 <= i < |probes| ==> !probes[i]) ==> end.rows == st.rows)
      && (forall k :: FirstReachable(probes, k) ==> TookOver(st.rows, end.rows, standbys[k], None) && StateIds(end.rows, Active) == {standbys[k]})
    decreases |probes|
  {
    hide Commit, PromoteStandby, TookOver, StateIds;
    var s1 := Exec(st, EnsureProbe(o, probes[0]));
    if probes[0] {
      RunFront(st, EnsureProbe(o, true), [EnsureCommit(o, true)]);
      RunFront(s1, EnsureCommit(o, true), []);
      assert [EnsureCommit(o, true)] + [] == [EnsureCommit(o, true)];
      assert OpAt(s1, o) == Some(Ensuring(standbys, true));
      EnsureCommitsIff(s1, o, true);
      forall k | FirstReachable(probes, k) ensures k == 0 {}
    } else {
      RunFront(st, EnsureProbe(o, false), EnsureSteps(o, probes[1..]));
      if |probes| > 1 {
        EnsureFrom(s1, o, standbys[1..], probes[1..]);
        forall k | FirstReachable(probes, k) ensures k > 0 && FirstReachable(probes[1..], k - 1) && standbys[1..][k - 1] == standbys[k] {}
      } else {
        assert EnsureSteps(o, probes[1..]) == [];
      }
    }
  }

  /**
   With no active shard, the automatic activation ends with the first standby that answers as the one active shard and
   every other row as it was; it fails to produce an active shard only if none of them answers.
   */
  lemma EnsureActivatesFirstReachable(st: Registry, o: nat, standbys: seq<int>, probes: seq<bool>)
    requires Idle(st, standbys) && |probes| == |standbys| > 0 && o !in st.ops
    ensures var end := Run(Exec(st, StartEnsure(o, standbys)), EnsureSteps(o, probes));
      && o !in end.ops
      && (StateIds(end.rows, Active) == {} <==> forall i :: 0 <= i < |probes| ==> !probes[i])
      && (forall k :: FirstReachable(probes, k) ==> TookOver(st.rows, end.rows, standbys[k], None) && StateIds(end.rows, Active) == {standbys[k]})
  {
    hide Run, EnsureSteps, TookOver, StateIds;
    EnsureFrom(Exec(st, StartEnsure(o, standbys)), o, standbys, probes);
    if exists i :: 0 <= i < |probes| && probes[i] {
      var k := SomeFirst(probes);
    }
  }

  function SomeFirst(probes: seq<bool>): (k: nat)
    requires exists i :: 0 <= i < |probes| && probes[i]
    ensures FirstReachable(probes, k)
  {
    if probes[0] then 0 else 1 + SomeFirst(probes[1..])
  }

  // ---- seals and size checks ----

  /** A manual seal whose calls succeed: the row is sealed with size and time, the shard refuses packages, no other row changes. */
  lemma SealAlone(st: Registry, o: nat, id: int, total: nat, at: nat)
    requires Inv(st) && InState(st.rows, id, Active) && o !in st.ops
    ensures var end := Exec(Exec(Exec(st, StartSeal(o, id)), RemoteSeal(o, true, true, total, at)), CommitSeal(o, true));
      && OnlyRow(st.rows, end.rows, id, st.rows[id].(state := Sealed, totalBytes := total, sealedAt := Some(at)))
      && end.readOnly == st.readOnly + {st.rows[id].url} && end.ops == st.ops
  {
    hide SetShardState, Keyed, StateIds, OnlyRow;
    Guards.InvKeyed(st);
    SetStateExactly(st.rows, id, Sealed, total, Some(at));
    var s2 := Exec(Exec(st, StartSeal(o, id)), RemoteSeal(o, true, true, total, at));
    assert s2 == st.(readOnly := st.readOnly + {st.rows[id].url}, ops := st.ops[o := SealReplied(SnapAt(st.rows, id), total, at)]);
  }

  /** A size check left to itself writes the size it fetched and leaves the shard active. */
  lemma CheckAlone(st: Registry, o: nat, id: int, total: nat)
    requires Inv(st) && InState(st.rows, id, Active) && o !in st.ops
    ensures var end := Exec(Exec(Exec(st, StartCheck(o, id)), CheckFetch(o, true, total)), CheckWrite(o, true));
      && OnlyRow(st.rows, end.rows, id, st.rows[id].(totalBytes := total, sealedAt := None)) && InState(end.rows, id, Active)
      && end.readOnly == st.readOnly && end.ops == st.ops
  {
    hide SetShardState, Keyed, StateIds, OnlyRow;
    Guards.InvKeyed(st);
    OnlyActive(st, id);
    SetStateExactly(st.rows, id, Active, total, None);
    RowIs(st.rows, SetShardState(st.rows, id, Active, total, None).0, id, st.rows[id].(totalBytes := total, sealedAt := None));
    var s2 := Exec(Exec(st, StartCheck(o, id)), CheckFetch(o, true, total));
    assert s2 == st.(ops := st.ops[o := CheckedStats(SnapAt(st.rows, id), total)]);
  }

  lemma RowIs(rows: Rows, after: Rows, id: int, row: Shard)
    ensures OnlyRow(rows, after, id, row) ==> InState(after, id, row.state)
  {
  }

  lemma OnlyActive(st: Registry, id: int)
    requires Inv(st) && InState(st.rows, id, Active)
    ensures StateIds(st.rows, Active) - {id} == {}
  {
    assert forall k :: k in StateIds(st.rows, Active) ==> k == id;
  }

  // ---- registrations and bootstrap entries ----

  lemma Restarted(rows: Rows, uuid: string, id: int, url: string)
    requires FoundAt(rows, uuid, id, url)
    ensures HasSealedRow(rows, uuid) <==> InState(rows, id, Sealed)
  {
    assert id in HasUuid(rows, uuid);
    forall k | k in rows && rows[k].uuid == Some(uuid) ensures k == id { assert k in HasUuid(rows, uuid); }
  }

  /** A registered shard comes back under its id at the new address, read-only exactly if its row is sealed. */
  lemma KnownShardReturns(st: Registry, uuid: string, url: string, max: int, id: int)
    requires Inv(st) && IsMax(st.rows, max) && id in st.rows && st.rows[id].uuid == Some(uuid)
    ensures var u := Exec(st, Register(uuid, url, max, true));
      && FoundAt(u.rows, uuid, id, url) && OnlyRow(st.rows, u.rows, id, st.rows[id].(url := url))
      && u.readOnly == (if st.rows[id].state == Sealed then st.readOnly + {url} else st.readOnly - {url}) && u.ops == st.ops
  {
    hide Inv, Keyed, RegisterShard, HasSealedRow, StateIds;
    Guards.InvKeyed(st);
    KnownRegisters(st.rows, uuid, url, max, id);
    Restarted(RegisterShard(st.rows, uuid, url, max).0, uuid, id, url);
  }

  lemma OneStandbyMore(rows: Rows, after: Rows, id: int, row: Shard)
    requires id !in rows && OnlyRow(rows, after, id, row) && row.state == Standby
    ensures StateIds(after, Standby) - StateIds(rows, Standby) == {id}
  {
    forall k ensures k in StateIds(after, Standby) - StateIds(rows, Standby) <==> k == id {
      assert k in after && k != id ==> k in rows && after[k] == rows[k];
    }
  }

  /** A new shard is entered as a standby under the next id, found by its uuid, and takes no seal from anyone. */
  lemma NewShardEnters(st: Registry, uuid: string, url: string, max: int)
    requires Inv(st) && IsMax(st.rows, max) && HasUuid(st.rows, uuid) == {} && max + 1 < 0x8000
    ensures var u := Exec(st, Register(uuid, url, max, true));
      && FoundAt(u.rows, uuid, max + 1, url) && OnlyRow(st.rows, u.rows, max + 1, Shard(Some(uuid), Standby, url, 0, None))
      && u.readOnly == st.readOnly - {url} && u.entered == st.entered + 1 && u.ops == st.ops
  {
    hide Inv, Keyed, RegisterShard, HasSealedRow, HasUuid, StateIds;
    Guards.InvKeyed(st);
    NewRegisters(st.rows, uuid, url, max);
    var after := RegisterShard(st.rows, uuid, url, max).0;
    Restarted(after, uuid, max + 1, url);
    OneStandbyMore(st.rows, after, max + 1, Shard(Some(uuid), Standby, url, 0, None));
  }

  lemma BootstrapIs(st: Registry, id: int, uuid: Option<string>, s: ShardState, url: string)
    ensures Exec(st, Bootstrap(id, uuid, s, url, true)) == Entered(st, Seed(st.rows, id, uuid, s, url).0, true)
  {
    hide Seed, StateIds;
  }

  /** A bootstrap entry with a new id is entered in its own state, where the keys allow it. */
  lemma BootstrapEnters(st: Registry, id: int, uuid: Option<string>, s: ShardState, url: string)
    requires Inv(st) && id !in st.rows && ValidId(id)
    requires (s == Active ==> StateIds(st.rows, Active) == {}) && (uuid.Some? ==> HasUuid(st.rows, uuid.value) == {})
    ensures var u := Exec(st, Bootstrap(id, uuid, s, url, true));
      && OnlyRow(st.rows, u.rows, id, Shard(uuid, s, url, 0, None))
      && (s == Standby ==> u.entered == st.entered + 1) && u.readOnly == st.readOnly && u.ops == st.ops
  {
    hide Inv, Keyed, Seed, HasUuid, StateIds, OnlyRow, Exec;
    Guards.InvKeyed(st);
    SeedInserts(st.rows, id, uuid, s, url);
    BootstrapIs(st, id, uuid, s, url);
    if s == Standby { OneStandbyMore(st.rows, Seed(st.rows, id, uuid, s, url).0, id, Shard(uuid, s, url, 0, None)); }
  }
}
