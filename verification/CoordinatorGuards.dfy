/** What the registry promises about the shards themselves: sealed means read-only, ids route forever. */
module CoordinatorGuards {
  import opened Bytes
  import opened ShardTable
  import opened Coordinator
  import GlobalId

  // ---- a sealed row's shard is read-only ----

  /** The remote seal has been acknowledged. */
  predicate HasReply(op: Op) {
    op.SealReplied? || op.Rotating?
  }

  /** The row an operation is going to seal. */
  function SealOf(op: Op): Option<Snap> {
    if op.Checking? || op.CheckedStats? then None else SnapOf(op)
  }

  ghost predicate Guarded(st: Registry) {
    && Inv(st)
    && (forall id :: InState(st.rows, id, Sealed) ==> st.rows[id].url in st.readOnly)
    && (forall o :: o in st.ops && SealOf(st.ops[o]).Some? ==> Current(st, SealOf(st.ops[o]).value))
    && (forall o :: o in st.ops && HasReply(st.ops[o]) ==> st.ops[o].a.url in st.readOnly)
  }

  predicate Current(st: Registry, a: Snap) {
    a.id in st.rows && st.rows[a.id].url == a.url
  }

  /**
   When a shard may start at `url`: no operation is about to seal its row at another address, and, unless
   its row is sealed, no operation holds a seal reply from that address and no sealed row has it.
   */
  ghost predicate StartSafe(st: Registry, uuid: string, url: string) {
    && (forall o :: o in st.ops && SealOf(st.ops[o]).Some? ==>
          var a := SealOf(st.ops[o]).value; a.id in st.rows && st.rows[a.id].uuid == Some(uuid) ==> a.url == url)
    && (HasSealedRow(st.rows, uuid)
        || ((forall o :: o in st.ops && HasReply(st.ops[o]) ==> st.ops[o].a.url != url)
            && (forall id :: InState(st.rows, id, Sealed) ==> st.rows[id].url != url)))
  }

  /** Shards start only where that is safe, and bootstrap seeds no sealed rows and changes no address. */
  ghost predicate Steady(st: Registry, step: Step) {
    match step
    case Register(uuid, url, max, dbOk) =>
      dbOk && IsMax(st.rows, max) && RegisterShard(st.rows, uuid, url, max).1 ==> StartSafe(st, uuid, url)
    case Bootstrap(id, _, s, url, _) => s != Sealed && (id in st.rows && Blank(st.rows[id].url) ==> st.rows[id].url == url)
    case _ => true
  }

  /** From `a` to `b` no row changed its address, and rows sealed on the way are read-only already. */
  ghost predicate SealsOnlyReadOnly(a: Rows, b: Rows, readOnly: set<string>) {
    && (forall id :: id in a ==> id in b && b[id].url == a[id].url)
    && (forall id :: InState(b, id, Sealed) ==> InState(a, id, Sealed) || b[id].url in readOnly)
  }

  lemma GuardedAfter(st: Registry, u: Registry)
    requires Guarded(st) && Inv(u) && st.readOnly <= u.readOnly && SealsOnlyReadOnly(st.rows, u.rows, u.readOnly)
    requires forall o :: o in u.ops && SealOf(u.ops[o]).Some? ==> Current(st, SealOf(u.ops[o]).value)
    requires forall o :: o in u.ops && HasReply(u.ops[o]) ==> u.ops[o].a.url in u.readOnly
    ensures Guarded(u)
  {
  }

  lemma PhaseGuards(st: Registry, step: Step)
    requires Guarded(st) && !WritesRows(step)
    ensures Guarded(Exec(st, step))
  {
    hide Exec, Inv;
    var u := Exec(st, step);
    PhaseKeeps(st, step);
    PhaseRows(st, step);
    ReadOnlyGrows(st, step);
    forall o | o in u.ops
      ensures SealOf(u.ops[o]).Some? ==> Current(st, SealOf(u.ops[o]).value)
      ensures HasReply(u.ops[o]) ==> u.ops[o].a.url in u.readOnly
    {
      PhaseOp(st, step, o);
    }
    GuardedAfter(st, u);
  }

  /** An operation in progress acts on a current row copy, and claims a reply only from a read-only shard. */
  lemma PhaseOp(st: Registry, step: Step, o: nat)
    requires Guarded(st) && !WritesRows(step) && o in Exec(st, step).ops
    ensures var u := Exec(st, step);
      && (SealOf(u.ops[o]).Some? ==> Current(st, SealOf(u.ops[o]).value))
      && (HasReply(u.ops[o]) ==> u.ops[o].a.url in u.readOnly)
  {
    hide Inv, StateIds, SealRemotely;
    if step.RemoteSeal? && step.o in st.ops {
      var op := st.ops[step.o];
      if op.SealRequested? { SealRemotelyOp(st, step.o, op.a, SealReplied(op.a, step.total, step.at), step.reached, step.replied, o); }
      if op.SealingFirst? {
        SealRemotelyOp(st, step.o, op.a, Rotating(op.target, op.a, step.total, step.at, op.rotate), step.reached, step.replied, o);
      }
    }
  }

  lemma SealRemotelyOp(st: Registry, o: nat, a: Snap, next: Op, reached: bool, replied: bool, q: nat)
    requires Guarded(st) && Current(st, a) && SealOf(next) == Some(a) && q in SealRemotely(st, o, a, next, reached, replied).ops
    requires HasReply(next) ==> next.a == a
    ensures var u := SealRemotely(st, o, a, next, reached, replied);
      && (SealOf(u.ops[q]).Some? ==> Current(st, SealOf(u.ops[q]).value))
      && (HasReply(u.ops[q]) ==> u.ops[q].a.url in u.readOnly)
  {
  }

  lemma PromoteSeals(st: Registry, target: int, sealed: Option<SealedShard>, dbOk: bool, readOnly: set<string>)
    requires sealed.Some? && sealed.value.id in st.rows ==> st.rows[sealed.value.id].url in readOnly
    ensures SealsOnlyReadOnly(st.rows, Commit(st, target, sealed, dbOk).rows, readOnly)
  {
  }

  lemma SetStateSeals(rows: Rows, id: int, s: ShardState, total: nat, at: Option<nat>, readOnly: set<string>)
    requires s == Sealed && id in rows ==> rows[id].url in readOnly
    ensures SealsOnlyReadOnly(rows, SetShardState(rows, id, s, total, at).0, readOnly)
  {
  }

  lemma SeedSeals(rows: Rows, id: int, uuid: Option<string>, s: ShardState, url: string, readOnly: set<string>)
    requires s != Sealed && (id in rows && Blank(rows[id].url) ==> rows[id].url == url)
    ensures SealsOnlyReadOnly(rows, Seed(rows, id, uuid, s, url).0, readOnly)
  {
  }

  lemma SealsRefl(rows: Rows, readOnly: set<string>)
    ensures SealsOnlyReadOnly(rows, rows, readOnly)
  {
  }

  lemma WriteSeals(st: Registry, step: Step)
    requires Guarded(st) && WritesRows(step) && !step.Register? && Steady(st, step)
    ensures SealsOnlyReadOnly(st.rows, Exec(st, step).rows, st.readOnly)
  {
    hide PromoteStandby, RegisterShard, Seed, SetShardState, StateIds, SealsOnlyReadOnly, Inv;
    SealsRefl(st.rows, st.readOnly);
    match step
    case CommitSeal(o, dbOk) =>
      if o in st.ops && st.ops[o].SealReplied? {
        SetStateSeals(st.rows, st.ops[o].a.id, Sealed, st.ops[o].total, Some(st.ops[o].at), st.readOnly);
      }
    case CommitPromote(o, dbOk) =>
      if o in st.ops && st.ops[o].Promoting? { PromoteSeals(Drop(st, o), st.ops[o].target, None, dbOk, st.readOnly); }
      if o in st.ops && st.ops[o].Rotating? {
        var op := st.ops[o];
        PromoteSeals(Drop(st, o), op.target, Some(SealedShard(op.a.id, op.total, op.at)), dbOk, st.readOnly);
      }
    case EnsureCommit(o, dbOk) =>
      if o in st.ops && st.ops[o].Ensuring? && st.ops[o].standbys != [] {
        PromoteSeals(st, st.ops[o].standbys[0], None, dbOk, st.readOnly);
      }
    case CheckWrite(o, dbOk) =>
      if o in st.ops && st.ops[o].CheckedStats? {
        SetStateSeals(st.rows, st.ops[o].a.id, Active, st.ops[o].total, None, st.readOnly);
      }
    case Bootstrap(id, uuid, s, url, dbOk) => SeedSeals(st.rows, id, uuid, s, url, st.readOnly);
  }

  lemma WriteOps(st: Registry, step: Step, o: nat)
    requires WritesRows(step) && !step.Register? && o in Exec(st, step).ops
    ensures var u := Exec(st, step);
      u.readOnly == st.readOnly && (SealOf(u.ops[o]).Some? || HasReply(u.ops[o]) ==> o in st.ops && u.ops[o] == st.ops[o])
  {
    hide PromoteStandby, RegisterShard, Seed, SetShardState, StateIds;
  }

  lemma StepGuards(st: Registry, step: Step)
    requires Guarded(st) && Steady(st, step)
    ensures Guarded(Exec(st, step))
  {
    hide Inv, Exec, SealsOnlyReadOnly, RegisterShard, StartSafe;
    if step.Register? {
      if step.dbOk && IsMax(st.rows, step.max) && RegisterShard(st.rows, step.uuid, step.url, step.max).1 {
        StartKeepsGuardedIff(st, step.uuid, step.url, step.max);
      } else {
        NotStarted(st, step);
      }
    } else if WritesRows(step) {
      WriteKeeps(st, step);
      WriteSeals(st, step);
      var u := Exec(st, step);
      forall o | o in u.ops ensures (SealOf(u.ops[o]).Some? || HasReply(u.ops[o]) ==> o in st.ops && u.ops[o] == st.ops[o]) && u.readOnly == st.readOnly {
        WriteOps(st, step, o);
      }
      WriteReadOnly(st, step);
      GuardedAfter(st, u);
    } else {
      PhaseGuards(st, step);
    }
  }

  lemma NotStarted(st: Registry, step: Step)
    requires step.Register? && (!step.dbOk || !IsMax(st.rows, step.max) || !RegisterShard(st.rows, step.uuid, step.url, step.max).1)
    ensures Exec(st, step) == st
  {
    hide RegisterShard;
  }

  /** What a start does: the row, old or new, gets the address; nothing else about the rows changes. */
  lemma StartRows(rows: Rows, uuid: string, url: string, max: int)
    requires IsMax(rows, max) && Keyed(rows) && RegisterShard(rows, uuid, url, max).1
    ensures var after := RegisterShard(rows, uuid, url, max).0;
      && (forall id :: id in rows ==> id in after && after[id] == if rows[id].uuid == Some(uuid) then rows[id].(url := url) else rows[id])
      && (forall id :: id in after && id !in rows ==> after[id].state == Standby)
      && (HasSealedRow(after, uuid) <==> HasSealedRow(rows, uuid))
  {
    hide UniqueUuid, SingleActive;
    var after := RegisterShard(rows, uuid, url, max).0;
    assert forall id :: id in rows && rows[id].uuid == Some(uuid) ==> id in HasUuid(rows, uuid);
    if id :| id in rows && rows[id].uuid == Some(uuid) && rows[id].state == Sealed { assert id in after; }
    if id :| id in after && after[id].uuid == Some(uuid) && after[id].state == Sealed { assert id in rows; }
  }

  /**
   A restart loses the read-only flag unless the row is sealed already. So a start keeps "sealed means
   read-only" exactly when it is safe: no seal reply is still waiting to be written down.
   */
  lemma StartKeepsGuardedIff(st: Registry, uuid: string, url: string, max: int)
    requires Guarded(st) && IsMax(st.rows, max) && RegisterShard(st.rows, uuid, url, max).1
    ensures Guarded(Exec(st, Register(uuid, url, max, true))) <==> StartSafe(st, uuid, url)
  {
    hide Keyed, RegisterShard, Inv, HasSealedRow, StateIds;
    InvKeyed(st);
    StartRows(st.rows, uuid, url, max);
    StepKeeps(st, Register(uuid, url, max, true));
    var u := Exec(st, Register(uuid, url, max, true));
    assert u.ops == st.ops && u.rows == RegisterShard(st.rows, uuid, url, max).0;
    if StartSafe(st, uuid, url) {
      StartGuards(st, u, uuid, url);
    } else if Guarded(u) {
      StartWasSafe(st, u, uuid, url);
    }
  }

  lemma InvKeyed(st: Registry)
    requires Inv(st)
    ensures Keyed(st.rows)
  {
  }

  ghost predicate StartsAs(st: Registry, u: Registry, uuid: string, url: string) {
    && u.ops == st.ops
    && (forall id :: id in st.rows ==> id in u.rows && u.rows[id] == if st.rows[id].uuid == Some(uuid) then st.rows[id].(url := url) else st.rows[id])
    && (forall id :: id in u.rows && id !in st.rows ==> u.rows[id].state == Standby)
    && u.readOnly == if HasSealedRow(st.rows, uuid) then st.readOnly + {url} else st.readOnly - {url}
  }

  lemma StartGuards(st: Registry, u: Registry, uuid: string, url: string)
    requires Guarded(st) && Inv(u) && StartsAs(st, u, uuid, url) && StartSafe(st, uuid, url)
    ensures Guarded(u)
  {
    hide Inv;
    forall id | InState(u.rows, id, Sealed) ensures u.rows[id].url in u.readOnly {
      assert id in st.rows && InState(st.rows, id, Sealed);
      if st.rows[id].uuid == Some(uuid) { assert HasSealedRow(st.rows, uuid); }
    }
  }

  lemma StartWasSafe(st: Registry, u: Registry, uuid: string, url: string)
    requires Guarded(st) && Guarded(u) && StartsAs(st, u, uuid, url)
    ensures StartSafe(st, uuid, url)
  {
    hide Inv;
    if !HasSealedRow(st.rows, uuid) {
      forall id | InState(st.rows, id, Sealed) ensures st.rows[id].url != url {
        assert InState(u.rows, id, Sealed) && st.rows[id].uuid != Some(uuid);
      }
    }
  }

  /** A shard that took the seal restarts before the seal is written down: its row ends sealed, and it takes packages. */
  lemma RestartForgetsSeal(st: Registry, id: int, o: nat, uuid: string, max: int, total: nat, at: nat)
    requires Inv(st) && InState(st.rows, id, Active) && st.rows[id].uuid == Some(uuid) && o !in st.ops && IsMax(st.rows, max)
    ensures var url := st.rows[id].url;
      var s2 := Exec(Exec(st, StartSeal(o, id)), RemoteSeal(o, true, true, total, at));
      var s3 := Exec(s2, Register(uuid, url, max, true));
      var end := Exec(s3, CommitSeal(o, true));
      url in s2.readOnly && InState(end.rows, id, Sealed) && end.rows[id].url == url && url !in end.readOnly
  {
    hide Keyed, RegisterShard, Inv, StateIds;
    var url := st.rows[id].url;
    var a := SnapAt(st.rows, id);
    var s2 := Exec(Exec(st, StartSeal(o, id)), RemoteSeal(o, true, true, total, at));
    assert s2 == st.(readOnly := st.readOnly + {url}, ops := st.ops[o := SealReplied(a, total, at)]);
    StepKeeps(st, StartSeal(o, id));
    StepKeeps(Exec(st, StartSeal(o, id)), RemoteSeal(o, true, true, total, at));
    InvKeyed(st);
    NotSealedRow(st.rows, id, uuid);
    RestartSame(st.rows, id, uuid, max);
    var s3 := Exec(s2, Register(uuid, url, max, true));
    StepKeeps(s2, Register(uuid, url, max, true));
    assert s3.rows == st.rows && s3.ops == s2.ops && url !in s3.readOnly;
    SealCommits(s3, id, o);
    WriteReadOnly(s3, CommitSeal(o, true));
  }

  lemma RestartSame(rows: Rows, id: int, uuid: string, max: int)
    requires id in rows && rows[id].uuid == Some(uuid) && IsMax(rows, max) && UniqueUuid(rows)
    ensures RegisterShard(rows, uuid, rows[id].url, max) == (rows, true)
  {
    hide Keyed;
    assert id in HasUuid(rows, uuid);
    var after := RegisterShard(rows, uuid, rows[id].url, max).0;
    assert forall k :: k in rows && rows[k].uuid == Some(uuid) ==> k == id;
    assert after == rows;
  }

  lemma NotSealedRow(rows: Rows, id: int, uuid: string)
    requires Keyed(rows) && InState(rows, id, Active) && rows[id].uuid == Some(uuid)
    ensures !HasSealedRow(rows, uuid) && UniqueUuid(rows)
  {
    hide SingleActive;
  }

  lemma WriteReadOnly(st: Registry, step: Step)
    requires WritesRows(step) && !step.Register?
    ensures Exec(st, step).readOnly == st.readOnly
  {
    hide PromoteStandby, RegisterShard, Seed, SetShardState, StateIds;
  }

  /** No step but a start takes a shard out of read-only. */
  lemma ReadOnlyGrows(st: Registry, step: Step)
    requires !step.Register?
    ensures st.readOnly <= Exec(st, step).readOnly
  {
    hide PromoteStandby, RegisterShard, Seed, SetShardState, StateIds;
  }

  ghost predicate SteadyRun(st: Registry, steps: seq<Step>) {
    forall i :: 0 <= i < |steps| ==> Steady(Run(st, steps[..i]), steps[i])
  }

  lemma {:induction false} RunGuards(st: Registry, steps: seq<Step>)
    requires Guarded(st) && SteadyRun(st, steps)
    ensures Guarded(Run(st, steps))
  {
    hide Exec, Guarded, Steady;
    if steps != [] {
      var n := |steps| - 1;
      assert SteadyRun(st, steps[..n]) by {
        forall i | 0 <= i < n ensures Steady(Run(st, steps[..n][..i]), steps[..n][i]) {
          assert steps[..n][..i] == steps[..i];
        }
      }
      RunGuards(st, steps[..n]);
      StepGuards(Run(st, steps[..n]), steps[n]);
    }
  }

  /**
   In every run whose shards start only where that is safe and whose bootstrap seeds no sealed rows,
   every shard the registry calls sealed is read-only already, in every state of the run.
   */
  lemma SealedMeansReadOnly(steps: seq<Step>, id: int)
    requires SteadyRun(EMPTY, steps) && InState(Run(EMPTY, steps).rows, id, Sealed)
    ensures Run(EMPTY, steps).rows[id].url in Run(EMPTY, steps).readOnly
  {
    hide Exec, Steady, SteadyRun, Run;
    assert Guarded(EMPTY) by { assert StateIds(EMPTY.rows, Standby) == {}; }
    RunGuards(EMPTY, steps);
  }

  /** The write path closes only by an explicit seal: no other step, failed or not, loses the active row. */
  lemma ActiveIsLostOnlyBySeal(st: Registry, step: Step)
    requires StateIds(st.rows, Active) != {} && !step.CommitSeal?
    ensures StateIds(Exec(st, step).rows, Active) != {}
  {
    hide Exec;
    HasMember(StateIds(st.rows, Active));
    var a :| a in StateIds(st.rows, Active);
    if WritesRows(step) { StillActive(st, step, a); } else { PhaseRows(st, step); }
  }

  lemma PhaseRows(st: Registry, step: Step)
    requires !WritesRows(step)
    ensures Exec(st, step).rows == st.rows
  {
    hide StateIds;
  }

  lemma PromoteStaysActive(st: Registry, target: int, sealed: Option<SealedShard>, dbOk: bool, a: int)
    requires InState(st.rows, a, Active)
    ensures StateIds(Commit(st, target, sealed, dbOk).rows, Active) != {}
  {
    var u := Commit(st, target, sealed, dbOk);
    if PromoteStandby(st.rows, target, sealed).1 == Promoted && dbOk {
      assert target in StateIds(u.rows, Active);
    } else {
      assert a in StateIds(u.rows, Active);
    }
  }

  lemma EnsureStaysActive(st: Registry, o: nat, dbOk: bool, a: int)
    requires InState(st.rows, a, Active)
    ensures StateIds(Exec(st, EnsureCommit(o, dbOk)).rows, Active) != {}
  {
    hide PromoteStandby, Keyed;
    assert a in StateIds(st.rows, Active);
    if o in st.ops && st.ops[o].Ensuring? && st.ops[o].standbys != [] {
      PromoteStaysActive(st, st.ops[o].standbys[0], None, dbOk, a);
    }
  }

  lemma PromotionStaysActive(st: Registry, o: nat, dbOk: bool, a: int)
    requires InState(st.rows, a, Active)
    ensures StateIds(Exec(st, CommitPromote(o, dbOk)).rows, Active) != {}
  {
    hide PromoteStandby, Keyed, Commit;
    assert a in StateIds(st.rows, Active);
    if o in st.ops && st.ops[o].Promoting? { PromoteStaysActive(Drop(st, o), st.ops[o].target, None, dbOk, a); }
    if o in st.ops && st.ops[o].Rotating? {
      var op := st.ops[o];
      PromoteStaysActive(Drop(st, o), op.target, Some(SealedShard(op.a.id, op.total, op.at)), dbOk, a);
    }
  }

  lemma ActiveIsSeen(rows: Rows, a: int)
    requires InState(rows, a, Active)
    ensures StateIds(rows, Active) != {}
  {
    assert a in StateIds(rows, Active);
  }

  lemma WriteStaysActive(rows: Rows, a: int, id: int, total: nat)
    requires InState(rows, a, Active)
    ensures InState(SetShardState(rows, id, Active, total, None).0, a, Active)
  {
  }

  lemma RegisterStaysActive(rows: Rows, a: int, uuid: string, url: string, max: int)
    requires InState(rows, a, Active) && IsMax(rows, max)
    ensures InState(RegisterShard(rows, uuid, url, max).0, a, Active)
  {
  }

  lemma SeedStaysActive(rows: Rows, a: int, id: int, uuid: Option<string>, s: ShardState, url: string)
    requires InState(rows, a, Active)
    ensures InState(Seed(rows, id, uuid, s, url).0, a, Active)
  {
  }

  lemma StillActive(st: Registry, step: Step, a: int)
    requires InState(st.rows, a, Active) && WritesRows(step) && !step.CommitSeal?
    ensures StateIds(Exec(st, step).rows, Active) != {}
  {
    hide PromoteStandby, Keyed, Commit, SetShardState, RegisterShard, Seed, StateIds;
    match step
    case CommitPromote(o, dbOk) => PromotionStaysActive(st, o, dbOk, a);
    case EnsureCommit(o, dbOk) => EnsureStaysActive(st, o, dbOk, a);
    case CheckWrite(o, dbOk) =>
      if o in st.ops && st.ops[o].CheckedStats? { WriteStaysActive(st.rows, a, st.ops[o].a.id, st.ops[o].total); }
      ActiveIsSeen(Exec(st, step).rows, a);
    case Register(uuid, url, max, dbOk) =>
      if IsMax(st.rows, max) { RegisterStaysActive(st.rows, a, uuid, url, max); }
      ActiveIsSeen(Exec(st, step).rows, a);
    case Bootstrap(id, uuid, s, url, dbOk) =>
      SeedStaysActive(st.rows, a, id, uuid, s, url);
      ActiveIsSeen(Exec(st, step).rows, a);
  }

  // ---- CheckSeal's stale write ----

  /** The unlocked write makes a row active again exactly when it was sealed meanwhile and nothing took over. */
  lemma StaleWriteReactivates(st: Registry, o: nat)
    requires Inv(st) && o in st.ops && st.ops[o].CheckedStats?
    ensures var id := st.ops[o].a.id; var u := Exec(st, CheckWrite(o, true));
      (InState(u.rows, id, Active) && !InState(st.rows, id, Active)) <==>
      (InState(st.rows, id, Sealed) && StateIds(st.rows, Active) == {})
  {
    var id := st.ops[o].a.id;
    assert Left(st.rows, id);
    var after := st.rows[id := st.rows[id].(state := Active, totalBytes := st.ops[o].total, sealedAt := None)];
    if StateIds(st.rows, Active) == {} {
      assert forall i :: i in after && after[i].state == Active ==> i == id || i in StateIds(st.rows, Active);
    } else {
      HasMember(StateIds(st.rows, Active));
      var i :| i in StateIds(st.rows, Active);
      assert i != id ==> after[i].state == Active && after[id].state == Active && !SingleActive(after);
    }
  }

  /** CheckSeal's stale write lands on the row of `id` while nothing is active. */
  predicate Reactivates(st: Registry, step: Step, id: int) {
    && step.CheckWrite? && step.dbOk && step.o in st.ops && st.ops[step.o].CheckedStats?
    && st.ops[step.o].a.id == id && StateIds(st.rows, Active) == {}
  }

  /** A sealed row stays sealed under every step of every operation, that one write excepted. */
  lemma UnsealedOnlyByStaleWrite(st: Registry, step: Step, id: int)
    requires Inv(st) && InState(st.rows, id, Sealed)
    ensures !InState(Exec(st, step).rows, id, Sealed) <==> Reactivates(st, step, id)
  {
    hide Exec, Inv, StateIds;
    if WritesRows(step) { WriteUnseals(st, step, id); } else { PhaseRows(st, step); }
  }

  lemma WriteUnseals(st: Registry, step: Step, id: int)
    requires Inv(st) && InState(st.rows, id, Sealed) && WritesRows(step)
    ensures !InState(Exec(st, step).rows, id, Sealed) <==> Reactivates(st, step, id)
  {
    hide PromoteStandby, Keyed, SetShardState, RegisterShard, Seed, StateIds, Inv;
    match step
    case CommitSeal(o, dbOk) =>
      if o in st.ops && st.ops[o].SealReplied? { SetStateLeaves(st.rows, st.ops[o].a.id, Sealed, st.ops[o].total, Some(st.ops[o].at), id); }
    case CommitPromote(o, dbOk) => PromotionKeepsSealed(st, o, dbOk, id);
    case EnsureCommit(o, dbOk) => EnsureKeepsSealed(st, o, dbOk, id);
    case CheckWrite(o, dbOk) =>
      if o in st.ops && st.ops[o].CheckedStats? {
        if dbOk && st.ops[o].a.id == id { StaleWriteUnseals(st, o); }
        SetStateLeaves(st.rows, st.ops[o].a.id, Active, st.ops[o].total, None, id);
      }
    case Register(uuid, url, max, dbOk) => if IsMax(st.rows, max) { RegisterKeepsSealed(st.rows, uuid, url, max, id); }
    case Bootstrap(q, uuid, s, url, dbOk) => SeedKeepsSealed(st.rows, q, uuid, s, url, id);
  }

  lemma StaleWriteUnseals(st: Registry, o: nat)
    requires Inv(st) && o in st.ops && st.ops[o].CheckedStats? && InState(st.rows, st.ops[o].a.id, Sealed)
    ensures InState(Exec(st, CheckWrite(o, true)).rows, st.ops[o].a.id, Sealed) <==> StateIds(st.rows, Active) != {}
  {
    hide Keyed;
    StaleWriteReactivates(st, o);
  }

  lemma SetStateLeaves(rows: Rows, q: int, s: ShardState, total: nat, at: Option<nat>, id: int)
    requires InState(rows, id, Sealed)
    ensures q != id || s == Sealed ==> InState(SetShardState(rows, q, s, total, at).0, id, Sealed)
  {
    hide Keyed;
  }

  lemma PromoteKeepsSealed(rows: Rows, target: int, sealed: Option<SealedShard>, id: int)
    requires InState(rows, id, Sealed)
    ensures InState(PromoteStandby(rows, target, sealed).0, id, Sealed)
  {
  }

  lemma PromotionKeepsSealed(st: Registry, o: nat, dbOk: bool, id: int)
    requires InState(st.rows, id, Sealed)
    ensures InState(Exec(st, CommitPromote(o, dbOk)).rows, id, Sealed)
  {
    hide PromoteStandby, StateIds;
    if o in st.ops && st.ops[o].Promoting? { PromoteKeepsSealed(st.rows, st.ops[o].target, None, id); }
    if o in st.ops && st.ops[o].Rotating? {
      var op := st.ops[o];
      PromoteKeepsSealed(st.rows, op.target, Some(SealedShard(op.a.id, op.total, op.at)), id);
    }
  }

  lemma EnsureKeepsSealed(st: Registry, o: nat, dbOk: bool, id: int)
    requires InState(st.rows, id, Sealed)
    ensures InState(Exec(st, EnsureCommit(o, dbOk)).rows, id, Sealed)
  {
    hide PromoteStandby, StateIds;
    if o in st.ops && st.ops[o].Ensuring? && st.ops[o].standbys != [] {
      PromoteKeepsSealed(st.rows, st.ops[o].standbys[0], None, id);
    }
  }

  lemma RegisterKeepsSealed(rows: Rows, uuid: string, url: string, max: int, id: int)
    requires InState(rows, id, Sealed) && IsMax(rows, max)
    ensures InState(RegisterShard(rows, uuid, url, max).0, id, Sealed)
  {
    hide Keyed;
  }

  lemma SeedKeepsSealed(rows: Rows, q: int, uuid: Option<string>, s: ShardState, url: string, id: int)
    requires InState(rows, id, Sealed)
    ensures InState(Seed(rows, q, uuid, s, url).0, id, Sealed)
  {
    hide Keyed;
  }

  /** Sealed after the first `i` steps. */
  predicate SealedAt(st: Registry, steps: seq<Step>, id: int, i: nat)
    requires i <= |steps|
  {
    InState(Run(st, steps[..i]).rows, id, Sealed)
  }

  predicate ReactivatedAt(st: Registry, steps: seq<Step>, id: int, i: nat)
    requires i < |steps|
  {
    Reactivates(Run(st, steps[..i]), steps[i], id)
  }

  lemma SealedNext(st: Registry, steps: seq<Step>, id: int, i: nat)
    requires Inv(st) && i < |steps| && SealedAt(st, steps, id, i)
    ensures SealedAt(st, steps, id, i + 1) <==> !ReactivatedAt(st, steps, id, i)
  {
    hide Exec, Inv, Reactivates;
    assert steps[..i + 1][..i] == steps[..i] && steps[..i + 1][i] == steps[i];
    RunKeeps(st, steps[..i]);
    UnsealedOnlyByStaleWrite(Run(st, steps[..i]), steps[i], id);
  }

  /**
   Over every run: a sealed shard stays sealed throughout exactly when no stale write of CheckSeal
   lands on it while the registry has no active shard.
   */
  lemma SealedThroughoutIff(st: Registry, steps: seq<Step>, id: int)
    requires Inv(st) && InState(st.rows, id, Sealed)
    ensures (forall i: nat :: i <= |steps| ==> SealedAt(st, steps, id, i)) <==>
      (forall i: nat :: i < |steps| ==> !ReactivatedAt(st, steps, id, i))
  {
    hide Inv, SealedAt, ReactivatedAt;
    if forall i: nat :: i <= |steps| ==> SealedAt(st, steps, id, i) {
      forall i: nat | i < |steps| ensures !ReactivatedAt(st, steps, id, i) {
        assert SealedAt(st, steps, id, i) && SealedAt(st, steps, id, i + 1);
        SealedNext(st, steps, id, i);
      }
    } else if forall i: nat :: i < |steps| ==> !ReactivatedAt(st, steps, id, i) {
      forall i: nat | i <= |steps| ensures SealedAt(st, steps, id, i) { StaysSealed(st, steps, id, i); }
    }
  }

  lemma {:induction false} StaysSealed(st: Registry, steps: seq<Step>, id: int, n: nat)
    requires Inv(st) && InState(st.rows, id, Sealed) && n <= |steps|
    requires forall i: nat :: i < |steps| ==> !ReactivatedAt(st, steps, id, i)
    ensures SealedAt(st, steps, id, n)
  {
    hide Exec, Inv, ReactivatedAt;
    if n > 0 {
      StaysSealed(st, steps, id, n - 1);
      SealedNext(st, steps, id, n - 1);
    } else {
      assert steps[..0] == [];
    }
  }

  /** Such a run from any state: the check reads, the shard is sealed, the check writes. */
  lemma SealedShardBecomesActiveAgain(st: Registry, id: int, o: nat, p: nat, total: nat, at: nat)
    requires Inv(st) && InState(st.rows, id, Active) && o !in st.ops && p !in st.ops && o != p
    ensures var s1 := Exec(Exec(st, StartCheck(o, id)), CheckFetch(o, true, total));
      var s2 := Exec(Exec(s1, StartSeal(p, id)), RemoteSeal(p, true, true, total, at));
      var s3 := Exec(s2, CommitSeal(p, true));
      var end := Exec(s3, CheckWrite(o, true));
      InState(s3.rows, id, Sealed) && InState(end.rows, id, Active) && end.rows[id].url in end.readOnly
  {
    var a := SnapAt(st.rows, id);
    var s1 := Exec(Exec(st, StartCheck(o, id)), CheckFetch(o, true, total));
    assert s1.ops == st.ops[o := CheckedStats(a, total)];
    StepKeeps(st, StartCheck(o, id));
    StepKeeps(Exec(st, StartCheck(o, id)), CheckFetch(o, true, total));
    SealThenWrite(s1, id, o, p, total, at);
  }

  lemma SealThenWrite(s1: Registry, id: int, o: nat, p: nat, total: nat, at: nat)
    requires Inv(s1) && InState(s1.rows, id, Active) && p !in s1.ops
    requires o in s1.ops && s1.ops[o] == CheckedStats(SnapAt(s1.rows, id), total)
    ensures var s2 := Exec(Exec(s1, StartSeal(p, id)), RemoteSeal(p, true, true, total, at));
      var s3 := Exec(s2, CommitSeal(p, true));
      var end := Exec(s3, CheckWrite(o, true));
      InState(s3.rows, id, Sealed) && InState(end.rows, id, Active) && end.rows[id].url in end.readOnly
  {
    hide Keyed;
    var a := SnapAt(s1.rows, id);
    var s2 := Exec(Exec(s1, StartSeal(p, id)), RemoteSeal(p, true, true, total, at));
    assert s2 == s1.(readOnly := s1.readOnly + {a.url}, ops := s1.ops[p := SealReplied(a, total, at)]);
    StepKeeps(s1, StartSeal(p, id));
    StepKeeps(Exec(s1, StartSeal(p, id)), RemoteSeal(p, true, true, total, at));
    SealCommits(s2, id, p);
    var s3 := Exec(s2, CommitSeal(p, true));
    StepKeeps(s2, CommitSeal(p, true));
    assert o in s3.ops && s3.ops[o] == CheckedStats(a, total);
    StaleWriteReactivates(s3, o);
    assert Exec(s3, CheckWrite(o, true)).readOnly == s3.readOnly;
    WriteKeepsUrl(s3, o, id);
  }

  lemma WriteKeepsUrl(st: Registry, o: nat, id: int)
    requires id in st.rows
    ensures var u := Exec(st, CheckWrite(o, true)); id in u.rows && u.rows[id].url == st.rows[id].url
  {
  }

  /** Sealing the active row breaks no key and leaves none active. */
  lemma SealCommits(st: Registry, id: int, p: nat)
    requires Inv(st) && InState(st.rows, id, Active) && p in st.ops && st.ops[p].SealReplied? && st.ops[p].a.id == id
    ensures var u := Exec(st, CommitSeal(p, true));
      InState(u.rows, id, Sealed) && StateIds(u.rows, Active) == {} && u.rows[id].url == st.rows[id].url && u.ops == st.ops - {p}
  {
    var after := st.rows[id := st.rows[id].(state := Sealed, totalBytes := st.ops[p].total, sealedAt := Some(st.ops[p].at))];
    assert Keyed(after);
    assert forall i :: i in after ==> after[i].state != Active;
  }

  /**
   The price of never losing the active row: a rotation that fails after the remote seal, for any
   reason, leaves the registry unchanged while its active shard already refuses writes.
   */
  lemma FailedRotationBlocksWrites(st: Registry, o: nat, active: int, target: int, replied: bool, total: nat, at: nat)
    requires InState(st.rows, active, Active) && InState(st.rows, target, Standby) && o !in st.ops
    ensures var s2 := Exec(Exec(st, StartRotate(o, active, target)), Probe(o, true));
      var end := Exec(Exec(s2, RemoteSeal(o, true, replied, total, at)), CommitPromote(o, false));
      end.rows == st.rows && InState(end.rows, active, Active) && end.rows[active].url in end.readOnly && o !in end.ops
  {
    hide PromoteStandby, StateIds;
    var s2 := Exec(Exec(st, StartRotate(o, active, target)), Probe(o, true));
    assert s2 == st.(ops := st.ops[o := SealingFirst(target, SnapAt(st.rows, active), true)]);
  }

  // ---- global ids ----

  /**
   A global id handed out for shard row `id` decodes to that row and the same local id exactly when the
   row's id is not negative, as only a bootstrap file can make it; in every later state the row still
   exists, and its uuid still belongs to it and to no other row.
   */
  lemma GlobalIdsRouteForever(before: seq<Step>, after: seq<Step>, id: int, localID: int)
    requires id in Run(EMPTY, before).rows && 0 <= localID < GlobalId.TWO_48
    ensures var mid := Run(EMPTY, before); var end := Run(mid, after);
      && (GlobalId.Decode(GlobalId.Encode(id, localID)) == (id, localID) <==> id >= 0)
      && id in end.rows
      && (mid.rows[id].uuid.Some? ==> forall k :: k in end.rows && end.rows[k].uuid == mid.rows[id].uuid <==> k == id)
  {
    hide Exec, Run;
    RotationIsSafe(before, after);
    RowIdsAreValid(before);
    GlobalId.DecodeOfEncode(id, localID);
  }

  lemma RowIdsAreValid(steps: seq<Step>)
    ensures forall id :: id in Run(EMPTY, steps).rows ==> ValidId(id)
  {
    hide Exec, Run;
    assert Inv(EMPTY) by { assert StateIds(EMPTY.rows, Standby) == {}; }
    RunKeeps(EMPTY, steps);
  }
}
