/**
 Rotation of the writing shard as a protocol: every operation snapshots under the lock, calls
 shards with the lock released, then rechecks and commits; phases of different operations interleave
 freely and any call may fail (internal/coordinator/registry.go, internal/api/shard.go).
 */
module Coordinator {
  import opened Bytes
  import opened ShardTable

  /** A copy of an active row, taken under the lock (or, by CheckSeal, without it). */
  datatype Snap = Snap(id: int, url: string)

  /** Where an operation stands: what it will do next. */
  datatype Op =
    | SealRequested(a: Snap)
    | SealReplied(a: Snap, total: nat, at: nat)
    | Probing(target: int, active: Option<Snap>, rotate: bool)
    | SealingFirst(target: int, a: Snap, rotate: bool)
    | Promoting(target: int)
    | Rotating(target: int, a: Snap, total: nat, at: nat, rotate: bool)
    | Ensuring(standbys: seq<int>, probed: bool)
    | Checking(a: Snap)
    | CheckedStats(a: Snap, total: nat)

  /** `readOnly` holds the addresses whose shard refuses packages; `promoted` and `entered` are history. */
  datatype Registry = Registry(rows: Rows, readOnly: set<string>, ops: map<nat, Op>, promoted: nat, entered: nat)

  const EMPTY: Registry := Registry(map[], {}, map[], 0, 0)

  datatype Step =
    | StartSeal(o: nat, id: int)
    | RemoteSeal(o: nat, reached: bool, replied: bool, total: nat, at: nat)
    | CommitSeal(o: nat, dbOk: bool)
    | StartPromote(o: nat, target: int, current: Option<int>, confirm: bool)
    | StartRotate(o: nat, active: int, target: int)
    | Probe(o: nat, ok: bool)
    | CommitPromote(o: nat, dbOk: bool)
    | StartEnsure(o: nat, standbys: seq<int>)
    | EnsureProbe(o: nat, ok: bool)
    | EnsureCommit(o: nat, dbOk: bool)
    | StartCheck(o: nat, id: int)
    | CheckFetch(o: nat, ok: bool, total: nat)
    | CheckWrite(o: nat, dbOk: bool)
    | Register(uuid: string, url: string, max: int, dbOk: bool)
    | Bootstrap(id: int, seedUuid: Option<string>, state: ShardState, url: string, dbOk: bool)

  function Start(st: Registry, o: nat, op: Op): Registry {
    if o in st.ops then st else st.(ops := st.ops[o := op])
  }

  function Drop(st: Registry, o: nat): Registry {
    st.(ops := st.ops - {o})
  }

  function SnapAt(rows: Rows, id: int): Snap
    requires id in rows
  {
    Snap(id, rows[id].url)
  }

  /** sealShardRemote: the shard may take the seal even when the reply is lost. */
  function SealRemotely(st: Registry, o: nat, a: Snap, next: Op, reached: bool, replied: bool): Registry {
    var st1 := if reached then st.(readOnly := st.readOnly + {a.url}) else st;
    if reached && replied then st1.(ops := st1.ops[o := next]) else Drop(st1, o)
  }

  /** A committed PromoteStandby; anything else leaves the rows alone. */
  function Commit(st: Registry, target: int, sealed: Option<SealedShard>, dbOk: bool): Registry {
    var (rows, r) := PromoteStandby(st.rows, target, sealed);
    if dbOk && r == Promoted then st.(rows := rows, promoted := st.promoted + 1) else st
  }

  function NextStandby(st: Registry, o: nat, standbys: seq<int>): Registry {
    if |standbys| <= 1 then Drop(st, o) else st.(ops := st.ops[o := Ensuring(standbys[1..], false)])
  }

  /** Rows inserted as standby, for the history. */
  function Entered(st: Registry, rows: Rows, dbOk: bool): Registry {
    if !dbOk then st else
    st.(rows := rows, entered := st.entered + |StateIds(rows, Standby) - StateIds(st.rows, Standby)|)
  }

  predicate HasSealedRow(rows: Rows, uuid: string) {
    exists id :: id in rows && rows[id].uuid == Some(uuid) && rows[id].state == Sealed
  }

  /** A shard registers when its process starts, and comes up read-only exactly if its row is sealed. */
  function Started(st: Registry, uuid: string, url: string): Registry {
    st.(readOnly := if HasSealedRow(st.rows, uuid) then st.readOnly + {url} else st.readOnly - {url})
  }

  function OpAt(st: Registry, o: nat): Option<Op> {
    if o in st.ops then Some(st.ops[o]) else None
  }

  function Exec(st: Registry, step: Step): Registry {
    match step
    case StartSeal(o, id) =>
      if InState(st.rows, id, Active) then Start(st, o, SealRequested(SnapAt(st.rows, id))) else st
    case RemoteSeal(o, reached, replied, total, at) =>
      (match OpAt(st, o)
       case Some(SealRequested(a)) => SealRemotely(st, o, a, SealReplied(a, total, at), reached, replied)
       case Some(SealingFirst(t, a, rotate)) => SealRemotely(st, o, a, Rotating(t, a, total, at, rotate), reached, replied)
       case _ => st)
    case CommitSeal(o, dbOk) =>
      (match OpAt(st, o)
       case Some(SealReplied(a, total, at)) =>
         var st1 := Drop(st, o);
         if dbOk && InState(st.rows, a.id, Active) then st1.(rows := SetShardState(st.rows, a.id, Sealed, total, Some(at)).0) else st1
       case _ => st)
    case StartPromote(o, target, active, confirm) =>
      if !confirm || !InState(st.rows, target, Standby) then st else
      (match active
       case None => if StateIds(st.rows, Active) == {} then Start(st, o, Probing(target, None, false)) else st
       case Some(a) =>
         if InState(st.rows, a, Active) then Start(st, o, Probing(target, Some(SnapAt(st.rows, a)), false)) else st)
    case StartRotate(o, active, target) =>
      if InState(st.rows, active, Active) && InState(st.rows, target, Standby)
      then Start(st, o, Probing(target, Some(SnapAt(st.rows, active)), true)) else st
    case Probe(o, ok) =>
      (match OpAt(st, o)
       case Some(Probing(target, active, rotate)) =>
         if !ok then Drop(st, o) else
         st.(ops := st.ops[o := if active.Some? then SealingFirst(target, active.value, rotate) else Promoting(target)])
       case _ => st)
    case CommitPromote(o, dbOk) =>
      (match OpAt(st, o)
       case Some(Promoting(target)) => Commit(Drop(st, o), target, None, dbOk)
       case Some(Rotating(target, a, total, at, rotate)) =>
         if rotate && !InState(st.rows, a.id, Active) then Drop(st, o) else
         Commit(Drop(st, o), target, Some(SealedShard(a.id, total, at)), dbOk)
       case _ => st)
    case StartEnsure(o, standbys) =>
      if StateIds(st.rows, Active) == {} && standbys != [] && (forall i :: 0 <= i < |standbys| ==> InState(st.rows, standbys[i], Standby))
      then Start(st, o, Ensuring(standbys, false)) else st
    case EnsureProbe(o, ok) =>
      (match OpAt(st, o)
       case Some(Ensuring(standbys, false)) =>
         if ok then st.(ops := st.ops[o := Ensuring(standbys, true)]) else NextStandby(st, o, standbys)
       case _ => st)
    case EnsureCommit(o, dbOk) =>
      (match OpAt(st, o)
       case Some(Ensuring(standbys, true)) =>
         if standbys == [] then Drop(st, o) else
         var st1 := Commit(st, standbys[0], None, dbOk);
         var r := PromoteStandby(st.rows, standbys[0], None).1;
         if dbOk && (r == Promoted || (r == Conflict && StateIds(st.rows, Active) != {})) then Drop(st1, o)
         else NextStandby(st1, o, standbys)
       case _ => st)
    case StartCheck(o, id) =>
      if InState(st.rows, id, Active) then Start(st, o, Checking(SnapAt(st.rows, id))) else st
    case CheckFetch(o, ok, total) =>
      (match OpAt(st, o)
       case Some(Checking(a)) => if ok then st.(ops := st.ops[o := CheckedStats(a, total)]) else Drop(st, o)
       case _ => st)
    case CheckWrite(o, dbOk) =>
      (match OpAt(st, o)
       case Some(CheckedStats(a, total)) =>
         var st1 := Drop(st, o);
         if dbOk then st1.(rows := SetShardState(st.rows, a.id, Active, total, None).0) else st1
       case _ => st)
    case Register(uuid, url, max, dbOk) =>
      if !IsMax(st.rows, max) || !dbOk || !RegisterShard(st.rows, uuid, url, max).1 then st else
      Started(Entered(st, RegisterShard(st.rows, uuid, url, max).0, true), uuid, url)
    case Bootstrap(id, uuid, s, url, dbOk) => Entered(st, Seed(st.rows, id, uuid, s, url).0, dbOk)
  }

  function Run(st: Registry, steps: seq<Step>): Registry {
    if steps == [] then st else Exec(Run(st, steps[..|steps| - 1]), steps[|steps| - 1])
  }

  // ---- single active shard, one-way standby, conservation ----

  /** The row copy an operation will act on. */
  function SnapOf(op: Op): Option<Snap> {
    match op
    case SealRequested(a) => Some(a)
    case SealReplied(a, _, _) => Some(a)
    case Probing(_, a, _) => a
    case SealingFirst(_, a, _) => Some(a)
    case Promoting(_) => None
    case Rotating(_, a, _, _, _) => Some(a)
    case Ensuring(_, _) => None
    case Checking(a) => Some(a)
    case CheckedStats(a, _) => Some(a)
  }

  predicate Left(rows: Rows, id: int) {
    id in rows && rows[id].state != Standby
  }

  ghost predicate Inv(st: Registry) {
    && Keyed(st.rows)
    && (forall o :: o in st.ops && SnapOf(st.ops[o]).Some? ==> Left(st.rows, SnapOf(st.ops[o]).value.id))
    && st.entered == st.promoted + |StateIds(st.rows, Standby)|
  }

  /** No row disappears, none returns to standby, none changes its uuid. */
  ghost predicate OneWay(a: Rows, b: Rows) {
    forall id :: id in a ==> id in b && (a[id].state != Standby ==> b[id].state != Standby) && (a[id].uuid.Some? ==> b[id].uuid == a[id].uuid)
  }

  lemma PromoteOneWay(st: Registry, target: int, sealed: Option<SealedShard>, dbOk: bool)
    requires Inv(st)
    ensures var u := Commit(st, target, sealed, dbOk); OneWay(st.rows, u.rows) && Inv(u) && u.ops == st.ops
  {
    hide Keyed;
    PromoteKeepsKeys(st.rows, target, sealed);
    var (rows, r) := PromoteStandby(st.rows, target, sealed);
    if r == Promoted {
      assert sealed.Some? ==> sealed.value.id in OtherActive(st.rows, target);
      assert StateIds(rows, Standby) == StateIds(st.rows, Standby) - {target};
    }
  }

  /** A state write over a row that has left standby. */
  lemma SetStateOneWay(st: Registry, id: int, s: ShardState, total: nat, at: Option<nat>)
    requires Inv(st) && Left(st.rows, id) && s != Standby
    ensures var rows := SetShardState(st.rows, id, s, total, at).0; OneWay(st.rows, rows) && Inv(st.(rows := rows))
  {
    var rows := SetShardState(st.rows, id, s, total, at).0;
    assert StateIds(rows, Standby) == StateIds(st.rows, Standby);
  }

  lemma EnteredOneWay(st: Registry, rows: Rows, dbOk: bool)
    requires Inv(st) && Keyed(rows) && OneWay(st.rows, rows)
    requires forall id :: id in st.rows && st.rows[id].state == Standby ==> id in rows && rows[id].state == Standby
    ensures var u := Entered(st, rows, dbOk); OneWay(st.rows, u.rows) && Inv(u) && u.ops == st.ops
  {
    hide Keyed;
    forall id | id in StateIds(st.rows, Standby) ensures id in StateIds(rows, Standby) {
      assert id in st.rows && st.rows[id].state == Standby;
    }
    Split(StateIds(rows, Standby), StateIds(st.rows, Standby));
  }

  lemma Split(all: set<int>, part: set<int>)
    requires part <= all
    ensures |all| == |part| + |all - part|
  {
  }

  lemma RegisterOneWay(rows: Rows, uuid: string, url: string, max: int)
    requires Keyed(rows) && IsMax(rows, max)
    ensures var after := RegisterShard(rows, uuid, url, max).0;
      && Keyed(after) && OneWay(rows, after)
      && forall id :: id in rows ==> id in after && after[id].state == rows[id].state
  {
  }

  lemma SeedOneWay(rows: Rows, id: int, uuid: Option<string>, s: ShardState, url: string)
    requires Keyed(rows)
    ensures var after := Seed(rows, id, uuid, s, url).0;
      && Keyed(after) && OneWay(rows, after)
      && forall k :: k in rows ==> k in after && after[k].state == rows[k].state
  {
  }

  /** Changing only the pending operations, none of which may look at a standby row. */
  lemma OpsOnly(st: Registry, u: Registry)
    requires Inv(st) && u.rows == st.rows && u.promoted == st.promoted && u.entered == st.entered
    requires forall o :: o in u.ops && SnapOf(u.ops[o]).Some? ==> Left(st.rows, SnapOf(u.ops[o]).value.id)
    ensures Inv(u) && OneWay(st.rows, u.rows)
  {
  }

  lemma DropKeeps(st: Registry, o: nat)
    requires Inv(st)
    ensures Inv(Drop(st, o))
  {
  }

  predicate WritesRows(step: Step) {
    step.CommitSeal? || step.CommitPromote? || step.EnsureCommit? || step.CheckWrite? || step.Register? || step.Bootstrap?
  }

  lemma PhaseKeeps(st: Registry, step: Step)
    requires Inv(st) && !WritesRows(step)
    ensures Inv(Exec(st, step)) && OneWay(st.rows, Exec(st, step).rows)
  {
    hide Keyed, StateIds;
    OpsOnly(st, Exec(st, step));
  }

  lemma WriteKeeps(st: Registry, step: Step)
    requires Inv(st) && WritesRows(step)
    ensures Inv(Exec(st, step)) && OneWay(st.rows, Exec(st, step).rows)
  {
    hide Keyed, PromoteStandby, RegisterShard, Seed, SetShardState, StateIds;
    match step
    case CommitSeal(o, dbOk) =>
      DropKeeps(st, o);
      if o in st.ops && st.ops[o].SealReplied? {
        SetStateOneWay(Drop(st, o), st.ops[o].a.id, Sealed, st.ops[o].total, Some(st.ops[o].at));
      }
    case CommitPromote(o, dbOk) =>
      DropKeeps(st, o);
      if o in st.ops && st.ops[o].Promoting? { PromoteOneWay(Drop(st, o), st.ops[o].target, None, dbOk); }
      if o in st.ops && st.ops[o].Rotating? {
        var op := st.ops[o];
        PromoteOneWay(Drop(st, o), op.target, Some(SealedShard(op.a.id, op.total, op.at)), dbOk);
      }
    case EnsureCommit(o, dbOk) => EnsureKeeps(st, o, dbOk);
    case CheckWrite(o, dbOk) =>
      DropKeeps(st, o);
      if o in st.ops && st.ops[o].CheckedStats? {
        SetStateOneWay(Drop(st, o), st.ops[o].a.id, Active, st.ops[o].total, None);
      }
    case Register(uuid, url, max, dbOk) =>
      if IsMax(st.rows, max) {
        RegisterOneWay(st.rows, uuid, url, max);
        EnteredOneWay(st, RegisterShard(st.rows, uuid, url, max).0, true);
      }
    case Bootstrap(id, uuid, s, url, dbOk) =>
      SeedOneWay(st.rows, id, uuid, s, url);
      EnteredOneWay(st, Seed(st.rows, id, uuid, s, url).0, dbOk);
  }

  lemma EnsureKeeps(st: Registry, o: nat, dbOk: bool)
    requires Inv(st)
    ensures var u := Exec(st, EnsureCommit(o, dbOk)); Inv(u) && OneWay(st.rows, u.rows)
  {
    hide Keyed, PromoteStandby;
    DropKeeps(st, o);
    if o in st.ops && st.ops[o].Ensuring? && st.ops[o].probed && st.ops[o].standbys != [] {
      var standbys := st.ops[o].standbys;
      PromoteOneWay(st, standbys[0], None, dbOk);
      var st1 := Commit(st, standbys[0], None, dbOk);
      DropKeeps(st1, o);
      OpsOnly(st1, NextStandby(st1, o, standbys));
    }
  }

  lemma StepKeeps(st: Registry, step: Step)
    requires Inv(st)
    ensures Inv(Exec(st, step)) && OneWay(st.rows, Exec(st, step).rows)
  {
    hide Inv, OneWay, Exec;
    if WritesRows(step) { WriteKeeps(st, step); } else { PhaseKeeps(st, step); }
  }

  lemma OneWayTrans(a: Rows, b: Rows, c: Rows)
    requires OneWay(a, b) && OneWay(b, c)
    ensures OneWay(a, c)
  {
  }

  lemma {:induction false} RunKeeps(st: Registry, steps: seq<Step>)
    requires Inv(st)
    ensures Inv(Run(st, steps)) && OneWay(st.rows, Run(st, steps).rows)
  {
    hide Exec, Inv;
    if steps == [] {
    } else {
      var n := |steps| - 1;
      var mid := Run(st, steps[..n]);
      RunKeeps(st, steps[..n]);
      StepKeeps(mid, steps[n]);
      OneWayTrans(st.rows, mid.rows, Run(st, steps).rows);
    }
  }

  /**
   Over all interleavings of all phases, with any remote or database failure: the registry never
   has two active shards, no shard returns to standby or loses its uuid, and promotions plus
   remaining standbys equal the rows ever entered as standby.
   */
  lemma RotationIsSafe(before: seq<Step>, after: seq<Step>)
    ensures var mid := Run(EMPTY, before); var end := Run(mid, after);
      && SingleActive(end.rows) && UniqueUuid(end.rows)
      && OneWay(mid.rows, end.rows)
      && end.promoted + |StateIds(end.rows, Standby)| == end.entered
  {
    hide Exec;
    assert Inv(EMPTY) by { assert StateIds(EMPTY.rows, Standby) == {}; }
    RunKeeps(EMPTY, before);
    RunKeeps(Run(EMPTY, before), after);
  }
}
