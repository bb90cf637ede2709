/** The shard_registry table and its statements (internal/coordinator/repo.go, migrations/coordinator). */
module ShardTable {
  import opened Bytes

  datatype ShardState = Active | Sealed | Standby

  datatype Shard = Shard(uuid: Option<string>, state: ShardState, url: string, totalBytes: nat, sealedAt: Option<nat>)

  type Rows = map<int, Shard>

  /** shard_id is a SMALLINT. */
  predicate ValidId(id: int) {
    -0x8000 <= id < 0x8000
  }

  predicate InState(rows: Rows, id: int, s: ShardState) {
    id in rows && rows[id].state == s
  }

  /** The partial unique index over active rows. */
  predicate SingleActive(rows: Rows) {
    forall i, j :: i in rows && j in rows && rows[i].state == Active && rows[j].state == Active ==> i == j
  }

  /** The partial unique index over shard_uuid. */
  predicate UniqueUuid(rows: Rows) {
    forall i, j :: i in rows && j in rows && rows[i].uuid.Some? && rows[i].uuid == rows[j].uuid ==> i == j
  }

  predicate Keyed(rows: Rows) {
    SingleActive(rows) && UniqueUuid(rows) && forall id :: id in rows ==> ValidId(id)
  }

  function StateIds(rows: Rows, s: ShardState): set<int> {
    set id | id in rows && rows[id].state == s
  }

  /** A statement takes effect only if no key is violated. */
  function Checked(before: Rows, after: Rows): (r: (Rows, bool)) {
    if Keyed(after) then (after, true) else (before, false)
  }

  function SetShardState(rows: Rows, id: int, s: ShardState, total: nat, at: Option<nat>): (Rows, bool) {
    if id !in rows then (rows, true) else
    Checked(rows, rows[id := rows[id].(state := s, totalBytes := total, sealedAt := at)])
  }

  datatype SealedShard = SealedShard(id: int, totalBytes: nat, at: nat)

  datatype Promotion = Promoted | NotFound | Conflict

  /** The active row other than the target, if any. */
  function OtherActive(rows: Rows, target: int): set<int> {
    set id | id in rows && rows[id].state == Active && id != target
  }

  /** PromoteStandby: one transaction that seals the given active shard and activates the target. */
  function PromoteStandby(rows: Rows, target: int, sealed: Option<SealedShard>): (r: (Rows, Promotion)) {
    if target !in rows then (rows, NotFound) else
    if rows[target].state != Standby then (rows, Conflict) else
    var others := OtherActive(rows, target);
    match sealed
    case None =>
      if others != {} then (rows, Conflict) else (Activate(rows, target), Promoted)
    case Some(s) =>
      if others != {s.id} then (rows, Conflict) else
      (Activate(rows[s.id := rows[s.id].(state := Sealed, totalBytes := s.totalBytes, sealedAt := Some(s.at))], target), Promoted)
  }

  function Activate(rows: Rows, id: int): Rows
    requires id in rows
  {
    rows[id := rows[id].(state := Active, sealedAt := None)]
  }

  function HasUuid(rows: Rows, uuid: string): set<int> {
    set id | id in rows && rows[id].uuid == Some(uuid)
  }

  predicate IsMax(rows: Rows, m: int) {
    (rows == map[] ==> m == -1) && (rows != map[] ==> m in rows && forall k :: k in rows ==> k <= m)
  }

  /** RegisterShard: a known uuid only updates its url; a new one gets max id + 1, always as standby. */
  function RegisterShard(rows: Rows, uuid: string, url: string, max: int): (r: (Rows, bool))
    requires IsMax(rows, max)
  {
    if HasUuid(rows, uuid) != {} then
      (map id | id in rows :: if rows[id].uuid == Some(uuid) then rows[id].(url := url) else rows[id], true)
    else Checked(rows, rows[max + 1 := Shard(Some(uuid), Standby, url, 0, None)])
  }

  predicate Blank(url: string) {
    forall i :: 0 <= i < |url| ==> url[i] == ' '
  }

  /** seedShardFromBootstrap: insert, or fill in what an existing row lacks; the state is never touched. */
  function Seed(rows: Rows, id: int, uuid: Option<string>, s: ShardState, url: string): (r: (Rows, bool)) {
    if id !in rows then Checked(rows, rows[id := Shard(uuid, s, url, 0, None)]) else
    var row := rows[id];
    Checked(rows, rows[id := row.(uuid := if row.uuid.Some? then row.uuid else uuid, url := if Blank(row.url) then url else row.url)])
  }

  // ---- what each statement keeps ----

  /** PromoteStandby's own checks keep a single active row: it never needs the unique index. */
  lemma PromoteKeepsKeys(rows: Rows, target: int, sealed: Option<SealedShard>)
    requires Keyed(rows)
    ensures Keyed(PromoteStandby(rows, target, sealed).0)
  {
    var (after, r) := PromoteStandby(rows, target, sealed);
    if r == Promoted {
      forall i | i in after && after[i].state == Active ensures i == target {
        assert i == target || i in OtherActive(rows, target);
      }
    }
  }

  lemma RegisterKeepsKeys(rows: Rows, uuid: string, url: string, max: int)
    requires Keyed(rows) && IsMax(rows, max)
    ensures Keyed(RegisterShard(rows, uuid, url, max).0)
  {
  }

  lemma HasMember(ids: set<int>)
    requires ids != {}
    ensures exists id :: id in ids
  {
    assert (forall id :: id !in ids) ==> ids == {};
  }

  // ---- when each statement succeeds, and what it then leaves ----

  /** Only row `id` differs, and it is now `row`. */
  predicate OnlyRow(before: Rows, after: Rows, id: int, row: Shard) {
    after.Keys == before.Keys + {id} && after[id] == row && forall k :: k in before && k != id ==> after[k] == before[k]
  }

  /** Exactly the target takes over from `sealed`, or from nobody. */
  predicate TookOver(before: Rows, after: Rows, target: int, sealed: Option<SealedShard>)
    requires target in before
  {
    && after.Keys == before.Keys && after[target] == before[target].(state := Active, sealedAt := None)
    && (sealed.Some? && sealed.value.id in before ==>
        after[sealed.value.id] == before[sealed.value.id].(state := Sealed, totalBytes := sealed.value.totalBytes, sealedAt := Some(sealed.value.at)))
    && forall k :: k in before && k != target && (sealed.Some? ==> k != sealed.value.id) ==> after[k] == before[k]
  }

  /** The rows a promotion expects to be active. */
  function Expected(sealed: Option<SealedShard>): set<int> {
    if sealed.Some? then {sealed.value.id} else {}
  }

  /**
   A promotion happens if and only if the target is a standby and the active rows are exactly what the caller expects:
   the one shard it sealed, or none. The target is then active, that shard sealed with its
   size and time, and nothing else changed; any other outcome changes nothing.
   */
  lemma PromotedIff(rows: Rows, target: int, sealed: Option<SealedShard>)
    ensures var (after, r) := PromoteStandby(rows, target, sealed);
      && (r == Promoted <==> InState(rows, target, Standby) && StateIds(rows, Active) == Expected(sealed))
      && (r == NotFound <==> target !in rows)
      && (if r == Promoted then TookOver(rows, after, target, sealed) && StateIds(after, Active) == {target} else after == rows)
  {
    if InState(rows, target, Standby) {
      assert OtherActive(rows, target) == StateIds(rows, Active);
      if StateIds(rows, Active) == Expected(sealed) { TakesOver(rows, target, sealed); }
    }
  }

  lemma TakesOver(rows: Rows, target: int, sealed: Option<SealedShard>)
    requires InState(rows, target, Standby) && OtherActive(rows, target) == StateIds(rows, Active) == Expected(sealed)
    ensures var after := PromoteStandby(rows, target, sealed).0;
      TookOver(rows, after, target, sealed) && StateIds(after, Active) == {target}
  {
    var after := PromoteStandby(rows, target, sealed).0;
    if sealed.Some? { assert sealed.value.id in StateIds(rows, Active); }
    forall k | k in after ensures after[k].state == Active <==> k == target {
      assert k in StateIds(rows, Active) <==> k in Expected(sealed);
    }
  }

  /** A state write fails exactly if it would make a second row active. */
  lemma SetStateExactly(rows: Rows, id: int, s: ShardState, total: nat, at: Option<nat>)
    requires Keyed(rows)
    ensures var (after, ok) := SetShardState(rows, id, s, total, at);
      && (!ok <==> id in rows && s == Active && StateIds(rows, Active) - {id} != {})
      && (if ok && id in rows then OnlyRow(rows, after, id, rows[id].(state := s, totalBytes := total, sealedAt := at)) else after == rows)
  {
    if id in rows {
      var after := rows[id := rows[id].(state := s, totalBytes := total, sealedAt := at)];
      var others := StateIds(rows, Active) - {id};
      if s == Active && others != {} {
        HasMember(others);
        var k :| k in others;
        assert k in after && after[k].state == Active && after[id].state == Active;
        assert !SingleActive(after);
      } else {
        forall i, j | i in after && j in after && after[i].state == Active && after[j].state == Active ensures i == j {
          assert i != id && s == Active ==> i in others;
          assert j != id && s == Active ==> j in others;
        }
        assert UniqueUuid(after);
      }
    }
  }

  /** The only row with this uuid is `id`, at this url. */
  predicate FoundAt(rows: Rows, uuid: string, id: int, url: string) {
    HasUuid(rows, uuid) == {id} && id in rows && rows[id].url == url
  }

  /** A known uuid keeps its id and state and gets the new url, and the call succeeds. */
  lemma KnownRegisters(rows: Rows, uuid: string, url: string, max: int, id: int)
    requires Keyed(rows) && IsMax(rows, max) && id in rows && rows[id].uuid == Some(uuid)
    ensures var (after, ok) := RegisterShard(rows, uuid, url, max);
      ok && FoundAt(after, uuid, id, url) && OnlyRow(rows, after, id, rows[id].(url := url))
  {
    hide SingleActive;
    assert id in HasUuid(rows, uuid);
    var after := RegisterShard(rows, uuid, url, max).0;
    assert forall k :: k in rows && rows[k].uuid == Some(uuid) ==> k == id;
    assert HasUuid(after, uuid) == {id};
  }

  /** A new uuid is found again under the next id, as a standby; it is refused only when the ids have run out. */
  lemma NewRegisters(rows: Rows, uuid: string, url: string, max: int)
    requires Keyed(rows) && IsMax(rows, max) && HasUuid(rows, uuid) == {}
    ensures var (after, ok) := RegisterShard(rows, uuid, url, max);
      && max + 1 !in rows
      && (ok <==> max + 1 < 0x8000)
      && (if ok then FoundAt(after, uuid, max + 1, url) && OnlyRow(rows, after, max + 1, Shard(Some(uuid), Standby, url, 0, None))
          else after == rows)
  {
    var after := rows[max + 1 := Shard(Some(uuid), Standby, url, 0, None)];
    assert forall k :: k in rows && rows[k].uuid == Some(uuid) ==> k in HasUuid(rows, uuid);
    assert HasUuid(after, uuid) == {max + 1};
    assert SingleActive(after) && UniqueUuid(after);
    assert ValidId(max + 1) <==> max + 1 < 0x8000;
    if Keyed(after) { assert max + 1 in after; }
  }

  /** A bootstrap entry for a new id is inserted as it is, unless its id, its uuid or a second active row forbids it. */
  lemma SeedInserts(rows: Rows, id: int, uuid: Option<string>, s: ShardState, url: string)
    requires Keyed(rows) && id !in rows
    ensures var (after, ok) := Seed(rows, id, uuid, s, url);
      && (ok <==> ValidId(id) && (s == Active ==> StateIds(rows, Active) == {}) && (uuid.Some? ==> HasUuid(rows, uuid.value) == {}))
      && (if ok then OnlyRow(rows, after, id, Shard(uuid, s, url, 0, None)) else after == rows)
  {
    var after := rows[id := Shard(uuid, s, url, 0, None)];
    assert id in after;
    if s == Active && StateIds(rows, Active) != {} {
      HasMember(StateIds(rows, Active));
      var k :| k in StateIds(rows, Active);
      assert k in after && !SingleActive(after);
    }
    if uuid.Some? && HasUuid(rows, uuid.value) != {} {
      HasMember(HasUuid(rows, uuid.value));
      var k :| k in HasUuid(rows, uuid.value);
      assert k in after && !UniqueUuid(after);
    }
    if s == Active && StateIds(rows, Active) == {} { assert forall k :: k in rows ==> k !in StateIds(rows, Active); }
    if uuid.Some? && HasUuid(rows, uuid.value) == {} { assert forall k :: k in rows ==> k !in HasUuid(rows, uuid.value); }
  }

  /** A bootstrap entry for a known id fills in a missing uuid and a blank url, unless another row has the uuid. */
  lemma SeedFills(rows: Rows, id: int, uuid: Option<string>, s: ShardState, url: string)
    requires Keyed(rows) && id in rows
    ensures var (after, ok) := Seed(rows, id, uuid, s, url); var row := rows[id];
      && (ok <==> (row.uuid == None && uuid.Some? ==> HasUuid(rows, uuid.value) == {}))
      && (if ok then OnlyRow(rows, after, id, Shard(if row.uuid == None then uuid else row.uuid, row.state,
                                                    if Blank(row.url) then url else row.url, row.totalBytes, row.sealedAt))
          else after == rows)
  {
    hide Blank;
    var row := rows[id];
    var after := rows[id := row.(uuid := if row.uuid.Some? then row.uuid else uuid, url := if Blank(row.url) then url else row.url)];
    if row.uuid == None && uuid.Some? {
      if HasUuid(rows, uuid.value) != {} {
        HasMember(HasUuid(rows, uuid.value));
        var k :| k in HasUuid(rows, uuid.value);
        assert k in after && id in after && !UniqueUuid(after);
      } else {
        assert forall k :: k in rows ==> k !in HasUuid(rows, uuid.value);
      }
    }
  }

  class Table {
    var rows: Rows

    constructor ()
      ensures rows == map[]
    {
      rows := map[];
    }

    method SetState(id: int, s: ShardState, total: nat, at: Option<nat>) returns (ok: bool)
      modifies this
      ensures (rows, ok) == SetShardState(old(rows), id, s, total, at)
    {
      if id !in rows { return true; }
      var after := rows[id := rows[id].(state := s, totalBytes := total, sealedAt := at)];
      ok := Keyed(after);
      if ok { rows := after; }
    }

    method Promote(target: int, sealed: Option<SealedShard>) returns (r: Promotion)
      modifies this
      ensures (rows, r) == PromoteStandby(old(rows), target, sealed)
    {
      if target !in rows { return NotFound; }
      if rows[target].state != Standby { return Conflict; }
      var others := OtherActive(rows, target);
      if sealed.Some? {
        if others != {sealed.value.id} { return Conflict; }
        assert sealed.value.id in others;
        var s := sealed.value;
        rows := rows[s.id := rows[s.id].(state := Sealed, totalBytes := s.totalBytes, sealedAt := Some(s.at))];
      } else if others != {} {
        return Conflict;
      }
      rows := Activate(rows, target);
      r := Promoted;
    }

    method Register(uuid: string, url: string) returns (ok: bool, ghost max: int)
      modifies this
      ensures IsMax(old(rows), max) && (rows, ok) == RegisterShard(old(rows), uuid, url, max)
    {
      var top := HighestId(rows);
      max := top;
      if HasUuid(rows, uuid) != {} {
        rows := map id | id in rows :: if rows[id].uuid == Some(uuid) then rows[id].(url := url) else rows[id];
        return true, max;
      }
      var after := rows[top + 1 := Shard(Some(uuid), Standby, url, 0, None)];
      ok := Keyed(after);
      if ok { rows := after; }
    }

    /** SELECT COALESCE(MAX(shard_id), -1) */
    static method HighestId(rows: Rows) returns (m: int)
      ensures IsMax(rows, m)
    {
      if |rows| == 0 { return -1; }
      var ids := rows.Keys;
      HasMember(ids);
      m :| m in ids;
      var todo := ids - {m};
      while |todo| > 0
        invariant todo <= ids && m in ids && forall k :: k in ids && k !in todo ==> k <= m
        decreases |todo|
      {
        HasMember(todo);
        var id :| id in todo;
        if id > m { m := id; }
        todo := todo - {id};
      }
    }

    method SeedRow(id: int, uuid: Option<string>, s: ShardState, url: string) returns (ok: bool)
      modifies this
      ensures (rows, ok) == Seed(old(rows), id, uuid, s, url)
    {
      var after := rows;
      if id !in rows {
        after := rows[id := Shard(uuid, s, url, 0, None)];
      } else {
        var row := rows[id];
        if row.uuid == None { row := row.(uuid := uuid); }
        if Blank(row.url) { row := row.(url := url); }
        after := rows[id := row];
      }
      ok := Keyed(after);
      if ok { rows := after; }
    }
  }
}
