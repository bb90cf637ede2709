/**
 Whole runs of uploads, clones, unpacks and propagations in any order, each transaction atomic
 with rollback: references are conserved.
 */
module IngestRuns {
  import opened Bytes
  import opened Metadata
  import opened Ingestion
  import opened IngestEffects

  /** A canonical package read outside the clone's transaction. */
  datatype Ticket = Ticket(canonical: nat, snap: Package, rows: seq<FileIn>)

  datatype State = State(db: Db, tickets: map<nat, Ticket>)

  const START: State := State(Db(EMPTY, multiset{}), map[])

  datatype Step =
    | UploadXml(id: nat, supplier: int, body: Bytes, filename: Option<string>, o: Store)
    | UploadLargeZip(id: nat, supplier: int, body: Bytes, filename: Option<string>, o: Store)
    | UploadSmallZip(id: nat, supplier: int, body: Bytes, filename: Option<string>, o: Store,
                     precheck: Option<Bytes>, entries: nat, items: seq<Item>, errStore: Store)
    | LookUp(ticket: nat, canonical: nat)
    | Clone(id: nat, ticket: nat, supplier: int, filename: Option<string>)
    | Unpack(pkg: nat, items: seq<Item>, errStore: Store)
    | Propagate(canonical: nat, clone: nat, stale: bool)

  /** FindCanonicalPackageID: the lowest id with this content, clones included. */
  predicate Lowest(t: Tables, c: nat) {
    c in t.pkgs && forall k :: k in t.pkgs && t.pkgs[k].hash == t.pkgs[c].hash ==> c <= k
  }

  function Commit(st: State, r: Option<Db>): State {
    if r.Some? then st.(db := r.value) else st
  }

  function CloneFrom(st: State, id: nat, t: Ticket, supplier: int, filename: Option<string>): State {
    // ids come from a sequence, so one drawn after the read is above the canonical's
    if id <= t.canonical then st else
    Commit(st, ClonePackage(st.db, id, t.canonical, t.snap, t.rows, supplier, filename))
  }

  function Read(t: Tables, c: nat): Ticket
    requires c in t.pkgs
  {
    Ticket(c, t.pkgs[c], RowsOf(t.files, c))
  }

  predicate IsClone(t: Tables, k: nat, c: nat) {
    k in t.pkgs && t.pkgs[k].canonical == Some(c)
  }

  /** The keys propagation reads from the clone: `stale` means they were read while it was raw_large. */
  function Present(t: Tables, k: nat, stale: bool): set<string> {
    if stale then {} else Keys(Extras(RowsOf(t.files, k)))
  }

  predicate MayPropagate(t: Tables, c: nat, k: nat, stale: bool) {
    && c in t.pkgs && t.pkgs[c].mode == ZipWithMembers && IsClone(t, k, c)
    && (stale || t.pkgs[k].mode == RawLarge)
  }

  function Exec(sha: Sha, st: State, step: Step): State {
    var db := st.db;
    match step
    case UploadXml(id, supplier, body, filename, o) => Commit(st, IngestXML(sha, db, id, supplier, body, filename, o))
    case UploadLargeZip(id, supplier, body, filename, o) => Commit(st, IngestLargeZIP(sha, db, id, supplier, body, filename, o))
    case UploadSmallZip(id, supplier, body, filename, o, precheck, entries, items, errStore) =>
      Commit(st, IngestSmallZIP(sha, db, id, supplier, body, filename, o, precheck, entries, items, errStore))
    case LookUp(ticket, c) =>
      if Lowest(db.t, c) then st.(tickets := st.tickets[ticket := Read(db.t, c)]) else st
    case Clone(id, ticket, supplier, filename) =>
      if ticket in st.tickets then CloneFrom(st, id, st.tickets[ticket], supplier, filename) else st
    case Unpack(p, items, errStore) =>
      // only canonical packages are ever queued
      if p in db.t.pkgs && db.t.pkgs[p].canonical == None then Commit(st, UnpackTx(sha, db, p, items, errStore)) else st
    case Propagate(c, k, stale) =>
      if MayPropagate(db.t, c, k, stale) then Commit(st, PropagateTx(db, c, k, Present(db.t, k, stale))) else st
  }

  function Run(sha: Sha, st: State, steps: seq<Step>): State {
    if steps == [] then st else Exec(sha, Run(sha, st, steps[..|steps| - 1]), steps[|steps| - 1])
  }

  // ---- conservation of references ----

  lemma StepBalances(sha: Sha, st: State, step: Step)
    requires Balanced(st.db)
    ensures Balanced(Exec(sha, st, step).db)
  {
    hide Balanced, IngestOriginal, IngestSmallZIP, ClonePackage, UnpackTx, PropagateTx, RowsOf, Present;
    match step
    case UploadXml(id, supplier, body, filename, o) =>
      OriginalBooks(sha, st.db, id, Package(supplier, sha(body), XML, Single, filename, None, 1, None), body, o);
    case UploadLargeZip(id, supplier, body, filename, o) =>
      OriginalBooks(sha, st.db, id, Package(supplier, sha(body), ZIP, RawLarge, filename, None, 1, None), body, o);
    case UploadSmallZip(id, supplier, body, filename, o, precheck, entries, items, errStore) =>
      SmallZipBooks(sha, st.db, id, supplier, body, filename, o, precheck, entries, items, errStore);
    case LookUp(_, _) =>
    case Clone(id, ticket, supplier, filename) =>
      if ticket in st.tickets {
        var t := st.tickets[ticket];
        CloneBooks(st.db, id, t.canonical, t.snap, t.rows, supplier, filename);
      }
    case Unpack(p, items, errStore) => UnpackBooks(sha, st.db, p, items, errStore);
    case Propagate(c, k, stale) =>
      if c in st.db.t.pkgs { PropagateBooks(st.db, c, k, Present(st.db.t, k, stale)); }
  }

  lemma {:induction false} RunBalances(sha: Sha, steps: seq<Step>)
    ensures Balanced(Run(sha, START, steps).db)
  {
    hide Exec;
    if steps != [] {
      RunBalances(sha, steps[..|steps| - 1]);
      StepBalances(sha, Run(sha, START, steps[..|steps| - 1]), steps[|steps| - 1]);
    }
  }

  /** No member of the step fails in a sidecar after its reference was taken. */
  predicate Clean(items: seq<Item>) {
    forall i :: 0 <= i < |items| && items[i].Item? ==> !items[i].o.FailedAfter?
  }

  predicate SidecarsHold(step: Step) {
    (step.Unpack? || step.UploadSmallZip?) ==> Clean(step.items)
  }

  lemma {:induction false} CleanMembers(sha: Sha, p: nat, start: Progress, items: seq<Item>)
    requires Clean(items)
    ensures Members(sha, p, start, items).orphans == start.orphans
  {
    hide CreateFile, AfterStore;
    if items != [] { CleanMembers(sha, p, start, items[..|items| - 1]); }
  }

  lemma StepKeepsOrphans(sha: Sha, st: State, step: Step)
    requires SidecarsHold(step)
    ensures Exec(sha, st, step).db.orphans == st.db.orphans
  {
    hide CreateFile, CreatePackage, AfterStore, Members, InsertRows, IncrementAll, CopyMissing, UpdateAfterUnpack, RowsOf, Lowest, Extras, PersistUnpackError;
    if step.Unpack? {
      CleanMembers(sha, step.pkg, Progress(st.db.t, 0, st.db.orphans, None, false), step.items);
    } else if step.UploadSmallZip? {
      SmallZipOrphans(sha, st, step);
    }
  }

  lemma SmallZipOrphans(sha: Sha, st: State, step: Step)
    requires SidecarsHold(step) && step.UploadSmallZip?
    ensures Exec(sha, st, step).db.orphans == st.db.orphans
  {
    hide CreateFile, CreatePackage, AfterStore, Members, PersistUnpackError;
    var pkg := Package(step.supplier, sha(step.body), ZIP, ZipWithMembers, step.filename, None,
                       if step.precheck.Some? then 2 else 1 + step.entries, step.precheck);
    var d := IngestOriginal(sha, st.db, step.id, pkg, step.body, step.o);
    if d.Some? {
      CleanMembers(sha, step.id, Progress(d.value.t, 0, d.value.orphans, None, false), step.items);
    }
  }

  lemma {:induction false} RunKeepsOrphans(sha: Sha, steps: seq<Step>)
    requires forall i :: 0 <= i < |steps| ==> SidecarsHold(steps[i])
    ensures Run(sha, START, steps).db.orphans == multiset{}
  {
    hide Exec;
    if steps != [] {
      RunKeepsOrphans(sha, steps[..|steps| - 1]);
      StepKeepsOrphans(sha, Run(sha, START, steps[..|steps| - 1]), steps[|steps| - 1]);
    }
  }

  /**
   In every run, ref_count is at least the number of package_files rows naming the blob, every
   such row's blob exists, and the counts are equal when no sidecar write failed after its
   reference was taken.
   */
  lemma ReferencesAreConserved(sha: Sha, steps: seq<Step>, h: Hash)
    ensures var db := Run(sha, START, steps).db;
      && Ref(db.t, h) == Count(db.t.files, h) + db.orphans[h]
      && (Count(db.t.files, h) > 0 ==> h in db.t.blobs)
      && ((forall i :: 0 <= i < |steps| ==> SidecarsHold(steps[i])) ==> Ref(db.t, h) == Count(db.t.files, h))
  {
    hide Run;
    RunBalances(sha, steps);
    if forall i :: 0 <= i < |steps| ==> SidecarsHold(steps[i]) { RunKeepsOrphans(sha, steps); }
  }

  /**
   Where the equality is lost: unpacking any raw_large package whose first member fails in a
   sidecar write commits, and leaves that member's blob one reference above its rows.
   */
  lemma SwallowedErrorLeavesOrphan(sha: Sha, st: State, p: nat, name: string, data: Bytes, place: Place, msg: Bytes)
    requires Balanced(st.db) && p in st.db.t.pkgs
    requires st.db.t.pkgs[p].mode == RawLarge && st.db.t.pkgs[p].canonical == None
    requires forall i :: 0 <= i < |RowsOf(st.db.t.files, p)| ==> RowsOf(st.db.t.files, p)[i].role == Original
    ensures var u := Exec(sha, st, Unpack(p, [Item(name, data, FailedAfter(place, msg))], Kept(place)));
      && u.db.t.pkgs[p].mode == ZipWithMembers
      && u.db.orphans == st.db.orphans + multiset{sha(data)}
      && Ref(u.db.t, sha(data)) == Count(u.db.t.files, sha(data)) + st.db.orphans[sha(data)] + 1
  {
    hide RowsOf, Balanced, UnpackTx, Count;
    var items := [Item(name, data, FailedAfter(place, msg))];
    FailedMemberCommits(sha, st.db, p, name, data, place, msg);
    StepBalances(sha, st, Unpack(p, items, Kept(place)));
    BalancedAt(Exec(sha, st, Unpack(p, items, Kept(place))).db, sha(data));
  }

  lemma FailedMemberCommits(sha: Sha, db: Db, p: nat, name: string, data: Bytes, place: Place, msg: Bytes)
    requires p in db.t.pkgs && db.t.pkgs[p].mode == RawLarge
    requires forall i :: 0 <= i < |RowsOf(db.t.files, p)| ==> RowsOf(db.t.files, p)[i].role == Original
    ensures var r := UnpackTx(sha, db, p, [Item(name, data, FailedAfter(place, msg))], Kept(place));
      r.Some? && r.value.orphans == db.orphans + multiset{sha(data)}
      && p in r.value.t.pkgs && r.value.t.pkgs[p].mode == ZipWithMembers
  {
    hide RowsOf, Members, IncrementRef;
    var start := Progress(db.t, 0, db.orphans, None, false);
    OneMember(sha, p, start, Item(name, data, FailedAfter(place, msg)));
    AfterStoreAdds(db.t, sha(data), FailedAfter(place, msg), p);
    var t := AfterStore(db.t, sha(data), FailedAfter(place, msg));
    AfterStoreAdds(t, sha(msg), Kept(place), p);
    AfterStoreHas(t, sha(msg), place);
  }

  lemma AfterStoreHas(t: Tables, h: Hash, place: Place)
    ensures h in AfterStore(t, h, Kept(place)).blobs
  {
  }

  lemma OneMember(sha: Sha, p: nat, start: Progress, item: Item)
    ensures Members(sha, p, start, [item]) == MemberStep(sha, p, start, item)
  {
  }

  lemma BalancedAt(db: Db, h: Hash)
    requires Balanced(db)
    ensures Ref(db.t, h) == Count(db.t.files, h) + db.orphans[h]
  {
  }
}
