/**
 Clones over whole runs, with the canonical read before the clone's own transaction as the service
 does: every clone mirrors its canonical or waits behind it, and which steps change that.
 */
module MirrorRuns {
  import opened Bytes
  import opened Metadata
  import opened Ingestion
  import opened IngestEffects
  import opened IngestRuns
  import opened CloneRuns
  import opened Mirror

  // ---- what one step does to packages and rows ----

  datatype Effect =
    | Nothing
    | Created(id: nat, pkg: Package, rows: seq<FileIn>)
    | Unpacks(p: nat)
    | Fills(c: nat, k: nat)

  /** The effect of a step, read off the tables before and after. */
  function EffectOf(t: Tables, u: Tables, step: Step): Effect {
    match step
    case Unpack(p, _, _) => if Emerges(t, u, p) then Unpacks(p) else Nothing
    case Propagate(c, k, _) => if Emerges(t, u, k) then Fills(c, k) else Nothing
    case LookUp(_, _) => Nothing
    case _ => if step.id !in t.pkgs && step.id in u.pkgs then Created(step.id, u.pkgs[step.id], RowsOf(u.files, step.id)) else Nothing
  }

  /** The package went from raw_large to unpacked. */
  predicate Emerges(t: Tables, u: Tables, p: nat) {
    p in t.pkgs && p in u.pkgs && t.pkgs[p].mode == RawLarge && u.pkgs[p].mode == ZipWithMembers
  }

  function SetResult(p: Package, result: Package): Package {
    p.(mode := ZipWithMembers, fileCount := result.fileCount, unpackError := result.unpackError)
  }

  ghost predicate OthersKeepRows(t: Tables, u: Tables, p: nat) {
    forall q: nat :: q != p ==> RowsOf(u.files, q) == RowsOf(t.files, q)
  }

  ghost predicate Did(t: Tables, u: Tables, e: Effect) {
    match e
    case Nothing => u.pkgs == t.pkgs && forall q: nat :: RowsOf(u.files, q) == RowsOf(t.files, q)
    case Created(id, pkg, rows) => NewPackage(t, u, id, pkg, rows)
    case Unpacks(p) =>
      && Pending(t, p) && p in u.pkgs && u.pkgs == t.pkgs[p := SetResult(t.pkgs[p], u.pkgs[p])]
      && OthersKeepRows(t, u, p) && RowsOf(t.files, p) <= RowsOf(u.files, p)
    case Fills(c, k) =>
      && IsClone(t, k, c) && Behind(t, c, k)
      && u.pkgs == t.pkgs[k := SetResult(t.pkgs[k], t.pkgs[c])]
      && OthersKeepRows(t, u, k) && RowsOf(u.files, k) == RowsOf(t.files, c)
  }

  /** The list the recovery scan works from: raw_large packages that are no clones. */
  predicate Pending(t: Tables, p: nat) {
    p in t.pkgs && t.pkgs[p].mode == RawLarge && t.pkgs[p].canonical == None
  }

  ghost predicate Fine(st: State) {
    WellShaped(st.db.t) && forall x :: x in st.tickets ==> Fits(st.db.t, st.tickets[x])
  }

  lemma FineParts(st: State)
    requires Fine(st)
    ensures WellShaped(st.db.t) && Owned(st.db.t)
    ensures forall x :: x in st.tickets ==> Fits(st.db.t, st.tickets[x])
  {
    hide Fits;
    ShapedOwned(st.db.t);
  }

  lemma UploadDid(sha: Sha, db: Db, id: nat, pkg: Package, body: Bytes, o: Store)
    requires WellShaped(db.t) && pkg.canonical == None
    ensures var r := IngestOriginal(sha, db, id, pkg, body, o);
      r.Some? ==>
        && id !in db.t.pkgs && id in r.value.t.pkgs && WellShaped(r.value.t)
        && NewPackage(db.t, r.value.t, id, r.value.t.pkgs[id], RowsOf(r.value.t.files, id))
  {
    hide RowsOf, IngestOriginal, WellShaped;
    ShapedOwned(db.t);
    UploadShape(sha, db, id, pkg, body, o);
    OriginalEffect(sha, db, id, pkg, body, o);
  }

  lemma CloneDid(db: Db, id: nat, x: Ticket, supplier: int, filename: Option<string>)
    requires WellShaped(db.t) && Fits(db.t, x) && x.canonical < id
    ensures var r := ClonePackage(db, id, x.canonical, x.snap, x.rows, supplier, filename);
      r.Some? ==>
        && id !in db.t.pkgs && id in r.value.t.pkgs && WellShaped(r.value.t)
        && NewPackage(db.t, r.value.t, id, r.value.t.pkgs[id], RowsOf(r.value.t.files, id))
  {
    hide RowsOf, ClonePackage, WellShaped;
    ShapedOwned(db.t);
    CloneShape(db, id, x, supplier, filename);
    CloneEffect(db, id, x.canonical, x.snap, x.rows, supplier, filename);
  }

  lemma UnpackDid(sha: Sha, db: Db, p: nat, items: seq<Item>, errStore: Store)
    requires WellShaped(db.t) && p in db.t.pkgs && db.t.pkgs[p].canonical == None
    ensures var r := UnpackTx(sha, db, p, items, errStore);
      r.Some? ==> WellShaped(r.value.t) && Emerges(db.t, r.value.t, p) && Did(db.t, r.value.t, Unpacks(p))
  {
    hide RowsOf, UnpackTx, WellShaped;
    UnpackShape(sha, db, p, items, errStore);
    UnpackEffect(sha, db, p, items, errStore);
  }

  lemma PropagateDid(db: Db, c: nat, k: nat, stale: bool)
    requires WellShaped(db.t) && MayPropagate(db.t, c, k, stale)
    ensures var r := PropagateTx(db, c, k, Present(db.t, k, stale));
      r.Some? ==>
        && WellShaped(r.value.t) && Mirrors(r.value.t, c, k)
        && (if Behind(db.t, c, k) then Emerges(db.t, r.value.t, k) && Did(db.t, r.value.t, Fills(c, k)) else r.value == db)
  {
    hide RowsOf, PropagateTx, WellShaped, Present;
    NothingPresent(db.t, k, stale);
    CloneAt(db.t, k, c);
    PropagateShape(db, c, k, stale);
    if Behind(db.t, c, k) { PropagateBehind(db, c, k); } else { PropagateMirror(db, c, k); }
  }

  lemma StepDid(sha: Sha, st: State, step: Step)
    requires Fine(st)
    ensures var u := Exec(sha, st, step).db.t; WellShaped(u) && Did(st.db.t, u, EffectOf(st.db.t, u, step))
  {
    hide Fine, Fits, WellShaped, NewPackage, IngestOriginal, IngestSmallZIP, UnpackTx, PropagateTx, ClonePackage, RowsOf, Present;
    FineParts(st);
    match step
    case UploadXml(id, supplier, body, filename, o) =>
      UploadDid(sha, st.db, id, Package(supplier, sha(body), XML, Single, filename, None, 1, None), body, o);
    case UploadLargeZip(id, supplier, body, filename, o) =>
      UploadDid(sha, st.db, id, Package(supplier, sha(body), ZIP, RawLarge, filename, None, 1, None), body, o);
    case UploadSmallZip(id, supplier, body, filename, o, precheck, entries, items, errStore) =>
      SmallZipDid(sha, st.db, id, supplier, body, filename, o, precheck, entries, items, errStore);
    case LookUp(_, _) =>
    case Clone(id, ticket, supplier, filename) =>
      if ticket in st.tickets && id > st.tickets[ticket].canonical { CloneDid(st.db, id, st.tickets[ticket], supplier, filename); }
    case Unpack(p, items, errStore) =>
      if p in st.db.t.pkgs && st.db.t.pkgs[p].canonical == None { UnpackDid(sha, st.db, p, items, errStore); }
    case Propagate(c, k, stale) =>
      if MayPropagate(st.db.t, c, k, stale) { PropagateDid(st.db, c, k, stale); }
  }

  lemma SmallZipDid(sha: Sha, db: Db, id: nat, supplier: int, body: Bytes, filename: Option<string>, o: Store,
                    precheck: Option<Bytes>, entries: nat, items: seq<Item>, errStore: Store)
    requires WellShaped(db.t)
    ensures var r := IngestSmallZIP(sha, db, id, supplier, body, filename, o, precheck, entries, items, errStore);
      r.Some? ==>
        && id !in db.t.pkgs && id in r.value.t.pkgs && WellShaped(r.value.t)
        && NewPackage(db.t, r.value.t, id, r.value.t.pkgs[id], RowsOf(r.value.t.files, id))
  {
    hide RowsOf, IngestSmallZIP, WellShaped;
    ShapedOwned(db.t);
    SmallZipEffect(sha, db, id, supplier, body, filename, o, precheck, entries, items, errStore);
    var r := IngestSmallZIP(sha, db, id, supplier, body, filename, o, precheck, entries, items, errStore);
    if r.Some? { AddPackage(db.t, r.value.t, id, r.value.t.pkgs[id], RowsOf(r.value.t.files, id)); }
  }

  // ---- what follows from the effect ----

  /** Packages stay, and change only from raw_large to unpacked. */
  predicate Forward(t: Tables, u: Tables) {
    forall p :: p in t.pkgs ==> p in u.pkgs && (u.pkgs[p] == t.pkgs[p] || (Emerges(t, u, p) && u.pkgs[p] == SetResult(t.pkgs[p], u.pkgs[p])))
  }

  lemma DidForward(t: Tables, u: Tables, e: Effect)
    requires Did(t, u, e)
    ensures Forward(t, u)
    ensures forall p :: Emerges(t, u, p) ==> e == Unpacks(p) || (e.Fills? && e.k == p)
  {
    hide RowsOf;
  }

  lemma FitsAfter(t: Tables, u: Tables, e: Effect, x: Ticket)
    requires WellShaped(t) && Did(t, u, e) && Fits(t, x)
    ensures Fits(u, x)
  {
    hide RowsOf, WellShaped;
    if e == Unpacks(x.canonical) { ShapeAt(t, x.canonical); }
  }

  lemma ReadFits(t: Tables, c: nat)
    requires WellShaped(t) && Lowest(t, c)
    ensures Fits(t, Read(t, c))
  {
    hide RowsOf, WellShaped;
    LowestShaped(t, c);
    ShapeAt(t, c);
  }

  lemma StepFine(sha: Sha, st: State, step: Step)
    requires Fine(st)
    ensures Fine(Exec(sha, st, step))
  {
    hide Fits, WellShaped, Did, Lowest;
    StepDid(sha, st, step);
    var u := Exec(sha, st, step);
    StepTickets(sha, st, step);
    forall x | x in u.tickets ensures Fits(u.db.t, u.tickets[x]) {
      if step.LookUp? && x == step.ticket && Lowest(st.db.t, step.canonical) {
        ReadFits(st.db.t, step.canonical);
      } else {
        FitsAfter(st.db.t, u.db.t, EffectOf(st.db.t, u.db.t, step), st.tickets[x]);
      }
    }
  }

  lemma StepTickets(sha: Sha, st: State, step: Step)
    ensures var u := Exec(sha, st, step);
      if step.LookUp? && Lowest(st.db.t, step.canonical)
      then u.db == st.db && u.tickets == st.tickets[step.ticket := Read(st.db.t, step.canonical)]
      else u.tickets == st.tickets
  {
    hide IngestOriginal, IngestSmallZIP, UnpackTx, PropagateTx, ClonePackage, RowsOf, Present, Lowest;
  }

  lemma {:induction false} RunFine(sha: Sha, st: State, steps: seq<Step>)
    requires Fine(st)
    ensures Fine(Run(sha, st, steps))
  {
    hide Exec, Fine;
    if steps != [] {
      RunFine(sha, st, steps[..|steps| - 1]);
      StepFine(sha, Run(sha, st, steps[..|steps| - 1]), steps[|steps| - 1]);
    }
  }

  lemma StartFine()
    ensures Fine(START)
  {
  }

  /**
   In every run, with each canonical read at any time before the clone is inserted: a clone either shows
   exactly its canonical's columns and rows, or its canonical has been unpacked and the clone waits,
   raw_large, with the original only - and never both.
   */
  lemma ClonesMirrorOrWait(sha: Sha, steps: seq<Step>, k: nat, c: nat)
    requires IsClone(Run(sha, START, steps).db.t, k, c)
    ensures var t := Run(sha, START, steps).db.t; Mirrors(t, c, k) <==> !Behind(t, c, k)
  {
    hide Run, WellShaped;
    StartFine();
    RunFine(sha, START, steps);
    FineParts(Run(sha, START, steps));
    CloneAt(Run(sha, START, steps).db.t, k, c);
  }

  /** In every run, a clone that commits mirrors its canonical iff the canonical was not unpacked since it was read. */
  lemma CloneMirrorsIffReadInTime(sha: Sha, steps: seq<Step>, id: nat, ticket: nat, supplier: int, filename: Option<string>)
    requires var st := Run(sha, START, steps); ticket in st.tickets && id !in st.db.t.pkgs
    requires id in Exec(sha, Run(sha, START, steps), Clone(id, ticket, supplier, filename)).db.t.pkgs
    ensures var st := Run(sha, START, steps); var x := st.tickets[ticket];
      var t := Exec(sha, st, Clone(id, ticket, supplier, filename)).db.t;
      && x.canonical in st.db.t.pkgs && IsClone(t, id, x.canonical)
      && (Mirrors(t, x.canonical, id) <==> x.snap.mode == st.db.t.pkgs[x.canonical].mode)
      && (Behind(t, x.canonical, id) <==> x.snap.mode != st.db.t.pkgs[x.canonical].mode)
  {
    hide Run, WellShaped, ClonePackage, RowsOf;
    StartFine();
    RunFine(sha, START, steps);
    var st := Run(sha, START, steps);
    FineParts(st);
    var x := st.tickets[ticket];
    if x.canonical < id { CloneShape(st.db, id, x, supplier, filename); }
  }

  /** A clone that waits goes on waiting, unless this very step fills it. */
  lemma BehindAfter(t: Tables, u: Tables, e: Effect, c: nat, k: nat)
    requires WellShaped(t) && Did(t, u, e) && IsClone(t, k, c) && Behind(t, c, k)
    ensures IsClone(u, k, c)
    ensures if e == Fills(c, k) then Mirrors(u, c, k) && !Behind(u, c, k) else Behind(u, c, k)
  {
    hide RowsOf, WellShaped;
    CloneAt(t, k, c);
  }

  /** An unpacked package never changes again, nor do its rows. */
  lemma UnpackedAfter(t: Tables, u: Tables, e: Effect, p: nat)
    requires Did(t, u, e) && p in t.pkgs && t.pkgs[p].mode == ZipWithMembers
    ensures p in u.pkgs && u.pkgs[p] == t.pkgs[p] && RowsOf(u.files, p) == RowsOf(t.files, p)
  {
    hide RowsOf;
  }

  /** So whatever happens later, what the first committed unpack stored is what the package keeps. */
  lemma {:induction false} UnpackedForGood(sha: Sha, st: State, steps: seq<Step>, p: nat)
    requires Fine(st) && p in st.db.t.pkgs && st.db.t.pkgs[p].mode == ZipWithMembers
    ensures var t := Run(sha, st, steps).db.t;
      p in t.pkgs && t.pkgs[p] == st.db.t.pkgs[p] && RowsOf(t.files, p) == RowsOf(st.db.t.files, p)
  {
    hide Exec, Fine, Did, RowsOf, WellShaped;
    if steps != [] {
      var n := |steps| - 1;
      UnpackedForGood(sha, st, steps[..n], p);
      RunFine(sha, st, steps[..n]);
      var mid := Run(sha, st, steps[..n]);
      StepDid(sha, mid, steps[n]);
      var u := Exec(sha, mid, steps[n]).db.t;
      UnpackedAfter(mid.db.t, u, EffectOf(mid.db.t, u, steps[n]), p);
    }
  }

  /** A package leaves the pending list only by its own committed unpack. */
  lemma LeavesPendingOnlyByUnpack(sha: Sha, st: State, step: Step, p: nat)
    requires Fine(st) && Pending(st.db.t, p)
    ensures !Pending(Exec(sha, st, step).db.t, p) ==>
      step.Unpack? && step.pkg == p && UnpackTx(sha, st.db, p, step.items, step.errStore).Some?
  {
    hide Exec, Fine, WellShaped, RowsOf, UnpackTx;
    StepDid(sha, st, step);
    var u := Exec(sha, st, step).db.t;
    var e := EffectOf(st.db.t, u, step);
    DidForward(st.db.t, u, e);
    if e == Unpacks(p) && UnpackTx(sha, st.db, p, step.items, step.errStore) == None { NoUnpackNoChange(sha, st, step); }
  }

  lemma NoUnpackNoChange(sha: Sha, st: State, step: Step)
    requires step.Unpack? && UnpackTx(sha, st.db, step.pkg, step.items, step.errStore) == None
    ensures Exec(sha, st, step) == st
  {
    hide UnpackTx;
  }
}
