/** Clones and their canonical packages over whole runs (internal/ingestion, internal/metadata/repo.go). */
module CloneRuns {
  import opened Bytes
  import opened Metadata
  import opened FileKey
  import opened Ingestion
  import opened IngestEffects
  import opened IngestRuns

  // ---- clone chains have depth one, in every run ----

  predicate Linked(t: Tables, k: nat, c: nat) {
    && k in t.pkgs && c in t.pkgs && c < k
    && t.pkgs[c].canonical == None && t.pkgs[c].hash == t.pkgs[k].hash
  }

  ghost predicate Links(st: State) {
    && Owned(st.db.t)
    && (forall k, c :: IsClone(st.db.t, k, c) ==> Linked(st.db.t, k, c))
    && (forall x :: x in st.tickets ==> Sound(st.db.t, st.tickets[x]))
  }

  predicate Sound(t: Tables, x: Ticket) {
    x.canonical in t.pkgs && t.pkgs[x.canonical].canonical == None && t.pkgs[x.canonical].hash == x.snap.hash
  }

  /** The lookup of the in-memory repository: lowest id among packages that are no clones. */
  predicate LowestOriginal(t: Tables, c: nat) {
    && c in t.pkgs && t.pkgs[c].canonical == None
    && forall k :: k in t.pkgs && t.pkgs[k].hash == t.pkgs[c].hash && t.pkgs[k].canonical == None ==> c <= k
  }

  /** Existing packages keep their content hash and their canonical. */
  predicate Stable(t: Tables, u: Tables) {
    forall q :: q in t.pkgs ==> q in u.pkgs && u.pkgs[q].canonical == t.pkgs[q].canonical && u.pkgs[q].hash == t.pkgs[q].hash
  }

  lemma LinksAfter(st: State, db: Db, id: nat)
    requires Links(st) && Stable(st.db.t, db.t) && Owned(db.t)
    requires forall q :: q in db.t.pkgs ==> q in st.db.t.pkgs || q == id
    requires id in db.t.pkgs && id !in st.db.t.pkgs && db.t.pkgs[id].canonical.Some? ==> Linked(db.t, id, db.t.pkgs[id].canonical.value)
    ensures Links(st.(db := db))
  {
    forall k, c | IsClone(db.t, k, c) ensures Linked(db.t, k, c) {
      if k in st.db.t.pkgs { assert IsClone(st.db.t, k, c); }
    }
  }

  lemma NewPackageLinks(st: State, r: Option<Db>, id: nat, pkg: Package, rows: seq<FileIn>)
    requires Links(st) && (r.Some? ==> NewPackage(st.db.t, r.value.t, id, pkg, rows))
    requires pkg.canonical.Some? ==> Linked(st.db.t.(pkgs := st.db.t.pkgs[id := pkg]), id, pkg.canonical.value)
    ensures Links(Commit(st, r))
  {
    hide RowsOf, Owned;
    if r.Some? { LinksAfter(st, r.value, id); }
  }

  lemma CloneLinks(st: State, id: nat, t: Ticket, supplier: int, filename: Option<string>)
    requires Links(st) && Sound(st.db.t, t)
    ensures Links(CloneFrom(st, id, t, supplier, filename))
  {
    hide ClonePackage, NewPackage;
    if id > t.canonical {
      CloneEffect(st.db, id, t.canonical, t.snap, t.rows, supplier, filename);
      var pkg := t.snap.(supplier := supplier, filename := filename, canonical := Some(t.canonical));
      NewPackageLinks(st, ClonePackage(st.db, id, t.canonical, t.snap, t.rows, supplier, filename), id, pkg, t.rows);
    }
  }

  lemma UpdateLinks(st: State, r: Option<Db>, p: nat)
    requires Links(st)
    requires r.Some? ==> Stable(st.db.t, r.value.t) && r.value.t.pkgs.Keys == st.db.t.pkgs.Keys && Owned(r.value.t)
    ensures Links(Commit(st, r))
  {
    if r.Some? { LinksAfter(st, r.value, p); }
  }

  lemma LowestIsOriginal(st: State, c: nat)
    requires Links(st) && Lowest(st.db.t, c)
    ensures st.db.t.pkgs[c].canonical == None
  {
    if st.db.t.pkgs[c].canonical.Some? {
      assert IsClone(st.db.t, c, st.db.t.pkgs[c].canonical.value);
    }
  }

  lemma PropagateStable(db: Db, c: nat, k: nat, existing: set<string>)
    requires c in db.t.pkgs && Owned(db.t)
    ensures var r := PropagateTx(db, c, k, existing);
      r.Some? ==> Stable(db.t, r.value.t) && r.value.t.pkgs.Keys == db.t.pkgs.Keys && Owned(r.value.t)
  {
    hide CopyMissing, IncrementAll, Extras, RowsOf;
    var extras := Extras(RowsOf(db.t.files, c));
    CopyStable(k, Copied(db.t, [], existing), extras);
    var r := CopyMissing(k, Copied(db.t, [], existing), extras);
    if r.Some? { IncrementAllEffect(r.value.t, r.value.hashes); }
  }

  lemma {:induction false} CopyStable(k: nat, start: Copied, extras: seq<FileIn>)
    requires Owned(start.t)
    ensures var r := CopyMissing(k, start, extras); r.Some? ==> r.value.t.pkgs == start.t.pkgs && Owned(r.value.t)
  {
    hide RowsOf, PackageFileKey;
    if extras != [] { CopyStable(k, start, extras[..|extras| - 1]); }
  }

  lemma StepLinks(sha: Sha, st: State, step: Step)
    requires Links(st)
    ensures Links(Exec(sha, st, step))
  {
    hide Links, NewPackage, IngestOriginal, IngestSmallZIP, UnpackTx, PropagateTx, CloneFrom, RowsOf, Present;
    LinksOwned(st);
    match step
    case UploadXml(id, supplier, body, filename, o) =>
      var pkg := Package(supplier, sha(body), XML, Single, filename, None, 1, None);
      OriginalEffect(sha, st.db, id, pkg, body, o);
      NewPackageLinks(st, IngestOriginal(sha, st.db, id, pkg, body, o), id, pkg, [FileIn(sha(body), Original, filename, None)]);
    case UploadLargeZip(id, supplier, body, filename, o) =>
      var pkg := Package(supplier, sha(body), ZIP, RawLarge, filename, None, 1, None);
      OriginalEffect(sha, st.db, id, pkg, body, o);
      NewPackageLinks(st, IngestOriginal(sha, st.db, id, pkg, body, o), id, pkg, [FileIn(sha(body), Original, filename, None)]);
    case UploadSmallZip(id, supplier, body, filename, o, precheck, entries, items, errStore) =>
      SmallZipEffect(sha, st.db, id, supplier, body, filename, o, precheck, entries, items, errStore);
      var r := IngestSmallZIP(sha, st.db, id, supplier, body, filename, o, precheck, entries, items, errStore);
      if r.Some? { NewPackageLinks(st, r, id, r.value.t.pkgs[id], RowsOf(r.value.t.files, id)); }
    case LookUp(ticket, c) => LookUpLinks(sha, st, ticket, c);
    case Clone(id, ticket, supplier, filename) =>
      if ticket in st.tickets {
        TicketOk(st, ticket);
        CloneLinks(st, id, st.tickets[ticket], supplier, filename);
      }
    case Unpack(p, items, errStore) =>
      UnpackEffect(sha, st.db, p, items, errStore);
      UpdateLinks(st, UnpackTx(sha, st.db, p, items, errStore), p);
    case Propagate(c, k, stale) =>
      if c in st.db.t.pkgs {
        var existing := Present(st.db.t, k, stale);
        PropagateStable(st.db, c, k, existing);
        UpdateLinks(st, PropagateTx(st.db, c, k, existing), k);
      }
  }

  lemma LinksOwned(st: State)
    requires Links(st)
    ensures Owned(st.db.t)
  {
  }

  lemma TicketOk(st: State, x: nat)
    requires Links(st) && x in st.tickets
    ensures Sound(st.db.t, st.tickets[x])
  {
  }

  lemma LookUpLinks(sha: Sha, st: State, ticket: nat, c: nat)
    requires Links(st)
    ensures Links(Exec(sha, st, LookUp(ticket, c)))
  {
    hide RowsOf, Owned;
    if Lowest(st.db.t, c) { LowestIsOriginal(st, c); }
  }

  lemma {:induction false} RunLinks(sha: Sha, steps: seq<Step>)
    ensures Links(Run(sha, START, steps))
  {
    hide Exec;
    if steps != [] {
      RunLinks(sha, steps[..|steps| - 1]);
      StepLinks(sha, Run(sha, START, steps[..|steps| - 1]), steps[|steps| - 1]);
    }
  }

  /**
   In every run, also with the canonical read before the clone's transaction: each clone points
   to a package with equal content and smaller id that is itself no clone, and the lookup by
   lowest id finds the same package as one restricted to non-clones.
   */
  lemma CloneChainsHaveDepthOne(sha: Sha, steps: seq<Step>)
    ensures var t := Run(sha, START, steps).db.t;
      && (forall k, c :: IsClone(t, k, c) ==> Linked(t, k, c))
      && (forall c: nat :: Lowest(t, c) <==> LowestOriginal(t, c))
  {
    hide Run;
    RunLinks(sha, steps);
    var st := Run(sha, START, steps);
    forall c: nat ensures Lowest(st.db.t, c) <==> LowestOriginal(st.db.t, c) {
      LookupsAgree(st, c);
    }
  }

  lemma LookupsAgree(st: State, c: nat)
    requires Links(st)
    ensures Lowest(st.db.t, c) <==> LowestOriginal(st.db.t, c)
  {
    var t := st.db.t;
    if Lowest(t, c) {
      LowestIsOriginal(st, c);
    }
    if LowestOriginal(t, c) {
      forall k | k in t.pkgs && t.pkgs[k].hash == t.pkgs[c].hash ensures c <= k {
        if t.pkgs[k].canonical.Some? { assert IsClone(t, k, t.pkgs[k].canonical.value); }
      }
    }
  }
}
