/** Uploads as the ingest service runs them: ProcessPackage and its transactions (internal/ingestion/package.go). */
module IngestUploads {
  import opened Bytes
  import opened Metadata
  import opened Ingestion
  import opened IngestRuns
  import opened IngestService

  datatype Limits = Limits(maxBody: nat, zipSize: nat, zipCount: nat)

  /** What the ZIP reader makes of a body: its entry count or an error, the size check, its members. */
  datatype Zip = Zip(count: Option<nat>, countError: Bytes, tooLarge: Option<Bytes>, items: seq<Item>)

  function Precheck(z: Zip): Option<Bytes> {
    if z.count == None then Some(z.countError) else z.tooLarge
  }

  predicate IsLarge(l: Limits, body: Bytes, z: Zip) {
    |body| > l.zipSize || (z.count.Some? && z.count.value > l.zipCount)
  }

  predicate Rejected(l: Limits, body: Bytes, payload: Option<Payload>) {
    |body| == 0 || |body| > l.maxBody || payload == None
  }

  /** The transaction an upload of new content runs. */
  function Ingest(sha: Sha, l: Limits, db: Db, id: nat, supplier: int, body: Bytes, filename: Option<string>,
                  payload: Payload, z: Zip, o: Store, errStore: Store): Option<Db> {
    if payload == XML then IngestXML(sha, db, id, supplier, body, filename, o) else
    if IsLarge(l, body, z) then IngestLargeZIP(sha, db, id, supplier, body, filename, o) else
    IngestSmallZIP(sha, db, id, supplier, body, filename, o, Precheck(z),
                   if z.count.Some? then z.count.value else 0, z.items, errStore)
  }

  method StoreOriginal(sha: Sha, repo: Repository, id: nat, pkg: Package, body: Bytes, o: Store, ghost orphans: multiset<Hash>) returns (ok: bool)
    modifies repo
    ensures var r := IngestOriginal(sha, Db(old(repo.View()), orphans), id, pkg, body, o);
      (ok <==> r.Some?) && (ok ==> r.value == Db(repo.View(), orphans))
  {
    hide CreateFile, AfterStore, Metadata.CreatePackage;
    var failed := StoreOrRef(repo, sha(body), o);
    if failed.Some? { return false; }
    ok := repo.CreatePackage(id, pkg);
    if !ok { return; }
    ok := repo.CreatePackageFile(id, FileIn(sha(body), Original, pkg.filename, None));
  }

  method IngestZipMembers(sha: Sha, repo: Repository, p: nat, items: seq<Item>, errStore: Store, ghost orphans: multiset<Hash>)
    returns (ok: bool, ghost lost: multiset<Hash>)
    modifies repo
    ensures var r := PersistZipMembers(sha, Db(old(repo.View()), orphans), p, items, errStore);
      (ok <==> r.Done?) && (ok ==> repo.View() == r.t && lost == r.orphans)
  {
    hide Members, PersistUnpackError;
    var memberCount, stop, dead, gone := StoreMembers(sha, repo, p, items, orphans);
    lost := gone;
    if stop == None { return true, lost; }
    if dead { return false, lost; }
    ok := PersistErrorRow(sha, repo, p, stop.value, errStore);
  }

  /** The transaction body of ingestSmallZIP, before WithTx commits it or rolls it back. */
  method StoreSmallZip(sha: Sha, repo: Repository, id: nat, supplier: int, body: Bytes, filename: Option<string>,
                       z: Zip, o: Store, errStore: Store, ghost orphans: multiset<Hash>) returns (ok: bool, ghost lost: multiset<Hash>)
    modifies repo
    ensures var r := IngestSmallZIP(sha, Db(old(repo.View()), orphans), id, supplier, body, filename, o, Precheck(z),
                                    if z.count.Some? then z.count.value else 0, z.items, errStore);
      (ok <==> r.Some?) && (ok ==> r.value == Db(repo.View(), lost))
  {
    hide IngestOriginal, PersistUnpackError, PersistZipMembers;
    lost := orphans;
    var precheck := Precheck(z);
    var fileCount := if precheck.Some? then 2 else 1 + z.count.value;
    ok := StoreOriginal(sha, repo, id, Package(supplier, sha(body), ZIP, ZipWithMembers, filename, None, fileCount, precheck), body, o, orphans);
    if !ok { return; }
    if precheck.Some? {
      ok := PersistErrorRow(sha, repo, id, precheck.value, errStore);
    } else {
      ok, lost := IngestZipMembers(sha, repo, id, z.items, errStore, orphans);
    }
  }

  /** One upload transaction, rolled back as a whole when any part fails. */
  method IngestTransaction(sha: Sha, l: Limits, repo: Repository, id: nat, supplier: int, body: Bytes, filename: Option<string>,
                           payload: Payload, z: Zip, o: Store, errStore: Store, ghost orphans: multiset<Hash>)
    returns (ok: bool, ghost lost: multiset<Hash>)
    modifies repo
    ensures var db := Db(old(repo.View()), orphans); var r := Ingest(sha, l, db, id, supplier, body, filename, payload, z, o, errStore);
      (ok <==> r.Some?) && Db(repo.View(), lost) == if ok then r.value else db
  {
    hide IngestOriginal, IngestSmallZIP;
    var before := repo.View();
    lost := orphans;
    if payload == XML {
      ok := StoreOriginal(sha, repo, id, Package(supplier, sha(body), XML, Single, filename, None, 1, None), body, o, orphans);
    } else if IsLarge(l, body, z) {
      ok := StoreOriginal(sha, repo, id, Package(supplier, sha(body), ZIP, RawLarge, filename, None, 1, None), body, o, orphans);
    } else {
      ok, lost := StoreSmallZip(sha, repo, id, supplier, body, filename, z, o, errStore, orphans);
    }
    if !ok {
      repo.Rollback(before);
      lost := orphans;
    }
  }

  /** FindCanonicalPackageID: the lowest id with this content. */
  method FindCanonicalPackageID(repo: Repository, h: Hash) returns (c: Option<nat>)
    ensures c == None <==> forall k :: k in repo.pkgs ==> repo.pkgs[k].hash != h
    ensures c.Some? ==> c.value in repo.pkgs && repo.pkgs[c.value].hash == h && Lowest(repo.View(), c.value)
  {
    c := None;
    var rest := repo.pkgs.Keys;
    while rest != {}
      invariant rest <= repo.pkgs.Keys
      invariant c == None ==> forall k :: k in repo.pkgs.Keys - rest ==> repo.pkgs[k].hash != h
      invariant c.Some? ==> c.value in repo.pkgs && repo.pkgs[c.value].hash == h
      invariant c.Some? ==> forall k :: k in repo.pkgs.Keys - rest && repo.pkgs[k].hash == h ==> c.value <= k
      decreases |rest|
    {
      var k :| k in rest;
      if repo.pkgs[k].hash == h && (c == None || k < c.value) { c := Some(k); }
      rest := rest - {k};
    }
  }

  /**
   ProcessPackage with its lookup and its transaction taken as one step: content already present
   becomes a clone of the lowest package holding it, anything else is ingested by its type and size.
   */
  method ProcessPackage(sha: Sha, l: Limits, repo: Repository, id: nat, supplier: int, body: Bytes, filename: Option<string>,
                        payload: Option<Payload>, z: Zip, o: Store, errStore: Store, ghost orphans: multiset<Hash>)
    returns (ok: bool, ghost lost: multiset<Hash>)
    modifies repo
    ensures |body| == 0 || |body| > l.maxBody || payload == None ==> !ok
    ensures !ok ==> repo.View() == old(repo.View()) && lost == orphans
    ensures 0 < |body| <= l.maxBody && payload.Some? && (forall k :: k in old(repo.pkgs) ==> old(repo.pkgs)[k].hash != sha(body)) ==>
      var r := Ingest(sha, l, Db(old(repo.View()), orphans), id, supplier, body, filename, payload.value, z, o, errStore);
      (ok <==> r.Some?) && (ok ==> Db(repo.View(), lost) == r.value)
    ensures forall c :: 0 < |body| <= l.maxBody && payload.Some? && Lowest(old(repo.View()), c) && old(repo.pkgs)[c].hash == sha(body) ==>
      var t := Read(old(repo.View()), c);
      var r := ClonePackage(Db(old(repo.View()), orphans), id, c, t.snap, t.rows, supplier, filename);
      (ok <==> r.Some?) && (ok ==> Db(repo.View(), lost) == r.value)
  {
    hide Ingest, ClonePackage, RowsOf;
    ok, lost := false, orphans;
    if Rejected(l, body, payload) { return; }
    var canonical := FindCanonicalPackageID(repo, sha(body));
    if canonical == None {
      ok, lost := IngestTransaction(sha, l, repo, id, supplier, body, filename, payload.value, z, o, errStore, orphans);
    } else {
      var c := canonical.value;
      CloneOrphans(Db(repo.View(), orphans), id, c, repo.pkgs[c], RowsOf(repo.files, c), supplier, filename);
      ok := CloneTransaction(repo, id, c, repo.pkgs[c], RowsOf(repo.files, c), supplier, filename, orphans);
    }
  }

  lemma CloneOrphans(db: Db, id: nat, c: nat, snap: Package, rows: seq<FileIn>, supplier: int, filename: Option<string>)
    ensures var r := ClonePackage(db, id, c, snap, rows, supplier, filename); r.Some? ==> r.value.orphans == db.orphans
  {
  }
}
