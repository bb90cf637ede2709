/** What becomes of an upload of new content, from its size, its entry count and the stores alone (internal/ingestion/package.go). */
module UploadOutcomes {
  import opened Bytes
  import opened Metadata
  import opened Ingestion
  import opened IngestEffects
  import opened Archive
  import opened IngestRuns
  import opened Mirror
  import opened MirrorRuns
  import CommitLaws = Commits
  import opened IngestUploads

  /** A ZIP that is unpacked later: too many bytes, or a readable directory with too many entries. */
  predicate Deferred(l: Limits, body: Bytes, payload: Payload, z: Zip) {
    payload == ZIP && (|body| > l.zipSize || (z.count.Some? && z.count.value > l.zipCount))
  }

  /** Why a ZIP that is unpacked at once is not: an unreadable directory, or too large unpacked. */
  function Refusal(z: Zip): Option<Bytes> {
    match z.count
    case None => Some(z.countError)
    case Some(_) => z.tooLarge
  }

  /** The package row an upload must leave. */
  function Columns(sha: Sha, l: Limits, supplier: int, body: Bytes, filename: Option<string>, payload: Payload, z: Zip): Package {
    var row := Package(supplier, sha(body), payload, Single, filename, None, 1, None);
    if payload == XML then row else
    if Deferred(l, body, payload, z) then row.(mode := RawLarge) else
    match Refusal(z)
    case Some(msg) => row.(mode := ZipWithMembers, fileCount := 2, unpackError := Some(msg))
    case None => row.(mode := ZipWithMembers, fileCount := 1 + z.count.value)
  }

  /** The file rows it must leave. */
  function RowsLeft(sha: Sha, l: Limits, body: Bytes, filename: Option<string>, payload: Payload, z: Zip): seq<FileIn> {
    var original := FileIn(sha(body), Original, filename, None);
    if payload == XML || Deferred(l, body, payload, z) then [original] else
    match Refusal(z)
    case Some(msg) => [original, ErrorRow(sha, msg)]
    case None => Unpacked(sha, [original], z.items)
  }

  /** The body can be stored, and so can what else is unpacked at once. */
  predicate Storable(l: Limits, body: Bytes, payload: Payload, z: Zip, o: Store, errStore: Store) {
    o.Kept? && (payload == ZIP && !Deferred(l, body, payload, z) ==>
      if Refusal(z).Some? then errStore.Kept? else Commits(z.items, errStore))
  }

  /**
   An upload of new content commits if and only if what it must store can be stored. It leaves one new package:
   an XML single, a ZIP over either limit raw_large with its original only, any other ZIP with members,
   its member rows or its error row; and it touches no other package.
   */
  lemma UploadExactly(sha: Sha, l: Limits, db: Db, id: nat, supplier: int, body: Bytes, filename: Option<string>,
                      payload: Payload, z: Zip, o: Store, errStore: Store)
    requires Owned(db.t) && id !in db.t.pkgs
    ensures var r := Ingest(sha, l, db, id, supplier, body, filename, payload, z, o, errStore);
      && (r.Some? <==> Storable(l, body, payload, z, o, errStore))
      && (r.Some? ==> NewPackage(db.t, r.value.t, id, Columns(sha, l, supplier, body, filename, payload, z),
                                 RowsLeft(sha, l, body, filename, payload, z)))
  {
    hide IngestOriginal, IngestSmallZIP, RowsOf, Unpacked, Commits;
    if o.Kept? {
      if payload == XML || Deferred(l, body, payload, z) {
        var pkg := Columns(sha, l, supplier, body, filename, payload, z);
        OriginalCommits(sha, db, id, pkg, body, o);
        OriginalEffect(sha, db, id, pkg, body, o);
      } else {
        var entries := if z.count.Some? then z.count.value else 0;
        SmallZipEffect(sha, db, id, supplier, body, filename, o, Refusal(z), entries, z.items, errStore);
        match Refusal(z)
        case Some(msg) => RefusedZipExactly(sha, db, id, supplier, body, filename, o, msg, entries, z.items, errStore);
        case None => SmallZipExactly(sha, db, id, supplier, body, filename, o, entries, z.items, errStore);
      }
    } else {
      NotKept(sha, l, db, id, supplier, body, filename, payload, z, o, errStore);
    }
  }

  lemma NotKept(sha: Sha, l: Limits, db: Db, id: nat, supplier: int, body: Bytes, filename: Option<string>,
                payload: Payload, z: Zip, o: Store, errStore: Store)
    requires !o.Kept?
    ensures Ingest(sha, l, db, id, supplier, body, filename, payload, z, o, errStore) == None
  {
    hide AfterStore, CreateFile;
  }

  /** Content that is already there becomes a clone of the lowest package holding it, with that package's columns and rows; it always commits. */
  lemma KnownContentBecomesClone(sha: Sha, st: State, ticket: nat, c: nat, id: nat, supplier: int, filename: Option<string>)
    requires WellShaped(st.db.t) && Balanced(st.db) && Lowest(st.db.t, c) && c < id && id !in st.db.t.pkgs
    ensures var t := st.db.t; var u := Exec(sha, Exec(sha, st, LookUp(ticket, c)), Clone(id, ticket, supplier, filename)).db.t;
      NewPackage(t, u, id, t.pkgs[c].(supplier := supplier, filename := filename, canonical := Some(c)), RowsOf(t.files, c))
  {
    hide WellShaped, Balanced, Fits, RowsOf, ClonePackage, NewPackage;
    var x := Read(st.db.t, c);
    ReadFits(st.db.t, c);
    ShapedOwned(st.db.t);
    CommitLaws.CloneAlwaysCommits(st.db, id, x, supplier, filename);
    CloneEffect(st.db, id, c, x.snap, x.rows, supplier, filename);
  }
}
