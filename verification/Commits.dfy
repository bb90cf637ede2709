/** Clone and propagate transactions run into no key of their own: they commit whenever the database lets them. */
module Commits {
  import opened Bytes
  import opened Metadata
  import opened FileKey
  import opened Ingestion
  import opened IngestEffects
  import opened IngestRuns
  import opened Mirror

  lemma {:induction false} RowIsCounted(files: seq<Row>, p: nat, f: FileIn)
    requires f in RowsOf(files, p)
    ensures Count(files, f.blob) > 0
  {
    var n := |files| - 1;
    if f in RowsOf(files[..n], p) { RowIsCounted(files[..n], p, f); }
  }

  /** A blob named by a row exists: its ref_count is not zero. */
  lemma RowBlobExists(db: Db, p: nat, f: FileIn)
    requires Balanced(db) && f in RowsOf(db.t.files, p)
    ensures f.blob in db.t.blobs
  {
    hide RowsOf, Balanced, Count;
    RowIsCounted(db.t.files, p, f);
    BalancedAt(db, f.blob);
  }

  lemma NoClashNext(rows: seq<FileIn>, n: nat)
    requires NoClash(rows) && n < |rows|
    ensures !Clash(rows[..n], rows[n])
  {
  }

  /** Rows that neither clash nor lack a blob all go in, behind `base`. */
  lemma {:induction false} InsertSucceeds(t: Tables, p: nat, base: seq<FileIn>, rows: seq<FileIn>)
    requires p in t.pkgs && RowsOf(t.files, p) == base && NoClash(base + rows)
    requires forall i :: 0 <= i < |rows| ==> rows[i].blob in t.blobs
    ensures var r := InsertRows(t, p, rows);
      r.Some? && RowsOf(r.value.files, p) == base + rows && r.value.pkgs == t.pkgs && r.value.blobs == t.blobs
  {
    hide RowsOf, Clashes;
    if rows == [] {
      assert base + rows == base;
    } else {
      var n := |rows| - 1;
      var all := base + rows;
      assert all[..|all| - 1] == base + rows[..n] && all[|all| - 1] == rows[n];
      NoClashPrefix(all, |all| - 1);
      InsertSucceeds(t, p, base, rows[..n]);
      NoClashNext(all, |all| - 1);
      var u := InsertRows(t, p, rows[..n]).value;
      FileRows(u, p, rows[n]);
      assert all == (base + rows[..n]) + [rows[n]];
    }
  }

  lemma NoClashPrefix(rows: seq<FileIn>, n: nat)
    requires NoClash(rows) && n <= |rows|
    ensures NoClash(rows[..n])
  {
  }

  /** A clone with a fresh id above its canonical's commits, however long ago the canonical was read. */
  lemma CloneAlwaysCommits(db: Db, id: nat, x: Ticket, supplier: int, filename: Option<string>)
    requires Balanced(db) && WellShaped(db.t) && Fits(db.t, x) && id !in db.t.pkgs
    ensures ClonePackage(db, id, x.canonical, x.snap, x.rows, supplier, filename).Some?
  {
    hide RowsOf, WellShaped, Balanced, InsertRows;
    ShapedOwned(db.t);
    var t := CreatePackage(db.t, id, x.snap.(supplier := supplier, filename := filename, canonical := Some(x.canonical))).value;
    NoRowsBeforeInsert(t.files, id);
    forall i | 0 <= i < |x.rows| ensures x.rows[i].blob in db.t.blobs {
      assert x.rows[i] == RowsOf(db.t.files, x.canonical)[i];
      RowBlobExists(db, x.canonical, x.rows[i]);
    }
    assert [] + x.rows == x.rows;
    InsertSucceeds(t, id, [], x.rows);
  }

  /** With no key present yet the copy loop inserts every row. */
  lemma {:induction false} CopyIsInsert(k: nat, t: Tables, extras: seq<FileIn>)
    requires Numbered(extras)
    ensures var r := CopyMissing(k, Copied(t, [], {}), extras); var s := InsertRows(t, k, extras);
      (r.Some? <==> s.Some?) && (r.Some? ==> r.value.t == s.value && r.value.existing == Keys(extras))
  {
    hide CreateFile, PackageFileKey;
    if extras != [] {
      var n := |extras| - 1;
      CopyIsInsert(k, t, extras[..n]);
      forall i | 0 <= i < n ensures PackageFileKey(extras[i]) != PackageFileKey(extras[n]) { DistinctKeys(extras, i, n); }
      KeysSnoc(extras[..n], extras[n]);
      assert extras[..n] + [extras[n]] == extras;
    }
  }

  /** Filling a clone that waits behind its canonical commits. */
  lemma PropagateAlwaysCommits(db: Db, c: nat, k: nat)
    requires Balanced(db) && WellShaped(db.t) && IsClone(db.t, k, c) && Behind(db.t, c, k)
    ensures PropagateTx(db, c, k, Present(db.t, k, false)).Some?
  {
    hide RowsOf, WellShaped, Balanced, InsertRows, CopyMissing, Present, Numbered;
    NothingPresent(db.t, k, false);
    ShapeAt(db.t, c);
    var rows := RowsOf(db.t.files, c);
    ExtrasOfShape(rows);
    NumberedTail(rows);
    NumberedNoClash(rows);
    CopyIsInsert(k, db.t, rows[1..]);
    forall i | 0 <= i < |rows| - 1 ensures rows[1..][i].blob in db.t.blobs {
      assert rows[1..][i] == rows[i + 1];
      RowBlobExists(db, c, rows[i + 1]);
    }
    assert rows[..1] + rows[1..] == rows;
    InsertSucceeds(db.t, k, rows[..1], rows[1..]);
  }
}
