/** SegmentManager as it runs: fields updated in place, refining the steps of SegmentLog. */
module SegmentManager {
  import opened Bytes
  import opened Record
  import Scan
  import opened SegmentLog
  import SegmentRuns
  import opened SegmentNames

  /** The highest segment of a fully listed directory, opened, is the recovery step of the log. */
  lemma OpensAsRecovered(crc: Checksum, dir: Disk, id: nat)
    requires if dir == map[] then id == 0 else id in dir && forall k :: k in dir ==> k <= id
    ensures var (d, off, count) := OpenFile(crc, dir, id); var s := Session(id, true, off, count);
      SessionOk(d, s) && SegmentRuns.Recovered(crc, dir) == (d, s)
  {
    hide Scan.ScanLen, Scan.Records;
    if dir != map[] { assert SegmentRuns.MaxId(dir) == id; }
  }

  class Manager {
    const crc: Checksum
    const maxSegmentSize: int
    var disk: Disk
    var activeID: nat
    var isOpen: bool
    var activeOffset: nat
    var recordCount: uint32

    function View(): Session
      reads this
    {
      Session(activeID, isOpen, activeOffset, recordCount)
    }

    ghost predicate Valid()
      reads this
    {
      SessionOk(disk, View())
    }

    /** NewSegmentManager: reopen the highest-numbered segment the listing shows, or start with number 0. */
    constructor (crc: Checksum, maxSegmentSize: int, dir: Disk)
      ensures this.crc == crc && this.maxSegmentSize == maxSegmentSize
      ensures isOpen && (disk, activeOffset, recordCount) == OpenFile(crc, dir, activeID)
      ensures if exists k :: k in dir && Found(k) then activeID in dir && Found(activeID) else activeID == 0
      ensures forall k :: k in dir && Found(k) ==> k <= activeID
      ensures (forall k :: k in dir ==> Found(k)) ==> Valid() && (disk, View()) == SegmentRuns.Recovered(crc, dir)
    {
      this.crc, this.maxSegmentSize := crc, maxSegmentSize;
      disk, activeID, isOpen, activeOffset, recordCount := dir, 0, false, 0, 0;
      new;
      hide Found, OpenFile, SessionOk, SegmentRuns.Recovered;
      var maxID := HighestSegment(dir);
      activeID := if maxID < 0 then 0 else maxID;
      OpenSegmentFile(activeID);
      if forall k :: k in dir ==> Found(k) { OpensAsRecovered(crc, dir, activeID); }
    }

    /** The listing loop of recover: names that do not scan are passed over. */
    static method HighestSegment(dir: Disk) returns (maxID: int)
      ensures maxID == -1 || (maxID in dir && Found(maxID))
      ensures forall k :: k in dir && Found(k) ==> k <= maxID
    {
      maxID := -1;
      var todo := dir.Keys;
      while todo != {}
        invariant todo <= dir.Keys
        invariant maxID == -1 || (maxID in dir && Found(maxID))
        invariant forall k :: k in dir && k !in todo && Found(k) ==> k <= maxID
        decreases |todo|
      {
        var id :| id in todo;
        if Found(id) && id > maxID { maxID := id; }
        todo := todo - {id};
      }
    }

    /** openSegmentFile: an existing file is scanned and cut to its valid length. */
    method OpenSegmentFile(id: nat)
      modifies this`disk, this`isOpen, this`activeOffset, this`recordCount
      ensures isOpen && (disk, activeOffset, recordCount) == OpenFile(crc, old(disk), id)
    {
      isOpen := true;
      if id !in disk { disk := disk[id := File([], 0)]; }
      var f := disk[id];
      if |f.content| == 0 {
        activeOffset, recordCount := 0, 0;
        return;
      }
      var validSize, rc := Scan.ScanValidTail(crc, f.content);
      if validSize < |f.content| {
        disk := disk[id := Truncate(f, validSize)];
      } else {
        assert f.content[..validSize] == f.content;
        disk := disk[id := File(f.content, Min(f.durable, validSize))];
      }
      activeOffset, recordCount := validSize, rc;
    }

    method OpenSegment(id: nat, open: Open) returns (ok: bool)
      requires forall k :: k in disk ==> k <= id
      modifies this
      ensures Valid() && (disk, View(), ok) == SegmentLog.OpenSegment(crc, old(disk), id, open)
    {
      activeID, activeOffset, recordCount := id, 0, 0;
      isOpen := false; // the old handle is closed first
      match open {
        case OpenFailed(created) =>
          if created && id !in disk { disk := disk[id := File([], 0)]; }
          ok := false;
        case Opened =>
          OpenSegmentFile(id);
          ok := true;
      }
    }

    method FinalizeLocked(w: Write, syncOk: bool) returns (ok: bool)
      requires Valid()
      modifies this`disk
      ensures Valid() && (disk, ok) == Finalize(old(disk), View(), w, syncOk)
    {
      if activeOffset == 0 { return true; }
      var footer := EncodeFooter(recordCount, activeOffset % TWO_64);
      var f := WriteAt(disk[activeID], activeOffset, Reached(footer[..], w));
      ok := w.Full? && syncOk;
      disk := disk[activeID := if ok then Sync(f) else f];
    }

    /** The rotation at the top of appendLocked. */
    method RotateIfFull(len: nat, io: Io) returns (ok: bool)
      requires Valid()
      modifies this
      ensures Valid() && (disk, View(), ok) == Rotate(crc, maxSegmentSize, old(disk), old(View()), len, io)
    {
      hide Finalize, SegmentLog.OpenSegment;
      ok := true;
      if activeOffset > 0 && activeOffset + len + FOOTER_SIZE > maxSegmentSize {
        ok := FinalizeLocked(io.footer, io.footerSync);
        if ok { ok := OpenSegment(activeID + 1, io.open); }
      }
    }

    method AppendLocked(record: Bytes, fsync: bool, io: Io) returns (loc: Option<Location>)
      requires Valid()
      modifies this
      ensures Valid()
      ensures Appended(disk, View(), loc) ==
        SegmentLog.AppendLocked(crc, maxSegmentSize, old(disk), old(View()), record, fsync, io)
    {
      hide Rotate;
      var ok := RotateIfFull(|record|, io);
      if !ok || !isOpen { return None; }
      var at := Location(activeID, activeOffset, |record|);
      var f := WriteAt(disk[activeID], activeOffset, Reached(record, io.write));
      if io.write.Torn? || (fsync && !io.sync) {
        disk := disk[activeID := f];
        return None;
      }
      disk := disk[activeID := if fsync then Sync(f) else f];
      activeOffset := activeOffset + |record|;
      recordCount := (recordCount + 1) % TWO_32;
      loc := Some(at);
    }

    /** batchAppend: every record gets its own outcome, then one fsync decides for all. */
    method BatchAppend(batch: seq<Bytes>, ios: seq<Io>, syncOk: bool) returns (locs: seq<Option<Location>>)
      requires Valid() && |batch| == |ios|
      modifies this
      ensures Valid()
      ensures Batched(disk, View(), locs) ==
        SegmentLog.BatchAppend(crc, maxSegmentSize, old(disk), old(View()), batch, ios, syncOk)
    {
      hide SegmentLog.AppendLocked;
      var wrote := false;
      locs := [];
      for i := 0 to |batch|
        invariant Valid() && |locs| == i
        invariant Batched(disk, View(), locs) ==
          BatchWrites(crc, maxSegmentSize, old(disk), old(View()), batch[..i], ios[..i])
        invariant wrote <==> exists j :: 0 <= j < i && locs[j].Some?
      {
        assert batch[..i + 1][..i] == batch[..i] && ios[..i + 1][..i] == ios[..i];
        var loc := AppendLocked(batch[i], false, ios[i]);
        assert forall j :: 0 <= j < i ==> (locs + [loc])[j] == locs[j];
        assert (locs + [loc])[i] == loc;
        locs := locs + [loc];
        wrote := wrote || loc.Some?;
      }
      assert batch[..|batch|] == batch && ios[..|batch|] == ios;
      if wrote {
        if syncOk && isOpen {
          disk := disk[activeID := Sync(disk[activeID])];
        } else {
          locs := seq(|batch|, _ => None);
        }
      }
    }

    method ReadRecord(segment: nat, offset: nat, verify: bool) returns (r: Option<Rec>)
      ensures r == if segment in disk then SegmentLog.ReadRecord(crc, disk[segment].content, offset, verify) else None
    {
      if segment !in disk { return None; }
      var file := disk[segment].content;
      if offset + HEADER_SIZE > |file| { return None; }
      var magic, size := GetU32(file[offset..offset + 4]), GetU32(file[offset + 4..offset + 8]);
      var start := offset + HEADER_SIZE;
      if start + size > |file| { return None; }
      var payload := file[start..start + size];
      if verify {
        if start + size + CHECKSUM_SIZE > |file| { return None; }
        var want := GetU32(file[start + size..start + size + CHECKSUM_SIZE]);
        if crc(payload) != want { return None; }
      }
      r := Some(Rec(magic, payload));
    }
  }
}
