/** BlobStore as it runs: fields updated in place, refining the functions of BlobStore. */
module BlobStoreRuntime {
  import opened Bytes
  import opened Record
  import opened Metadata
  import opened BlobStore
  import SegmentLog
  import Runs = SegmentRuns

  class Blobs {
    const cfg: Config
    var t: Tables
    var cache: Cache
    var disk: SegmentLog.Disk
    var live: Option<SegmentLog.Session>
    var index: seq<IndexEntry>
    ghost var acked: seq<Runs.Ack>
    ghost var weak: map<nat, nat>
    ghost var gone: set<Runs.Ack>
    ghost var origin: map<Hash, Origin>

    constructor (cfg: Config, t: Tables, cache: Cache)
      ensures this.cfg == cfg && View() == World(t, cache, Runs.FRESH, [], map[])
    {
      this.cfg, this.t, this.cache := cfg, t, cache;
      disk, live, index := map[], None, [];
      acked, weak, gone, origin := [], map[], {}, map[];
    }

    ghost function View(): World
      reads this
    {
      World(t, cache, Runs.State(disk, live, acked, weak, gone), index, origin)
    }

    /** segments.Append without a write buffer. */
    method AppendRecord(rec: Rec, io: SegmentLog.Io) returns (loc: Option<SegmentLog.Location>)
      modifies this`disk, this`live, this`acked, this`weak
      ensures var (s, ack) := Append(cfg, old(View().seg), rec, io);
        && View().seg == s
        && (loc.Some? <==> ack.Some?)
        && (loc.Some? ==> ack.value == Runs.Ack(loc.value.segment, loc.value.offset, rec))
    {
      hide SegmentLog.AppendLocked, Enc;
      if live == None || !SegmentLog.SessionOk(disk, live.value) { return None; }
      var w := SegmentLog.AppendLocked(cfg.crc, cfg.max, disk, live.value, Enc(cfg.crc, rec), true, io);
      disk, live, loc := w.disk, Some(w.s), w.loc;
      acked, weak := acked + Runs.NewAck(loc, rec), Runs.Tainted(weak, loc, rec);
    }

    method StoreNew(data: Bytes, kind: RecordType, f: Faults) returns (r: Result)
      modifies this
      ensures (View(), r) == BlobStore.StoreNew(cfg, old(View()), data, kind, f)
    {
      hide Append, EncodeBlob, Enc;
      var h := cfg.sha(data);
      var rec := EncodeBlob(cfg.encoder, data, kind);
      var loc := AppendRecord(rec, f.io);
      if loc == None { return SoftError; }
      if !f.sqlOk { return SqlError; }
      var blob := Blob(|data|, |Enc(cfg.crc, rec)|, loc.value.segment, loc.value.offset, 1);
      if h in t.blobs {
        t := IncrementRef(t, h);
        return Stored(false);
      }
      t := t.(blobs := t.blobs[h := blob]);
      origin := origin[h := Origin(data, rec)];
      if !f.indexOk { return SoftError; }
      index := index + [IndexEntry(h, PlaceOf(blob))];
      var (c, ok) := IndexPut(cache, h, blob, f.putOk);
      cache := c;
      r := if ok then Stored(true) else SoftError;
    }

    method StoreOrRef(data: Bytes, kind: RecordType, f: Faults) returns (r: Result)
      modifies this
      ensures (View(), r) == BlobStore.StoreOrRef(cfg, old(View()), data, kind, f)
    {
      hide BlobStore.StoreNew;
      var h := cfg.sha(data);
      if cache.Index? && !f.bloom {
        r := StoreNew(data, kind, f);
        return;
      }
      if cache.Index? && f.lookupOk && h in cache.items {
        if !f.sqlOk { return SqlError; }
        if h in t.blobs {
          t := IncrementRef(t, h);
          return Stored(false);
        }
      }
      if !f.sqlOk { return SqlError; }
      if h in t.blobs {
        var existing := t.blobs[h];
        t := IncrementRef(t, h);
        var (c, ok) := IndexPut(cache, h, existing, f.putOk);
        cache := c;
        return if ok then Stored(false) else SoftError;
      }
      r := StoreNew(data, kind, f);
    }
  }
}
