// The coordinator's file stores: for every key its two overwrite slots and its log,
// changed one operation at a time. Each method carries out one disk operation of
// module Checkpoint on one key, or reads.
module FileStores {
  import opened Bytes
  import opened Store
  import opened Checkpoint

  function DiskIn(disks: map<string, Disk>, key: string): Disk {
    if key in disks then disks[key] else EMPTY_DISK
  }

  /** An OverwriteStore for each kind and the AppendStore, over the files of every key. */
  class Stores {
    const crc: Checksum
    var disks: map<string, Disk>

    constructor (crc: Checksum)
      ensures this.crc == crc && disks == map[]
    {
      this.crc := crc;
      disks := map[];
    }

    /** The stores with both kinds of slot in use. */
    ghost function Full(): Config {
      Config(true, true, crc)
    }

    ghost predicate Did(op: Op, key: string, before: map<string, Disk>)
      reads this
    {
      disks == before[key := Apply(Full(), op, DiskIn(before, key))]
    }

    method Stage(kind: Kind, key: string, gen: nat, data: Bytes) returns (r: Result<()>)
      modifies this
      ensures r == if ValidKey(key) then Ok(()) else Err(InvalidKey(key))
      ensures if r.Ok? then Did(Op.Stage(kind, gen, data), key, old(disks)) else disks == old(disks)
    {
      if !ValidKey(key) {
        return Err(InvalidKey(key));
      }
      var buf := EncodeOverwriteBuffer(gen, data);
      var d := DiskIn(disks, key);
      disks := disks[key := d.Put(kind, d.Get(kind).(tmp := Some(buf[..])))];
      return Ok(());
    }

    method Promote(kind: Kind, key: string, committedGen: nat) returns (r: Result<()>)
      modifies this
      ensures r == if ValidKey(key) then Ok(()) else Err(InvalidKey(key))
      ensures if r.Ok? then Did(Op.Promote(kind, committedGen), key, old(disks)) else disks == old(disks)
    {
      if !ValidKey(key) {
        return Err(InvalidKey(key));
      }
      var d := DiskIn(disks, key);
      var slot := d.Get(kind);
      var gen := ReadOverwriteHeader(slot.tmp);
      if gen == Some(committedGen) {
        slot := slot.(main := slot.tmp);
      }
      disks := disks[key := d.Put(kind, slot.(tmp := None))];
      return Ok(());
    }

    /** OverwriteStore.Load: the committed snapshot, if the key has one. */
    method LoadSnapshot(kind: Kind, key: string) returns (r: Result<Option<(Bytes, nat)>>)
      ensures r == if !ValidKey(key) then Err(InvalidKey(key))
                   else match DiskIn(disks, key).Get(kind).main
                     case None => Ok(None)
                     case Some(raw) =>
                       match DecodeOverwrite(raw)
                       case Err(e) => Err(e)
                       case Ok(v) => Ok(Some(v))
    {
      if !ValidKey(key) {
        return Err(InvalidKey(key));
      }
      var main := DiskIn(disks, key).Get(kind).main;
      if main.None? {
        return Ok(None);
      }
      match DecodeOverwrite(main.value)
      case Err(e) => return Err(e);
      case Ok(v) => return Ok(Some(v));
    }

    method Append(key: string, gen: nat, payload: Bytes) returns (r: Result<()>)
      modifies this
      ensures r == if ValidKey(key) then Ok(()) else Err(InvalidKey(key))
      ensures if r.Ok? then Did(Op.Append(gen, payload), key, old(disks)) else disks == old(disks)
    {
      if !ValidKey(key) {
        return Err(InvalidKey(key));
      }
      var rec := EncodeRecordBuffer(crc, gen, payload);
      var d := DiskIn(disks, key);
      disks := disks[key := d.(log := Some(LogContents(d.log) + rec[..]))];
      return Ok(());
    }

    /** AppendStore.Load: every complete record and the largest generation. */
    method LoadRecords(key: string) returns (r: Result<(seq<Record>, nat)>)
      ensures r == if !ValidKey(key) then Err(InvalidKey(key))
                   else var recs := Scan(crc, LogContents(DiskIn(disks, key).log), 0).recs;
                        Ok((recs, MaxGen(recs)))
    {
      if !ValidKey(key) {
        return Err(InvalidKey(key));
      }
      var log := DiskIn(disks, key).log;
      if log.None? {
        return Ok(([], 0));
      }
      var recs, maxGen := LoadLog(crc, log.value);
      return Ok((recs, maxGen));
    }

    method Truncate(key: string, committedGen: nat) returns (r: Result<()>)
      modifies this
      ensures r == if ValidKey(key) then Ok(()) else Err(InvalidKey(key))
      ensures if r.Ok? then Did(Op.Truncate(committedGen), key, old(disks)) else disks == old(disks)
    {
      if !ValidKey(key) {
        return Err(InvalidKey(key));
      }
      var d := DiskIn(disks, key);
      if d.log.Some? {
        var raw := d.log.value;
        var validEnd := FindCut(crc, raw, committedGen);
        if validEnd == |raw| {
          assert raw[..validEnd] == raw;
        } else {
          d := d.(log := Some(raw[..validEnd]));
        }
      }
      disks := disks[key := d];
      return Ok(());
    }

    /** Coordinator.Delete: all files of the client. */
    method Delete(key: string) returns (r: Result<()>)
      modifies this
      ensures r == if ValidKey(key) then Ok(()) else Err(InvalidKey(key))
      ensures if r.Ok? then disks == old(disks) - {key} else disks == old(disks)
    {
      if !ValidKey(key) {
        return Err(InvalidKey(key));
      }
      disks := disks - {key};
      return Ok(());
    }

    /** AppendStore.Keys: the keys that have a log. */
    method Keys() returns (keys: set<string>)
      ensures keys == set key | key in disks && disks[key].log.Some?
    {
      keys := set key | key in disks && disks[key].log.Some?;
    }
  }
}
