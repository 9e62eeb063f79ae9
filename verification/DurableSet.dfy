/**
 The three durable sets (crates/nil-core/src/durable.rs) as one store: `DurableSet` is the flat kind,
 `EpochDurableSet` the epoch kind, `TimedDurableSet` the timed kind.

 `DurableStore` is the code: an in-memory map, an append handle and the log.  The functions `Insert`,
 `Compact` and `Open` say what each call leaves behind for every I/O outcome; `Step` strings them
 together with restarts and crashes.
 */
module DurableSet {
  import opened Text
  import opened Storage
  import opened LogFold
  import opened DurableFormat

  /** The disk and what the process holds: the map, and whether it has an append handle. */
  datatype Store = Store(disk: Disk, seen: Entries, handle: bool)

  /** How an append ends: durable, stopped after `n` characters, or written but not synced. */
  datatype AppendIo = Appended | WriteStops(n: nat) | SyncFails

  /** How a compaction ends.  Nothing before the rename touches the log. */
  datatype CompactIo = Compacted | TempStops(records: nat) | RenameFails | DirSyncFails | ReopenFails

  /** How opening ends, apart from the log being refused. */
  datatype OpenIo = Opened | OpenFails | NewFileSyncFails | OpenDirSyncFails

  datatype InsertResult = Inserted | AlreadyPresent | CapacityReached | Failed

  // ---------------------------------------------------------------- what each call leaves behind

  /** The file after an append of `record`. */
  function Append(f: File, record: string, io: AppendIo): File {
    match io
    case Appended => f.Write(record).Sync()
    case WriteStops(n) => f.Write(Cut(record, n))
    case SyncFails => f.Write(record)
  }

  function Insert(kind: Kind, s: Store, key: string, tag: nat, capacity: Option<nat>, io: AppendIo):
    (r: (Store, InsertResult))
  {
    if !ValidKey(kind, key) then (s, Failed)
    else if key in s.seen then (s, AlreadyPresent)
    else if capacity.Some? && |s.seen| >= capacity.value then (s, CapacityReached)
    else if !s.handle || s.disk.log.None? then (s.(handle := false), Failed)
    else
      var disk := s.disk.SetLog(Append(s.disk.log.value, Record(kind, key, tag), io));
      if io.Appended? then (Store(disk, s.seen[key := tag], true), Inserted)
      else (Store(disk, s.seen, false), Failed)
  }

  /** Keep only `kept`, listed as `order`: write a temporary, rename it over the log, sync the
      directory, reopen, and only then change the map. */
  function Compact(kind: Kind, s: Store, kept: Entries, order: seq<string>, io: CompactIo): (Store, bool)
    requires Lists(order, kept)
  {
    var replaced := s.disk.Replace(Recovered(Print(kind, order, kept)));
    match io
    case TempStops(_) => (s.(handle := false), false)
    case RenameFails => (s.(handle := false), false)
    case DirSyncFails => (Store(replaced, s.seen, false), false)
    case ReopenFails => (Store(replaced.SyncDir(), s.seen, false), false)
    case Compacted => (Store(replaced.SyncDir(), kept, true), true)
  }

  /** Opening a disk: the disk afterwards and, unless it fails, the store. */
  function Open(kind: Kind, d: Disk, io: OpenIo): (Disk, Option<Store>) {
    if io.OpenFails? then (d, None) else
    var c := d.Create();
    var seen := Load(kind, c.log.value.cur, map[]);
    if seen.None? then (c, None)
    else if d.log.None? && io.NewFileSyncFails? then (c, None)
    else if io.OpenDirSyncFails? then (c, None)
    else (c.SyncDir(), Some(Store(c.SyncDir(), seen.value, true)))
  }

  // ---------------------------------------------------------------- the code

  class DurableStore {
    const kind: Kind
    var disk: Disk
    var seen: Entries
    var handle: bool

    ghost function State(): Store
      reads this
    {
      Store(disk, seen, handle)
    }

    constructor (kind: Kind, disk: Disk, seen: Entries)
      ensures this.kind == kind && State() == Store(disk, seen, true)
    {
      this.kind, this.disk, this.seen, this.handle := kind, disk, seen, true;
    }

    /** `open`: create when missing, read strictly, make file and name durable. */
    static method OpenAt(kind: Kind, d: Disk, io: OpenIo) returns (after: Disk, store: DurableStore?)
      ensures after == Open(kind, d, io).0
      ensures store == null <==> Open(kind, d, io).1 == None
      ensures store != null ==> fresh(store) && store.kind == kind && Some(store.State()) == Open(kind, d, io).1
    {
      after, store := d, null;
      if io.OpenFails? {
        return;
      }
      after := after.Create();
      var seen := ReadLog(kind, after.log.value.cur);
      if seen.None? {
        return;
      }
      if d.log.None? {
        if io.NewFileSyncFails? {
          return;
        }
        after := after.SetLog(after.log.value.Sync());
      }
      if io.OpenDirSyncFails? {
        return;
      }
      after := after.SyncDir();
      store := new DurableStore(kind, after, seen.value);
    }

    /** `append_record`: any failure gives the handle up. */
    method AppendRecord(record: string, io: AppendIo) returns (ok: bool)
      modifies this
      ensures seen == old(seen)
      ensures if old(handle) && old(disk).log.Some?
              then disk == old(disk).SetLog(Append(old(disk).log.value, record, io)) && ok == handle == io.Appended?
              else disk == old(disk) && !ok && !handle
    {
      ok := false;
      if handle && disk.log.Some? {
        match io {
          case Appended =>
            disk := disk.SetLog(disk.log.value.Write(record));
            disk := disk.SetLog(disk.log.value.Sync());
            ok := true;
          case WriteStops(n) =>
            disk := disk.SetLog(disk.log.value.Write(Cut(record, n)));
          case SyncFails =>
            disk := disk.SetLog(disk.log.value.Write(record));
        }
      }
      if !ok {
        handle := false;
      }
    }

    /** `insert`, `insert_in_epoch` and `insert_with_capacity`. */
    method InsertKey(key: string, tag: nat, capacity: Option<nat>, io: AppendIo) returns (r: InsertResult)
      modifies this
      ensures (State(), r) == Insert(kind, old(State()), key, tag, capacity, io)
    {
      if !ValidKey(kind, key) {
        return Failed;
      }
      if key in seen {
        return AlreadyPresent;
      }
      if capacity.Some? && |seen| >= capacity.value {
        return CapacityReached;
      }
      var ok := AppendRecord(Record(kind, key, tag), io);
      if !ok {
        return Failed;
      }
      seen := seen[key := tag];
      return Inserted;
    }

    /** The shared body of `drop_epochs` and `prune_older_than`, once there is something to drop. */
    method CompactLog(kept: Entries, order: seq<string>, io: CompactIo) returns (ok: bool)
      requires Lists(order, kept)
      requires io.TempStops? ==> io.records <= |order|
      modifies this
      ensures (State(), ok) == Compact(kind, old(State()), kept, order, io)
    {
      handle := false;
      var ok', temp := WriteTemp(kind, order, kept, io);
      if !ok' {
        return false;
      }
      if io.RenameFails? {
        return false;
      }
      disk := disk.Replace(temp);
      if io.DirSyncFails? {
        return false;
      }
      disk := disk.SyncDir();
      if io.ReopenFails? {
        return false;
      }
      seen, handle := kept, true;
      return true;
    }

    /** `drop_epochs`: every partition that is not retained goes, all or nothing. */
    method DropEpochs(retained: set<nat>, order: seq<string>, io: CompactIo) returns (r: Option<nat>)
      requires Lists(order, Retained(seen, retained))
      requires io.TempStops? ==> io.records <= |order|
      modifies this
      ensures retained == {} || Retained(old(seen), retained) == old(seen) ==> State() == old(State()) && r == Some(0)
      ensures !(retained == {} || Retained(old(seen), retained) == old(seen)) ==>
        (State(), r.Some?) == Compact(kind, old(State()), Retained(old(seen), retained), order, io) &&
        (r.Some? ==> r.value == |old(seen)| - |Retained(old(seen), retained)|)
    {
      if retained == {} {
        return Some(0);
      }
      var kept := Retained(seen, retained);
      var dropped := |seen| - |kept|;
      RetainedSize(seen, retained);
      if dropped == 0 {
        return Some(0);
      }
      var ok := CompactLog(kept, order, io);
      r := if ok then Some(dropped) else None;
    }

    /** `prune_older_than`: entries inserted strictly before the cutoff go, all or nothing. */
    method PruneOlderThan(cutoff: nat, order: seq<string>, io: CompactIo) returns (r: Option<nat>)
      requires Lists(order, Since(seen, cutoff))
      requires io.TempStops? ==> io.records <= |order|
      modifies this
      ensures Since(old(seen), cutoff) == old(seen) ==> State() == old(State()) && r == Some(0)
      ensures Since(old(seen), cutoff) != old(seen) ==>
        (State(), r.Some?) == Compact(kind, old(State()), Since(old(seen), cutoff), order, io) &&
        (r.Some? ==> r.value == |old(seen)| - |Since(old(seen), cutoff)|)
    {
      var kept := Since(seen, cutoff);
      var dropped := |seen| - |kept|;
      SubmapSize(kept, seen);
      if dropped == 0 {
        return Some(0);
      }
      var ok := CompactLog(kept, order, io);
      r := if ok then Some(dropped) else None;
    }
  }

  /** The temporary file of a compaction: one write per survivor, then flush and sync. */
  method WriteTemp(kind: Kind, order: seq<string>, kept: Entries, io: CompactIo) returns (ok: bool, temp: File)
    requires Lists(order, kept)
    requires io.TempStops? ==> io.records <= |order|
    ensures ok == !io.TempStops?
    ensures ok ==> temp == Recovered(Print(kind, order, kept))
  {
    temp := Recovered("");
    for i := 0 to |order|
      invariant temp.cur == Print(kind, order[..i], kept)
      invariant io.TempStops? ==> i <= io.records
    {
      if io == TempStops(i) {
        return false, temp;
      }
      PrintPrefix(kind, order, kept, i);
      temp := temp.Write(Record(kind, order[i], kept[order[i]]));
    }
    assert order[..|order|] == order;
    if io.TempStops? {
      return false, temp;
    }
    temp := temp.Sync();
    return true, temp;
  }

  function Retained(m: Entries, epochs: set<nat>): Entries { map k | k in m && m[k] in epochs :: m[k] }

  function Since(m: Entries, cutoff: nat): Entries { map k | k in m && m[k] >= cutoff :: m[k] }

  lemma RetainedSize(m: Entries, epochs: set<nat>)
    ensures |Retained(m, epochs)| <= |m|
    ensures |Retained(m, epochs)| == |m| <==> Retained(m, epochs) == m
  {
    SubmapSize(Retained(m, epochs), m);
  }

  lemma {:induction false} SubsetSize(a: set<string>, b: set<string>)
    requires a <= b
    ensures |a| <= |b| && (|a| == |b| <==> a == b)
  {
    if a != {} {
      var x :| x in a;
      SubsetSize(a - {x}, b - {x});
    }
  }

  lemma SubmapSize(a: Entries, b: Entries)
    requires forall k :: k in a ==> k in b && a[k] == b[k]
    ensures |a| <= |b| && (|a| == |b| <==> a == b)
  {
    SubsetSize(a.Keys, b.Keys);
    assert |a| == |a.Keys| && |b| == |b.Keys|;
  }

  lemma PrintPrefix(kind: Kind, order: seq<string>, m: Entries, i: nat)
    requires i < |order| && forall k :: k in order ==> k in m
    ensures Print(kind, order[..i + 1], m) == Print(kind, order[..i], m) + Record(kind, order[i], m[order[i]])
  {
    assert order[..i + 1] == order[..i] + [order[i]];
    PrintSnoc(kind, order[..i], order[i], m);
  }

  lemma {:induction false} PrintSnoc(kind: Kind, order: seq<string>, key: string, m: Entries)
    requires key in m && forall k :: k in order ==> k in m
    ensures Print(kind, order + [key], m) == Print(kind, order, m) + Record(kind, key, m[key])
  {
    var all, last := order + [key], Record(kind, key, m[key]);
    if order == [] {
      assert all[1..] == [];
    } else {
      var first, rest := Record(kind, order[0], m[order[0]]), Print(kind, order[1..], m);
      assert all[1..] == order[1..] + [key];
      PrintSnoc(kind, order[1..], key, m);
      assert first + (rest + last) == (first + rest) + last;
    }
  }
}
