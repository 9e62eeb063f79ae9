/**
 Whole histories of a durable set: any sequence of inserts, compactions, folds, restarts,
 crashes and reopens, each with any I/O outcome.
 */
module DurableRuns {
  import opened Text
  import opened Storage
  import opened LogFold
  import opened DurableFormat
  import opened DurableSet
  import opened DurableLegacy

  /** The machine: the disk, the running store if any, and a ghost of the history: the keys that must
      not be accepted again as things stand, each with its tag.  A key is owed from the insert that
      accepts it, or the fold that brings it in for good, until a compaction drops it. */
  datatype Machine = Machine(disk: Disk, store: Option<Store>, owed: Entries)

  datatype Op =
    | OpOpen(openIo: OpenIo)
    | OpInsert(key: string, tag: nat, capacity: Option<nat>, appendIo: AppendIo)
    | OpCompact(dropped: set<string>, order: seq<string>, compactIo: CompactIo)
    | OpFold(legacy: string, foldIo: FoldIo)
    | OpRestart
    | OpCrash

  function Outcome(kind: Kind, m: Machine, op: Op): (r: (Store, InsertResult))
    requires op.OpInsert? && m.store.Some?
  {
    Insert(kind, m.store.value, op.key, op.tag, op.capacity, op.appendIo)
  }

  function Kept(m: Entries, dropped: set<string>): Entries { m - dropped }

  /** The replacement reached the log's name, even if the call then failed. */
  predicate Renamed(io: CompactIo) { io.DirSyncFails? || io.ReopenFails? || io.Compacted? }

  /** The legacy keys with the tags they have after a fold. */
  function Folded(seen: Entries, legacy: string): Entries
    requires Lines(legacy).Some?
  {
    map k | k in Lines(legacy).value && k in seen :: seen[k]
  }

  /** One step of the machine.  A compaction may drop any keys: `drop_epochs` and
      `prune_older_than` choose them by tag.  Opening an epoch log beside a legacy file is an open and
      then a fold; if that fails there is no store. */
  ghost predicate Step(kind: Kind, m: Machine, op: Op, m': Machine) {
    match op
    case OpOpen(io) =>
      var (disk, store) := Open(kind, m.disk, io);
      m.store.None? && m' == m.(disk := disk, store := store)
    case OpInsert(key, tag, _, _) =>
      && m.store.Some? && ValidTag(kind, tag)
      && var (store, r) := Outcome(kind, m, op);
         m' == Machine(store.disk, Some(store), if r.Inserted? then m.owed[key := tag] else m.owed)
    case OpCompact(dropped, order, io) =>
      && m.store.Some? && Lists(order, Kept(m.store.value.seen, dropped))
      && var (store, _) := Compact(kind, m.store.value, Kept(m.store.value.seen, dropped), order, io);
         m' == Machine(store.disk, Some(store), if Renamed(io) then m.owed - dropped else m.owed)
    case OpFold(legacy, io) =>
      && kind.Epoch? && m.store.Some? && m.store.value.handle && m.disk.log.Some? && m.store.value.disk == m.disk
      && var (disk, store) := FoldIn(m.store.value, legacy, io);
         m' == Machine(disk, store, if store.Some? && FoldsForGood(m.store.value, legacy)
                                    then m.owed + Folded(store.value.seen, legacy) else m.owed)
    case OpRestart =>
      m' == m.(store := None)
    case OpCrash =>
      Crash(m.disk, m'.disk) && m' == m.(disk := m'.disk, store := None)
  }

  /** A history from an empty disk. */
  ghost predicate Run(kind: Kind, states: seq<Machine>, ops: seq<Op>) {
    && |states| == |ops| + 1
    && states[0] == Machine(Disk(None, {}), None, map[])
    && forall i :: 0 <= i < |ops| ==> Step(kind, states[i], ops[i], states[i + 1])
  }

  // ---------------------------------------------------------------- the invariant

  /** Every owed key is there, under its tag. */
  ghost predicate Holds(m: Entries, owed: Entries) { forall k :: k in owed ==> k in m && m[k] == owed[k] }

  /** The bytes sure to survive in this inode hold every owed key; or the log is refused and nothing
      will ever be appended to it. */
  ghost predicate FileSafe(kind: Kind, f: File, owed: Entries) {
    match Load(kind, f.stable, map[])
    case Some(m) => Holds(m, owed)
    case None => f.Synced()
  }

  ghost predicate EntrySafe(kind: Kind, e: Option<File>, owed: Entries) {
    match e
    case None => owed == map[]
    case Some(f) => f.Ok() && FileSafe(kind, f, owed)
  }

  /** The running store's view: it knows every owed key; with a handle, the log reads as exactly the
      map, and its name is durable. */
  ghost predicate StoreSafe(kind: Kind, d: Disk, s: Store, owed: Entries) {
    && s.disk == d && ValidEntries(kind, s.seen) && Holds(s.seen, owed)
    && (s.handle ==> d.log.Some? && d.shadows == {} && Load(kind, d.log.value.cur, map[]) == Some(s.seen))
  }

  ghost predicate Safe(kind: Kind, m: Machine) {
    && (forall e :: m.disk.Entry(e) ==> EntrySafe(kind, e, m.owed))
    && (m.store.Some? ==> StoreSafe(kind, m.disk, m.store.value, m.owed))
  }

  // ---------------------------------------------------------------- every step keeps it

  /** Whatever can be read from a safe inode, now or after a crash, holds every owed key. */
  lemma SafeReads(kind: Kind, f: File, owed: Entries, text: string)
    requires f.Ok() && FileSafe(kind, f, owed) && f.Image(text)
    ensures var m := Load(kind, text, map[]); m.Some? ==> Holds(m.value, owed)
  {
    if Load(kind, text, map[]).Some? && Load(kind, f.stable, map[]).Some? {
      if !Complete(f.stable) { TornRefused(Parser(kind), f.stable, map[]); }
      ExtensionKeeps(Parser(kind), f.stable, text);
    }
  }

  lemma OpenKeepsSafe(kind: Kind, m: Machine, io: OpenIo, m': Machine)
    requires Safe(kind, m) && Step(kind, m, OpOpen(io), m')
    ensures Safe(kind, m')
  {
    assert m.disk.Entry(m.disk.log);
    var c := m.disk.Create();
    assert Load(kind, "", map[]) == Some(map[]);
    if m'.store.Some? {
      var f := c.log.value;
      assert f.Image(f.cur);
      SafeReads(kind, f, m.owed, f.cur);
      LoadedValid(kind, f.cur, map[]);
    }
  }

  lemma CrashKeepsSafe(kind: Kind, m: Machine, m': Machine)
    requires Safe(kind, m) && Step(kind, m, OpCrash, m')
    ensures Safe(kind, m')
  {
    var e :| m.disk.Entry(e) &&
      match e
      case None => m'.disk.log == None
      case Some(f) => m'.disk.log.Some? && f.Image(m'.disk.log.value.cur)
                      && m'.disk.log.value == Recovered(m'.disk.log.value.cur);
    if e.Some? {
      SafeReads(kind, e.value, m.owed, m'.disk.log.value.cur);
    }
  }

  /** An append, however it ends, leaves a safe inode; when it succeeds the log reads as the map
      with the new entry, on the medium too. */
  lemma AppendKeepsSafe(kind: Kind, f: File, seen: Entries, key: string, tag: nat, io: AppendIo, owed: Entries)
    requires f.Ok() && FileSafe(kind, f, owed) && Load(kind, f.cur, map[]) == Some(seen)
    requires ValidKey(kind, key) && ValidTag(kind, tag) && key !in seen && Holds(seen, owed)
    ensures var f' := Append(f, Record(kind, key, tag), io);
      && f'.Ok()
      && FileSafe(kind, f', if io.Appended? then owed[key := tag] else owed)
      && (io.Appended? ==> f'.Synced() && Load(kind, f'.cur, map[]) == Some(seen[key := tag]))
  {
    var record := Record(kind, key, tag);
    AppendReads(kind, f.cur, seen, key, tag);
    var f' := Append(f, record, io);
    if io.Appended? {
      assert f'.cur == f.cur + record;
    } else {
      assert f'.stable == f.stable;
    }
  }

  lemma InsertKeepsSafe(kind: Kind, m: Machine, op: Op, m': Machine)
    requires op.OpInsert? && Safe(kind, m) && Step(kind, m, op, m')
    ensures Safe(kind, m')
  {
    assert m.disk.Entry(m.disk.log);
    if m'.disk != m.disk {
      AppendKeepsSafe(kind, m.disk.log.value, m.store.value.seen, op.key, op.tag, op.appendIo, m.owed);
    }
  }

  lemma CompactKeepsSafe(kind: Kind, m: Machine, op: Op, m': Machine)
    requires op.OpCompact? && Safe(kind, m) && Step(kind, m, op, m')
    ensures Safe(kind, m')
  {
    if !Renamed(op.compactIo) { return; }
    var kept := Kept(m.store.value.seen, op.dropped);
    var temp := Recovered(Print(kind, op.order, kept));
    PrintRoundTrip(kind, op.order, kept);
    KeptHolds(m.store.value.seen, m.owed, op.dropped);
    EntriesReplaced(kind, m.disk, temp, m.owed, m'.owed);
  }

  lemma KeptHolds(seen: Entries, owed: Entries, dropped: set<string>)
    requires Holds(seen, owed)
    ensures Holds(Kept(seen, dropped), owed - dropped) && Holds(seen, owed - dropped) && Holds(owed, owed - dropped)
  {
  }

  lemma EntriesReplaced(kind: Kind, d: Disk, temp: File, owed: Entries, fewer: Entries)
    requires forall e :: d.Entry(e) ==> EntrySafe(kind, e, owed)
    requires Holds(owed, fewer) && EntrySafe(kind, Some(temp), fewer)
    ensures forall e :: d.Replace(temp).Entry(e) || d.Replace(temp).SyncDir().Entry(e) ==> EntrySafe(kind, e, fewer)
  {
    forall e | d.Entry(e) ensures EntrySafe(kind, e, fewer) { FewerOwed(kind, e, owed, fewer); }
  }

  lemma FewerOwed(kind: Kind, e: Option<File>, owed: Entries, fewer: Entries)
    requires EntrySafe(kind, e, owed) && Holds(owed, fewer)
    ensures EntrySafe(kind, e, fewer)
  {
    if e.None? { assert fewer.Keys == {}; }
  }

  lemma FoldKeepsSafe(m: Machine, op: Op, m': Machine)
    requires op.OpFold? && Safe(Epoch, m) && Step(Epoch, m, op, m')
    ensures Safe(Epoch, m')
  {
    assert m.disk.Entry(m.disk.log);
    if Lines(op.legacy).Some? {
      var keys, f, seen := Lines(op.legacy).value, m.disk.log.value, m.store.value.seen;
      var missing := Missing(seen, keys);
      MissingFresh(seen, keys);
      TextReads(f.cur, seen, missing);
      FoldedSafe(f, missing, AllFoldable(keys), op.foldIo, seen, m.owed);
      assert m'.disk.shadows == {};
      if m'.store.Some? {
        FoldedStore(seen, missing, m.owed);
        FoldedHolds(Extended(seen, missing), op.legacy, m.owed);
        FoldedFile(f, missing, AllFoldable(keys), op.foldIo);
      }
    }
  }

  lemma FoldedStore(seen: Entries, missing: seq<string>, owed: Entries)
    requires ValidEntries(Epoch, seen) && Fresh(seen, missing) && Holds(seen, owed)
    ensures ValidEntries(Epoch, Extended(seen, missing)) && Holds(Extended(seen, missing), owed)
  {
  }

  lemma FoldedHolds(seen: Entries, legacy: string, owed: Entries)
    requires Lines(legacy).Some? && Holds(seen, owed)
    ensures Holds(seen, owed + Folded(seen, legacy)) && Holds(seen, Folded(seen, legacy))
  {
  }

  /** Folding never touches what the medium is sure to keep, until it syncs. */
  lemma FoldedSafe(f: File, missing: seq<string>, fits: bool, io: FoldIo, seen: Entries, owed: Entries)
    requires f.Ok() && FileSafe(Epoch, f, owed) && Load(Epoch, f.cur, map[]) == Some(seen) && Holds(seen, owed)
    requires Load(Epoch, f.cur + FoldText(missing), map[]) == Some(Extended(seen, missing)) && Fresh(seen, missing)
    ensures var (g, ok) := FoldFile(f, missing, fits, io);
      g.Ok() && FileSafe(Epoch, g, owed) && (ok ==> Load(Epoch, g.cur, map[]) == Some(Extended(seen, missing)))
  {
    if io.FoldStops? && io.whole < |missing| {
      WriteAllIs(f, missing[..io.whole]);
    } else if missing == [] {
      assert f.cur + FoldText(missing) == f.cur;
    } else {
      WriteAllIs(f, missing);
    }
  }

  lemma StepKeepsSafe(kind: Kind, m: Machine, op: Op, m': Machine)
    requires Safe(kind, m) && Step(kind, m, op, m')
    ensures Safe(kind, m')
  {
    match op
    case OpOpen(io) => OpenKeepsSafe(kind, m, io, m');
    case OpInsert(_, _, _, _) => InsertKeepsSafe(kind, m, op, m');
    case OpCompact(_, _, _) => CompactKeepsSafe(kind, m, op, m');
    case OpFold(_, _) => FoldKeepsSafe(m, op, m');
    case OpRestart =>
    case OpCrash => CrashKeepsSafe(kind, m, m');
  }

  // ---------------------------------------------------------------- theorems about histories

  lemma {:induction false} RunSafe(kind: Kind, states: seq<Machine>, ops: seq<Op>, i: nat)
    requires Run(kind, states, ops) && i <= |ops|
    ensures Safe(kind, states[i])
  {
    if i > 0 {
      RunSafe(kind, states, ops, i - 1);
      StepKeepsSafe(kind, states[i - 1], ops[i - 1], states[i]);
    }
  }

  /** The step is a compaction that puts a log without `key` in place. */
  predicate Retires(op: Op, key: string) {
    op.OpCompact? && key in op.dropped && Renamed(op.compactIo)
  }

  ghost predicate Owes(m: Machine, key: string, tag: nat) { key in m.owed && m.owed[key] == tag }

  lemma StepOwes(kind: Kind, m: Machine, op: Op, m': Machine, key: string, tag: nat)
    requires Safe(kind, m) && Step(kind, m, op, m') && Owes(m, key, tag) && !Retires(op, key)
    ensures Owes(m', key, tag)
  {
    match op
    case OpInsert(_, _, _, _) => assert key in m.store.value.seen;
    case OpFold(_, _) => FoldOwes(m, op, m', key, tag);
    case _ =>
  }

  lemma FoldOwes(m: Machine, op: Op, m': Machine, key: string, tag: nat)
    requires op.OpFold? && Safe(Epoch, m) && Step(Epoch, m, op, m') && Owes(m, key, tag)
    ensures Owes(m', key, tag)
  {
    if m'.store.Some? {
      StoreReads(m);
      FoldComplete(m.store.value, op.legacy, op.foldIo);
      assert m'.store.value.seen[key] == tag;
    }
  }

  lemma StoreReads(m: Machine)
    requires Safe(Epoch, m) && m.store.Some? && m.store.value.handle
    ensures Reads(m.store.value)
  {
    assert m.disk.Entry(m.disk.log);
  }

  /** An owed key stays owed, under its tag, until a compaction drops it. */
  lemma {:induction false} StaysOwed(kind: Kind, states: seq<Machine>, ops: seq<Op>, i: nat, j: nat, key: string, tag: nat)
    requires Run(kind, states, ops) && i <= j <= |ops| && Owes(states[i], key, tag)
    requires forall n :: i <= n < j ==> !Retires(ops[n], key)
    ensures Owes(states[j], key, tag)
  {
    if i < j {
      StaysOwed(kind, states, ops, i, j - 1, key, tag);
      RunSafe(kind, states, ops, j - 1);
      StepOwes(kind, states[j - 1], ops[j - 1], states[j], key, tag);
    }
  }

  /** Step `i` reports `key` as newly inserted. */
  ghost predicate AcceptsAt(kind: Kind, states: seq<Machine>, ops: seq<Op>, i: nat, key: string)
    requires Run(kind, states, ops) && i < |ops|
  {
    Step(kind, states[i], ops[i], states[i + 1]) && ops[i].OpInsert? && ops[i].key == key
    && Outcome(kind, states[i], ops[i]).1 == Inserted
  }

  /** Step `i` folds a legacy file that lists `key` in, for good. */
  ghost predicate FoldsAt(kind: Kind, states: seq<Machine>, ops: seq<Op>, i: nat, key: string)
    requires Run(kind, states, ops) && i < |ops|
  {
    && Step(kind, states[i], ops[i], states[i + 1]) && ops[i].OpFold? && states[i + 1].store.Some?
    && Lines(ops[i].legacy).Some? && key in Lines(ops[i].legacy).value && FoldsForGood(states[i].store.value, ops[i].legacy)
  }

  /** Step `i` takes `key` in under `tag`, one way or the other. */
  ghost predicate TakesAt(kind: Kind, states: seq<Machine>, ops: seq<Op>, i: nat, key: string, tag: nat)
    requires Run(kind, states, ops) && i < |ops|
  {
    || (AcceptsAt(kind, states, ops, i, key) && ops[i].tag == tag)
    || (FoldsAt(kind, states, ops, i, key) && Maps(states[i + 1].store.value.seen, key, tag))
  }

  predicate Maps(m: Entries, key: string, tag: nat) { key in m && m[key] == tag }

  lemma TakenOwed(kind: Kind, states: seq<Machine>, ops: seq<Op>, i: nat, key: string, tag: nat)
    requires Run(kind, states, ops) && i < |ops| && TakesAt(kind, states, ops, i, key, tag)
    ensures Owes(states[i + 1], key, tag)
  {
  }

  /** The first compaction that drops the key, if there is one. */
  lemma {:induction false} FirstRetired(kind: Kind, states: seq<Machine>, ops: seq<Op>, i: nat, j: nat, key: string, tag: nat)
    returns (n: nat)
    requires Run(kind, states, ops) && i <= j <= |ops| && Owes(states[i], key, tag)
    ensures i <= n <= j && Owes(states[n], key, tag) && (n < j ==> Retires(ops[n], key))
  {
    if i < j {
      n := FirstRetired(kind, states, ops, i, j - 1, key, tag);
      if n == j - 1 && !Retires(ops[n], key) {
        RunSafe(kind, states, ops, n);
        StepOwes(kind, states[n], ops[n], states[j], key, tag);
        n := j;
      }
    } else {
      n := i;
    }
  }

  lemma OwedNotAccepted(kind: Kind, states: seq<Machine>, ops: seq<Op>, j: nat, key: string, tag: nat)
    requires Run(kind, states, ops) && j < |ops| && Owes(states[j], key, tag)
    ensures !AcceptsAt(kind, states, ops, j, key)
  {
    RunSafe(kind, states, ops, j);
  }

  /** A key is reported as newly inserted again only if a compaction dropped it in between. */
  lemma AtMostOnce(kind: Kind, states: seq<Machine>, ops: seq<Op>, i: nat, j: nat, key: string)
    requires Run(kind, states, ops) && i < j < |ops|
    requires AcceptsAt(kind, states, ops, i, key) && AcceptsAt(kind, states, ops, j, key)
    ensures exists n :: i < n < j && Retires(ops[n], key)
  {
    var n := FirstRetired(kind, states, ops, i + 1, j, key, ops[i].tag);
    if n == j { OwedNotAccepted(kind, states, ops, j, key, ops[i].tag); }
  }

  /** A legacy key that was folded in for good is reported as newly inserted only after that, too. */
  lemma FoldedOnce(kind: Kind, states: seq<Machine>, ops: seq<Op>, i: nat, j: nat, key: string)
    requires Run(kind, states, ops) && i < j < |ops|
    requires FoldsAt(kind, states, ops, i, key) && AcceptsAt(kind, states, ops, j, key)
    ensures exists n :: i < n < j && Retires(ops[n], key)
  {
    RunSafe(kind, states, ops, i);
    StoreReads(states[i]);
    FoldComplete(states[i].store.value, ops[i].legacy, ops[i].foldIo);
    var tag := states[i + 1].store.value.seen[key];
    TakenOwed(kind, states, ops, i, key, tag);
    var n := FirstRetired(kind, states, ops, i + 1, j, key, tag);
    if n == j { OwedNotAccepted(kind, states, ops, j, key, tag); }
  }

  /** `drop_epochs` with these epochs retained. */
  ghost predicate DropsEpochs(m: Machine, op: Op, retained: set<nat>) {
    m.store.Some? && op.OpCompact? && op.dropped == set k | k in m.store.value.seen && m.store.value.seen[k] !in retained
  }

  /** `prune_older_than` this cutoff. */
  ghost predicate PrunesOlder(m: Machine, op: Op, cutoff: nat) {
    m.store.Some? && op.OpCompact? && op.dropped == set k | k in m.store.value.seen && m.store.value.seen[k] < cutoff
  }

  /** Both choose what they keep by tag, so they are compactions of the machine. */
  lemma ChosenByTag(m: Machine, op: Op, retained: set<nat>, cutoff: nat)
    ensures DropsEpochs(m, op, retained) ==> Kept(m.store.value.seen, op.dropped) == Retained(m.store.value.seen, retained)
    ensures PrunesOlder(m, op, cutoff) ==> Kept(m.store.value.seen, op.dropped) == Since(m.store.value.seen, cutoff)
  {
  }

  /** A key taken in under an epoch, or at a time, is accepted again only after a compaction that dropped
      it: a drop that did not retain that epoch, or a prune with a later cutoff. */
  lemma RetiredByTag(kind: Kind, states: seq<Machine>, ops: seq<Op>, i: nat, j: nat, key: string, tag: nat) returns (n: nat)
    requires Run(kind, states, ops) && i < j < |ops|
    requires TakesAt(kind, states, ops, i, key, tag) && AcceptsAt(kind, states, ops, j, key)
    ensures i < n < j && Retires(ops[n], key)
    ensures forall retained :: DropsEpochs(states[n], ops[n], retained) ==> tag !in retained
    ensures forall cutoff :: PrunesOlder(states[n], ops[n], cutoff) ==> tag < cutoff
  {
    TakenOwed(kind, states, ops, i, key, tag);
    n := FirstRetired(kind, states, ops, i + 1, j, key, tag);
    if n == j { OwedNotAccepted(kind, states, ops, j, key, tag); }
    RunSafe(kind, states, ops, n);
  }

  /** Whatever the disk reads as after a crash at any point, if the log opens at all it still holds
      every key taken in so far and not dropped by a compaction since, under its own tag. */
  lemma AcceptedSurvives(kind: Kind, states: seq<Machine>, ops: seq<Op>, i: nat, j: nat, key: string, tag: nat, text: string)
    requires Run(kind, states, ops) && i < j <= |ops| && TakesAt(kind, states, ops, i, key, tag)
    requires forall n :: i < n < j ==> !Retires(ops[n], key)
    requires states[j].disk.MayRead(text) && Load(kind, text, map[]).Some?
    ensures Maps(Load(kind, text, map[]).value, key, tag)
  {
    TakenOwed(kind, states, ops, i, key, tag);
    StaysOwed(kind, states, ops, i + 1, j, key, tag);
    RunSafe(kind, states, ops, j);
    var d := states[j].disk;
    var e :| d.Entry(e) && (match e case None => text == "" case Some(f) => f.Image(text));
    if e.Some? {
      SafeReads(kind, e.value, states[j].owed, text);
    }
  }

  /** While a store holds its append handle, the log reads as exactly the map in memory. */
  lemma HandleMeansCurrent(kind: Kind, states: seq<Machine>, ops: seq<Op>, i: nat)
    requires Run(kind, states, ops) && i <= |ops| && states[i].store.Some? && states[i].store.value.handle
    ensures var d := states[i].disk;
      d.log.Some? && d.shadows == {} && Load(kind, d.log.value.cur, map[]) == Some(states[i].store.value.seen)
  {
    RunSafe(kind, states, ops, i);
  }

  /** Without a handle no key is accepted until a reopen or a fully successful compaction. */
  lemma {:induction false} NoHandleNoInsert(kind: Kind, states: seq<Machine>, ops: seq<Op>, i: nat, j: nat)
    requires Run(kind, states, ops) && i <= j < |ops|
    requires states[i].store.Some? && !states[i].store.value.handle
    requires forall k :: i <= k < j ==> !ops[k].OpOpen? && !(ops[k].OpCompact? && ops[k].compactIo.Compacted?)
    ensures states[j].store.Some? ==> !states[j].store.value.handle
    ensures forall key :: !AcceptsAt(kind, states, ops, j, key)
  {
    if i < j {
      NoHandleNoInsert(kind, states, ops, i, j - 1);
      assert Step(kind, states[j - 1], ops[j - 1], states[j]);
    }
  }

  // ---------------------------------------------------------------- when the medium agrees too

  predicate OpensClean(d: Disk) { d.log.None? || d.log.value.Synced() }

  /** Whether the log is all on the medium after a step, given whether it was before. */
  ghost predicate SyncedAfter(kind: Kind, m: Machine, op: Op, before: bool) {
    match op
    case OpOpen(_) => OpensClean(m.disk)
    case OpInsert(_, _, _, _) => (m.store.Some? && Outcome(kind, m, op).1.Inserted?) || before
    case OpCompact(_, _, io) => io.Compacted?
    case OpFold(legacy, _) => Writes(m, legacy) || before
    case OpRestart => false
    case OpCrash => false
  }

  /** The fold has something to write. */
  ghost predicate Writes(m: Machine, legacy: string) {
    m.store.Some? && Lines(legacy).Some? && Missing(m.store.value.seen, Lines(legacy).value) != []
  }

  /** The last open found a log whose bytes were all on the medium, or something has synced the log
      since: an accepted insert, a compaction, a fold with something to write. */
  ghost predicate SyncedSince(kind: Kind, states: seq<Machine>, ops: seq<Op>, i: nat)
    requires Run(kind, states, ops) && i <= |ops|
  {
    i > 0 && SyncedAfter(kind, states[i - 1], ops[i - 1], SyncedSince(kind, states, ops, i - 1))
  }

  lemma StepSynced(kind: Kind, m: Machine, op: Op, m': Machine, before: bool)
    requires Safe(kind, m) && Step(kind, m, op, m') && m'.store.Some? && m'.store.value.handle
    requires m.store.Some? && m.store.value.handle ==> (m.disk.log.value.Synced() <==> before)
    ensures m'.disk.log.Some? && (m'.disk.log.value.Synced() <==> SyncedAfter(kind, m, op, before))
  {
    match op
    case OpInsert(_, _, _, _) => InsertSynced(kind, m, op, m', before);
    case OpFold(_, _) => FoldSyncedAfter(m, op, m', before);
    case _ =>
  }

  lemma InsertSynced(kind: Kind, m: Machine, op: Op, m': Machine, before: bool)
    requires op.OpInsert? && Safe(kind, m) && Step(kind, m, op, m') && m'.store.Some? && m'.store.value.handle
    requires m.store.Some? && m.store.value.handle ==> (m.disk.log.value.Synced() <==> before)
    ensures m'.disk.log.Some? && (m'.disk.log.value.Synced() <==> SyncedAfter(kind, m, op, before))
  {
  }

  lemma FoldSyncedAfter(m: Machine, op: Op, m': Machine, before: bool)
    requires op.OpFold? && Safe(Epoch, m) && Step(Epoch, m, op, m') && m'.store.Some?
    requires m.disk.log.value.Synced() <==> before
    ensures m'.disk.log.Some? && (m'.disk.log.value.Synced() <==> SyncedAfter(Epoch, m, op, before))
  {
    var keys := Lines(op.legacy).value;
    assert m.disk.Entry(m.disk.log);
    FoldedFile(m.disk.log.value, Missing(m.store.value.seen, keys), AllFoldable(keys), op.foldIo);
  }

  /** At any point where a store holds its handle, its log is all on the medium if and only if that
      is so. */
  lemma {:induction false} HandleSyncedIff(kind: Kind, states: seq<Machine>, ops: seq<Op>, i: nat)
    requires Run(kind, states, ops) && i <= |ops| && states[i].store.Some? && states[i].store.value.handle
    ensures states[i].disk.log.Some? && (states[i].disk.log.value.Synced() <==> SyncedSince(kind, states, ops, i))
  {
    RunSafe(kind, states, ops, i);
    if i > 0 {
      RunSafe(kind, states, ops, i - 1);
      if states[i - 1].store.Some? && states[i - 1].store.value.handle { HandleSyncedIff(kind, states, ops, i - 1); }
      StepSynced(kind, states[i - 1], ops[i - 1], states[i], SyncedSince(kind, states, ops, i - 1));
    }
  }

  /** The coupling of memory and medium, exactly: while a store holds its handle, every crash reads back
      the log as it is, and so exactly the map in memory, if and only if the last open was clean or
      something synced the log since. */
  lemma HandleMeansDurable(kind: Kind, states: seq<Machine>, ops: seq<Op>, i: nat)
    requires Run(kind, states, ops) && i <= |ops| && states[i].store.Some? && states[i].store.value.handle
    ensures states[i].disk.log.Some?
    ensures (forall text :: states[i].disk.MayRead(text) ==> text == states[i].disk.log.value.cur)
      <==> SyncedSince(kind, states, ops, i)
    ensures SyncedSince(kind, states, ops, i) ==>
      forall text :: states[i].disk.MayRead(text) ==> Load(kind, text, map[]) == Some(states[i].store.value.seen)
  {
    RunSafe(kind, states, ops, i);
    HandleSyncedIff(kind, states, ops, i);
    var d := states[i].disk;
    var f := d.log.value;
    assert d.Entry(d.log);
    SyncedIff(f);
    assert forall b :: f.Image(b) ==> d.MayRead(b);
  }

  /** At the moment of opening: after a successful open, every crash reads back what was just loaded
      if and only if the log was missing or fully synced beforehand. */
  lemma OpenDurableIff(kind: Kind, d: Disk, io: OpenIo)
    requires d.Ok() && Open(kind, d, io).1.Some?
    ensures var d' := Open(kind, d, io).0;
      (forall text :: d'.MayRead(text) ==> text == d'.log.value.cur) <==> OpensClean(d)
  {
    var d' := Open(kind, d, io).0;
    var f := d'.log.value;
    assert d'.Entry(Some(f));
    SyncedIff(f);
    assert forall b :: f.Image(b) ==> d'.MayRead(b);
  }

  /** The running store knows `key`, yet a crash may leave a log without it. */
  ghost predicate Lags(kind: Kind, m: Machine, key: string) {
    && m.store.Some? && m.store.value.handle && key in m.store.value.seen
    && exists text :: m.disk.MayRead(text) && Load(kind, text, map[]).Some? && key !in Load(kind, text, map[]).value
  }

  /** Without it the medium lags behind, from any settled state and for any new key: an insert that
      fails only at its sync, then a restart without a crash, then a successful open. */
  lemma MediumCanLag(kind: Kind, m: Machine, key: string, tag: nat) returns (m1: Machine, m2: Machine, m3: Machine)
    requires Safe(kind, m) && m.store.Some? && m.store.value.handle && m.disk.Settled()
    requires ValidKey(kind, key) && ValidTag(kind, tag) && key !in m.store.value.seen
    ensures Step(kind, m, OpInsert(key, tag, None, SyncFails), m1)
    ensures Step(kind, m1, OpRestart, m2) && Step(kind, m2, OpOpen(Opened), m3)
    ensures Lags(kind, m3, key)
  {
    var s, f, record := m.store.value, m.disk.log.value, Record(kind, key, tag);
    var d := Disk(Some(f.Write(record)), {});
    m1 := m.(disk := d, store := Some(Store(d, s.seen, false)));
    m2 := m1.(store := None);
    m3 := m1.(store := Some(Store(d, s.seen[key := tag], true)));
    AppendReads(kind, f.cur, s.seen, key, tag);
    assert d.Entry(d.log) && d.log.value.Image(f.cur);
    assert d.MayRead(f.cur);
  }

  /** The gap at its worst, from any settled state and for any new key in a legacy file: the fold fails
      only at its sync; after a restart the log is opened with the unsynced record, and a second fold
      finds nothing missing, syncs nothing and succeeds; a crash takes the record away.  The migrated
      key is then reported as newly inserted. */
  lemma FoldForgets(m: Machine, key: string, tag: nat)
    returns (legacy: string, running: Machine, back: Machine, last: Machine)
    requires Safe(Epoch, m) && m.store.Some? && m.store.value.handle && m.disk.Settled()
    requires ValidKey(Epoch, key) && ValidTag(Epoch, tag) && key !in m.store.value.seen
    ensures Lines(legacy) == Some([key]) && running.store.Some? && back.store.Some?
    ensures Step(Epoch, m, OpFold(legacy, FoldSyncFails), running.(store := None))
    ensures Step(Epoch, running.(store := None), OpOpen(Opened), running)
    ensures Step(Epoch, running, OpFold(legacy, FoldSynced), running)
    ensures Step(Epoch, running, OpCrash, back.(store := None))
    ensures Step(Epoch, back.(store := None), OpOpen(Opened), back)
    ensures Step(Epoch, back, OpInsert(key, tag, None, Appended), last)
    ensures Outcome(Epoch, back, OpInsert(key, tag, None, Appended)).1 == Inserted
  {
    legacy := key + "\n";
    running := BelievedFold(m, key);
    back, last := ForgottenKey(m, running, key, tag);
    OneLine(key);
  }

  lemma BelievedFold(m: Machine, key: string) returns (running: Machine)
    requires Safe(Epoch, m) && m.store.Some? && m.store.value.handle && m.disk.Settled()
    requires ValidKey(Epoch, key) && key !in m.store.value.seen
    ensures running.disk == Disk(Some(m.disk.log.value.Write(LegacyRecord(key))), {}) && running.owed == m.owed && running.store.Some?
    ensures Step(Epoch, m, OpFold(key + "\n", FoldSyncFails), running.(store := None))
    ensures Step(Epoch, running.(store := None), OpOpen(Opened), running)
    ensures Step(Epoch, running, OpFold(key + "\n", FoldSynced), running)
  {
    var s, f := m.store.value, m.disk.log.value;
    var d, grown := Disk(Some(f.Write(LegacyRecord(key))), {}), s.seen[key := LegacyEpoch];
    AppendReads(Epoch, f.cur, s.seen, key, LegacyEpoch);
    OneFold(s, f, key, d, grown);
    running := Machine(d, Some(Store(d, grown, true)), m.owed);
  }

  lemma ForgottenKey(m: Machine, running: Machine, key: string, tag: nat) returns (back: Machine, last: Machine)
    requires Safe(Epoch, m) && m.store.Some? && m.store.value.handle && m.disk.Settled()
    requires ValidKey(Epoch, key) && ValidTag(Epoch, tag) && key !in m.store.value.seen
    requires running.disk == Disk(Some(m.disk.log.value.Write(LegacyRecord(key))), {}) && running.owed == m.owed
    ensures Step(Epoch, running, OpCrash, back.(store := None)) && back.store.Some?
    ensures Step(Epoch, back.(store := None), OpOpen(Opened), back)
    ensures Step(Epoch, back, OpInsert(key, tag, None, Appended), last)
    ensures Outcome(Epoch, back, OpInsert(key, tag, None, Appended)).1 == Inserted
  {
    var f := m.disk.log.value;
    var crashed := Disk(Some(Recovered(f.cur)), {});
    assert running.disk.Entry(running.disk.log) && running.disk.log.value.Image(f.cur);
    back := Machine(crashed, Some(Store(crashed, m.store.value.seen, true)), m.owed);
    var s' := Outcome(Epoch, back, OpInsert(key, tag, None, Appended)).0;
    last := Machine(s'.disk, Some(s'), m.owed[key := tag]);
  }

  /** The fold that fails at its sync, and the one that then finds nothing to do. */
  lemma OneFold(s: Store, f: File, key: string, d: Disk, grown: Entries)
    requires ValidKey(Epoch, key) && key !in s.seen && s.disk == Disk(Some(f), {}) && f.Synced()
    requires d == Disk(Some(f.Write(LegacyRecord(key))), {}) && grown == s.seen[key := LegacyEpoch]
    ensures Lines(key + "\n") == Some([key])
    ensures FoldIn(s, key + "\n", FoldSyncFails) == (d, None)
    ensures var again := Store(d, grown, true);
      && FoldIn(again, key + "\n", FoldSynced) == (d, Some(again))
      && !FoldsForGood(again, key + "\n")
  {
    OneLine(key);
    OneMissing(s.seen, key);
    WriteAllSnoc(f, [], key);
    assert [] + [key] == [key];
  }

  lemma OneLine(key: string)
    requires '\n' !in key
    ensures Lines(key + "\n") == Some([key])
  {
    var text := key + "\n";
    IndexOfUnique('\n', text, |key|);
    assert text[..|key|] == key && text[|key| + 1..] == "" && Lines("") == Some([]) && [key] + [] == [key];
  }

  lemma OneMissing(seen: Entries, key: string)
    requires ValidKey(Epoch, key) && key !in seen
    ensures Missing(seen, [key]) == [key] && Missing(seen[key := LegacyEpoch], [key]) == [] && AllFoldable([key])
    ensures Extended(seen[key := LegacyEpoch], []) == seen[key := LegacyEpoch]
  {
    assert [key][1..] == [];
  }
}
