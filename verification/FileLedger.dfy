/**
 The crash-safe file backend of the redemption ledger (`FileNullifierStore` in
 crates/nil-coordinator/src/nullifier.rs): append and sync, roll back or poison on failure, rewrite by
 temporary and rename, recover a torn tail on startup, fold a legacy ledger in once.

 `FileLedger` is the code; the functions before it say what each call leaves behind for every I/O
 outcome.
 */
module FileLedger {
  import opened Text
  import opened Storage
  import opened Cipher
  import opened LedgerFormat
  import opened LedgerLog
  import opened LedgerMachine

  /** The disk, the rows in memory and whether there is an append handle. */
  datatype Ledger = Ledger(disk: Disk, records: Records, handle: bool)

  datatype Rollback = RolledBack | SetLenFails | RollbackSyncFails

  /** How an append ends.  `AppendFails(n, _)`: after `n` characters reached the file, writing
      or syncing failed. */
  datatype AppendIo = Appended | MetadataFails | AppendFails(n: nat, rollback: Rollback)

  /** A commit of a new key first draws entropy to seal, then appends. */
  datatype CommitIo = SealFails | Sealed(append: AppendIo)

  /** How a rewrite ends.  Nothing before the rename touches the ledger. */
  datatype RewriteIo = Rewritten | TempStops(lines: nat) | RenameFails | ReopenFails | DirSyncFails

  /** Which steps of opening succeed; the last two are reached only when needed. */
  datatype OpenIo = OpenIo(truncates: bool, truncateSyncs: bool, opens: bool, dirSyncs: bool,
                           rewrite: RewriteIo, setsAside: bool)

  // ---------------------------------------------------------------- what each call leaves behind

  /** `append_and_sync`. */
  function AppendLine(l: Ledger, line: string, io: AppendIo): (Ledger, bool) {
    if !l.handle || l.disk.log.None? then (l.(handle := false), false) else
    var f := l.disk.log.value;
    match io
    case Appended => (l.(disk := l.disk.SetLog(f.Write(line).Sync())), true)
    case MetadataFails => (l, false)
    case AppendFails(n, rollback) =>
      var g := f.Write(Cut(line, n));
      match rollback
      case RolledBack => (l.(disk := l.disk.SetLog(g.Truncate(|f.cur|).Sync())), false)
      case SetLenFails => (Ledger(l.disk.SetLog(g), l.records, false), false)
      case RollbackSyncFails => (Ledger(l.disk.SetLog(g.Truncate(|f.cur|)), l.records, false), false)
  }

  /** `rewrite_locked`: once the rename has happened the map follows it, whatever fails later. */
  function Rewrite(l: Ledger, rows: Records, order: seq<string>, io: RewriteIo): (Ledger, bool)
    requires Lists(order, rows)
  {
    var replaced := l.disk.Replace(Recovered(Print(order, rows)));
    match io
    case TempStops(_) => (l, false)
    case RenameFails => (l, false)
    case ReopenFails => (Ledger(replaced, rows, false), false)
    case DirSyncFails => (Ledger(replaced, rows, true), false)
    case Rewritten => (Ledger(replaced.SyncDir(), rows, true), true)
  }

  function NewRow(a: Aead, q: Request): StoredRecord
    requires q.Commit?
  {
    StoredRecord(q.epoch, Some(q.until), Seal(a, q.nonce, q.epoch, q.key, q.until, q.response))
  }

  /** The rows a call wants to rewrite to, if any. */
  function CommitRewrites(a: Aead, rows: Records, q: Request): Option<Records>
    requires q.Commit?
  {
    if ValidCommit(q) && q.key in rows && LiveOutcome(a, q.key, rows[q.key], q.now, false).None?
       && rows[q.key].ciphertext.Some?
    then Some(rows[q.key := Cleared(rows[q.key])]) else None
  }

  function CommitFile(a: Aead, l: Ledger, q: Request, io: CommitIo, order: seq<string>, rewriteIo: RewriteIo):
    (Ledger, Outcome)
    requires q.Commit?
    requires CommitRewrites(a, l.records, q).Some? ==> Lists(order, CommitRewrites(a, l.records, q).value)
  {
    if !ValidCommit(q) then (l, Failed)
    else if q.key in l.records then
      var live := LiveOutcome(a, q.key, l.records[q.key], q.now, false);
      if live.Some? then (l, live.value)
      else if l.records[q.key].ciphertext.None? then (l, AlreadySpent)
      else
        var (l', ok) := Rewrite(l, l.records[q.key := Cleared(l.records[q.key])], order, rewriteIo);
        (l', if ok then AlreadySpent else Failed)
    else
      var row := NewRow(a, q);
      if io.SealFails? || Encode(q.key, row).None? then (l, Failed) else
      var (l', ok) := AppendLine(l, Encode(q.key, row).value, io.append);
      if !ok then (l', Failed) else
      var live := LiveOutcome(a, q.key, row, q.now, true);
      (l'.(records := l.records[q.key := row]), if live.Some? then live.value else AlreadySpent)
  }

  function PruneFile(l: Ledger, now: nat, order: seq<string>, io: RewriteIo): (Ledger, Option<nat>)
    requires PrunedKeys(l.records, now) != {} ==> Lists(order, Pruned(l.records, now))
  {
    if PrunedKeys(l.records, now) == {} then (l, Some(0)) else
    var (l', ok) := Rewrite(l, Pruned(l.records, now), order, io);
    (l', if ok then Some(|PrunedKeys(l.records, now)|) else None)
  }

  /** Startup recovery of the log's tail: the disk afterwards, and whether to go on. */
  function RecoverTail(d: Disk, io: OpenIo): (Disk, bool) {
    if d.log.None? || Complete(d.log.value.cur) then (d, true) else
    var f := d.log.value;
    if Keeps(f.cur).None? || !io.truncates then (d, false) else
    var g := f.Truncate(Keeps(f.cur).value);
    if io.truncateSyncs then (d.SetLog(g.Sync()), true) else (d.SetLog(g), false)
  }

  /** What a reader sees. */
  function Current(d: Disk): string { if d.log.Some? then d.log.value.cur else "" }

  /** The rows of the log, with the rows of a legacy ledger for keys the log does not know. */
  function Merge(legacy: Option<Records>, rows: Records): Records {
    if legacy.Some? then legacy.value + rows else rows
  }

  function LoadLegacy(legacy: Option<string>): Option<Option<Records>> {
    match legacy
    case None => Some(None)
    case Some(text) => var m := Load(text); if m.None? then None else Some(Some(m.value))
  }

  /** What opening puts in memory, if the log and the legacy ledger load. */
  function OpenRows(d: Disk, legacy: Option<string>, io: OpenIo): Option<(Records, Records)> {
    var (d1, ok) := RecoverTail(d, io);
    if !ok then None else
    var rows := Load(Current(d1));
    var legacyRows := LoadLegacy(legacy);
    if rows.None? || legacyRows.None? then None else Some((rows.value, Merge(legacyRows.value, rows.value)))
  }

  /** The rows opening must rewrite the ledger to: expired results go, folded keys come in. */
  function OpenRewrites(rows: Records, merged: Records, now: nat): Option<Records> {
    if PrunedKeys(merged, now) != {} then Some(Pruned(merged, now))
    else if merged.Keys != rows.Keys then Some(merged)
    else None
  }

  /** The rest of opening once log and legacy ledger are loaded: make the name durable, rewrite if
      needed and, if a legacy ledger was folded in, set it aside. */
  function FinishOpening(d: Disk, folds: bool, rows: Records, merged: Records, now: nat, order: seq<string>, io: OpenIo):
    (Disk, Option<Ledger>)
    requires OpenRewrites(rows, merged, now).Some? ==> Lists(order, OpenRewrites(rows, merged, now).value)
  {
    if !io.opens then (d, None) else
    if !io.dirSyncs then (d.Create(), None) else
    var l := Ledger(d.Create().SyncDir(), merged, true);
    var target := OpenRewrites(rows, merged, now);
    var (l', ok) := if target.Some? then Rewrite(l, target.value, order, io.rewrite) else (l, true);
    if !ok || (folds && !io.setsAside) then (l'.disk, None) else (l'.disk, Some(l'))
  }

  /** `open`: the disk afterwards and, unless it fails, the ledger. */
  function OpenFile(d: Disk, legacy: Option<string>, now: nat, order: seq<string>, io: OpenIo): (Disk, Option<Ledger>)
    requires var loaded := OpenRows(d, legacy, io);
      loaded.Some? && OpenRewrites(loaded.value.0, loaded.value.1, now).Some? ==>
        Lists(order, OpenRewrites(loaded.value.0, loaded.value.1, now).value)
  {
    var d1 := RecoverTail(d, io).0;
    var loaded := OpenRows(d, legacy, io);
    if loaded.None? then (d1, None)
    else FinishOpening(d1, legacy.Some?, loaded.value.0, loaded.value.1, now, order, io)
  }

  // ---------------------------------------------------------------- the code

  class FileStore {
    const cipher: Aead
    var disk: Disk
    var records: Records
    var handle: bool

    ghost function State(): Ledger
      reads this
    {
      Ledger(disk, records, handle)
    }

    constructor (cipher: Aead, disk: Disk, records: Records)
      ensures this.cipher == cipher && State() == Ledger(disk, records, true)
    {
      this.cipher, this.disk, this.records, this.handle := cipher, disk, records, true;
    }

    /** `open`: recover the tail, load, fold a legacy ledger in, make the name durable, rewrite when
        there is something to drop or to fold, and only then set the legacy ledger aside. */
    static method OpenAt(cipher: Aead, d: Disk, legacy: Option<string>, now: nat, order: seq<string>, io: OpenIo)
      returns (after: Disk, store: FileStore?)
      requires var loaded := OpenRows(d, legacy, io);
        loaded.Some? && OpenRewrites(loaded.value.0, loaded.value.1, now).Some? ==>
          Lists(order, OpenRewrites(loaded.value.0, loaded.value.1, now).value)
      requires io.rewrite.TempStops? ==> io.rewrite.lines <= |order|
      ensures after == OpenFile(d, legacy, now, order, io).0
      ensures store == null <==> OpenFile(d, legacy, now, order, io).1 == None
      ensures store != null ==> fresh(store) && store.cipher == cipher
      ensures store != null ==> Some(store.State()) == OpenFile(d, legacy, now, order, io).1
    {
      after, store := d, null;
      var ok;
      after, ok := TruncateOnDisk(after, io);
      if !ok {
        return;
      }
      var rows := LoadRecords(Current(after));
      if rows.None? {
        return;
      }
      var merged := rows.value;
      if legacy.Some? {
        var legacyRows := LoadRecords(legacy.value);
        if legacyRows.None? {
          return;
        }
        merged := FoldLegacy(rows.value, legacyRows.value);
      }
      LoadedMergeValid(Current(after), legacy);
      if !io.opens {
        return;
      }
      after := after.Create();
      if !io.dirSyncs {
        return;
      }
      after := after.SyncDir();
      var opened' := new FileStore(cipher, after, merged);
      ok := opened'.FinishOpen(rows.value, now, order, io.rewrite);
      after := opened'.disk;
      if !ok || (legacy.Some? && !io.setsAside) {
        return;
      }
      store := opened';
    }

    /** The rewrite at the end of opening. */
    method FinishOpen(rows: Records, now: nat, order: seq<string>, io: RewriteIo) returns (ok: bool)
      requires ValidRecords(records)
      requires OpenRewrites(rows, records, now).Some? ==> Lists(order, OpenRewrites(rows, records, now).value)
      requires io.TempStops? ==> io.lines <= |order|
      modifies this
      ensures var target := OpenRewrites(rows, old(records), now);
        if target.Some? then (State(), ok) == Rewrite(old(State()), target.value, order, io)
        else State() == old(State()) && ok
    {
      var folded := records.Keys != rows.Keys;
      var removed := PruneExpired(now, order, io);
      if removed.None? {
        return false;
      }
      if folded && removed.value == 0 {
        ok := RewriteLocked(records, order, io);
      } else {
        ok := true;
      }
    }

    method AppendAndSync(line: string, io: AppendIo) returns (ok: bool)
      modifies this
      ensures (State(), ok) == AppendLine(old(State()), line, io)
    {
      if !handle || disk.log.None? {
        handle := false;
        return false;
      }
      handle := false;
      if io.MetadataFails? {
        handle := true;
        return false;
      }
      var committedLen := |disk.log.value.cur|;
      if io.AppendFails? {
        disk := disk.SetLog(disk.log.value.Write(Cut(line, io.n)));
        if io.rollback.SetLenFails? {
          return false;
        }
        disk := disk.SetLog(disk.log.value.Truncate(committedLen));
        if io.rollback.RollbackSyncFails? {
          return false;
        }
        disk := disk.SetLog(disk.log.value.Sync());
        handle := true;
        return false;
      }
      disk := disk.SetLog(disk.log.value.Write(line));
      disk := disk.SetLog(disk.log.value.Sync());
      handle := true;
      return true;
    }

    method RewriteLocked(rows: Records, order: seq<string>, io: RewriteIo) returns (ok: bool)
      requires Lists(order, rows) && ValidRecords(rows)
      requires io.TempStops? ==> io.lines <= |order|
      modifies this
      ensures (State(), ok) == Rewrite(old(State()), rows, order, io)
    {
      var written, temp := WriteTemp(order, rows, io);
      if !written || io.RenameFails? {
        return false;
      }
      disk := disk.Replace(temp);
      handle := false;
      records := rows;
      if io.ReopenFails? {
        return false;
      }
      handle := true;
      if io.DirSyncFails? {
        return false;
      }
      disk := disk.SyncDir();
      return true;
    }

    method CommitOrReplay(q: Request, io: CommitIo, order: seq<string>, rewriteIo: RewriteIo)
      returns (outcome: Outcome)
      requires q.Commit? && ValidRecords(records)
      requires CommitRewrites(cipher, records, q).Some? ==> Lists(order, CommitRewrites(cipher, records, q).value)
      requires rewriteIo.TempStops? ==> rewriteIo.lines <= |order|
      modifies this
      ensures (State(), outcome) == CommitFile(cipher, old(State()), q, io, order, rewriteIo)
    {
      if !ValidCommit(q) {
        return Failed;
      }
      if q.key in records {
        var existing := records[q.key];
        var live := LiveOutcome(cipher, q.key, existing, q.now, false);
        if live.Some? {
          return live.value;
        }
        if existing.ciphertext.Some? {
          var ok := RewriteLocked(records[q.key := Cleared(existing)], order, rewriteIo);
          if !ok {
            return Failed;
          }
        }
        return AlreadySpent;
      }
      if io.SealFails? {
        return Failed;
      }
      var record := NewRow(cipher, q);
      var line := Encode(q.key, record);
      if line.None? {
        return Failed;
      }
      var ok := AppendAndSync(line.value, io.append);
      if !ok {
        return Failed;
      }
      records := records[q.key := record];
      var live := LiveOutcome(cipher, q.key, record, q.now, true);
      return if live.Some? then live.value else AlreadySpent;
    }

    method PruneExpired(now: nat, order: seq<string>, io: RewriteIo) returns (removed: Option<nat>)
      requires ValidRecords(records)
      requires PrunedKeys(records, now) != {} ==> Lists(order, Pruned(records, now))
      requires io.TempStops? ==> io.lines <= |order|
      modifies this
      ensures (State(), removed) == PruneFile(old(State()), now, order, io)
    {
      var rewritten, count := PruneRows(records, now);
      if count > 0 {
        var ok := RewriteLocked(rewritten, order, io);
        if !ok {
          return None;
        }
      }
      return Some(count);
    }
  }

  /** `truncate_unterminated_tail` on the disk. */
  method TruncateOnDisk(d: Disk, io: OpenIo) returns (after: Disk, ok: bool)
    ensures (after, ok) == RecoverTail(d, io)
  {
    if d.log.None? {
      return d, true;
    }
    var keep := TruncateTail(d.log.value.cur);
    if keep.None? {
      return d, false;
    }
    if keep.value == |d.log.value.cur| {
      return d, true;
    }
    if !io.truncates {
      return d, false;
    }
    after := d.SetLog(d.log.value.Truncate(keep.value));
    if !io.truncateSyncs {
      return after, false;
    }
    return after.SetLog(after.log.value.Sync()), true;
  }

  /** The one-shot fold-in: legacy keys enter only where the ledger has no row. */
  method FoldLegacy(rows: Records, legacy: Records) returns (merged: Records)
    ensures merged == Merge(Some(legacy), rows)
  {
    merged := rows;
    var todo := legacy.Keys;
    FoldBounds(rows, legacy);
    while todo != {}
      invariant todo <= legacy.Keys && merged == MergedBut(rows, legacy, todo)
      decreases |todo|
    {
      var k :| k in todo;
      FoldKey(rows, legacy, todo, k);
      if k !in merged {
        merged := merged[k := legacy[k]];
      }
      todo := todo - {k};
    }
  }

  /** The rows with all legacy keys but those in `todo` folded in. */
  ghost function MergedBut(rows: Records, legacy: Records, todo: set<string>): Records {
    map k | k in rows.Keys + legacy.Keys && (k in rows || k !in todo) :: if k in rows then rows[k] else legacy[k]
  }

  lemma FoldBounds(rows: Records, legacy: Records)
    ensures MergedBut(rows, legacy, legacy.Keys) == rows && MergedBut(rows, legacy, {}) == Merge(Some(legacy), rows)
  {
  }

  lemma FoldKey(rows: Records, legacy: Records, todo: set<string>, k: string)
    requires k in legacy && k in todo
    ensures k in MergedBut(rows, legacy, todo) <==> k in rows
    ensures MergedBut(rows, legacy, todo - {k}) ==
      if k in rows then MergedBut(rows, legacy, todo) else MergedBut(rows, legacy, todo)[k := legacy[k]]
  {
  }

  lemma LoadedMergeValid(text: string, legacy: Option<string>)
    requires Load(text).Some? && LoadLegacy(legacy).Some?
    ensures ValidRecords(Load(text).value) && ValidRecords(Merge(LoadLegacy(legacy).value, Load(text).value))
  {
    LoadedValid(text, map[]);
    if legacy.Some? { LoadedValid(legacy.value, map[]); }
  }

  /** The temporary file of a rewrite: one encoded line per record, then flush and sync. */
  method WriteTemp(order: seq<string>, rows: Records, io: RewriteIo) returns (ok: bool, temp: File)
    requires Lists(order, rows) && ValidRecords(rows)
    requires io.TempStops? ==> io.lines <= |order|
    ensures ok == !io.TempStops?
    ensures ok ==> temp == Recovered(Print(order, rows))
  {
    temp := Recovered("");
    var lines := LinesOf(order, rows);
    for i := 0 to |order|
      invariant temp.cur == Join(lines[..i])
      invariant io.TempStops? ==> i <= io.lines
    {
      if io == TempStops(i) {
        return false, temp;
      }
      assert order[i] in order;
      ValidEncodes(order[i], rows[order[i]]);
      var line := Encode(order[i], rows[order[i]]);
      JoinSnoc(lines, i);
      temp := temp.Write(line.value);
    }
    assert lines[..|order|] == lines;
    if io.TempStops? {
      return false, temp;
    }
    temp := temp.Sync();
    return true, temp;
  }
}
