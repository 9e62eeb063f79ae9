/**
 Whole histories of the file ledger: any sequence of redemptions by any number of redeemers, prunes,
 failed appends and rewrites, restarts, crashes and reopens, with or without a legacy ledger.

 A redeemer prepares its proposed response privately and then performs one atomic commit, so an
 interleaving of redeemers is a sequence of commits with arbitrary proposals.
 */
module LedgerRuns {
  import opened Text
  import opened Storage
  import opened Cipher
  import opened LedgerFormat
  import opened LedgerLog
  import opened LedgerMachine
  import opened FileLedger

  /** The machine.  `aside` is a legacy ledger that was renamed aside and that a crash may bring back. */
  datatype Machine = Machine(disk: Disk, legacy: Option<string>, aside: Option<string>, ledger: Option<Ledger>)

  datatype Op =
    | OpOpen(now: nat, order: seq<string>, openIo: OpenIo)
    | OpCommit(q: Request, io: CommitIo, order: seq<string>, rewriteIo: RewriteIo)
    | OpPrune(now: nat, order: seq<string>, rewriteIo: RewriteIo)
    | OpRestart
    | OpCrash

  /** The iteration order handed to a rewrite lists the rows it writes. */
  ghost predicate Enabled(a: Aead, m: Machine, op: Op) {
    match op
    case OpOpen(now, order, io) =>
      var loaded := OpenRows(m.disk, m.legacy, io);
      && m.ledger.None?
      && (loaded.Some? && OpenRewrites(loaded.value.0, loaded.value.1, now).Some? ==>
            Lists(order, OpenRewrites(loaded.value.0, loaded.value.1, now).value))
    case OpCommit(q, _, order, _) =>
      && m.ledger.Some? && q.Commit? && WellTyped(q)
      && (CommitRewrites(a, m.ledger.value.records, q).Some? ==>
            Lists(order, CommitRewrites(a, m.ledger.value.records, q).value))
    case OpPrune(now, order, _) =>
      && m.ledger.Some?
      && (PrunedKeys(m.ledger.value.records, now) != {} ==> Lists(order, Pruned(m.ledger.value.records, now)))
    case OpRestart => true
    case OpCrash => true
  }

  ghost function Committed(a: Aead, m: Machine, op: Op): (Ledger, Outcome)
    requires op.OpCommit? && Enabled(a, m, op)
  {
    CommitFile(a, m.ledger.value, op.q, op.io, op.order, op.rewriteIo)
  }

  ghost predicate Step(a: Aead, m: Machine, op: Op, m': Machine) {
    && Enabled(a, m, op)
    && match op
       case OpOpen(now, order, io) =>
         var (disk, ledger) := OpenFile(m.disk, m.legacy, now, order, io);
         if ledger.None? then m' == m.(disk := disk)
         else m' == Machine(disk, None, if m.legacy.Some? then m.legacy else m.aside, ledger)
       case OpCommit(_, _, _, _) =>
         var ledger := Committed(a, m, op).0;
         m' == m.(disk := ledger.disk, ledger := Some(ledger))
       case OpPrune(now, order, io) =>
         var (ledger, _) := PruneFile(m.ledger.value, now, order, io);
         m' == m.(disk := ledger.disk, ledger := Some(ledger))
       case OpRestart =>
         m' == m.(ledger := None)
       case OpCrash =>
         && Crash(m.disk, m'.disk)
         && (m'.legacy == m.legacy || (m.legacy.None? && m'.legacy == m.aside))
         && m' == m.(disk := m'.disk, legacy := m'.legacy, ledger := None)
  }

  // ---------------------------------------------------------------- two kinds of opening

  /** Opening finds a log whose bytes are all on the medium, or one whose torn tail makes opening
      itself truncate and sync it. */
  predicate OpensClean(d: Disk) {
    d.log.None? || d.log.value.Synced() || !Complete(d.log.value.cur)
  }

  /** Opening has expired results to drop or legacy keys to fold in, so it replaces the log. */
  predicate OpenReplaces(d: Disk, legacy: Option<string>, now: nat, io: OpenIo) {
    var loaded := OpenRows(d, legacy, io);
    loaded.Some? && OpenRewrites(loaded.value.0, loaded.value.1, now).Some?
  }

  // ---------------------------------------------------------------- what every step keeps

  /** The log reads as exactly the rows in memory, whether or not all of it is on the medium. */
  ghost predicate LogReads(l: Ledger) {
    l.disk.log.Some? && Complete(Current(l.disk)) && Load(Current(l.disk)) == Some(l.records)
  }

  /** Some crash leaves exactly these rows. */
  ghost predicate Recalls(d: Disk, rows: Records) { exists b :: d.MayRead(b) && Recover(b) == Some(rows) }

  /** Whatever a crash leaves can be recovered. */
  ghost predicate Recovers(d: Disk) { forall b :: d.MayRead(b) ==> Recover(b).Some? }

  ghost predicate LedgerSound(l: Ledger) {
    l.disk.Ok() && ValidRecords(l.records) && (l.handle ==> LogReads(l)) && Recalls(l.disk, l.records)
  }

  ghost predicate Sound(m: Machine) {
    && m.disk.Ok() && Recovers(m.disk)
    && (m.ledger.Some? ==> m.ledger.value.disk == m.disk && m.legacy.None? && LedgerSound(m.ledger.value))
  }

  /** A ledger at rest: handle held, name and bytes on the medium. */
  ghost predicate AtRest(l: Ledger) {
    l.handle && l.disk.Ok() && l.disk.Settled() && Complete(Current(l.disk))
    && Load(Current(l.disk)) == Some(l.records) && ValidRecords(l.records)
  }

  /** What a reader sees now is something a crash may leave. */
  lemma CurrentReads(d: Disk)
    requires d.Ok()
    ensures d.MayRead(Current(d))
  {
    assert d.Entry(d.log);
    assert d.log.Some? ==> d.log.value.Image(d.log.value.cur);
  }

  lemma ReadsRecalled(l: Ledger)
    requires l.disk.Ok() && LogReads(l)
    ensures Recalls(l.disk, l.records)
  {
    CurrentReads(l.disk);
    RecoverWhole(Current(l.disk));
  }

  /** The line a commit appends. */
  lemma NewLine(a: Aead, q: Request)
    requires Correct(a) && q.Commit? && WellTyped(q) && ValidCommit(q)
    ensures ValidRecord(q.key, NewRow(a, q))
    ensures Encode(q.key, NewRow(a, q)) == Some(Line(q.key, NewRow(a, q)) + "\n")
    ensures LiveOutcome(a, q.key, NewRow(a, q), q.now, true) == Some(Granted(q.response, true))
  {
    SealedRow(a, q);
    ValidEncodes(q.key, NewRow(a, q));
  }

  /** A failed append: what is read back could be before, or lies between the old end and the whole
      line, before and after the length is reset; a completed rollback syncs the old content. */
  lemma TornAppend(f: File, line: string, n: nat)
    requires f.Ok()
    ensures var g := f.Write(Cut(line, n)); var r := g.Truncate(|f.cur|);
      && g.Ok() && r.Ok() && g.Image(f.cur) && r.Image(f.cur) && r.Sync() == Recovered(f.cur)
      && (forall b :: g.Image(b) || r.Image(b) ==> f.Image(b) || f.cur <= b <= f.cur + line)
  {
    var g := f.Write(Cut(line, n));
    var r := g.Truncate(|f.cur|);
    assert g.cur[..|f.cur|] == f.cur && g.cur <= f.cur + line;
    forall b | g.Image(b) || r.Image(b) ensures f.Image(b) || f.cur <= b <= f.cur + line {
      if g.Image(b) { GrownReads(f, g, line, b); } else { GrownReads(f, r, line, b); }
    }
  }

  lemma AppendSound(l: Ledger, key: string, r: StoredRecord, io: AppendIo)
    requires LedgerSound(l) && l.handle && ValidRecord(key, r) && key !in l.records
    ensures var (l', ok) := AppendLine(l, Line(key, r) + "\n", io);
      LedgerSound(if ok then l'.(records := l.records[key := r]) else l')
  {
    var f, line := l.disk.log.value, Line(key, r) + "\n";
    match io
    case Appended =>
      AppendLoads(f.cur, l.records, key, r);
      ReadsRecalled(Ledger(l.disk.SetLog(f.Write(line).Sync()), l.records[key := r], true));
    case MetadataFails =>
    case AppendFails(n, rollback) =>
      TornAppend(f, line, n);
      var g := f.Write(Cut(line, n));
      match rollback
      case RolledBack => ReadsRecalled(l.(disk := l.disk.SetLog(Recovered(f.cur))));
      case SetLenFails => TornSound(l, g);
      case RollbackSyncFails => TornSound(l, g.Truncate(|f.cur|));
  }

  lemma TornSound(l: Ledger, g: File)
    requires LedgerSound(l) && LogReads(l) && g.Ok() && g.Image(Current(l.disk))
    ensures LedgerSound(Ledger(l.disk.SetLog(g), l.records, false))
  {
    var d := l.disk.SetLog(g);
    RecoverWhole(Current(l.disk));
    assert d.Entry(Some(g)) && d.MayRead(Current(l.disk));
  }

  lemma CommitSound(a: Aead, l: Ledger, q: Request, io: CommitIo, order: seq<string>, rewriteIo: RewriteIo)
    requires Correct(a) && q.Commit? && WellTyped(q) && LedgerSound(l)
    requires CommitRewrites(a, l.records, q).Some? ==> Lists(order, CommitRewrites(a, l.records, q).value)
    ensures LedgerSound(CommitFile(a, l, q, io, order, rewriteIo).0)
  {
    if ValidCommit(q) && q.key !in l.records {
      NewLine(a, q);
      if io.Sealed? && l.handle { AppendSound(l, q.key, NewRow(a, q), io.append); }
    } else if CommitRewrites(a, l.records, q).Some? {
      RewriteSound(l, CommitRewrites(a, l.records, q).value, order, rewriteIo);
    }
  }

  /** A rewrite, of whatever ledger, leaves it alone or leaves the new rows. */
  lemma RewriteSound(l: Ledger, rows: Records, order: seq<string>, io: RewriteIo)
    requires l.disk.Ok() && ValidRecords(rows) && Lists(order, rows)
    ensures var (l', ok) := Rewrite(l, rows, order, io);
      && (if io.TempStops? || io.RenameFails? then l' == l else LedgerSound(l') && LogReads(l') && l'.records == rows)
      && (ok ==> io.Rewritten? && l'.handle)
  {
    var l' := Rewrite(l, rows, order, io).0;
    if !(io.TempStops? || io.RenameFails?) {
      PrintRoundTrip(order, rows);
      ReadsRecalled(l');
    }
  }

  /** What opening loads is what recovery makes of the log. */
  lemma TailSound(d: Disk, io: OpenIo)
    requires d.Ok()
    ensures var (d1, ok) := RecoverTail(d, io);
      && d1.Ok() && (d1.log.Some? <==> d.log.Some?)
      && (ok ==> Complete(Current(d1)) && Load(Current(d1)) == Recover(Current(d)))
  {
    if d.log.None? || Complete(d.log.value.cur) {
      RecoverWhole(Current(d));
    }
  }

  lemma OpenSound(d: Disk, legacy: Option<string>, now: nat, order: seq<string>, io: OpenIo)
    requires d.Ok()
    requires var loaded := OpenRows(d, legacy, io);
      loaded.Some? && OpenRewrites(loaded.value.0, loaded.value.1, now).Some? ==>
        Lists(order, OpenRewrites(loaded.value.0, loaded.value.1, now).value)
    ensures var (d', l) := OpenFile(d, legacy, now, order, io);
      d'.Ok() && (l.Some? ==> l.value.disk == d' && l.value.handle && LedgerSound(l.value))
  {
    TailSound(d, io);
    if OpenRows(d, legacy, io).Some? {
      var (rows, merged) := OpenRows(d, legacy, io).value;
      var d1 := RecoverTail(d, io).0;
      LoadedMergeValid(Current(d1), legacy);
      FinishSound(d1, legacy.Some?, rows, merged, now, order, io);
    }
  }

  lemma FinishSound(d: Disk, folds: bool, rows: Records, merged: Records, now: nat, order: seq<string>, io: OpenIo)
    requires d.Ok() && Complete(Current(d)) && Load(Current(d)) == Some(rows) && ValidRecords(merged)
    requires merged.Keys == rows.Keys ==> merged == rows
    requires OpenRewrites(rows, merged, now).Some? ==> Lists(order, OpenRewrites(rows, merged, now).value)
    ensures var (d', l) := FinishOpening(d, folds, rows, merged, now, order, io);
      d'.Ok() && (l.Some? ==> l.value.disk == d' && l.value.handle && LedgerSound(l.value))
  {
    CreatedSound(d, rows);
    var l, target := Ledger(d.Create().SyncDir(), merged, true), OpenRewrites(rows, merged, now);
    if target.Some? {
      PrunedValid(merged, now);
      RewriteSound(l, target.value, order, io.rewrite);
      Finished(d, folds, rows, merged, now, order, io, Rewrite(l, target.value, order, io.rewrite));
    } else {
      NothingFolded(rows, merged, now);
      ReadsRecalled(l);
      Finished(d, folds, rows, merged, now, order, io, (l, true));
    }
  }

  lemma Finished(d: Disk, folds: bool, rows: Records, merged: Records, now: nat, order: seq<string>, io: OpenIo,
                 end: (Ledger, bool))
    requires OpenRewrites(rows, merged, now).Some? ==> Lists(order, OpenRewrites(rows, merged, now).value)
    requires var start := Ledger(d.Create().SyncDir(), merged, true); var target := OpenRewrites(rows, merged, now);
      end == if target.Some? then Rewrite(start, target.value, order, io.rewrite) else (start, true)
    ensures var (d', l) := FinishOpening(d, folds, rows, merged, now, order, io);
      && (d' == d || d' == d.Create() || d' == end.0.disk)
      && (l.Some? ==> l == Some(end.0) && d' == end.0.disk && end.1)
  {
  }

  lemma NothingFolded(rows: Records, merged: Records, now: nat)
    requires OpenRewrites(rows, merged, now).None? && (merged.Keys == rows.Keys ==> merged == rows)
    ensures merged == rows
  {
  }

  lemma CreatedSound(d: Disk, rows: Records)
    requires d.Ok() && Complete(Current(d)) && Load(Current(d)) == Some(rows)
    ensures d.Create().Ok() && d.Create().SyncDir().Ok() && LogReads(Ledger(d.Create().SyncDir(), rows, true))
  {
  }

  lemma PrunedValid(rows: Records, now: nat)
    requires ValidRecords(rows)
    ensures ValidRecords(Pruned(rows, now))
  {
  }

  // ---------------------------------------------------------------- each call is atomic

  /** `text` recovers as something the disk could be read back as. */
  ghost predicate AsBefore(d: Disk, text: string) { exists b :: d.MayRead(b) && Recover(b) == Recover(text) }

  /** A rewrite of any ledger, at rest, poisoned or unsynced, cut short anywhere: what is read back could
      be before, or recovers as exactly the new rows. */
  lemma RewriteAtomic(l: Ledger, rows: Records, order: seq<string>, io: RewriteIo, text: string)
    requires ValidRecords(rows) && Lists(order, rows)
    requires Rewrite(l, rows, order, io).0.disk.MayRead(text)
    ensures l.disk.MayRead(text) || Recover(text) == Some(rows)
    ensures AtRest(l) ==> Recover(text) == Some(l.records) || Recover(text) == Some(rows)
  {
    RewriteReads(l, rows, order, io, text);
    PrintRoundTrip(order, rows);
    if text == Print(order, rows) {
      RecoverWhole(text);
    } else if AtRest(l) {
      SettledReads(l.disk, text);
      RecoverWhole(Current(l.disk));
    }
  }

  /** After a rewrite, however it ends, the disk reads as before or as the new file. */
  lemma RewriteReads(l: Ledger, rows: Records, order: seq<string>, io: RewriteIo, text: string)
    requires Lists(order, rows) && Rewrite(l, rows, order, io).0.disk.MayRead(text)
    ensures l.disk.MayRead(text) || text == Print(order, rows)
  {
    var temp := Recovered(Print(order, rows));
    if !(io.TempStops? || io.RenameFails?) {
      ReplaceReads(l.disk, temp, text);
    }
  }

  /** A commit of a new key, cut short at any byte: what is read back could be before, or recovers as the
      old rows or those with its own. */
  lemma AppendAtomic(a: Aead, l: Ledger, q: Request, io: CommitIo, text: string)
    requires Correct(a) && q.Commit? && WellTyped(q) && ValidCommit(q) && q.key !in l.records
    requires l.disk.Ok() && (l.handle ==> LogReads(l))
    requires CommitFile(a, l, q, io, [], Rewritten).0.disk.MayRead(text)
    ensures || l.disk.MayRead(text) || Recover(text) == Some(l.records)
            || Recover(text) == Some(l.records[q.key := NewRow(a, q)])
    ensures AsBefore(l.disk, text) || Recover(text) == Some(l.records[q.key := NewRow(a, q)])
  {
    NewLine(a, q);
    var line := Line(q.key, NewRow(a, q)) + "\n";
    AppendReaches(l, line, io, text, CommitFile(a, l, q, io, [], Rewritten).0.disk);
    if !l.disk.MayRead(text) {
      RecoverInFlight(Current(l.disk), l.records, q.key, NewRow(a, q), text);
      ReadsRecalled(l);
    }
  }

  lemma AppendReaches(l: Ledger, line: string, io: CommitIo, text: string, d: Disk)
    requires l.disk.Ok() && (l.handle ==> LogReads(l)) && d.MayRead(text)
    requires d == if io.SealFails? then l.disk else AppendLine(l, line, io.append).0.disk
    ensures l.disk.MayRead(text) || (l.handle && Current(l.disk) <= text <= Current(l.disk) + line)
  {
    var e :| d.Entry(e) && (match e case None => text == "" case Some(f) => f.Image(text));
    if l.disk.Entry(e) {
      assert l.disk.MayRead(text);
    } else {
      assert e == d.log && io.Sealed? && l.handle;
      AppendedBetween(l, line, io.append, text);
    }
  }

  lemma AppendedBetween(l: Ledger, line: string, io: AppendIo, text: string)
    requires l.disk.Ok() && l.handle && LogReads(l) && AppendLine(l, line, io).0.disk.log.value.Image(text)
    ensures l.disk.MayRead(text) || Current(l.disk) <= text <= Current(l.disk) + line
  {
    var f := l.disk.log.value;
    assert l.disk.Entry(Some(f));
    match io
    case Appended => assert text == f.cur + line;
    case MetadataFails =>
    case AppendFails(n, rollback) =>
      TornAppend(f, line, n);
      if rollback.RolledBack? { assert text == f.cur; }
  }

  /** Opening, with or without a log, a torn tail, a record in flight or a legacy ledger to fold in, cut
      short anywhere: what is read back recovers as something it could be read back as before, or as the
      rows opening rewrites the log to. */
  lemma OpenAtomic(d: Disk, legacy: Option<string>, now: nat, order: seq<string>, io: OpenIo, text: string)
    requires d.Ok()
    requires var loaded := OpenRows(d, legacy, io);
      loaded.Some? && OpenRewrites(loaded.value.0, loaded.value.1, now).Some? ==>
        Lists(order, OpenRewrites(loaded.value.0, loaded.value.1, now).value)
    requires OpenFile(d, legacy, now, order, io).0.MayRead(text)
    ensures || AsBefore(d, text)
            || (&& OpenReplaces(d, legacy, now, io)
                && Recover(text) == OpenRewrites(OpenRows(d, legacy, io).value.0, OpenRows(d, legacy, io).value.1, now))
  {
    var d1 := RecoverTail(d, io).0;
    if OpenRows(d, legacy, io).Some? {
      var (rows, merged) := OpenRows(d, legacy, io).value;
      FinishReads(d1, legacy.Some?, rows, merged, now, order, io, text);
      if !d1.MayRead(text) {
        LoadedMergeValid(Current(d1), legacy);
        TargetRecovers(rows, merged, now, order);
      }
    }
    if d1.MayRead(text) { TailAtomic(d, io, text); }
  }

  lemma TargetRecovers(rows: Records, merged: Records, now: nat, order: seq<string>)
    requires ValidRecords(merged) && OpenRewrites(rows, merged, now).Some?
    requires Lists(order, OpenRewrites(rows, merged, now).value)
    ensures Recover(Print(order, OpenRewrites(rows, merged, now).value)) == OpenRewrites(rows, merged, now)
  {
    var target := OpenRewrites(rows, merged, now).value;
    PrintRoundTrip(order, target);
    RecoverWhole(Print(order, target));
  }

  /** Past the tail, opening leaves what was readable and at most the rewritten file. */
  lemma FinishReads(d: Disk, folds: bool, rows: Records, merged: Records, now: nat, order: seq<string>, io: OpenIo, text: string)
    requires OpenRewrites(rows, merged, now).Some? ==> Lists(order, OpenRewrites(rows, merged, now).value)
    requires FinishOpening(d, folds, rows, merged, now, order, io).0.MayRead(text)
    ensures || d.MayRead(text)
            || (OpenRewrites(rows, merged, now).Some? && text == Print(order, OpenRewrites(rows, merged, now).value))
  {
    var c, target := d.Create(), OpenRewrites(rows, merged, now);
    if io.opens && io.dirSyncs && target.Some? {
      RewriteReads(Ledger(c.SyncDir(), merged, true), target.value, order, io.rewrite, text);
    }
    CreatedReads(d, text);
  }

  /** While the tail is cut, whatever the log held before, it recovers as it could before. */
  lemma TailAtomic(d: Disk, io: OpenIo, text: string)
    requires d.Ok() && RecoverTail(d, io).0.MayRead(text)
    ensures AsBefore(d, text)
  {
    var d1 := RecoverTail(d, io).0;
    var e :| d1.Entry(e) && (match e case None => text == "" case Some(f) => f.Image(text));
    if d.Entry(e) {
      assert d.MayRead(text);
    } else {
      var f := d.log.value;
      assert d.Entry(Some(f)) && f.Image(f.cur);
      CutTailAtomic(f.cur, Keeps(f.cur).value);
      TruncateReads(f, Keeps(f.cur).value, text);
      assert f.Image(text) ==> d.MayRead(text);
    }
  }

  /** A file being cut reads as it could before, or as the file cut somewhere within the tail. */
  lemma TruncateReads(f: File, keep: nat, text: string)
    requires f.Ok() && keep <= |f.cur|
    requires f.Truncate(keep).Image(text) || f.Truncate(keep).Sync().Image(text)
    ensures f.Image(text) || f.cur[..keep] <= text <= f.cur
  {
    var g := f.Truncate(keep);
    if g.Image(text) && text != g.stable {
      var x :| x in g.tails && g.stable <= text <= x;
      if |text| < |f.stable| && x in f.tails {
        assert text <= f.stable;
      }
    }
  }

  /** Everything between the kept part and the torn whole recovers alike. */
  lemma CutTailAtomic(cur: string, keep: nat)
    requires Keeps(cur) == Some(keep) && !Complete(cur)
    ensures Complete(cur[..keep]) && Recover(cur[..keep]) == Recover(cur) == Load(cur[..keep])
    ensures forall text :: cur[..keep] <= text <= cur ==> Recover(text) == Recover(cur)
  {
    RecoverWhole(cur[..keep]);
    forall text | cur[..keep] <= text <= cur ensures Recover(text) == Load(cur[..keep]) {
      CutInTail(cur, keep, text);
    }
  }

  lemma CutInTail(cur: string, keep: nat, text: string)
    requires Keeps(cur) == Some(keep) && cur[..keep] <= text <= cur
    ensures Recover(text) == Load(cur[..keep])
  {
    var t, fragment := cur[..keep], text[keep..];
    assert text == t + fragment && fragment <= cur[keep..];
    assert '\n' !in cur[keep..];
    if |fragment| < MaxLine {
      RecoverFragment(t, fragment);
    } else {
      assert text == cur;
    }
  }

  // ---------------------------------------------------------------- every step

  /** The rows a step means to leave on disk, if it means to change them. */
  ghost function Target(a: Aead, m: Machine, op: Op): Option<Records>
    requires Enabled(a, m, op)
  {
    match op
    case OpOpen(now, _, io) =>
      if OpenReplaces(m.disk, m.legacy, now, io)
      then OpenRewrites(OpenRows(m.disk, m.legacy, io).value.0, OpenRows(m.disk, m.legacy, io).value.1, now) else None
    case OpCommit(q, _, _, _) =>
      var rows := m.ledger.value.records;
      if ValidCommit(q) && q.key !in rows then Some(rows[q.key := NewRow(a, q)]) else CommitRewrites(a, rows, q)
    case OpPrune(now, _, _) => Some(Pruned(m.ledger.value.records, now))
    case OpRestart => None
    case OpCrash => None
  }

  /** Whatever step is cut short, at whatever byte, the ledger recovers as it could before the step or
      as exactly the rows the step commits: never a part of them. */
  lemma StepAtomic(a: Aead, m: Machine, op: Op, m': Machine, text: string)
    requires Correct(a) && Sound(m) && Step(a, m, op, m') && m'.disk.MayRead(text)
    ensures AsBefore(m.disk, text) || (Target(a, m, op).Some? && Recover(text) == Target(a, m, op))
  {
    match op
    case OpOpen(now, order, io) =>
      OpenAtomic(m.disk, m.legacy, now, order, io, text);
    case OpCommit(q, io, order, rewriteIo) =>
      CommitAtomic(a, m.ledger.value, q, io, order, rewriteIo, text);
    case OpPrune(now, order, io) =>
      if PrunedKeys(m.ledger.value.records, now) != {} {
        RewriteAtomic(m.ledger.value, Pruned(m.ledger.value.records, now), order, io, text);
      }
    case OpRestart =>
    case OpCrash => CrashReads(m.disk, m'.disk);
  }

  lemma CommitAtomic(a: Aead, l: Ledger, q: Request, io: CommitIo, order: seq<string>, rewriteIo: RewriteIo, text: string)
    requires Correct(a) && q.Commit? && WellTyped(q) && LedgerSound(l)
    requires CommitRewrites(a, l.records, q).Some? ==> Lists(order, CommitRewrites(a, l.records, q).value)
    requires CommitFile(a, l, q, io, order, rewriteIo).0.disk.MayRead(text)
    ensures || AsBefore(l.disk, text)
            || (ValidCommit(q) && q.key !in l.records && Recover(text) == Some(l.records[q.key := NewRow(a, q)]))
            || (CommitRewrites(a, l.records, q).Some? && Recover(text) == CommitRewrites(a, l.records, q))
  {
    if ValidCommit(q) && q.key !in l.records {
      AppendAtomic(a, l, q, io, text);
    } else if CommitRewrites(a, l.records, q).Some? {
      RewriteAtomic(l, CommitRewrites(a, l.records, q).value, order, rewriteIo, text);
    }
  }

  /** Every step, with any I/O outcome, keeps the machine sound: whatever a crash leaves is recovered,
      what is in memory is one of the things a crash may leave, and with a handle it is what the log
      reads as. */
  lemma StepKeepsSound(a: Aead, m: Machine, op: Op, m': Machine)
    requires Correct(a) && Sound(m) && Step(a, m, op, m')
    ensures Sound(m')
  {
    forall text | m'.disk.MayRead(text) ensures Recover(text).Some? {
      StepAtomic(a, m, op, m', text);
    }
    StepSound(a, m, op, m');
  }

  lemma StepSound(a: Aead, m: Machine, op: Op, m': Machine)
    requires Correct(a) && Sound(m) && Step(a, m, op, m')
    ensures m'.disk.Ok()
    ensures m'.ledger.Some? ==>
      m'.ledger.value.disk == m'.disk && m'.legacy.None? && LedgerSound(m'.ledger.value)
  {
    match op
    case OpOpen(now, order, io) =>
      OpenSound(m.disk, m.legacy, now, order, io);
    case OpCommit(q, io, order, rewriteIo) =>
      CommitSound(a, m.ledger.value, q, io, order, rewriteIo);
    case OpPrune(now, order, io) =>
      if PrunedKeys(m.ledger.value.records, now) != {} {
        RewriteSound(m.ledger.value, Pruned(m.ledger.value.records, now), order, io);
      }
    case OpRestart =>
    case OpCrash => CrashReads(m.disk, m'.disk);
  }
}
