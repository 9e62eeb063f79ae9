/**
 What opening the file ledger loads, in terms of the log and the legacy ledger alone, and what becomes of
 the keys of a legacy ledger: none of them is ever taken for new.
 */
module LedgerLegacy {
  import opened Text
  import opened Storage
  import opened Cipher
  import opened LedgerFormat
  import opened LedgerLog
  import opened LedgerMachine
  import opened FileLedger
  import opened LedgerRuns
  import opened LedgerHistory
  import opened LedgerExact

  // ---------------------------------------------------------------- what is in memory afterwards

  /** The row at time `now`: a result whose window is over is gone, its key stays spent. */
  function AtTime(r: StoredRecord, now: nat): StoredRecord {
    if r.until.Some? && r.until.value <= now then StoredRecord(r.epoch, None, None) else r
  }

  /** `rows` holds every key of the log and of the old ledger and no other; where both have a key the
      log's row wins, and no result is kept beyond its window. */
  ghost predicate Folded(rows: Records, log: Records, past: Records, now: nat) {
    && (forall k :: k in rows <==> k in log || k in past)
    && (forall k :: k in rows ==> rows[k] == AtTime(if k in log then log[k] else past[k], now))
  }

  /** The rows of the legacy ledger, if there is one and it can be read. */
  function Legacy(legacy: Option<string>): Option<Records> {
    if legacy.Some? then Load(legacy.value) else Some(map[])
  }

  /** Opening changes the log: a key comes in, or a result goes. */
  ghost predicate Changes(log: Records, past: Records, now: nat) {
    (exists k :: k in past && k !in log) || (exists k :: k in log && AtTime(log[k], now) != log[k])
  }

  /** Rows with both replay fields or neither: a result goes exactly when its key is counted. */
  lemma PrunedAtTime(rows: Records, now: nat)
    requires ValidRecords(rows)
    ensures forall k :: k in rows ==> (k in PrunedKeys(rows, now) <==> AtTime(rows[k], now) != rows[k])
    ensures forall k :: k in rows ==> Pruned(rows, now)[k] == AtTime(rows[k], now)
  {
    forall k | k in rows ensures Pruned(rows, now)[k] == AtTime(rows[k], now) {
      assert ValidRecord(k, rows[k]);
    }
  }

  lemma MergedFolds(rows: Records, log: Records, past: Records, now: nat)
    requires ValidRecords(log) && ValidRecords(past) && rows == past + log
    ensures var target := OpenRewrites(log, rows, now);
      Folded(if target.Some? then target.value else rows, log, past, now)
  {
    PrunedAtTime(rows, now);
  }

  lemma MergedChanges(rows: Records, log: Records, past: Records, now: nat)
    requires ValidRecords(log) && ValidRecords(past) && rows == past + log
    ensures OpenRewrites(log, rows, now).Some? <==> Changes(log, past, now)
  {
    PrunedAtTime(rows, now);
    if OpenRewrites(log, rows, now).Some? {
      if PrunedKeys(rows, now) != {} {
        var k :| k in PrunedKeys(rows, now);
        assert k in log || (k in past && k !in log);
      } else {
        var k :| k in rows && k !in log;
      }
    } else {
      forall k | k in log ensures AtTime(log[k], now) == log[k] { assert k in rows && k !in PrunedKeys(rows, now); }
      forall k | k in past ensures k in log { assert k in rows.Keys; }
    }
  }

  lemma OpenedRows(d: Disk, legacy: Option<string>, io: OpenIo)
    requires d.Ok() && OpenRows(d, legacy, io).Some?
    ensures Recover(Current(d)).Some? && Legacy(legacy).Some?
    ensures var log, past := Recover(Current(d)).value, Legacy(legacy).value;
      ValidRecords(log) && ValidRecords(past) && OpenRows(d, legacy, io) == Some((log, past + log))
  {
    TailSound(d, io);
    RecoveredValid(Current(d));
    if legacy.Some? {
      LoadedValid(legacy.value, map[]);
    } else {
      assert map[] + Recover(Current(d)).value == Recover(Current(d)).value;
    }
  }

  /** What a successful open has in memory: every key of the log and of the legacy ledger, nothing else. */
  lemma OpenLoadsAll(a: Aead, m: Machine, op: Op, m': Machine)
    requires Sound(m) && op.OpOpen? && Step(a, m, op, m') && m'.ledger.Some?
    ensures Recover(Current(m.disk)).Some? && Legacy(m.legacy).Some?
    ensures Folded(m'.ledger.value.records, Recover(Current(m.disk)).value, Legacy(m.legacy).value, op.now)
  {
    OpenedRows(m.disk, m.legacy, op.openIo);
    var log, past := Recover(Current(m.disk)).value, Legacy(m.legacy).value;
    MergedFolds(past + log, log, past, op.now);
    FinishedRows(RecoverTail(m.disk, op.openIo).0, m.legacy.Some?, log, past + log, op.now, op.order, op.openIo);
  }

  lemma FinishedRows(d: Disk, folds: bool, rows: Records, merged: Records, now: nat, order: seq<string>, io: OpenIo)
    requires OpenRewrites(rows, merged, now).Some? ==> Lists(order, OpenRewrites(rows, merged, now).value)
    ensures var target := OpenRewrites(rows, merged, now); var l := FinishOpening(d, folds, rows, merged, now, order, io).1;
      && (l.Some? ==> l.value.records == if target.Some? then target.value else merged)
      && (l.Some? <==> io.opens && io.dirSyncs && (target.Some? ==> io.rewrite.Rewritten?) && (folds ==> io.setsAside))
  {
    var start, target := Ledger(d.Create().SyncDir(), merged, true), OpenRewrites(rows, merged, now);
    if target.Some? { RewriteDisk(start, target.value, order, io.rewrite); }
  }

  /** Opening succeeds if and only if the legacy ledger can be read and each I/O step it needs succeeds:
      cutting a torn tail, opening, syncing the directory, rewriting if the rows change, and setting
      the legacy ledger aside. */
  lemma OpensIff(a: Aead, m: Machine, op: Op, m': Machine)
    requires Sound(m) && op.OpOpen? && Step(a, m, op, m')
    ensures Recover(Current(m.disk)).Some?
    ensures m'.ledger.Some? <==>
      && Legacy(m.legacy).Some?
      && (!Complete(Current(m.disk)) ==> op.openIo.truncates && op.openIo.truncateSyncs)
      && op.openIo.opens && op.openIo.dirSyncs && (m.legacy.Some? ==> op.openIo.setsAside)
      && (Changes(Recover(Current(m.disk)).value, Legacy(m.legacy).value, op.now) ==> op.openIo.rewrite.Rewritten?)
  {
    CurrentReads(m.disk);
    TailIff(m.disk, op.openIo);
    if OpenRows(m.disk, m.legacy, op.openIo).Some? {
      OpenedRows(m.disk, m.legacy, op.openIo);
      var log, past := Recover(Current(m.disk)).value, Legacy(m.legacy).value;
      MergedChanges(past + log, log, past, op.now);
      FinishedRows(RecoverTail(m.disk, op.openIo).0, m.legacy.Some?, log, past + log, op.now, op.order, op.openIo);
    } else {
      TailSound(m.disk, op.openIo);
    }
  }

  lemma TailIff(d: Disk, io: OpenIo)
    requires d.Ok() && Recover(Current(d)).Some?
    ensures RecoverTail(d, io).1 <==> (!Complete(Current(d)) ==> io.truncates && io.truncateSyncs)
  {
  }

  // ---------------------------------------------------------------- legacy keys over histories

  /** Before the first successful open: the legacy ledger is in place and every file that has ever had
      the ledger's name is whole and on the medium. */
  ghost predicate Untouched(m: Machine, text: string) {
    && Sound(m) && m.ledger.None? && m.legacy == Some(text)
    && forall e :: m.disk.Entry(e) && e.Some? ==> e.value.Synced() && Complete(e.value.cur)
  }

  lemma StepUntouched(a: Aead, m: Machine, op: Op, m': Machine, text: string)
    requires Correct(a) && Untouched(m, text) && Step(a, m, op, m') && m'.ledger.None?
    ensures Untouched(m', text)
  {
    StepKeepsSound(a, m, op, m');
    match op
    case OpOpen(now, order, io) => OpenUntouched(m.disk, m.legacy, now, order, io);
    case OpRestart =>
    case OpCrash =>
  }

  ghost predicate AllWhole(d: Disk) { forall e :: d.Entry(e) && e.Some? ==> e.value.Synced() && Complete(e.value.cur) }

  lemma OpenUntouched(d: Disk, legacy: Option<string>, now: nat, order: seq<string>, io: OpenIo)
    requires AllWhole(d)
    requires var loaded := OpenRows(d, legacy, io);
      loaded.Some? && OpenRewrites(loaded.value.0, loaded.value.1, now).Some? ==>
        Lists(order, OpenRewrites(loaded.value.0, loaded.value.1, now).value)
    ensures AllWhole(OpenFile(d, legacy, now, order, io).0)
  {
    assert d.Entry(d.log);
    assert RecoverTail(d, io) == (d, true);
    if OpenRows(d, legacy, io).Some? {
      var (rows, merged) := OpenRows(d, legacy, io).value;
      FinishUntouched(d, legacy.Some?, rows, merged, now, order, io);
    }
  }

  lemma FinishUntouched(d: Disk, folds: bool, rows: Records, merged: Records, now: nat, order: seq<string>, io: OpenIo)
    requires AllWhole(d)
    requires OpenRewrites(rows, merged, now).Some? ==> Lists(order, OpenRewrites(rows, merged, now).value)
    ensures AllWhole(FinishOpening(d, folds, rows, merged, now, order, io).0)
  {
    var l, target := Ledger(d.Create().SyncDir(), merged, true), OpenRewrites(rows, merged, now);
    if target.Some? {
      RewriteDisk(l, target.value, order, io.rewrite);
      Finished(d, folds, rows, merged, now, order, io, Rewrite(l, target.value, order, io.rewrite));
    } else {
      Finished(d, folds, rows, merged, now, order, io, (l, true));
    }
  }

  /** After an open that found a clean log or replaced it, every crash image knows every legacy key. */
  lemma FoldedKnown(a: Aead, m: Machine, op: Op, m': Machine, key: string)
    requires Correct(a) && Sound(m) && op.OpOpen? && Step(a, m, op, m') && m'.ledger.Some?
    requires Legacy(m.legacy).Some? ==> key in Legacy(m.legacy).value
    requires OpensClean(m.disk) || OpenReplaces(m.disk, m.legacy, op.now, op.openIo)
    ensures Known(m'.disk, key)
  {
    OpenLoadsAll(a, m, op, m');
    OpenSound(m.disk, m.legacy, op.now, op.order, op.openIo);
    OpenedLog(m.disk, m.legacy, op.now, op.order, op.openIo);
    RestStands(m'.ledger.value, key, r => true);
  }

  /** In every history from a first start beside a legacy ledger: until an open succeeds the ledger
      stays in place, and from then on every crash image knows each of its keys. */
  lemma {:induction false} LegacyKnown(a: Aead, states: seq<Machine>, ops: seq<Op>, i: nat, text: string, key: string)
    requires Correct(a) && Run(a, states, ops) && i <= |ops| && Load(text).Some? && key in Load(text).value
    requires states[0] == Machine(Disk(None, {}), Some(text), None, None)
    ensures Untouched(states[i], text) || Known(states[i].disk, key)
  {
    RunSound(a, states, ops, i);
    if i > 0 {
      LegacyKnown(a, states, ops, i - 1, text, key);
      RunSound(a, states, ops, i - 1);
      assert Taken(a, states, ops, i - 1);
      if Known(states[i - 1].disk, key) {
        SpentSurvives(a, states, ops, i - 1, i, key);
      } else {
        NextUntouched(a, states[i - 1], ops[i - 1], states[i], text, key);
      }
    }
  }

  lemma NextUntouched(a: Aead, m: Machine, op: Op, m': Machine, text: string, key: string)
    requires Correct(a) && Untouched(m, text) && Step(a, m, op, m') && Load(text).Some? && key in Load(text).value
    ensures Untouched(m', text) || Known(m'.disk, key)
  {
    if m'.ledger.None? {
      StepUntouched(a, m, op, m', text);
    } else {
      assert m.disk.Entry(m.disk.log);
      FoldedKnown(a, m, op, m', key);
    }
  }

  /** A key of the legacy ledger is never granted as newly committed: a commit needs a running ledger, and
      every ledger that ever runs knows the key, across failed opens, crashes and restarts. */
  lemma LegacyNeverNew(a: Aead, states: seq<Machine>, ops: seq<Op>, i: nat, text: string, key: string, response: Bytes)
    requires Correct(a) && Run(a, states, ops) && i < |ops| && Load(text).Some? && key in Load(text).value
    requires states[0] == Machine(Disk(None, {}), Some(text), None, None)
    ensures !GrantsAt(a, states, ops, i, key, response, true)
    ensures states[i].ledger.Some? ==> key in states[i].ledger.value.records
  {
    LegacyKnown(a, states, ops, i, text, key);
    if Known(states[i].disk, key) {
      SpentSurvives(a, states, ops, i, i, key);
    }
  }
}
