/**
 Complements to the histories of the file ledger: with successful I/O it answers as the abstract
 machine, and the conditions of its crash theorems are exact.
 */
module LedgerExact {
  import opened Text
  import opened Storage
  import opened Cipher
  import opened LedgerFormat
  import opened LedgerLog
  import opened LedgerMachine
  import opened FileLedger
  import opened LedgerRuns
  import opened LedgerHistory
  import opened LedgerReplay

  // ---------------------------------------------------------------- refinement

  /** Some iteration order of a map. */
  ghost function Listing(rows: Records): (order: seq<string>)
    ensures Lists(order, rows)
    decreases |rows|
  {
    if rows == map[] then [] else
    var k :| k in rows;
    var rest := rows - {k};
    assert |rest| < |rows| by { assert rest.Keys == rows.Keys - {k}; }
    [k] + Listing(rest)
  }

  /** One request served with every I/O operation succeeding. */
  ghost function FileStep(a: Aead, l: Ledger, q: Request): (Ledger, Answer) {
    match q
    case Commit(_, _, _, _, _, _) =>
      var target := CommitRewrites(a, l.records, q);
      var (l', outcome) := CommitFile(a, l, q, Sealed(Appended), if target.Some? then Listing(target.value) else [], Rewritten);
      (l', Redeemed(outcome))
    case Prune(now) =>
      var (l', removed) := PruneFile(l, now, Listing(Pruned(l.records, now)), Rewritten);
      (l', if removed.Some? then Removed(removed.value) else PruneFailed)
  }

  ghost function FileAnswers(a: Aead, l: Ledger, qs: seq<Request>): seq<Answer>
    decreases |qs|
  {
    if qs == [] then [] else [FileStep(a, l, qs[0]).1] + FileAnswers(a, FileStep(a, l, qs[0]).0, qs[1..])
  }

  ghost predicate Writable(l: Ledger) { l.handle && l.disk.log.Some? }

  lemma FileCommitAgrees(a: Aead, l: Ledger, q: Request)
    requires Correct(a) && Genuine(a, l.records) && Writable(l) && q.Commit? && WellTyped(q)
    ensures var (l', answer) := FileStep(a, l, q);
      Writable(l') && (l'.records, answer) == RowStep(a, l.records, q)
  {
    if ValidCommit(q) {
      if q.key !in l.records {
        NewLine(a, q);
      } else if LiveOutcome(a, q.key, l.records[q.key], q.now, false).None? && l.records[q.key].ciphertext.None? {
        assert l.records[q.key := Cleared(l.records[q.key])] == l.records;
      }
    }
  }

  lemma FilePruneAgrees(a: Aead, l: Ledger, now: nat)
    requires Genuine(a, l.records) && Writable(l)
    ensures var (l', answer) := FileStep(a, l, Prune(now));
      Writable(l') && (l'.records, answer) == RowStep(a, l.records, Prune(now))
  {
    if PrunedKeys(l.records, now) == {} {
      NothingPruned(a, l.records, now);
    }
  }

  lemma NothingPruned(a: Aead, rows: Records, now: nat)
    requires Genuine(a, rows) && PrunedKeys(rows, now) == {}
    ensures Pruned(rows, now) == rows
  {
    forall k | k in rows ensures !Expired(rows[k], now) {
      assert k !in PrunedKeys(rows, now);
    }
  }

  /** The file backend answers every sequence of commits and prunes as the abstract machine, and so
      as the other two backends. */
  lemma {:induction false} FileRefines(a: Aead, l: Ledger, qs: seq<Request>)
    requires Correct(a) && Genuine(a, l.records) && Writable(l)
    requires forall i :: 0 <= i < |qs| ==> WellTyped(qs[i])
    ensures FileAnswers(a, l, qs) == BookAnswers(Abs(a, l.records), qs)
    decreases |qs|
  {
    if qs != [] {
      if qs[0].Commit? { FileCommitAgrees(a, l, qs[0]); } else { FilePruneAgrees(a, l, qs[0].now); }
      RowStepRefines(a, l.records, qs[0]);
      FileRefines(a, FileStep(a, l, qs[0]).0, qs[1..]);
    }
  }

  // ---------------------------------------------------------------- what opening makes durable

  /** Everything the log reads as is on the medium. */
  predicate BytesDurable(d: Disk) { d.log.None? || d.log.value.Synced() }

  /** After a successful open every crash reads back what the log now reads as, if and only if the log
      was missing, fully synced or torn, or opening had a reason to replace it. */
  lemma OpenDurableIff(d: Disk, legacy: Option<string>, now: nat, order: seq<string>, io: OpenIo)
    requires d.Ok()
    requires var loaded := OpenRows(d, legacy, io);
      loaded.Some? && OpenRewrites(loaded.value.0, loaded.value.1, now).Some? ==>
        Lists(order, OpenRewrites(loaded.value.0, loaded.value.1, now).value)
    requires OpenFile(d, legacy, now, order, io).1.Some?
    ensures var d' := OpenFile(d, legacy, now, order, io).0;
      (forall text :: d'.MayRead(text) ==> text == Current(d')) <==> OpensClean(d) || OpenReplaces(d, legacy, now, io)
  {
    var d' := OpenFile(d, legacy, now, order, io).0;
    OpenedLog(d, legacy, now, order, io);
    var f := d'.log.value;
    SyncedIff(f);
    assert d'.Entry(Some(f)) && forall b :: f.Image(b) ==> d'.MayRead(b);
  }

  lemma OpenedLog(d: Disk, legacy: Option<string>, now: nat, order: seq<string>, io: OpenIo)
    requires d.Ok()
    requires var loaded := OpenRows(d, legacy, io);
      loaded.Some? && OpenRewrites(loaded.value.0, loaded.value.1, now).Some? ==>
        Lists(order, OpenRewrites(loaded.value.0, loaded.value.1, now).value)
    requires OpenFile(d, legacy, now, order, io).1.Some?
    ensures var d' := OpenFile(d, legacy, now, order, io).0;
      && d'.shadows == {} && d'.log.Some? && d'.log.value.Ok()
      && (d'.log.value.Synced() <==> OpensClean(d) || OpenReplaces(d, legacy, now, io))
  {
    TailBytes(d, io);
    var (rows, merged) := OpenRows(d, legacy, io).value;
    FinishedLog(RecoverTail(d, io).0, legacy.Some?, rows, merged, now, order, io);
  }

  lemma FinishedLog(d: Disk, folds: bool, rows: Records, merged: Records, now: nat, order: seq<string>, io: OpenIo)
    requires d.Ok() && (OpenRewrites(rows, merged, now).Some? ==> Lists(order, OpenRewrites(rows, merged, now).value))
    requires FinishOpening(d, folds, rows, merged, now, order, io).1.Some?
    ensures var d' := FinishOpening(d, folds, rows, merged, now, order, io).0;
      && d'.shadows == {} && d'.log.Some? && d'.log.value.Ok()
      && (d'.log.value.Synced() <==> BytesDurable(d) || OpenRewrites(rows, merged, now).Some?)
  {
    CreatedBytes(d);
    var target := OpenRewrites(rows, merged, now);
    if target.Some? {
      RewriteDisk(Ledger(d.Create().SyncDir(), merged, true), target.value, order, io.rewrite);
    }
  }

  lemma CreatedBytes(d: Disk)
    requires d.Ok()
    ensures var c := d.Create().SyncDir();
      c.shadows == {} && c.log.Some? && c.log.value.Ok() && (c.log.value.Synced() <==> BytesDurable(d))
  {
  }

  /** The disk a rewrite leaves. */
  lemma RewriteDisk(l: Ledger, rows: Records, order: seq<string>, io: RewriteIo)
    requires Lists(order, rows)
    ensures var (l1, ok) := Rewrite(l, rows, order, io); var temp := Some(Recovered(Print(order, rows)));
      && (ok <==> io.Rewritten?) && (io.TempStops? || io.RenameFails? ==> l1 == l)
      && (io.Rewritten? ==> l1 == Ledger(Disk(temp, {}), rows, true))
      && (io.DirSyncFails? ==> l1 == Ledger(Disk(temp, l.disk.shadows + {l.disk.log}), rows, true))
      && (io.ReopenFails? ==> l1 == Ledger(Disk(temp, l.disk.shadows + {l.disk.log}), rows, false))
  {
  }

  lemma TailBytes(d: Disk, io: OpenIo)
    requires d.Ok() && RecoverTail(d, io).1
    ensures var d1 := RecoverTail(d, io).0;
      && d1.Ok() && (d1.log.Some? <==> d.log.Some?) && (BytesDurable(d1) <==> OpensClean(d))
  {
  }

  // ---------------------------------------------------------------- when a ledger is at rest

  /** A rewrite that leaves a handle has written a synced file. */
  predicate Renames(io: RewriteIo) { io.Rewritten? || io.DirSyncFails? }

  /** The commit is of a new key and gets as far as a sync: of its line, or of the old length. */
  predicate Syncs(rows: Records, q: Request, io: CommitIo)
    requires q.Commit?
  {
    && ValidCommit(q) && q.key !in rows && io.Sealed?
    && (io.append.Appended? || (io.append.AppendFails? && io.append.rollback.RolledBack?))
  }

  /** Whether the log is all on the medium after a step, given whether it was before. */
  ghost predicate SyncedAfter(a: Aead, m: Machine, op: Op, before: bool)
    requires Enabled(a, m, op)
  {
    match op
    case OpOpen(now, _, io) => OpensClean(m.disk) || OpenReplaces(m.disk, m.legacy, now, io)
    case OpCommit(q, io, _, rewriteIo) =>
      var rows := m.ledger.value.records;
      Syncs(rows, q, io) || (CommitRewrites(a, rows, q).Some? && Renames(rewriteIo)) || before
    case OpPrune(now, _, io) => (PrunedKeys(m.ledger.value.records, now) != {} && Renames(io)) || before
    case OpRestart => false
    case OpCrash => false
  }

  /** Whether the name is durable after a rewrite, given whether it was before. */
  predicate NamedBy(io: RewriteIo, before: bool) {
    io.Rewritten? || ((io.TempStops? || io.RenameFails?) && before)
  }

  ghost predicate NamedAfter(a: Aead, m: Machine, op: Op, before: bool)
    requires Enabled(a, m, op)
  {
    match op
    case OpOpen(_, _, _) => true
    case OpCommit(q, _, _, io) => if CommitRewrites(a, m.ledger.value.records, q).Some? then NamedBy(io, before) else before
    case OpPrune(now, _, io) => if PrunedKeys(m.ledger.value.records, now) != {} then NamedBy(io, before) else before
    case OpRestart => false
    case OpCrash => false
  }

  /** The last open found a clean log or replaced it, or something has synced the log since: a rewrite,
      an accepted commit, or one rolled back. */
  ghost predicate SyncedSince(a: Aead, states: seq<Machine>, ops: seq<Op>, i: nat)
    requires Run(a, states, ops) && i <= |ops|
  {
    if i == 0 then states[0].disk.log.Some? && states[0].disk.log.value.Synced() else
    Taken(a, states, ops, i - 1) && SyncedAfter(a, states[i - 1], ops[i - 1], SyncedSince(a, states, ops, i - 1))
  }

  /** No rewrite has failed between its rename and its directory sync since the last open or the last
      rewrite that succeeded. */
  ghost predicate NamedSince(a: Aead, states: seq<Machine>, ops: seq<Op>, i: nat)
    requires Run(a, states, ops) && i <= |ops|
  {
    if i == 0 then states[0].disk.shadows == {} else
    Taken(a, states, ops, i - 1) && NamedAfter(a, states[i - 1], ops[i - 1], NamedSince(a, states, ops, i - 1))
  }

  ghost predicate RestsAs(m: Machine, synced: bool, named: bool) {
    m.ledger.Some? ==>
      && (m.disk.shadows == {} <==> named)
      && (m.ledger.value.handle ==> m.disk.log.Some? && (m.disk.log.value.Synced() <==> synced))
  }

  lemma StepRests(a: Aead, m: Machine, op: Op, m': Machine, synced: bool, named: bool)
    requires Correct(a) && Sound(m) && Step(a, m, op, m') && RestsAs(m, synced, named)
    ensures RestsAs(m', SyncedAfter(a, m, op, synced), NamedAfter(a, m, op, named))
  {
    match op
    case OpOpen(now, order, io) =>
      if m'.ledger.Some? { OpenedLog(m.disk, m.legacy, now, order, io); }
    case OpCommit(q, io, order, rewriteIo) => CommitRests(a, m, op, m', synced, named);
    case OpPrune(now, order, io) =>
      if PrunedKeys(m.ledger.value.records, now) != {} {
        RewriteDisk(m.ledger.value, Pruned(m.ledger.value.records, now), order, io);
      }
    case OpRestart =>
    case OpCrash =>
  }

  lemma CommitRests(a: Aead, m: Machine, op: Op, m': Machine, synced: bool, named: bool)
    requires Correct(a) && Sound(m) && op.OpCommit? && Step(a, m, op, m') && RestsAs(m, synced, named)
    ensures RestsAs(m', SyncedAfter(a, m, op, synced), NamedAfter(a, m, op, named))
  {
    var l, q := m.ledger.value, op.q;
    if ValidCommit(q) && q.key !in l.records {
      AppendRests(a, l, q, op.io, op.order, op.rewriteIo);
    } else {
      OldCommitLeaves(a, l, q, op.io, op.order, op.rewriteIo);
      if CommitRewrites(a, l.records, q).Some? {
        RewriteDisk(l, CommitRewrites(a, l.records, q).value, op.order, op.rewriteIo);
      }
    }
  }

  /** A commit that is not of a new key: a rewrite or nothing. */
  lemma OldCommitLeaves(a: Aead, l: Ledger, q: Request, io: CommitIo, order: seq<string>, rewriteIo: RewriteIo)
    requires q.Commit? && (ValidCommit(q) ==> q.key in l.records)
    requires CommitRewrites(a, l.records, q).Some? ==> Lists(order, CommitRewrites(a, l.records, q).value)
    ensures var target := CommitRewrites(a, l.records, q);
      CommitFile(a, l, q, io, order, rewriteIo).0 == if target.Some? then Rewrite(l, target.value, order, rewriteIo).0 else l
  {
  }

  lemma AppendRests(a: Aead, l: Ledger, q: Request, io: CommitIo, order: seq<string>, rewriteIo: RewriteIo)
    requires Correct(a) && q.Commit? && WellTyped(q) && ValidCommit(q) && q.key !in l.records
    ensures var l' := CommitFile(a, l, q, io, order, rewriteIo).0;
      && l'.disk.shadows == l.disk.shadows && (l'.handle ==> l.handle)
      && (l'.handle && l.disk.log.Some? ==>
            l'.disk.log.Some? && if Syncs(l.records, q, io) then l'.disk.log.value.Synced() else l'.disk == l.disk)
  {
    NewLine(a, q);
  }

  /** With a handle the log reads as the rows in memory; it is all on the medium, its name is durable,
      and the ledger is at rest, if and only if the steps since say so. */
  lemma {:induction false} HandleMeansAtRest(a: Aead, states: seq<Machine>, ops: seq<Op>, i: nat)
    requires Correct(a) && Run(a, states, ops) && i <= |ops|
    ensures RestsAs(states[i], SyncedSince(a, states, ops, i), NamedSince(a, states, ops, i))
    ensures states[i].ledger.Some? && states[i].ledger.value.handle ==>
      LogReads(states[i].ledger.value)
      && (AtRest(states[i].ledger.value) <==> SyncedSince(a, states, ops, i) && NamedSince(a, states, ops, i))
  {
    RunSound(a, states, ops, i);
    if i > 0 {
      HandleMeansAtRest(a, states, ops, i - 1);
      RunSound(a, states, ops, i - 1);
      assert Taken(a, states, ops, i - 1);
      StepRests(a, states[i - 1], ops[i - 1], states[i], SyncedSince(a, states, ops, i - 1), NamedSince(a, states, ops, i - 1));
    }
  }

  // ---------------------------------------------------------------- a crash and an ordinary open

  /** Every step of opening succeeds. */
  const AllWell: OpenIo := OpenIo(true, true, true, true, Rewritten, true)

  /** What recovered rows answer a valid commit. */
  function Answer(a: Aead, rows: Records, q: Request): Outcome
    requires q.Commit?
  {
    if q.key !in rows then Granted(q.response, true) else
    var live := LiveOutcome(a, q.key, rows[q.key], q.now, false);
    if live.Some? then live.value else AlreadySpent
  }

  /** The rows after opening a log without a legacy ledger. */
  function Opened(rows: Records, now: nat): Records {
    if PrunedKeys(rows, now) != {} then Pruned(rows, now) else rows
  }

  lemma Crashed(d: Disk, text: string) returns (d': Disk)
    requires d.MayRead(text)
    ensures Crash(d, d') && (d' == Disk(Some(Recovered(text)), {}) || (text == "" && d' == Disk(None, {})))
  {
    var e :| d.Entry(e) && (match e case None => text == "" case Some(f) => f.Image(text));
    d' := Disk(if e.Some? then Some(Recovered(text)) else None, {});
  }

  lemma Reopens(d: Disk, text: string, rows: Records)
    requires d == Disk(Some(Recovered(text)), {}) || (text == "" && d == Disk(None, {}))
    requires Recover(text) == Some(rows)
    ensures RecoverTail(d, AllWell).1 && OpenRows(d, None, AllWell) == Some((rows, rows))
  {
    if Complete(text) { RecoverWhole(text); }
  }

  lemma OpenFinishes(d: Disk, rows: Records, now: nat) returns (order: seq<string>, l: Ledger)
    ensures OpenRewrites(rows, rows, now).Some? ==> Lists(order, OpenRewrites(rows, rows, now).value)
    ensures FinishOpening(d, false, rows, rows, now, order, AllWell) == (l.disk, Some(l))
    ensures Writable(l) && l.records == Opened(rows, now)
  {
    var target := OpenRewrites(rows, rows, now);
    order := if target.Some? then Listing(target.value) else [];
    l := FinishOpening(d, false, rows, rows, now, order, AllWell).1.value;
  }

  /** A crash that leaves `text`, then an open. */
  lemma CrashOpens(a: Aead, m: Machine, text: string, now: nat) returns (m1: Machine, order: seq<string>, m2: Machine)
    requires m.legacy.None? && m.disk.MayRead(text) && Recover(text).Some?
    ensures Step(a, m, OpCrash, m1) && Step(a, m1, OpOpen(now, order, AllWell), m2)
    ensures m2.ledger.Some? && Writable(m2.ledger.value) && m2.ledger.value.records == Opened(Recover(text).value, now)
  {
    var rows := Recover(text).value;
    var d := Crashed(m.disk, text);
    m1 := m.(disk := d, ledger := None);
    Reopens(d, text, rows);
    var l;
    order, l := OpenFinishes(RecoverTail(d, AllWell).0, rows, now);
    m2 := Machine(l.disk, None, m.aside, Some(l));
  }

  lemma Answers(a: Aead, m: Machine, rows: Records, q: Request) returns (op: Op, m': Machine)
    requires Correct(a) && q.Commit? && WellTyped(q) && ValidCommit(q) && ValidRecords(rows)
    requires m.ledger.Some? && Writable(m.ledger.value) && m.ledger.value.records == Opened(rows, q.now)
    ensures op == OpCommit(q, Sealed(Appended), [], Rewritten) && Step(a, m, op, m')
    ensures Committed(a, m, op).1 == Answer(a, rows, q)
  {
    var l := m.ledger.value;
    op := OpCommit(q, Sealed(Appended), [], Rewritten);
    if q.key in rows {
      OpenedAnswers(a, rows, q);
    } else {
      var _ := AppendedCommit(a, l, q);
    }
    m' := m.(disk := Committed(a, m, op).0.disk, ledger := Some(Committed(a, m, op).0));
  }

  lemma OpenedAnswers(a: Aead, rows: Records, q: Request)
    requires q.Commit? && q.key in rows && ValidRecords(rows)
    ensures var left := Opened(rows, q.now);
      && q.key in left && CommitRewrites(a, left, q).None?
      && LiveOutcome(a, q.key, left[q.key], q.now, false) == LiveOutcome(a, q.key, rows[q.key], q.now, false)
  {
    assert Expired(rows[q.key], q.now) && rows[q.key].ciphertext.Some? ==> q.key in PrunedKeys(rows, q.now);
  }

  lemma ThreeSteps(a: Aead, m: Machine, o1: Op, m1: Machine, o2: Op, m2: Machine, o3: Op, m3: Machine)
    requires Sound(m) && Step(a, m, o1, m1) && Step(a, m1, o2, m2) && Step(a, m2, o3, m3)
    ensures Run(a, [m, m1, m2, m3], [o1, o2, o3]) && Taken(a, [m, m1, m2, m3], [o1, o2, o3], 2)
  {
    var states, ops := [m, m1, m2, m3], [o1, o2, o3];
    assert Taken(a, states, ops, 0) && Taken(a, states, ops, 1) && Taken(a, states, ops, 2);
  }

  /** The history that finds out what a crash image knows: a crash that leaves it, an ordinary open, and a
      commit, which is answered as the recovered rows say. */
  lemma CrashAnswers(a: Aead, m: Machine, text: string, q: Request) returns (states: seq<Machine>, ops: seq<Op>)
    requires Correct(a) && Sound(m) && m.legacy.None? && m.disk.MayRead(text)
    requires q.Commit? && WellTyped(q) && ValidCommit(q)
    ensures Recover(text).Some? && Run(a, states, ops) && states[0] == m && |ops| == 3 && Taken(a, states, ops, 2)
    ensures ops[0] == OpCrash && Clock(ops[1]) == Some(q.now) && ops[2] == OpCommit(q, Sealed(Appended), [], Rewritten)
    ensures Committed(a, states[2], ops[2]).1 == Answer(a, Recover(text).value, q)
  {
    RecoveredValid(text);
    var m1, order, m2 := CrashOpens(a, m, text, q.now);
    var op, m3 := Answers(a, m2, Recover(text).value, q);
    ThreeSteps(a, m, OpCrash, m1, OpOpen(q.now, order, AllWell), m2, op, m3);
    states, ops := [m, m1, m2, m3], [OpCrash, OpOpen(q.now, order, AllWell), op];
  }

  lemma RecoveredValid(text: string)
    requires Recover(text).Some?
    ensures ValidRecords(Recover(text).value)
  {
    LoadedValid(text[..Keeps(text).value], map[]);
  }

  // ---------------------------------------------------------------- the conditions are exact

  /** A history from `m` in which `key` is granted anything but a replay of `response`. */
  ghost predicate Strays(a: Aead, m: Machine, key: string, response: Bytes, states: seq<Machine>, ops: seq<Op>, j: nat) {
    && Run(a, states, ops) && states[0] == m && j < |ops| && Taken(a, states, ops, j)
    && ops[j].OpCommit? && ops[j].q.key == key
    && var outcome := Committed(a, states[j], ops[j]).1; outcome.Granted? && outcome != Granted(response, false)
  }

  /** In every continuation all grants of a nullifier carry `response` and none is newly committed if and
      only if every crash image knows it, with a row that can answer with that response only. */
  lemma ForGoodIff(a: Aead, m: Machine, q: Request, response: Bytes)
    requires Correct(a) && Sound(m) && m.legacy.None? && q.Commit? && WellTyped(q) && ValidCommit(q)
    ensures ForGood(a, m.disk, q.key, response) <==> forall states, ops, j: nat :: !Strays(a, m, q.key, response, states, ops, j)
  {
    if ForGood(a, m.disk, q.key, response) {
      forall states, ops, j: nat ensures !Strays(a, m, q.key, response, states, ops, j) {
        NeverStrays(a, m, q.key, response, states, ops, j);
      }
    } else {
      var states, ops := RegrantsOther(a, m, q, response);
    }
  }

  /** The history that strays, when the key is not granted for good. */
  lemma RegrantsOther(a: Aead, m: Machine, q: Request, response: Bytes) returns (states: seq<Machine>, ops: seq<Op>)
    requires Correct(a) && Sound(m) && m.legacy.None? && q.Commit? && WellTyped(q) && ValidCommit(q)
    requires !ForGood(a, m.disk, q.key, response)
    ensures |ops| == 3 && Strays(a, m, q.key, response, states, ops, 2)
    ensures q.response != response ==> Committed(a, states[2], ops[2]).1.response != response
  {
    var text :| m.disk.MayRead(text) && Recover(text).Some?
      && !Has(Recover(text).value, q.key, r => Yields(a, q.key, r, response));
    states, ops := CrashAnswers(a, m, text, q.(now := 0));
  }

  lemma NeverStrays(a: Aead, m: Machine, key: string, response: Bytes, states: seq<Machine>, ops: seq<Op>, j: nat)
    requires Correct(a) && ForGood(a, m.disk, key, response)
    ensures !Strays(a, m, key, response, states, ops, j)
  {
    if Strays(a, m, key, response, states, ops, j) {
      var outcome := Committed(a, states[j], ops[j]).1;
      SingleResponse(a, states, ops, 0, j, key, response, outcome.response, outcome.newly);
    }
  }

  /** A history from `m`, before `until`, in which a valid commit of `key` is answered otherwise. */
  ghost predicate Denies(a: Aead, m: Machine, key: string, response: Bytes, until: nat,
                         states: seq<Machine>, ops: seq<Op>, j: nat)
  {
    && Run(a, states, ops) && states[0] == m && j < |ops| && Taken(a, states, ops, j)
    && (forall n :: 0 <= n <= j ==> Before(ops[n], until))
    && ops[j].OpCommit? && ops[j].q.key == key && ValidCommit(ops[j].q)
    && Committed(a, states[j], ops[j]).1 != Granted(response, false)
  }

  /** In every continuation every valid commit of a nullifier before `until` replays `response` if and only
      if every crash image has a row that does. */
  lemma DeliverableIff(a: Aead, m: Machine, q: Request, response: Bytes)
    requires Correct(a) && Sound(m) && m.legacy.None? && q.Commit? && WellTyped(q) && ValidCommit(q)
    ensures Deliverable(a, m.disk, q.key, response, q.until) <==>
      forall states, ops, j: nat :: !Denies(a, m, q.key, response, q.until, states, ops, j)
  {
    if Deliverable(a, m.disk, q.key, response, q.until) {
      forall states, ops, j: nat ensures !Denies(a, m, q.key, response, q.until, states, ops, j) {
        NeverDenies(a, m, q.key, response, q.until, states, ops, j);
      }
    } else {
      var text :| m.disk.MayRead(text) && Recover(text).Some?
        && !Has(Recover(text).value, q.key, r => Delivers(a, q.key, r, response, q.until));
      var states, ops := CrashDenies(a, m, text, q, response);
    }
  }

  lemma CrashDenies(a: Aead, m: Machine, text: string, q: Request, response: Bytes) returns (states: seq<Machine>, ops: seq<Op>)
    requires Correct(a) && Sound(m) && m.legacy.None? && q.Commit? && WellTyped(q) && ValidCommit(q)
    requires m.disk.MayRead(text) && Recover(text).Some?
    requires !Has(Recover(text).value, q.key, r => Delivers(a, q.key, r, response, q.until))
    ensures Denies(a, m, q.key, response, q.until, states, ops, 2)
  {
    RecoveredValid(text);
    var now := DeniedAt(a, Recover(text).value, q, response);
    states, ops := CrashAnswers(a, m, text, q.(now := now));
    ThreeBefore(ops, q.until);
  }

  lemma ThreeBefore(ops: seq<Op>, until: nat)
    requires |ops| == 3 && ops[0] == OpCrash && Clock(ops[1]) == Clock(ops[2]) && Before(ops[1], until)
    ensures forall n :: 0 <= n <= 2 ==> Before(ops[n], until)
  {
  }

  lemma DeniedAt(a: Aead, rows: Records, q: Request, response: Bytes) returns (now: nat)
    requires q.Commit? && ValidRecords(rows) && 0 < q.until
    requires !Has(rows, q.key, r => Delivers(a, q.key, r, response, q.until))
    ensures now < q.until && Answer(a, rows, q.(now := now)) != Granted(response, false)
  {
    var ends := q.key in rows && rows[q.key].until.Some? && rows[q.key].until.value < q.until;
    now := if ends then rows[q.key].until.value else 0;
  }

  lemma NeverDenies(a: Aead, m: Machine, key: string, response: Bytes, until: nat,
                    states: seq<Machine>, ops: seq<Op>, j: nat)
    requires Correct(a) && Deliverable(a, m.disk, key, response, until)
    ensures !Denies(a, m, key, response, until, states, ops, j)
  {
    if Denies(a, m, key, response, until, states, ops, j) {
      RetryDelivers(a, states, ops, 0, j, key, response, until);
    }
  }

  // ---------------------------------------------------------------- grants that are not for good

  /** The ledger grants `response` for `key`, yet a crash may leave `text`, which never heard of it. */
  ghost predicate Exposed(a: Aead, l: Ledger, key: string, now: nat, response: Bytes, text: string) {
    && key in l.records && LiveOutcome(a, key, l.records[key], now, false) == Some(Granted(response, false))
    && l.disk.MayRead(text) && Recover(text).Some? && key !in Recover(text).value
  }

  /** Opening a whole log without a legacy ledger and with nothing expired just loads it. */
  lemma OpenLoads(d: Disk, rows: Records, now: nat)
    requires d.log.Some? && Complete(Current(d)) && Load(Current(d)) == Some(rows) && PrunedKeys(rows, now) == {}
    ensures OpenRows(d, None, AllWell) == Some((rows, rows)) && OpenRewrites(rows, rows, now).None?
    ensures OpenFile(d, None, now, [], AllWell) == (d.SyncDir(), Some(Ledger(d.SyncDir(), rows, true)))
  {
  }

  /** The sync of an append fails, then the reset of the length: the line stays in the file, not on
      the medium, and the handle is gone. */
  lemma PoisonedCommit(a: Aead, l: Ledger, q: Request) returns (poisoned: Ledger)
    requires Correct(a) && AtRest(l) && q.Commit? && WellTyped(q) && ValidCommit(q) && q.key !in l.records
    ensures CommitFile(a, l, q, Sealed(AppendFails(MaxLine, SetLenFails)), [], Rewritten) == (poisoned, Failed)
    ensures poisoned.disk == l.disk.SetLog(l.disk.log.value.Write(Line(q.key, NewRow(a, q)) + "\n"))
  {
    NewLine(a, q);
    ValidEncodes(q.key, NewRow(a, q));
    poisoned := Ledger(l.disk.SetLog(l.disk.log.value.Write(Line(q.key, NewRow(a, q)) + "\n")), l.records, false);
    CutWhole(Line(q.key, NewRow(a, q)) + "\n", MaxLine);
  }

  lemma CutWhole(line: string, n: nat)
    requires |line| <= n
    ensures Cut(line, n) == line
  {
  }

  /** A process restart, not a crash, then opens the ledger with that line and replays it, although a
      crash may still take it away. */
  lemma UncleanOpenExposes(a: Aead, l: Ledger, q: Request) returns (poisoned: Ledger, l': Ledger)
    requires Correct(a) && AtRest(l) && q.Commit? && WellTyped(q) && ValidCommit(q) && q.key !in l.records
    requires PrunedKeys(l.records, q.now) == {}
    ensures CommitFile(a, l, q, Sealed(AppendFails(MaxLine, SetLenFails)), [], Rewritten) == (poisoned, Failed)
    ensures !OpensClean(poisoned.disk)
    ensures OpenRows(poisoned.disk, None, AllWell).Some?
    ensures var loaded := OpenRows(poisoned.disk, None, AllWell).value; OpenRewrites(loaded.0, loaded.1, q.now).None?
    ensures OpenFile(poisoned.disk, None, q.now, [], AllWell) == (l'.disk, Some(l'))
    ensures Exposed(a, l', q.key, q.now, q.response, Current(l.disk))
  {
    poisoned := PoisonedCommit(a, l, q);
    var rows := l.records[q.key := NewRow(a, q)];
    NewLine(a, q);
    AppendLoads(Current(l.disk), l.records, q.key, NewRow(a, q));
    StillUnexpired(l.records, q.key, NewRow(a, q), q.now);
    OpenLoads(poisoned.disk, rows, q.now);
    l' := Ledger(poisoned.disk.SyncDir(), rows, true);
    var cur := Current(l.disk);
    assert l'.disk.Entry(poisoned.disk.log) && poisoned.disk.log.value.Image(cur);
    RecoverWhole(cur);
  }

  lemma StillUnexpired(rows: Records, key: string, row: StoredRecord, now: nat)
    requires PrunedKeys(rows, now) == {} && !Expired(row, now)
    ensures PrunedKeys(rows[key := row], now) == {}
  {
    forall k | k in rows && k != key ensures k !in PrunedKeys(rows[key := row], now) {
      assert k !in PrunedKeys(rows, now);
    }
  }

  /** A rewrite whose final directory sync fails reports an error but keeps a handle.  A later commit
      is granted, and a crash that brings the old name back forgets it. */
  lemma DirSyncExposes(a: Aead, l: Ledger, now: nat, order: seq<string>, q: Request) returns (l1: Ledger, l2: Ledger)
    requires Correct(a) && AtRest(l) && PrunedKeys(l.records, now) != {} && Lists(order, Pruned(l.records, now))
    requires q.Commit? && WellTyped(q) && ValidCommit(q) && q.key !in l.records
    ensures PruneFile(l, now, order, DirSyncFails) == (l1, None)
    ensures CommitRewrites(a, l1.records, q).None?
    ensures CommitFile(a, l1, q, Sealed(Appended), [], Rewritten) == (l2, Granted(q.response, true))
    ensures Exposed(a, l2, q.key, q.now, q.response, Current(l.disk))
  {
    l1 := PruneFile(l, now, order, DirSyncFails).0;
    l2 := AppendedCommit(a, l1, q);
    NewLine(a, q);
    var f := l.disk.log.value;
    assert l2.disk.Entry(Some(f)) && f.Image(f.cur);
    RecoverWhole(f.cur);
  }

  lemma RestSound(m: Machine)
    requires m.ledger.Some? && m.legacy.None? && m.disk == m.ledger.value.disk && AtRest(m.ledger.value)
    ensures Sound(m)
  {
    var l := m.ledger.value;
    ReadsRecalled(l);
    RecoverWhole(Current(l.disk));
    forall text | l.disk.MayRead(text) ensures text == Current(l.disk) { SettledReads(l.disk, text); }
  }

  /** An exposed grant breaks the single response: after a crash, an ordinary open and another redeemer's
      commit of the same key its response is granted, as newly committed. */
  lemma ExposedRegrants(a: Aead, m: Machine, text: string, now: nat, response: Bytes, q: Request)
    returns (states: seq<Machine>, ops: seq<Op>)
    requires Correct(a) && q.Commit? && WellTyped(q) && ValidCommit(q)
    requires Sound(m) && m.ledger.Some? && Exposed(a, m.ledger.value, q.key, now, response, text)
    ensures Run(a, states, ops) && states[0] == m && |ops| == 3 && GrantsAt(a, states, ops, 2, q.key, q.response, true)
  {
    states, ops := CrashAnswers(a, m, text, q);
  }

  /** From any ledger at rest and for any new key: a failed sync and rollback, a restart, an open and a
      retry grant the first response; a crash, an open and another commit grant another one. */
  lemma UncleanRegrants(a: Aead, m: Machine, q: Request, q': Request)
    returns (m1: Machine, m2: Machine, m3: Machine, states: seq<Machine>, ops: seq<Op>)
    requires Correct(a) && m.ledger.Some? && m.legacy.None? && m.disk == m.ledger.value.disk && AtRest(m.ledger.value)
    requires q.Commit? && WellTyped(q) && ValidCommit(q) && q.key !in m.ledger.value.records
    requires PrunedKeys(m.ledger.value.records, q.now) == {}
    requires q'.Commit? && WellTyped(q') && ValidCommit(q') && q'.key == q.key
    ensures Step(a, m, OpCommit(q, Sealed(AppendFails(MaxLine, SetLenFails)), [], Rewritten), m1)
    ensures Step(a, m1, OpRestart, m2) && Step(a, m2, OpOpen(q.now, [], AllWell), m3)
    ensures Step(a, m3, OpCommit(q, Sealed(Appended), [], Rewritten), m3)
    ensures Committed(a, m3, OpCommit(q, Sealed(Appended), [], Rewritten)).1 == Granted(q.response, false)
    ensures Run(a, states, ops) && states[0] == m3 && |ops| == 3 && GrantsAt(a, states, ops, 2, q.key, q'.response, true)
  {
    m1, m2, m3 := UncleanReplays(a, m, q);
    RestSound(m);
    StepKeepsSound(a, m, OpCommit(q, Sealed(AppendFails(MaxLine, SetLenFails)), [], Rewritten), m1);
    StepKeepsSound(a, m1, OpRestart, m2);
    StepKeepsSound(a, m2, OpOpen(q.now, [], AllWell), m3);
    states, ops := ExposedRegrants(a, m3, Current(m.disk), q.now, q.response, q');
  }

  lemma UncleanReplays(a: Aead, m: Machine, q: Request) returns (m1: Machine, m2: Machine, m3: Machine)
    requires Correct(a) && m.ledger.Some? && m.legacy.None? && m.disk == m.ledger.value.disk && AtRest(m.ledger.value)
    requires q.Commit? && WellTyped(q) && ValidCommit(q) && q.key !in m.ledger.value.records
    requires PrunedKeys(m.ledger.value.records, q.now) == {}
    ensures Step(a, m, OpCommit(q, Sealed(AppendFails(MaxLine, SetLenFails)), [], Rewritten), m1)
    ensures Step(a, m1, OpRestart, m2) && Step(a, m2, OpOpen(q.now, [], AllWell), m3)
    ensures Step(a, m3, OpCommit(q, Sealed(Appended), [], Rewritten), m3)
    ensures Committed(a, m3, OpCommit(q, Sealed(Appended), [], Rewritten)).1 == Granted(q.response, false)
    ensures m3.ledger.Some? && Exposed(a, m3.ledger.value, q.key, q.now, q.response, Current(m.disk))
  {
    var poisoned, l := UncleanOpenExposes(a, m.ledger.value, q);
    m1 := m.(disk := poisoned.disk, ledger := Some(poisoned));
    m2 := m1.(ledger := None);
    m3 := Machine(l.disk, None, m.aside, Some(l));
  }

  /** From any ledger at rest with a result to drop, and for any new key: a prune that fails only at its
      directory sync, a first commit, a crash, an open and a second commit grant two responses. */
  lemma DirSyncRegrants(a: Aead, m: Machine, now: nat, order: seq<string>, q: Request, q': Request)
    returns (m1: Machine, m2: Machine, states: seq<Machine>, ops: seq<Op>)
    requires Correct(a) && m.ledger.Some? && m.legacy.None? && m.disk == m.ledger.value.disk && AtRest(m.ledger.value)
    requires PrunedKeys(m.ledger.value.records, now) != {} && Lists(order, Pruned(m.ledger.value.records, now))
    requires q.Commit? && WellTyped(q) && ValidCommit(q) && q.key !in m.ledger.value.records
    requires q'.Commit? && WellTyped(q') && ValidCommit(q') && q'.key == q.key
    ensures Step(a, m, OpPrune(now, order, DirSyncFails), m1) && Step(a, m1, OpCommit(q, Sealed(Appended), [], Rewritten), m2)
    ensures Committed(a, m1, OpCommit(q, Sealed(Appended), [], Rewritten)).1 == Granted(q.response, true)
    ensures Run(a, states, ops) && states[0] == m2 && |ops| == 3 && GrantsAt(a, states, ops, 2, q.key, q'.response, true)
  {
    var l1, l2 := DirSyncExposes(a, m.ledger.value, now, order, q);
    m1 := m.(disk := l1.disk, ledger := Some(l1));
    m2 := m1.(disk := l2.disk, ledger := Some(l2));
    RestSound(m);
    StepKeepsSound(a, m, OpPrune(now, order, DirSyncFails), m1);
    StepKeepsSound(a, m1, OpCommit(q, Sealed(Appended), [], Rewritten), m2);
    states, ops := ExposedRegrants(a, m2, Current(m.disk), q.now, q.response, q');
  }

  // ---------------------------------------------------------------- which new grants are for good

  /** A file the name may fall back to, or none, that does not hold `key`. */
  ghost predicate Lacks(e: Option<File>, key: string) {
    exists text :: (match e case None => text == "" case Some(f) => f.Image(text))
      && (Recover(text).Some? ==> key !in Recover(text).value)
  }

  /** A new key is granted for good if and only if the name of the ledger is durable at that moment,
      given that the files it might fall back to do not hold the key. */
  lemma GrantDurableIff(a: Aead, l: Ledger, q: Request)
    requires Correct(a) && l.handle && l.disk.Ok() && LogReads(l) && ValidRecords(l.records)
    requires q.Commit? && WellTyped(q) && ValidCommit(q) && q.key !in l.records
    requires forall e :: e in l.disk.shadows ==> Lacks(e, q.key)
    ensures CommitFile(a, l, q, Sealed(Appended), [], Rewritten).1 == Granted(q.response, true)
    ensures var d := CommitFile(a, l, q, Sealed(Appended), [], Rewritten).0.disk;
      (Known(d, q.key) <==> l.disk.shadows == {}) && (ForGood(a, d, q.key, q.response) <==> l.disk.shadows == {})
  {
    var l' := AppendedCommit(a, l, q);
    if l.disk.shadows == {} {
      NewLine(a, q);
      AppendLoads(Current(l.disk), l.records, q.key, NewRow(a, q));
      RestStands(l', q.key, r => Yields(a, q.key, r, q.response));
    } else {
      var e :| e in l.disk.shadows;
      FallsBack(l'.disk, e, q.key);
    }
    GoodKnown(a, l'.disk, q.key, q.response);
  }

  lemma GoodKnown(a: Aead, d: Disk, key: string, response: Bytes)
    ensures ForGood(a, d, key, response) ==> Known(d, key)
  {
  }

  lemma FallsBack(d: Disk, e: Option<File>, key: string)
    requires e in d.shadows && Lacks(e, key)
    ensures !Known(d, key)
  {
    var text :| (match e case None => text == "" case Some(f) => f.Image(text))
      && (Recover(text).Some? ==> key !in Recover(text).value);
    assert d.Entry(e) && d.MayRead(text);
  }

  /** Through the handle a rewrite leaves, new keys are granted for good if and only if the rewrite did
      not fail at its directory sync. */
  lemma RewriteDurableIff(a: Aead, l: Ledger, rows: Records, order: seq<string>, io: RewriteIo, q: Request)
    requires Correct(a) && AtRest(l) && ValidRecords(rows) && rows.Keys == l.records.Keys && Lists(order, rows)
    requires Rewrite(l, rows, order, io).0.handle
    requires q.Commit? && WellTyped(q) && ValidCommit(q) && q.key !in l.records
    ensures var l1 := Rewrite(l, rows, order, io).0;
      && CommitRewrites(a, l1.records, q).None?
      && (ForGood(a, CommitFile(a, l1, q, Sealed(Appended), [], Rewritten).0.disk, q.key, q.response) <==> !io.DirSyncFails?)
  {
    RewriteDisk(l, rows, order, io);
    RewriteSound(l, rows, order, io);
    OldLacks(l.disk.log.value, l.records, q.key);
    GrantDurableIff(a, Rewrite(l, rows, order, io).0, q);
  }

  lemma OldLacks(f: File, rows: Records, key: string)
    requires Complete(f.cur) && f.Synced() && Load(f.cur) == Some(rows) && key !in rows
    ensures Lacks(Some(f), key)
  {
    RecoverWhole(f.cur);
    assert f.Image(f.cur);
  }

  /** An open that succeeds found a clean log or replaced it, and a new key is accepted only while the
      ledger's name is durable. */
  ghost predicate Guarded(m: Machine, op: Op, m': Machine) {
    match op
    case OpOpen(now, _, io) => m'.ledger.Some? ==> OpensClean(m.disk) || OpenReplaces(m.disk, m.legacy, now, io)
    case OpCommit(q, _, _, _) => Adds(m, q, m') ==> m.disk.shadows == {}
    case _ => true
  }

  /** The step has made the key of the request a new row. */
  predicate Adds(m: Machine, q: Request, m': Machine) {
    && m.ledger.Some? && m'.ledger.Some? && q.Commit?
    && q.key !in m.ledger.value.records && q.key in m'.ledger.value.records
  }

  predicate SameOrCleared(r: StoredRecord, row: StoredRecord) {
    r == row || r.ciphertext.None? || row.ciphertext.None?
  }

  /** Every crash image has every row of memory, up to cleared results. */
  ghost predicate Backed(m: Machine) {
    m.ledger.Some? ==>
      forall k :: k in m.ledger.value.records ==> Stands(m.disk, k, r => SameOrCleared(r, m.ledger.value.records[k]))
  }

  lemma RestBacked(m: Machine)
    requires Sound(m) && m.ledger.Some? && AtRest(m.ledger.value)
    ensures Backed(m)
  {
    var l := m.ledger.value;
    forall k | k in l.records ensures Stands(m.disk, k, r => SameOrCleared(r, l.records[k])) {
      RestStands(l, k, r => SameOrCleared(r, l.records[k]));
    }
  }

  lemma RowsAfter(a: Aead, m: Machine, op: Op, m': Machine, k: string)
    requires Step(a, m, op, m') && (op.OpCommit? || op.OpPrune?) && !(op.OpCommit? && Adds(m, op.q, m'))
    requires m'.ledger.Some? && k in m'.ledger.value.records
    ensures k in m.ledger.value.records
    ensures m'.ledger.value.records[k] == m.ledger.value.records[k] || m'.ledger.value.records[k].ciphertext.None?
  {
    if op.OpCommit? {
      CommitRows(a, m.ledger.value, op.q, op.io, op.order, op.rewriteIo);
    } else {
      PruneLeaves(m.ledger.value, op.now, op.order, op.rewriteIo);
    }
  }

  lemma PruneLeaves(l: Ledger, now: nat, order: seq<string>, io: RewriteIo)
    requires PrunedKeys(l.records, now) != {} ==> Lists(order, Pruned(l.records, now))
    ensures var l' := PruneFile(l, now, order, io).0; l'.records == l.records || l'.records == Pruned(l.records, now)
  {
    if PrunedKeys(l.records, now) != {} { RewriteDisk(l, Pruned(l.records, now), order, io); }
  }

  /** The rows a commit leaves: those before, with the row of its key added or cleared. */
  lemma CommitRows(a: Aead, l: Ledger, q: Request, io: CommitIo, order: seq<string>, rewriteIo: RewriteIo)
    requires q.Commit?
    requires CommitRewrites(a, l.records, q).Some? ==> Lists(order, CommitRewrites(a, l.records, q).value)
    ensures var (l', outcome) := CommitFile(a, l, q, io, order, rewriteIo);
      || l'.records == l.records
      || (CommitRewrites(a, l.records, q).Some? && l'.records == l.records[q.key := Cleared(l.records[q.key])])
      || (q.key !in l.records && ValidCommit(q) && l'.records == l.records[q.key := NewRow(a, q)]
          && var live := LiveOutcome(a, q.key, NewRow(a, q), q.now, true); live.Some? ==> outcome == live.value)
  {
    if CommitRewrites(a, l.records, q).Some? {
      RewriteDisk(l, CommitRewrites(a, l.records, q).value, order, rewriteIo);
    }
  }

  lemma AddRests(a: Aead, l: Ledger, q: Request, io: CommitIo, order: seq<string>, rewriteIo: RewriteIo)
    requires Correct(a) && q.Commit? && WellTyped(q) && LedgerSound(l) && l.disk.shadows == {}
    requires CommitRewrites(a, l.records, q).Some? ==> Lists(order, CommitRewrites(a, l.records, q).value)
    requires q.key !in l.records
    ensures var l' := CommitFile(a, l, q, io, order, rewriteIo).0; q.key in l'.records ==> AtRest(l')
  {
    CommitRows(a, l, q, io, order, rewriteIo);
    if q.key in CommitFile(a, l, q, io, order, rewriteIo).0.records {
      NewLine(a, q);
      NewGrantRests(a, l, q, io, order, rewriteIo, q.response);
    }
  }

  lemma StepBacked(a: Aead, m: Machine, op: Op, m': Machine)
    requires Correct(a) && Sound(m) && Step(a, m, op, m') && Backed(m) && Guarded(m, op, m')
    ensures Backed(m')
  {
    StepKeepsSound(a, m, op, m');
    if m'.ledger.Some? {
      if op.OpOpen? {
        OpenSound(m.disk, m.legacy, op.now, op.order, op.openIo);
        OpenedLog(m.disk, m.legacy, op.now, op.order, op.openIo);
        RestBacked(m');
      } else if op.OpCommit? && Adds(m, op.q, m') {
        AddRests(a, m.ledger.value, op.q, op.io, op.order, op.rewriteIo);
        RestBacked(m');
      } else {
        forall k | k in m'.ledger.value.records
          ensures Stands(m'.disk, k, r => SameOrCleared(r, m'.ledger.value.records[k]))
        {
          StaysBacked(a, m, op, m', k);
        }
      }
    }
  }

  lemma StaysBacked(a: Aead, m: Machine, op: Op, m': Machine, k: string)
    requires Correct(a) && Sound(m) && Step(a, m, op, m') && Backed(m)
    requires (op.OpCommit? || op.OpPrune?) && !(op.OpCommit? && Adds(m, op.q, m'))
    requires m'.ledger.Some? && k in m'.ledger.value.records
    ensures Stands(m'.disk, k, r => SameOrCleared(r, m'.ledger.value.records[k]))
  {
    RowsAfter(a, m, op, m', k);
    StepStands(a, m, op, m', k, r => SameOrCleared(r, m.ledger.value.records[k]));
  }

  lemma {:induction false} RunBacked(a: Aead, states: seq<Machine>, ops: seq<Op>, i: nat, j: nat)
    requires Correct(a) && Run(a, states, ops) && i <= j <= |ops| && states[i].ledger.None?
    requires forall n :: i <= n < j ==> Guarded(states[n], ops[n], states[n + 1])
    ensures Backed(states[j])
  {
    if i < j {
      RunBacked(a, states, ops, i, j - 1);
      RunSound(a, states, ops, j - 1);
      assert Taken(a, states, ops, j - 1);
      StepBacked(a, states[j - 1], ops[j - 1], states[j]);
    }
  }

  /** As long as, since some point at which no ledger was running, every open that succeeded found a clean
      log or replaced it and no new key was accepted while a directory sync was outstanding, every grant
      is for good. */
  lemma EveryGrantForGood(a: Aead, states: seq<Machine>, ops: seq<Op>, i: nat, j: nat,
                          key: string, response: Bytes, newly: bool)
    requires Correct(a) && Run(a, states, ops) && i <= j < |ops| && states[i].ledger.None?
    requires forall n :: i <= n <= j ==> Guarded(states[n], ops[n], states[n + 1])
    requires GrantsAt(a, states, ops, j, key, response, newly)
    ensures ForGood(a, states[j + 1].disk, key, response)
  {
    RunBacked(a, states, ops, i, j + 1);
    GrantRow(a, states[j], ops[j], states[j + 1], response, newly);
    BackedForGood(a, states[j + 1], key, ops[j].q.now, response, newly);
  }

  lemma BackedForGood(a: Aead, m: Machine, key: string, now: nat, response: Bytes, newly: bool)
    requires Backed(m) && m.ledger.Some? && key in m.ledger.value.records
    requires LiveOutcome(a, key, m.ledger.value.records[key], now, newly) == Some(Granted(response, newly))
    ensures ForGood(a, m.disk, key, response)
  {
  }

  lemma AppendedCommit(a: Aead, l: Ledger, q: Request) returns (l': Ledger)
    requires Correct(a) && Writable(l) && q.Commit? && WellTyped(q) && ValidCommit(q) && q.key !in l.records
    ensures CommitRewrites(a, l.records, q).None?
    ensures CommitFile(a, l, q, Sealed(Appended), [], Rewritten) == (l', Granted(q.response, true))
    ensures l'.records == l.records[q.key := NewRow(a, q)] && l'.disk.shadows == l.disk.shadows
    ensures l'.disk.log == Some(l.disk.log.value.Write(Line(q.key, NewRow(a, q)) + "\n").Sync())
  {
    NewLine(a, q);
    l' := CommitFile(a, l, q, Sealed(Appended), [], Rewritten).0;
  }
}
