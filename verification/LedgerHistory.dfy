/**
 Theorems about every history of the file ledger, whatever fails and whenever it crashes.  Each call is
 atomic.  What every crash image knows about a nullifier at one point it knows for ever, so a nullifier
 granted for good keeps its one response, however later opens, syncs and grants of other keys go.
 */
module LedgerHistory {
  import opened Text
  import opened Storage
  import opened Cipher
  import opened LedgerFormat
  import opened LedgerLog
  import opened LedgerMachine
  import opened FileLedger
  import opened LedgerRuns

  ghost predicate Taken(a: Aead, states: seq<Machine>, ops: seq<Op>, n: nat)
    requires n < |ops| && |states| == |ops| + 1
  {
    Step(a, states[n], ops[n], states[n + 1])
  }

  /** A history, from an empty disk or from any sound machine. */
  ghost predicate Run(a: Aead, states: seq<Machine>, ops: seq<Op>) {
    && |states| == |ops| + 1 && Sound(states[0])
    && forall n :: 0 <= n < |ops| ==> Taken(a, states, ops, n)
  }

  /** An empty disk, possibly beside a legacy ledger, is sound. */
  lemma EmptySound(legacy: Option<string>)
    ensures Sound(Machine(Disk(None, {}), legacy, None, None))
  {
    RecoverWhole("");
  }

  lemma {:induction false} RunSound(a: Aead, states: seq<Machine>, ops: seq<Op>, i: nat)
    requires Correct(a) && Run(a, states, ops) && i <= |ops|
    ensures Sound(states[i])
  {
    if i > 0 {
      RunSound(a, states, ops, i - 1);
      assert Taken(a, states, ops, i - 1);
      StepKeepsSound(a, states[i - 1], ops[i - 1], states[i]);
    }
  }

  /** Whatever step of whatever history is cut short, at whatever byte, the ledger recovers as it could
      before the step or as exactly the rows the step commits: never a part of them. */
  lemma CrashAtomic(a: Aead, states: seq<Machine>, ops: seq<Op>, i: nat, text: string)
    requires Correct(a) && Run(a, states, ops) && i < |ops| && states[i + 1].disk.MayRead(text)
    ensures Enabled(a, states[i], ops[i])
    ensures || AsBefore(states[i].disk, text)
            || (Target(a, states[i], ops[i]).Some? && Recover(text) == Target(a, states[i], ops[i]))
  {
    RunSound(a, states, ops, i);
    assert Taken(a, states, ops, i);
    StepAtomic(a, states[i], ops[i], states[i + 1], text);
  }

  /** Whatever any history leaves, recovery never refuses it. */
  lemma AlwaysRecovers(a: Aead, states: seq<Machine>, ops: seq<Op>, i: nat, text: string)
    requires Correct(a) && Run(a, states, ops) && i <= |ops| && states[i].disk.MayRead(text)
    ensures Recover(text).Some?
  {
    RunSound(a, states, ops, i);
  }

  // ---------------------------------------------------------------- what every crash image knows

  ghost predicate Has(rows: Records, key: string, good: StoredRecord -> bool) { key in rows && good(rows[key]) }

  /** Whatever a crash leaves is recovered to a ledger that has a good row for `key`. */
  ghost predicate Stands(d: Disk, key: string, good: StoredRecord -> bool) {
    forall text :: d.MayRead(text) ==> Recover(text).Some? && Has(Recover(text).value, key, good)
  }

  /** The clock reading of a step that has one. */
  function Clock(op: Op): Option<nat> {
    match op
    case OpOpen(now, _, _) => Some(now)
    case OpCommit(q, _, _, _) => Some(q.now)
    case OpPrune(now, _, _) => Some(now)
    case OpRestart => None
    case OpCrash => None
  }

  /** The replay window of the row, if it has one, is over. */
  predicate Ended(r: StoredRecord, now: nat) { r.until.None? || now >= r.until.value }

  /** A row whose window is over at this step stays good when its result is cleared. */
  ghost predicate Bears(op: Op, good: StoredRecord -> bool) {
    Clock(op).Some? ==> forall r :: good(r) && Ended(r, Clock(op).value) ==> good(Cleared(r))
  }

  /** What every crash image has, memory has. */
  lemma InMemory(m: Machine, key: string, good: StoredRecord -> bool)
    requires Sound(m) && m.ledger.Some? && Stands(m.disk, key, good)
    ensures Has(m.ledger.value.records, key, good)
  {
    var b :| m.disk.MayRead(b) && Recover(b) == Some(m.ledger.value.records);
  }

  /** The rows an open loads and those it rewrites to. */
  lemma OpenHas(m: Machine, now: nat, io: OpenIo, key: string, good: StoredRecord -> bool)
    requires Sound(m) && Stands(m.disk, key, good) && OpenRows(m.disk, m.legacy, io).Some?
    requires forall r :: good(r) && Ended(r, now) ==> good(Cleared(r))
    ensures var (rows, merged) := OpenRows(m.disk, m.legacy, io).value; var target := OpenRewrites(rows, merged, now);
      Has(rows, key, good) && Has(merged, key, good) && (target.Some? ==> Has(target.value, key, good))
  {
    TailSound(m.disk, io);
    CurrentReads(m.disk);
    var (rows, merged) := OpenRows(m.disk, m.legacy, io).value;
    RewritesHas(rows, merged, now, key, good);
  }

  lemma RewritesHas(rows: Records, merged: Records, now: nat, key: string, good: StoredRecord -> bool)
    requires Has(merged, key, good) && forall r :: good(r) && Ended(r, now) ==> good(Cleared(r))
    ensures OpenRewrites(rows, merged, now).Some? ==> Has(OpenRewrites(rows, merged, now).value, key, good)
  {
  }

  lemma TargetHas(a: Aead, m: Machine, op: Op, key: string, good: StoredRecord -> bool)
    requires Sound(m) && Enabled(a, m, op) && Stands(m.disk, key, good) && Bears(op, good)
    ensures Target(a, m, op).Some? ==> Has(Target(a, m, op).value, key, good)
  {
    if m.ledger.Some? { InMemory(m, key, good); }
    match op
    case OpOpen(now, _, io) =>
      if OpenRows(m.disk, m.legacy, io).Some? { OpenHas(m, now, io, key, good); }
    case _ =>
  }

  /** What every crash image knows about a key, every step keeps, for that key alone: whatever the step
      does to others and however it fails. */
  lemma StepStands(a: Aead, m: Machine, op: Op, m': Machine, key: string, good: StoredRecord -> bool)
    requires Correct(a) && Sound(m) && Step(a, m, op, m') && Stands(m.disk, key, good) && Bears(op, good)
    ensures Stands(m'.disk, key, good)
  {
    TargetHas(a, m, op, key, good);
    forall text | m'.disk.MayRead(text) ensures Recover(text).Some? && Has(Recover(text).value, key, good) {
      StepAtomic(a, m, op, m', text);
    }
  }

  lemma {:induction false} StandsOn(a: Aead, states: seq<Machine>, ops: seq<Op>, i: nat, j: nat,
                                    key: string, good: StoredRecord -> bool)
    requires Correct(a) && Run(a, states, ops) && i <= j <= |ops|
    requires Stands(states[i].disk, key, good) && forall n :: i <= n < j ==> Bears(ops[n], good)
    ensures Stands(states[j].disk, key, good)
    ensures states[j].ledger.Some? ==> Has(states[j].ledger.value.records, key, good)
  {
    RunSound(a, states, ops, j);
    if i < j {
      StandsOn(a, states, ops, i, j - 1, key, good);
      NextStands(a, states, ops, j - 1, key, good);
    }
    if states[j].ledger.Some? { InMemory(states[j], key, good); }
  }

  lemma NextStands(a: Aead, states: seq<Machine>, ops: seq<Op>, n: nat, key: string, good: StoredRecord -> bool)
    requires Correct(a) && Run(a, states, ops) && n < |ops| && Stands(states[n].disk, key, good) && Bears(ops[n], good)
    ensures Stands(states[n + 1].disk, key, good)
  {
    RunSound(a, states, ops, n);
    assert Taken(a, states, ops, n);
    StepStands(a, states[n], ops[n], states[n + 1], key, good);
  }

  /** At rest, every crash leaves exactly what is in memory. */
  lemma RestStands(l: Ledger, key: string, good: StoredRecord -> bool)
    requires AtRest(l) && Has(l.records, key, good)
    ensures Stands(l.disk, key, good)
  {
    RecoverWhole(Current(l.disk));
    forall text | l.disk.MayRead(text) ensures text == Current(l.disk) {
      SettledReads(l.disk, text);
    }
  }

  // ---------------------------------------------------------------- theorems about histories

  /** Whatever a crash leaves is recovered to a ledger that knows `key`. */
  ghost predicate Known(d: Disk, key: string) {
    forall text :: d.MayRead(text) ==> Recover(text).Some? && key in Recover(text).value
  }

  /** Once every crash image knows a key, every crash image and every running ledger knows it for ever,
      and it is never reported as newly committed. */
  lemma SpentSurvives(a: Aead, states: seq<Machine>, ops: seq<Op>, i: nat, j: nat, key: string)
    requires Correct(a) && Run(a, states, ops) && i <= j <= |ops| && Known(states[i].disk, key)
    ensures Known(states[j].disk, key)
    ensures states[j].ledger.Some? ==> key in states[j].ledger.value.records
    ensures j < |ops| ==> forall response :: !GrantsAt(a, states, ops, j, key, response, true)
  {
    assert Stands(states[i].disk, key, r => true);
    StandsOn(a, states, ops, i, j, key, r => true);
  }

  /** Step `i` is a commit of `key` that is granted `response`. */
  ghost predicate GrantsAt(a: Aead, states: seq<Machine>, ops: seq<Op>, i: nat, key: string, response: Bytes, newly: bool)
    requires Run(a, states, ops) && i < |ops|
  {
    && Taken(a, states, ops, i)
    && ops[i].OpCommit? && ops[i].q.key == key && Committed(a, states[i], ops[i]).1 == Granted(response, newly)
  }

  /** The row never answers with any other response.  A row that ever answers does so at time zero. */
  ghost predicate Yields(a: Aead, key: string, r: StoredRecord, response: Bytes) {
    var live := LiveOutcome(a, key, r, 0, false);
    live.Some? && live.value.Granted? ==> live.value.response == response
  }

  /** Every crash image knows the key, with a row that can answer with this response only. */
  ghost predicate ForGood(a: Aead, d: Disk, key: string, response: Bytes) {
    Stands(d, key, r => Yields(a, key, r, response))
  }

  lemma YieldsOn(a: Aead, states: seq<Machine>, ops: seq<Op>, i: nat, j: nat, key: string, response: Bytes)
    requires Correct(a) && Run(a, states, ops) && i <= j <= |ops| && ForGood(a, states[i].disk, key, response)
    ensures ForGood(a, states[j].disk, key, response)
    ensures states[j].ledger.Some? ==>
      Has(states[j].ledger.value.records, key, r => Yields(a, key, r, response))
  {
    StandsOn(a, states, ops, i, j, key, r => Yields(a, key, r, response));
  }

  /** A commit of a key that memory holds with such a row. */
  lemma CommitYields(a: Aead, m: Machine, op: Op, response: Bytes)
    requires op.OpCommit? && Enabled(a, m, op)
    requires Has(m.ledger.value.records, op.q.key, r => Yields(a, op.q.key, r, response))
    ensures Committed(a, m, op).1.Granted? ==> Committed(a, m, op).1 == Granted(response, false)
  {
  }

  lemma StepForGood(a: Aead, m: Machine, op: Op, m': Machine, key: string, response: Bytes)
    requires Correct(a) && Sound(m) && Step(a, m, op, m') && ForGood(a, m.disk, key, response)
    ensures ForGood(a, m'.disk, key, response)
    ensures op.OpCommit? && op.q.key == key && Committed(a, m, op).1.Granted? ==> Committed(a, m, op).1.response == response
  {
    StepStands(a, m, op, m', key, r => Yields(a, key, r, response));
    if op.OpCommit? && op.q.key == key {
      InMemory(m, key, r => Yields(a, key, r, response));
      CommitYields(a, m, op, response);
    }
  }

  /** From the moment a nullifier is granted for good, every grant of it carries the same bytes and none
      is newly committed. */
  lemma SingleResponse(a: Aead, states: seq<Machine>, ops: seq<Op>, i: nat, j: nat, key: string,
                       response: Bytes, response': Bytes, newly': bool)
    requires Correct(a) && Run(a, states, ops) && i <= j < |ops|
    requires ForGood(a, states[i].disk, key, response) && GrantsAt(a, states, ops, j, key, response', newly')
    ensures response' == response && !newly'
  {
    YieldsOn(a, states, ops, i, j, key, response);
    CommitYields(a, states[j], ops[j], response);
  }

  // ---------------------------------------------------------------- which grants are for good

  /** The row behind a grant. */
  lemma GrantRow(a: Aead, m: Machine, op: Op, m': Machine, response: Bytes, newly: bool)
    requires Correct(a) && Step(a, m, op, m') && op.OpCommit? && Committed(a, m, op).1 == Granted(response, newly)
    ensures op.q.key in m'.ledger.value.records
    ensures LiveOutcome(a, op.q.key, m'.ledger.value.records[op.q.key], op.q.now, newly) == Some(Granted(response, newly))
    ensures newly ==> m'.ledger.value.records[op.q.key].until == Some(op.q.until)
  {
  }

  /** Whatever a ledger at rest answers with, it answers with for good. */
  lemma RestForGood(a: Aead, l: Ledger, key: string, now: nat, response: Bytes, newly: bool)
    requires AtRest(l) && key in l.records
    requires LiveOutcome(a, key, l.records[key], now, newly) == Some(Granted(response, newly))
    ensures ForGood(a, l.disk, key, response)
  {
    RestStands(l, key, r => Yields(a, key, r, response));
  }

  /** A first grant leaves the ledger at rest, whatever the log was before, unless a directory sync is
      outstanding. */
  lemma NewGrantRests(a: Aead, l: Ledger, q: Request, io: CommitIo, order: seq<string>, rewriteIo: RewriteIo, response: Bytes)
    requires Correct(a) && q.Commit? && WellTyped(q) && LedgerSound(l) && l.disk.shadows == {}
    requires CommitRewrites(a, l.records, q).Some? ==> Lists(order, CommitRewrites(a, l.records, q).value)
    requires CommitFile(a, l, q, io, order, rewriteIo).1 == Granted(response, true)
    ensures AtRest(CommitFile(a, l, q, io, order, rewriteIo).0)
  {
    CommitSound(a, l, q, io, order, rewriteIo);
    NewGrantLeaves(a, l, q, io, order, rewriteIo, response);
  }

  lemma NewGrantLeaves(a: Aead, l: Ledger, q: Request, io: CommitIo, order: seq<string>, rewriteIo: RewriteIo, response: Bytes)
    requires q.Commit?
    requires CommitRewrites(a, l.records, q).Some? ==> Lists(order, CommitRewrites(a, l.records, q).value)
    requires CommitFile(a, l, q, io, order, rewriteIo).1 == Granted(response, true)
    ensures q.key !in l.records && l.handle && l.disk.log.Some?
    ensures var l' := CommitFile(a, l, q, io, order, rewriteIo).0;
      l'.handle && l'.disk.shadows == l.disk.shadows && l'.disk.log.Some? && l'.disk.log.value.Synced()
  {
  }
}
