/**
 A granted result stays deliverable.  Once every crash image can answer with it until some time, every
 commit of the same nullifier before that time is granted the same bytes again, whatever failed,
 restarted or crashed in between: the row that holds the sealed response is never cleared early and no
 crash loses it.
 */
module LedgerReplay {
  import opened Text
  import opened Storage
  import opened Cipher
  import opened LedgerFormat
  import opened LedgerLog
  import opened LedgerMachine
  import opened FileLedger
  import opened LedgerRuns
  import opened LedgerHistory

  /** The row answers with `response` at every time before `until`. */
  ghost predicate Delivers(a: Aead, key: string, r: StoredRecord, response: Bytes, until: nat) {
    && r.until.Some? && r.ciphertext.Some? && until <= r.until.value
    && Unseal(a, r.epoch, key, r.until.value, r.ciphertext.value) == Some(response)
  }

  /** Every crash image has such a row. */
  ghost predicate Deliverable(a: Aead, d: Disk, key: string, response: Bytes, until: nat) {
    Stands(d, key, r => Delivers(a, key, r, response, until))
  }

  /** The clock reading of a step that has one is before `until`. */
  predicate Before(op: Op, until: nat) { Clock(op).Some? ==> Clock(op).value < until }

  /** No step before that time takes the row from anything a crash may leave. */
  lemma StepKeepsRow(a: Aead, m: Machine, op: Op, m': Machine, key: string, response: Bytes, until: nat)
    requires Correct(a) && Sound(m) && Step(a, m, op, m') && Deliverable(a, m.disk, key, response, until) && Before(op, until)
    ensures Deliverable(a, m'.disk, key, response, until)
  {
    StepStands(a, m, op, m', key, r => Delivers(a, key, r, response, until));
  }

  lemma DeliversOn(a: Aead, states: seq<Machine>, ops: seq<Op>, i: nat, j: nat, key: string, response: Bytes, until: nat)
    requires Correct(a) && Run(a, states, ops) && i <= j <= |ops| && Deliverable(a, states[i].disk, key, response, until)
    requires forall n :: i <= n < j ==> Before(ops[n], until)
    ensures Deliverable(a, states[j].disk, key, response, until)
    ensures states[j].ledger.Some? ==>
      Has(states[j].ledger.value.records, key, r => Delivers(a, key, r, response, until))
  {
    StandsOn(a, states, ops, i, j, key, r => Delivers(a, key, r, response, until));
  }

  /** A commit of a key that memory can answer for, in its window, is answered without any I/O. */
  lemma Replays(a: Aead, m: Machine, op: Op, response: Bytes, until: nat)
    requires op.OpCommit? && Enabled(a, m, op) && ValidCommit(op.q) && op.q.now < until
    requires Has(m.ledger.value.records, op.q.key, r => Delivers(a, op.q.key, r, response, until))
    ensures Committed(a, m, op) == (m.ledger.value, Granted(response, false))
  {
  }

  /** From the moment a result is deliverable, until its window closes, every valid retry, by anyone, is
      granted the same bytes: it is never refused as spent and needs no I/O. */
  lemma RetryDelivers(a: Aead, states: seq<Machine>, ops: seq<Op>, i: nat, j: nat, key: string, response: Bytes, until: nat)
    requires Correct(a) && Run(a, states, ops) && i <= j < |ops| && Deliverable(a, states[i].disk, key, response, until)
    requires forall n :: i <= n <= j ==> Before(ops[n], until)
    requires ops[j].OpCommit? && ops[j].q.Commit? && ops[j].q.key == key && ValidCommit(ops[j].q)
    ensures GrantsAt(a, states, ops, j, key, response, false)
    ensures states[j + 1].ledger == states[j].ledger
  {
    DeliversOn(a, states, ops, i, j, key, response, until);
    assert Taken(a, states, ops, j) && Before(ops[j], until);
    Replays(a, states[j], ops[j], response, until);
  }

  /** Whatever a ledger at rest answers with is deliverable for the whole window of its row. */
  lemma RestDelivers(a: Aead, l: Ledger, key: string, now: nat, response: Bytes, newly: bool)
    requires AtRest(l) && key in l.records
    requires LiveOutcome(a, key, l.records[key], now, newly) == Some(Granted(response, newly))
    ensures now < l.records[key].until.value && Deliverable(a, l.disk, key, response, l.records[key].until.value)
  {
    RestStands(l, key, r => Delivers(a, key, r, response, l.records[key].until.value));
  }
}
