/**
 The redemption ledger as one abstract machine, and the volatile and Postgres backends that refine it
 (crates/nil-coordinator/src/nullifier.rs).

 The abstract machine keeps, per spent nullifier, the first response while it may still be replayed.
 The backends keep ciphertext rows.
 */
module LedgerMachine {
  import opened Text
  import opened Cipher
  import opened LedgerFormat

  const I64: nat := 0x8000_0000_0000_0000

  datatype Outcome = Granted(response: Bytes, newly: bool) | AlreadySpent | Failed

  /** A commit with the nonce its seal draws, or a cleanup. */
  datatype Request =
    | Commit(epoch: nat, key: string, until: nat, response: Bytes, nonce: Bytes, now: nat)
    | Prune(now: nat)

  datatype Answer = Redeemed(outcome: Outcome) | Removed(count: nat) | PruneFailed

  /** Integer widths of the call. */
  predicate WellTyped(q: Request) {
    && q.now < U64
    && (q.Commit? ==> q.epoch < U32 && q.until < U64 && |q.nonce| == NonceLen)
  }

  /** `validate_commit`. */
  predicate ValidCommit(q: Request)
    requires q.Commit?
  {
    |q.key| == 64 && AllLowerHex(q.key) && q.until > q.now && ValidResult(q.response)
  }

  // ---------------------------------------------------------------- the abstract machine

  /** Spent nullifiers, each with its expiry and first response while that is kept. */
  type Book = map<string, Option<(nat, Bytes)>>

  predicate Live(entry: Option<(nat, Bytes)>, now: nat) { entry.Some? && now < entry.value.0 }

  function BookStep(b: Book, q: Request): (Book, Answer) {
    match q
    case Commit(_, key, until, response, _, now) =>
      if !ValidCommit(q) then (b, Redeemed(Failed))
      else if key !in b then (b[key := Some((until, response))], Redeemed(Granted(response, true)))
      else if Live(b[key], now) then (b, Redeemed(Granted(b[key].value.1, false)))
      else (b[key := None], Redeemed(AlreadySpent))
    case Prune(now) =>
      (map k | k in b :: if Live(b[k], now) then b[k] else None, Removed(|StaleKeys(b, now)|))
  }

  function StaleKeys(b: Book, now: nat): set<string> {
    set k | k in b && b[k].Some? && !Live(b[k], now)
  }

  function BookAnswers(b: Book, qs: seq<Request>): seq<Answer>
    decreases |qs|
  {
    if qs == [] then [] else [BookStep(b, qs[0]).1] + BookAnswers(BookStep(b, qs[0]).0, qs[1..])
  }

  // ---------------------------------------------------------------- rows

  /** `live_outcome`: what a row answers while its replay window runs. */
  function LiveOutcome(a: Aead, key: string, r: StoredRecord, now: nat, newly: bool): Option<Outcome> {
    if r.until.Some? && r.ciphertext.Some? && now < r.until.value then
      match Unseal(a, r.epoch, key, r.until.value, r.ciphertext.value)
      case Some(p) => Some(Granted(p, newly))
      case None => Some(AlreadySpent)
    else None
  }

  function Cleared(r: StoredRecord): StoredRecord { SpentOnly(r.epoch) }

  predicate Expired(r: StoredRecord, now: nat) { r.until.Some? && now >= r.until.value }

  function Pruned(rows: Records, now: nat): Records {
    map k | k in rows :: if Expired(rows[k], now) then Cleared(rows[k]) else rows[k]
  }

  function PrunedKeys(rows: Records, now: nat): set<string> {
    set k | k in rows && Expired(rows[k], now) && rows[k].ciphertext.Some?
  }

  /** The rows and outcome of one commit on the volatile backend. */
  function RowCommit(a: Aead, rows: Records, q: Request): (Records, Outcome)
    requires q.Commit?
  {
    if !ValidCommit(q) then (rows, Failed)
    else if q.key in rows then
      var live := LiveOutcome(a, q.key, rows[q.key], q.now, false);
      if live.Some? then (rows, live.value) else (rows[q.key := Cleared(rows[q.key])], AlreadySpent)
    else
      var ciphertext := Seal(a, q.nonce, q.epoch, q.key, q.until, q.response);
      var row := StoredRecord(q.epoch, Some(q.until), ciphertext);
      var live := LiveOutcome(a, q.key, row, q.now, true);
      (rows[q.key := row], if live.Some? then live.value else AlreadySpent)
  }

  function RowStep(a: Aead, rows: Records, q: Request): (Records, Answer) {
    match q
    case Commit(_, _, _, _, _, _) =>
      var (rows', outcome) := RowCommit(a, rows, q);
      (rows', Redeemed(outcome))
    case Prune(now) => (Pruned(rows, now), Removed(|PrunedKeys(rows, now)|))
  }

  function RowAnswers(a: Aead, rows: Records, qs: seq<Request>): seq<Answer>
    decreases |qs|
  {
    if qs == [] then [] else [RowStep(a, rows, qs[0]).1] + RowAnswers(a, RowStep(a, rows, qs[0]).0, qs[1..])
  }

  // ---------------------------------------------------------------- the volatile backend

  class MemoryLedger {
    const cipher: Aead
    var records: Records

    constructor (cipher: Aead)
      ensures this.cipher == cipher && records == map[]
    {
      this.cipher := cipher;
      records := map[];
    }

    method CommitOrReplay(q: Request) returns (outcome: Outcome)
      requires q.Commit?
      modifies this
      ensures (records, outcome) == RowCommit(cipher, old(records), q)
    {
      if !ValidCommit(q) {
        return Failed;
      }
      if q.key in records {
        var live := LiveOutcome(cipher, q.key, records[q.key], q.now, false);
        if live.Some? {
          return live.value;
        }
        records := records[q.key := Cleared(records[q.key])];
        return AlreadySpent;
      }
      var ciphertext := Seal(cipher, q.nonce, q.epoch, q.key, q.until, q.response);
      var record := StoredRecord(q.epoch, Some(q.until), ciphertext);
      records := records[q.key := record];
      var live := LiveOutcome(cipher, q.key, record, q.now, true);
      outcome := if live.Some? then live.value else AlreadySpent;
    }

    method PruneExpired(now: nat) returns (removed: nat)
      modifies this
      ensures records == Pruned(old(records), now) && removed == |PrunedKeys(old(records), now)|
    {
      records, removed := PruneRows(records, now);
    }
  }

  /** Rows of which all but those in `todo` have been visited. */
  ghost function PrunedBut(rows: Records, now: nat, todo: set<string>): Records {
    map k | k in rows :: if k !in todo && Expired(rows[k], now) then Cleared(rows[k]) else rows[k]
  }

  /** The loop both backends run: one pass over the rows, in whatever order the map yields them. */
  method PruneRows(rows: Records, now: nat) returns (r: Records, removed: nat)
    ensures r == Pruned(rows, now) && removed == |PrunedKeys(rows, now)|
  {
    r, removed := rows, 0;
    var todo := rows.Keys;
    VisitBounds(rows, now);
    while todo != {}
      invariant todo <= rows.Keys
      invariant r == PrunedBut(rows, now, todo)
      invariant removed == |PrunedKeys(rows, now) - todo|
      decreases |todo|
    {
      var k :| k in todo;
      VisitRow(rows, now, todo, k);
      var row := r[k];
      if Expired(row, now) {
        if row.ciphertext.Some? {
          removed := removed + 1;
        }
        r := r[k := Cleared(row)];
      }
      todo := todo - {k};
    }
  }

  lemma VisitBounds(rows: Records, now: nat)
    ensures PrunedBut(rows, now, rows.Keys) == rows && PrunedBut(rows, now, {}) == Pruned(rows, now)
    ensures PrunedKeys(rows, now) - rows.Keys == {} && PrunedKeys(rows, now) - {} == PrunedKeys(rows, now)
  {
  }

  lemma VisitRow(rows: Records, now: nat, todo: set<string>, k: string)
    requires k in rows && k in todo
    ensures PrunedBut(rows, now, todo)[k] == rows[k]
    ensures PrunedBut(rows, now, todo - {k}) ==
      if Expired(rows[k], now) then PrunedBut(rows, now, todo)[k := Cleared(rows[k])] else PrunedBut(rows, now, todo)
    ensures |PrunedKeys(rows, now) - (todo - {k})| ==
      |PrunedKeys(rows, now) - todo| + if Expired(rows[k], now) && rows[k].ciphertext.Some? then 1 else 0
  {
    var all := PrunedKeys(rows, now);
    assert all - (todo - {k}) == if k in all then all - todo + {k} else all - todo;
  }

  // ---------------------------------------------------------------- the Postgres backend

  /** `COMMIT_SQL`: insert, or on conflict keep the replay fields only while they are live. */
  function Upsert(row: Option<StoredRecord>, proposed: StoredRecord, now: nat): StoredRecord {
    match row
    case None => proposed
    case Some(r) =>
      var keep := r.until.Some? && r.until.value > now;
      StoredRecord(r.epoch, if keep then r.until else None, if keep then r.ciphertext else None)
  }

  function PgCommit(a: Aead, rows: Records, q: Request): (Records, Outcome)
    requires q.Commit?
  {
    if !ValidCommit(q) || q.until >= I64 || q.now >= I64 then (rows, Failed) else
    var ciphertext := Seal(a, q.nonce, q.epoch, q.key, q.until, q.response);
    var proposed := StoredRecord(q.epoch, Some(q.until), ciphertext);
    var row := Upsert(if q.key in rows then Some(rows[q.key]) else None, proposed, q.now);
    (rows[q.key := row],
     if row.until.None? || row.ciphertext.None? || q.now >= row.until.value then AlreadySpent else
     match Unseal(a, row.epoch, q.key, row.until.value, row.ciphertext.value)
     case Some(p) => Granted(p, row.ciphertext == ciphertext)
     case None => AlreadySpent)
  }

  function PgStep(a: Aead, rows: Records, q: Request): (Records, Answer) {
    match q
    case Commit(_, _, _, _, _, _) =>
      var (rows', outcome) := PgCommit(a, rows, q);
      (rows', Redeemed(outcome))
    case Prune(now) =>
      if now >= I64 then (rows, PruneFailed) else
      (map k | k in rows :: if k in PrunedKeys(rows, now) then Cleared(rows[k]) else rows[k],
       Removed(|PrunedKeys(rows, now)|))
  }

  function PgAnswers(a: Aead, rows: Records, qs: seq<Request>): seq<Answer>
    decreases |qs|
  {
    if qs == [] then [] else [PgStep(a, rows, qs[0]).1] + PgAnswers(a, PgStep(a, rows, qs[0]).0, qs[1..])
  }

  // ---------------------------------------------------------------- refinement

  /** A row that the ledger itself could have written: valid, and openable if it holds a result. */
  ghost predicate GenuineRow(a: Aead, key: string, r: StoredRecord) {
    && ValidRecord(key, r)
    && (r.ciphertext.Some? ==> Unseal(a, r.epoch, key, r.until.value, r.ciphertext.value).Some?)
  }

  ghost predicate Genuine(a: Aead, rows: Records) {
    forall k :: k in rows ==> GenuineRow(a, k, rows[k])
  }

  ghost function AbsRow(a: Aead, key: string, r: StoredRecord): Option<(nat, Bytes)> {
    if r.until.None? || r.ciphertext.None? then None else
    match Unseal(a, r.epoch, key, r.until.value, r.ciphertext.value)
    case None => None
    case Some(p) => Some((r.until.value, p))
  }

  ghost function Abs(a: Aead, rows: Records): Book {
    map k | k in rows :: AbsRow(a, k, rows[k])
  }

  /** The row a commit writes is genuine and stands for the proposed response. */
  lemma SealedRow(a: Aead, q: Request)
    requires Correct(a) && q.Commit? && WellTyped(q) && ValidCommit(q)
    ensures var r := StoredRecord(q.epoch, Some(q.until), Seal(a, q.nonce, q.epoch, q.key, q.until, q.response));
      GenuineRow(a, q.key, r) && AbsRow(a, q.key, r) == Some((q.until, q.response))
      && LiveOutcome(a, q.key, r, q.now, true) == Some(Granted(q.response, true))
      && r.ciphertext.value[..NonceLen] == q.nonce
  {
    UnsealSeal(a, q.nonce, q.epoch, q.key, q.until, q.response);
  }

  lemma RowCommitRefines(a: Aead, rows: Records, q: Request)
    requires Correct(a) && Genuine(a, rows) && q.Commit? && WellTyped(q)
    ensures var (rows', outcome) := RowCommit(a, rows, q);
      Genuine(a, rows') && BookStep(Abs(a, rows), q) == (Abs(a, rows'), Redeemed(outcome))
  {
    if ValidCommit(q) && q.key !in rows {
      SealedRow(a, q);
    }
    var (rows', _) := RowCommit(a, rows, q);
    assert BookStep(Abs(a, rows), q).0 == Abs(a, rows');
  }

  lemma PruneRefines(a: Aead, rows: Records, now: nat)
    requires Genuine(a, rows)
    ensures Genuine(a, Pruned(rows, now))
    ensures BookStep(Abs(a, rows), Prune(now)) == (Abs(a, Pruned(rows, now)), Removed(|PrunedKeys(rows, now)|))
  {
    StaleArePruned(a, rows, now);
    assert BookStep(Abs(a, rows), Prune(now)).0 == Abs(a, Pruned(rows, now));
  }

  lemma StaleArePruned(a: Aead, rows: Records, now: nat)
    requires Genuine(a, rows)
    ensures StaleKeys(Abs(a, rows), now) == PrunedKeys(rows, now)
  {
  }

  lemma RowStepRefines(a: Aead, rows: Records, q: Request)
    requires Correct(a) && Genuine(a, rows) && WellTyped(q)
    ensures var (rows', answer) := RowStep(a, rows, q);
      Genuine(a, rows') && BookStep(Abs(a, rows), q) == (Abs(a, rows'), answer)
  {
    if q.Commit? {
      RowCommitRefines(a, rows, q);
    } else {
      PruneRefines(a, rows, q.now);
    }
  }

  /** The volatile backend answers every sequence of commits and prunes as the abstract machine. */
  lemma {:induction false} MemoryRefines(a: Aead, rows: Records, qs: seq<Request>)
    requires Correct(a) && Genuine(a, rows) && forall i :: 0 <= i < |qs| ==> WellTyped(qs[i])
    ensures RowAnswers(a, rows, qs) == BookAnswers(Abs(a, rows), qs)
    decreases |qs|
  {
    if qs != [] {
      RowStepRefines(a, rows, qs[0]);
      MemoryRefines(a, RowStep(a, rows, qs[0]).0, qs[1..]);
    }
  }

  /** The ciphertext in every row was sealed under a nonce in `used`. */
  ghost predicate NoncesFrom(rows: Records, used: set<Bytes>) {
    forall k :: k in rows && rows[k].ciphertext.Some? ==>
      |rows[k].ciphertext.value| >= NonceLen && rows[k].ciphertext.value[..NonceLen] in used
  }

  /** On a fresh nonce and 63-bit times the upsert does what the volatile backend does. */
  lemma PgCommitAgrees(a: Aead, rows: Records, q: Request, used: set<Bytes>)
    requires Correct(a) && Genuine(a, rows) && NoncesFrom(rows, used)
    requires q.Commit? && WellTyped(q) && q.until < I64 && q.now < I64 && q.nonce !in used
    ensures PgCommit(a, rows, q) == RowCommit(a, rows, q)
    ensures NoncesFrom(PgCommit(a, rows, q).0, used + {q.nonce})
  {
    if ValidCommit(q) {
      SealedRow(a, q);
      if q.key in rows {
        PgConflict(a, rows, q, used);
      }
    }
  }

  lemma PgConflict(a: Aead, rows: Records, q: Request, used: set<Bytes>)
    requires Correct(a) && Genuine(a, rows) && NoncesFrom(rows, used) && q.Commit? && q.key in rows
    requires WellTyped(q) && ValidCommit(q) && q.until < I64 && q.now < I64 && q.nonce !in used
    ensures PgCommit(a, rows, q) == RowCommit(a, rows, q)
  {
    SealedRow(a, q);
    var r := rows[q.key];
    if r.until.Some? && r.until.value > q.now {
      assert r.ciphertext != Seal(a, q.nonce, q.epoch, q.key, q.until, q.response);
      assert rows[q.key := r] == rows;
    } else {
      assert r.until.None? ==> r == Cleared(r);
    }
  }

  lemma PgPruneAgrees(rows: Records, now: nat)
    requires ValidRecords(rows)
    ensures (map k | k in rows :: if k in PrunedKeys(rows, now) then Cleared(rows[k]) else rows[k]) == Pruned(rows, now)
  {
  }

  ghost predicate DistinctNonces(qs: seq<Request>, used: set<Bytes>) {
    && (forall i :: 0 <= i < |qs| && qs[i].Commit? ==> qs[i].nonce !in used)
    && (forall i, j :: 0 <= i < j < |qs| && qs[i].Commit? && qs[j].Commit? ==> qs[i].nonce != qs[j].nonce)
  }

  ghost predicate Before63(q: Request) { q.now < I64 && (q.Commit? ==> q.until < I64) }

  /** For 63-bit times and pairwise distinct seals, Postgres answers as the abstract machine too. */
  lemma {:induction false} PostgresRefines(a: Aead, rows: Records, qs: seq<Request>, used: set<Bytes>)
    requires Correct(a) && Genuine(a, rows) && NoncesFrom(rows, used) && DistinctNonces(qs, used)
    requires forall i :: 0 <= i < |qs| ==> WellTyped(qs[i]) && Before63(qs[i])
    ensures PgAnswers(a, rows, qs) == BookAnswers(Abs(a, rows), qs)
    decreases |qs|
  {
    if qs != [] {
      var q := qs[0];
      RowStepRefines(a, rows, q);
      if q.Commit? {
        PgCommitAgrees(a, rows, q, used);
        PostgresRefines(a, PgStep(a, rows, q).0, qs[1..], used + {q.nonce});
      } else {
        PgPruneAgrees(rows, q.now);
        PostgresRefines(a, PgStep(a, rows, q).0, qs[1..], used);
      }
    }
  }

  /** The time bound is exact: Postgres refuses a commit that the others serve if and only if its
      expiry does not fit in 63 bits. */
  lemma PostgresRefusesIff(a: Aead, rows: Records, q: Request)
    requires q.Commit? && ValidCommit(q)
    ensures PgCommit(a, rows, q).1 == Failed <==> q.until >= I64
  {
  }

  /** And so is the seal bound: on a live row Postgres calls a replay newly committed if and only if
      the proposal sealed to the very bytes already stored. */
  lemma PostgresNewlyIff(a: Aead, rows: Records, q: Request)
    requires Correct(a) && Genuine(a, rows) && q.Commit? && WellTyped(q) && ValidCommit(q)
    requires q.until < I64 && q.key in rows && Live(AbsRow(a, q.key, rows[q.key]), q.now)
    ensures PgCommit(a, rows, q).1 ==
      Granted(AbsRow(a, q.key, rows[q.key]).value.1,
              rows[q.key].ciphertext == Seal(a, q.nonce, q.epoch, q.key, q.until, q.response))
  {
  }

  // ---------------------------------------------------------------- the promise of the machine

  /** Once a nullifier is in the book it stays, and while its entry lives it does not change. */
  lemma BookKeeps(b: Book, q: Request, key: string)
    requires key in b
    ensures key in BookStep(b, q).0
    ensures BookStep(b, q).0[key] == b[key] || BookStep(b, q).0[key] == None
    ensures Live(b[key], q.now) ==> BookStep(b, q).0[key] == b[key]
  {
  }

  /** A commit that may be served: a 64-digit lowercase hexadecimal nullifier, a window that has not
      closed, and a response of 1 to 65536 bytes. */
  predicate Serviceable(q: Request)
    requires q.Commit?
  {
    && |q.key| == 64 && (forall i :: 0 <= i < 64 ==> '0' <= q.key[i] <= '9' || 'a' <= q.key[i] <= 'f')
    && q.now < q.until && 1 <= |q.response| <= 65536
  }

  /** What a commit is answered, case by case: the first is granted, until its window closes everyone is
      given its response, and from then on the nullifier is spent. */
  lemma CommitAnswers(b: Book, q: Request)
    requires q.Commit?
    ensures var (b', r) := BookStep(b, q);
      && (r == Redeemed(Failed) <==> !Serviceable(q))
      && (!Serviceable(q) ==> b' == b)
      && (Serviceable(q) && q.key !in b ==>
            r == Redeemed(Granted(q.response, true)) && b' == b[q.key := Some((q.until, q.response))])
      && (Serviceable(q) && q.key in b && b[q.key].Some? && q.now < b[q.key].value.0 ==>
            r == Redeemed(Granted(b[q.key].value.1, false)) && b' == b)
      && (Serviceable(q) && q.key in b && (b[q.key].None? || q.now >= b[q.key].value.0) ==>
            r == Redeemed(AlreadySpent) && b' == b[q.key := None])
  {
  }

  /** What a cleanup leaves and answers: every nullifier stays, a response stays until its window closes,
      and the number is that of the responses that went. */
  lemma PruneAnswers(b: Book, now: nat)
    ensures var (b', r) := BookStep(b, Prune(now));
      && b'.Keys == b.Keys
      && (forall k :: k in b ==> b'[k] == if b[k].Some? && now < b[k].value.0 then b[k] else None)
      && r == Removed(|set k | k in b && b[k].Some? && b'[k].None?|)
  {
    var b' := BookStep(b, Prune(now)).0;
    assert (set k | k in b && b[k].Some? && b'[k].None?) == StaleKeys(b, now);
  }

  function BookAfter(b: Book, qs: seq<Request>): Book
    decreases |qs|
  {
    if qs == [] then b else BookAfter(BookStep(b, qs[0]).0, qs[1..])
  }

  lemma {:induction false} EntryLasts(b: Book, qs: seq<Request>, key: string, until: nat, response: Bytes)
    requires key in b && b[key] == Some((until, response)) && forall i :: 0 <= i < |qs| ==> qs[i].now < until
    ensures key in BookAfter(b, qs) && BookAfter(b, qs)[key] == Some((until, response))
    decreases |qs|
  {
    if qs != [] {
      BookKeeps(b, qs[0], key);
      EntryLasts(BookStep(b, qs[0]).0, qs[1..], key, until, response);
    }
  }

  lemma {:induction false} EntryStays(b: Book, qs: seq<Request>, key: string)
    requires key in b
    ensures key in BookAfter(b, qs)
    ensures BookAfter(b, qs)[key] == b[key] || BookAfter(b, qs)[key] == None
    decreases |qs|
  {
    if qs != [] {
      BookKeeps(b, qs[0], key);
      EntryStays(BookStep(b, qs[0]).0, qs[1..], key);
    }
  }

  /** Over any requests in between: after a first commit every later one of the same nullifier is given its
      response as long as all clock readings are before the end of its window, is refused as spent once its
      own is not, and is never granted as new or with any other response. */
  lemma FirstResponseOnly(b: Book, first: Request, between: seq<Request>, again: Request)
    requires first.Commit? && Serviceable(first) && first.key !in b
    requires again.Commit? && Serviceable(again) && again.key == first.key
    ensures BookStep(b, first).1 == Redeemed(Granted(first.response, true))
    ensures var answer := BookStep(BookAfter(BookStep(b, first).0, between), again).1;
      && (answer == Redeemed(Granted(first.response, false)) || answer == Redeemed(AlreadySpent))
      && (again.now >= first.until ==> answer == Redeemed(AlreadySpent))
      && (again.now < first.until && (forall i :: 0 <= i < |between| ==> between[i].now < first.until) ==>
            answer == Redeemed(Granted(first.response, false)))
  {
    var b1 := BookStep(b, first).0;
    CommitAnswers(b, first);
    EntryStays(b1, between, first.key);
    CommitAnswers(BookAfter(b1, between), again);
    if forall i :: 0 <= i < |between| ==> between[i].now < first.until {
      EntryLasts(b1, between, first.key, first.until, first.response);
    }
  }
}
