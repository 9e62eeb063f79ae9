/**
 The client and the Coordinator together: a pass reserved in the vault is redeemed over a channel
 that may lose, delay, duplicate and reorder messages, while either side fails and crashes
 (client/src-tauri/src/lib.rs, client/src-tauri/src/tokenstore.rs, crates/nil-coordinator/src/api.rs).

 The Coordinator may refuse or drop any request before the ledger; what it prepares before its one
 atomic commit stays private, so a request is served by a single step of the ledger.
 */
module RedeemProtocol {
  import opened Text
  import opened Cipher
  import LedgerFormat
  import V = Vault
  import VR = VaultRuns
  import LM = LedgerMachine
  import LR = LedgerRuns
  import LH = LedgerHistory
  import LP = LedgerReplay
  import LE = LedgerExact
  import VA = VaultAnswers
  import FileLedger

  /** The key the Coordinator spends: lowercase hex of the decoded message. */
  function KeyOf(msg: string): (key: string)
    requires V.Hex(msg, 64)
    ensures key == msg
  {
    HexCanonical(msg);
    ToHex(FromLowerHex(msg))
  }

  /** The connect command: nothing, waiting for the path of a reserved pass, or a tunnel up on it. */
  datatype Client = Idle | Redeeming(held: V.Reservation) | Up(held: V.Reservation, path: Bytes)

  datatype Delivery = Delivery(reservation: V.Reservation, path: Bytes)

  /** `sent` and `replies` are all messages ever put on the channel, `delivered` what reached the
      client; messages carry the nullifier key. */
  datatype Sys = Sys(slot: V.Slot, ledger: LR.Machine, client: Client, sent: set<string>, replies: set<(string, Bytes)>,
                     delivered: set<Delivery>)

  /** `Vault` is any other call on the client's vault, `Ledger` anything else the Coordinator does,
      commits for other clients among it. */
  datatype Event =
    | Vault(op: V.Op, io: V.Io)
    | Begin(ids: seq<string>, io: V.Io)
    | Send
    | Serve(commit: LR.Op)
    | Ledger(other: LR.Op)
    | Deliver(path: Bytes)
    | Finish(io: V.Io)
    | Fail
    | ClientCrash

  /** The transaction an event makes on the vault, if any. */
  function VaultCall(s: Sys, ev: Event): Option<VR.Event> {
    match ev
    case Vault(op, io) => Some(VR.Call(op, io))
    case Begin(ids, io) => Some(VR.Call(V.Reserve(ids), io))
    case Finish(io) => if s.client.Up? then Some(VR.Call(V.Complete(s.client.held.id), io)) else None
    case ClientCrash => Some(VR.Crash)
    case _ => None
  }

  ghost predicate Step(hash: string -> string, a: Aead, s: Sys, ev: Event, s': Sys) {
    match ev
    case Vault(op, io) =>
      s' == s.(slot := V.Mutate(hash, s.slot, op, io).0)
    case Begin(ids, io) =>
      var (slot, r) := V.Mutate(hash, s.slot, V.Reserve(ids), io);
      && s.client.Idle?
      && s' == s.(slot := slot, client :=
                    if r.Ok? && r.value.Reserved? && r.value.reservation.Some? then Redeeming(r.value.reservation.value) else Idle)
    case Send =>
      && s.client.Redeeming? && V.Hex(s.client.held.pass.msg, 64)
      && s' == s.(sent := s.sent + {KeyOf(s.client.held.pass.msg)})
    case Serve(op) =>
      && op.OpCommit? && LR.Step(a, s.ledger, op, s'.ledger) && op.q.key in s.sent
      && var outcome := LR.Committed(a, s.ledger, op).1;
         s' == s.(ledger := s'.ledger, replies := s.replies + if outcome.Granted? then {(op.q.key, outcome.response)} else {})
    case Ledger(op) =>
      && LR.Step(a, s.ledger, op, s'.ledger)
      && s' == s.(ledger := s'.ledger)
    case Deliver(path) =>
      && s.client.Redeeming? && (s.client.held.pass.msg, path) in s.replies
      && s' == s.(client := Up(s.client.held, path), delivered := s.delivered + {Delivery(s.client.held, path)})
    case Finish(io) =>
      && s.client.Up?
      && s' == s.(slot := V.Mutate(hash, s.slot, V.Complete(s.client.held.id), io).0, client := Idle)
    case Fail =>
      s' == s.(client := Idle)
    case ClientCrash =>
      && s.slot.Entry(s'.slot.file) && s'.slot.shadows == {}
      && s' == s.(slot := s'.slot, client := Idle)
  }

  ghost predicate Taken(hash: string -> string, a: Aead, states: seq<Sys>, events: seq<Event>, n: nat)
    requires n < |events| && |states| == |events| + 1
  {
    Step(hash, a, states[n], events[n], states[n + 1])
  }

  ghost predicate Run(hash: string -> string, a: Aead, states: seq<Sys>, events: seq<Event>) {
    && |states| == |events| + 1
    && LR.Sound(states[0].ledger) && states[0].replies == {} && states[0].delivered == {}
    && VR.Every(states[0].slot, V.Valid)
    && forall n :: 0 <= n < |events| ==> Taken(hash, a, states, events, n)
  }

  // ---------------------------------------------------------------- one path per pass

  /** The ledger is sound and all that was delivered had been sent. */
  ghost predicate Inv(s: Sys) {
    LR.Sound(s.ledger) && forall x :: x in s.delivered ==> (x.reservation.pass.msg, x.path) in s.replies
  }

  lemma StepKeeps(hash: string -> string, a: Aead, s: Sys, ev: Event, s': Sys)
    requires Correct(a) && Inv(s) && Step(hash, a, s, ev, s')
    ensures Inv(s') && s.replies <= s'.replies
  {
    match ev
    case Serve(op) => LR.StepKeepsSound(a, s.ledger, op, s'.ledger);
    case Ledger(op) => LR.StepKeepsSound(a, s.ledger, op, s'.ledger);
    case _ =>
  }

  lemma {:induction false} RunKeeps(hash: string -> string, a: Aead, states: seq<Sys>, events: seq<Event>, i: nat, j: nat)
    requires Correct(a) && Run(hash, a, states, events) && i <= j <= |events|
    ensures Inv(states[j]) && states[i].replies <= states[j].replies
  {
    if j > 0 {
      RunKeeps(hash, a, states, events, if i < j then i else j - 1, j - 1);
      assert Taken(hash, a, states, events, j - 1);
      StepKeeps(hash, a, states[j - 1], events[j - 1], states[j]);
    }
  }

  /** The event serves a request for `key` with `response`. */
  ghost predicate Serves(a: Aead, s: Sys, ev: Event, key: string, response: Bytes, newly: bool) {
    && ev.Serve? && ev.commit.OpCommit? && LR.Enabled(a, s.ledger, ev.commit) && ev.commit.q.key == key
    && LR.Committed(a, s.ledger, ev.commit).1 == LM.Granted(response, newly)
  }

  predicate Unanswered(s: Sys, key: string) { forall x :: x in s.replies ==> x.0 != key }

  /** If the event is the first to answer a request for `key`, it grants it for good. */
  ghost predicate FirstForGood(a: Aead, s: Sys, ev: Event, s': Sys, key: string) {
    forall response, newly :: Serves(a, s, ev, key, response, newly) && Unanswered(s, key) ==>
      LH.ForGood(a, s'.ledger.disk, key, response)
  }

  /** The pass is granted for good, and all that was ever answered for it is `response`. */
  ghost predicate Single(a: Aead, s: Sys, key: string, response: Bytes) {
    LH.ForGood(a, s.ledger.disk, key, response) && forall x :: x in s.replies && x.0 == key ==> x.1 == response
  }

  lemma StepSingle(hash: string -> string, a: Aead, s: Sys, ev: Event, s': Sys, key: string, response: Bytes)
    requires Correct(a) && Inv(s) && Step(hash, a, s, ev, s') && Single(a, s, key, response)
    ensures Single(a, s', key, response)
  {
    match ev
    case Serve(op) => LH.StepForGood(a, s.ledger, op, s'.ledger, key, response);
    case Ledger(op) => LH.StepForGood(a, s.ledger, op, s'.ledger, key, response);
    case _ =>
  }

  lemma FirstSingle(hash: string -> string, a: Aead, s: Sys, ev: Event, s': Sys, key: string) returns (response: Bytes)
    requires Step(hash, a, s, ev, s') && Unanswered(s, key) && FirstForGood(a, s, ev, s', key) && !Unanswered(s', key)
    ensures Single(a, s', key, response)
  {
    var outcome := LR.Committed(a, s.ledger, ev.commit).1;
    response := outcome.response;
    assert Serves(a, s, ev, key, response, outcome.newly);
  }

  /** Once a pass is answered, it has been granted for good and there is one answer, provided its first
      answer was. */
  lemma {:induction false} OneAnswer(hash: string -> string, a: Aead, states: seq<Sys>, events: seq<Event>, n: nat, key: string)
    returns (response: Bytes)
    requires Correct(a) && Run(hash, a, states, events) && n <= |events|
    requires forall i :: 0 <= i < n ==> FirstForGood(a, states[i], events[i], states[i + 1], key)
    ensures Unanswered(states[n], key) || Single(a, states[n], key, response)
  {
    response := [];
    if n > 0 {
      response := OneAnswer(hash, a, states, events, n - 1, key);
      RunKeeps(hash, a, states, events, n - 1, n - 1);
      assert Taken(hash, a, states, events, n - 1);
      if !Unanswered(states[n - 1], key) {
        StepSingle(hash, a, states[n - 1], events[n - 1], states[n], key, response);
      } else if !Unanswered(states[n], key) {
        response := FirstSingle(hash, a, states[n - 1], events[n - 1], states[n], key);
      }
    }
  }

  /** Every path ever delivered for a pass is the same path, across retries, duplicates, restarts and
      crashes of either side, provided the first answer for that pass was a grant for good. */
  lemma OnePath(hash: string -> string, a: Aead, states: seq<Sys>, events: seq<Event>, n: nat, x: Delivery, y: Delivery)
    requires Correct(a) && Run(hash, a, states, events) && n <= |events|
    requires x in states[n].delivered && y in states[n].delivered && x.reservation.pass.msg == y.reservation.pass.msg
    requires forall i :: 0 <= i < n ==> FirstForGood(a, states[i], events[i], states[i + 1], x.reservation.pass.msg)
    ensures x.path == y.path
  {
    var response := OneAnswer(hash, a, states, events, n, x.reservation.pass.msg);
    RunKeeps(hash, a, states, events, n, n);
  }

  /** A grant that leaves the ledger at rest is for good. */
  lemma RestForGood(hash: string -> string, a: Aead, s: Sys, ev: Event, s': Sys, key: string)
    requires Correct(a) && Inv(s) && Step(hash, a, s, ev, s')
    requires ev.Serve? ==> s'.ledger.ledger.Some? && LR.AtRest(s'.ledger.ledger.value)
    ensures FirstForGood(a, s, ev, s', key)
  {
    forall response, newly | Serves(a, s, ev, key, response, newly) ensures LH.ForGood(a, s'.ledger.disk, key, response) {
      LH.GrantRow(a, s.ledger, ev.commit, s'.ledger, response, newly);
      LR.StepKeepsSound(a, s.ledger, ev.commit, s'.ledger);
      LH.RestForGood(a, s'.ledger.ledger.value, key, ev.commit.q.now, response, newly);
    }
  }

  /** The ledger's part in the event, if it has one, is guarded. */
  ghost predicate Guarded(s: Sys, ev: Event, s': Sys) {
    match ev
    case Serve(op) => LE.Guarded(s.ledger, op, s'.ledger)
    case Ledger(op) => LE.Guarded(s.ledger, op, s'.ledger)
    case _ => true
  }

  lemma StepGuarded(hash: string -> string, a: Aead, s: Sys, ev: Event, s': Sys, key: string)
    requires Correct(a) && Inv(s) && Step(hash, a, s, ev, s') && LE.Backed(s.ledger) && Guarded(s, ev, s')
    ensures LE.Backed(s'.ledger) && FirstForGood(a, s, ev, s', key)
  {
    match ev
    case Serve(op) =>
      LE.StepBacked(a, s.ledger, op, s'.ledger);
      forall response, newly | Serves(a, s, ev, key, response, newly) ensures LH.ForGood(a, s'.ledger.disk, key, response) {
        LH.GrantRow(a, s.ledger, op, s'.ledger, response, newly);
        LE.BackedForGood(a, s'.ledger, key, op.q.now, response, newly);
      }
    case Ledger(op) => LE.StepBacked(a, s.ledger, op, s'.ledger);
    case _ =>
  }

  lemma {:induction false} RunGuarded(hash: string -> string, a: Aead, states: seq<Sys>, events: seq<Event>, n: nat, key: string)
    requires Correct(a) && Run(hash, a, states, events) && n < |events| && states[0].ledger.ledger.None?
    requires forall i :: 0 <= i <= n ==> Guarded(states[i], events[i], states[i + 1])
    ensures LE.Backed(states[n + 1].ledger) && FirstForGood(a, states[n], events[n], states[n + 1], key)
  {
    if n > 0 { RunGuarded(hash, a, states, events, n - 1, key); }
    RunKeeps(hash, a, states, events, n, n);
    assert Taken(hash, a, states, events, n);
    StepGuarded(hash, a, states[n], events[n], states[n + 1], key);
  }

  /** For every pass at once, as long as every open of the ledger that succeeds finds a clean log or
      replaces it and no new key is accepted while a directory sync is outstanding. */
  lemma GuardedOnePath(hash: string -> string, a: Aead, states: seq<Sys>, events: seq<Event>, n: nat, x: Delivery, y: Delivery)
    requires Correct(a) && Run(hash, a, states, events) && n <= |events| && states[0].ledger.ledger.None?
    requires forall i :: 0 <= i < n ==> Guarded(states[i], events[i], states[i + 1])
    requires x in states[n].delivered && y in states[n].delivered && x.reservation.pass.msg == y.reservation.pass.msg
    ensures x.path == y.path
  {
    forall i | 0 <= i < n ensures FirstForGood(a, states[i], events[i], states[i + 1], x.reservation.pass.msg) {
      RunGuarded(hash, a, states, events, i, x.reservation.pass.msg);
    }
    OnePath(hash, a, states, events, n, x, y);
  }

  // ---------------------------------------------------------------- two paths

  /** The client takes the answer, loses the tunnel and tries again. */
  lemma RetryBegins(hash: string -> string, a: Aead, s: Sys, r: V.Reservation, path: Bytes) returns (s1: Sys, s2: Sys, s3: Sys)
    requires s.client == Redeeming(r) && Reserved(s, r) && VR.Every(s.slot, V.Valid) && (r.pass.msg, path) in s.replies
    ensures Step(hash, a, s, Deliver(path), s1) && Step(hash, a, s1, Fail, s2) && Step(hash, a, s2, Begin([], V.Committed), s3)
    ensures s3 == s.(slot := s3.slot, delivered := s.delivered + {Delivery(r, path)})
  {
    s1 := s.(client := Up(r, path), delivered := s.delivered + {Delivery(r, path)});
    s2 := s1.(client := Idle);
    assert s.slot.Entry(s.slot.file);
    s3 := s2.(slot := V.Mutate(hash, s.slot, V.Reserve([]), V.Committed).0, client := Redeeming(r));
  }

  /** The condition is needed: if an answer was not granted for good, some continuation delivers two paths
      for one reservation.  The client takes the first path, loses the tunnel and tries again; the
      Coordinator crashes, starts and serves the request it still has. */
  lemma TwoPaths(hash: string -> string, a: Aead, s: Sys, r: V.Reservation, path: Bytes, q: LM.Request)
    returns (s1: Sys, s2: Sys, s3: Sys, crash: LR.Op, s4: Sys, open: LR.Op, s5: Sys, commit: LR.Op, s6: Sys, other: Bytes, s7: Sys)
    requires Correct(a) && LR.Sound(s.ledger) && s.ledger.legacy.None?
    requires q.Commit? && LM.WellTyped(q) && LM.ValidCommit(q) && q.key == r.pass.msg && q.key in s.sent && q.response != path
    requires s.client == Redeeming(r) && Reserved(s, r) && VR.Every(s.slot, V.Valid) && (r.pass.msg, path) in s.replies
    requires !LH.ForGood(a, s.ledger.disk, r.pass.msg, path)
    ensures Step(hash, a, s, Deliver(path), s1) && Step(hash, a, s1, Fail, s2) && Step(hash, a, s2, Begin([], V.Committed), s3)
    ensures Step(hash, a, s3, Ledger(crash), s4) && Step(hash, a, s4, Ledger(open), s5) && Step(hash, a, s5, Serve(commit), s6)
    ensures Step(hash, a, s6, Deliver(other), s7)
    ensures Delivery(r, path) in s7.delivered && Delivery(r, other) in s7.delivered && other != path
  {
    s1, s2, s3 := RetryBegins(hash, a, s, r, path);
    var machines, ops := LE.RegrantsOther(a, s.ledger, q, path);
    crash, open, commit := ops[0], ops[1], ops[2];
    assert LH.Taken(a, machines, ops, 0) && LH.Taken(a, machines, ops, 1) && LH.Taken(a, machines, ops, 2);
    s4 := s3.(ledger := machines[1]);
    s5 := s4.(ledger := machines[2]);
    other := LR.Committed(a, machines[2], commit).1.response;
    s6 := s5.(ledger := machines[3], replies := s5.replies + {(q.key, other)});
    s7 := s6.(client := Up(r, other), delivered := s6.delivered + {Delivery(r, other)});
  }

  // ---------------------------------------------------------------- one pass at a time

  /** The event's transaction on the vault, if any, spares the reservation. */
  predicate SparesHeld(s: Sys, ev: Event, r: V.Reservation) {
    var call := VaultCall(s, ev);
    call.Some? && call.value.Call? ==> VR.Spares(call.value.op, r)
  }

  ghost predicate Reserved(s: Sys, r: V.Reservation) {
    && VR.Every(s.slot, (v: V.Vault) => v.pending == Some(r))
    && (!s.client.Idle? ==> s.client.held == r)
  }

  lemma StepReserved(hash: string -> string, a: Aead, s: Sys, ev: Event, s': Sys, r: V.Reservation)
    requires Step(hash, a, s, ev, s') && Reserved(s, r) && SparesHeld(s, ev, r)
    ensures Reserved(s', r)
    ensures forall x :: x in s'.delivered && x !in s.delivered ==> x.reservation == r
    ensures forall k :: k in s'.sent && k !in s.sent ==> k == r.pass.msg
  {
    var call := VaultCall(s, ev);
    if call.Some? {
      SlotReserved(hash, s.slot, call.value, s'.slot, r);
    }
    if ev.Begin? {
      assert s.slot.Entry(s.slot.file);
    }
  }

  lemma SlotReserved(hash: string -> string, d: V.Slot, ev: VR.Event, d': V.Slot, r: V.Reservation)
    requires VR.Step(hash, d, ev, d') && VR.Every(d, (v: V.Vault) => v.pending == Some(r))
    requires ev.Call? ==> VR.Spares(ev.op, r)
    ensures VR.Every(d', (v: V.Vault) => v.pending == Some(r))
  {
    forall v: V.Vault, w: V.Vault | ev.Call? && v.pending == Some(r) && VR.Turns(hash, v, ev.op, w) ensures w.pending == Some(r) {
      VR.ReservationKeptIff(hash, v, ev.op, r);
    }
    VR.StepEvery(hash, d, ev, d', (v: V.Vault) => v.pending == Some(r));
  }

  /** From the acknowledged reservation of a pass until it is completed, expires or is cleared, no
      other pass is redeemed: everything sent and everything delivered is for this one. */
  lemma {:induction false} OnePass(hash: string -> string, a: Aead, states: seq<Sys>, events: seq<Event>, i: nat, j: nat,
                                   r: V.Reservation)
    requires Run(hash, a, states, events) && i <= j <= |events| && Reserved(states[i], r)
    requires forall n :: i <= n < j ==> SparesHeld(states[n], events[n], r)
    ensures Reserved(states[j], r)
    ensures forall x :: x in states[j].delivered && x !in states[i].delivered ==> x.reservation == r
    ensures forall k :: k in states[j].sent && k !in states[i].sent ==> k == r.pass.msg
  {
    if i < j {
      OnePass(hash, a, states, events, i, j - 1, r);
      assert Taken(hash, a, states, events, j - 1);
      StepReserved(hash, a, states[j - 1], events[j - 1], states[j], r);
    }
  }

  /** A reservation is in force as soon as `reserve_one` has answered with it. */
  lemma BeginReserves(hash: string -> string, a: Aead, s: Sys, ev: Event, s': Sys)
    requires Step(hash, a, s, ev, s') && ev.Begin? && s'.client.Redeeming?
    ensures Reserved(s', s'.client.held)
  {
    VR.Transactional(hash, s.slot, V.Reserve(ev.ids), ev.io);
  }

  // ---------------------------------------------------------------- a redemption that goes through

  /** The client and the Coordinator before a redemption: a pass is queued and none is pending, the ledger
      runs with a handle and has not seen the pass, `q` is what the Coordinator will commit for it, and
      `ids[0]` can serve as a reservation id. */
  ghost predicate Ready(s: Sys, q: LM.Request, ids: seq<string>) {
    var v := V.Loaded(s.slot.file);
    && s.client.Idle? && V.Valid(v) && v.pending.None? && v.tokens != []
    && ids != [] && V.Hex(ids[0], 64) && v.lastId != Some(ids[0])
    && q.Commit? && LM.WellTyped(q) && LM.ValidCommit(q) && q.key == v.tokens[0].msg
    && s.ledger.ledger.Some? && LE.Writable(s.ledger.ledger.value) && q.key !in s.ledger.ledger.value.records
  }

  /** From beginning to end, when nothing fails: the first queued pass is reserved, sent and granted, the
      path is delivered, and the pass is gone from the vault and spent in the ledger. */
  lemma RedeemsOnce(hash: string -> string, a: Aead, s: Sys, q: LM.Request, ids: seq<string>)
    returns (s1: Sys, s2: Sys, commit: LR.Op, s3: Sys, s4: Sys, s5: Sys)
    requires Correct(a) && Ready(s, q, ids)
    ensures Step(hash, a, s, Begin(ids, V.Committed), s1) && Step(hash, a, s1, Send, s2)
    ensures Step(hash, a, s2, Serve(commit), s3) && Step(hash, a, s3, Deliver(q.response), s4)
    ensures Step(hash, a, s4, Finish(V.Committed), s5)
    ensures var v, pass := V.Loaded(s.slot.file), V.Loaded(s.slot.file).tokens[0];
      && s5.client.Idle? && Delivery(V.Reservation(ids[0], pass), q.response) in s5.delivered
      && V.Loaded(s5.slot.file).tokens == v.tokens[1..] && V.Loaded(s5.slot.file).pending.None?
      && s5.ledger.ledger.Some? && pass.msg in s5.ledger.ledger.value.records
  {
    var r := V.Reservation(ids[0], V.Loaded(s.slot.file).tokens[0]);
    var d1, d2 := SlotRound(hash, s.slot, ids);
    s1 := s.(slot := d1, client := Redeeming(r));
    s2 := s1.(sent := s1.sent + {KeyOf(r.pass.msg)});
    commit, s3 := ServesNew(hash, a, s2, q);
    s4 := s3.(client := Up(r, q.response), delivered := s3.delivered + {Delivery(r, q.response)});
    s5 := s4.(slot := d2, client := Idle);
  }

  /** The client's two transactions. */
  lemma SlotRound(hash: string -> string, d: V.Slot, ids: seq<string>) returns (d1: V.Slot, d2: V.Slot)
    requires var v := V.Loaded(d.file); V.Valid(v) && v.pending.None? && v.tokens != [] && ids != [] && v.lastId != Some(ids[0])
    requires V.Hex(ids[0], 64)
    ensures var v := V.Loaded(d.file); var r := V.Reservation(ids[0], v.tokens[0]);
      && V.Mutate(hash, d, V.Reserve(ids), V.Committed) == (d1, V.Ok(V.Reserved(Some(r)))) && V.Hex(r.pass.msg, 64)
      && V.Mutate(hash, d1, V.Complete(ids[0]), V.Committed).0 == d2
      && V.Loaded(d2.file).tokens == v.tokens[1..] && V.Loaded(d2.file).pending.None?
  {
    var other := OtherId(ids[0]);
    VA.RedeemRound(hash, d, ids, 0, other);
    var v := V.Loaded(d.file);
    assert V.Passes(v)[0] == v.tokens[0] && V.ValidPass(V.Passes(v)[0]);
    d1 := V.Mutate(hash, d, V.Reserve(ids), V.Committed).0;
    d2 := V.Mutate(hash, d1, V.Complete(ids[0]), V.Committed).0;
  }

  /** The Coordinator's step: a new pass is granted what was prepared for it. */
  lemma ServesNew(hash: string -> string, a: Aead, s: Sys, q: LM.Request) returns (commit: LR.Op, s': Sys)
    requires Correct(a) && q.Commit? && LM.WellTyped(q) && LM.ValidCommit(q) && q.key in s.sent
    requires s.ledger.ledger.Some? && LE.Writable(s.ledger.ledger.value) && q.key !in s.ledger.ledger.value.records
    ensures Step(hash, a, s, Serve(commit), s')
    ensures s' == s.(ledger := s'.ledger, replies := s.replies + {(q.key, q.response)})
    ensures s'.ledger.ledger.Some? && q.key in s'.ledger.ledger.value.records
  {
    commit := LR.OpCommit(q, FileLedger.Sealed(FileLedger.Appended), [], FileLedger.Rewritten);
    var l := LE.AppendedCommit(a, s.ledger.ledger.value, q);
    s' := s.(ledger := s.ledger.(disk := l.disk, ledger := Some(l)), replies := s.replies + {(q.key, q.response)});
  }

  lemma OtherId(id: string) returns (other: string)
    requires V.Hex(id, 64)
    ensures V.Hex(other, 64) && other != id
  {
    other := id[0 := if id[0] == '0' then '1' else '0'];
    assert other[0] != id[0];
  }

  // ---------------------------------------------------------------- retries deliver

  /** The Coordinator's clock, where the event reads it, is before `until`. */
  predicate Before(ev: Event, until: nat) {
    match ev
    case Serve(op) => LP.Before(op, until)
    case Ledger(op) => LP.Before(op, until)
    case _ => true
  }

  lemma StepKeepsRow(hash: string -> string, a: Aead, s: Sys, ev: Event, s': Sys, key: string, response: Bytes, until: nat)
    requires Correct(a) && Inv(s) && Step(hash, a, s, ev, s') && LP.Deliverable(a, s.ledger.disk, key, response, until)
    requires Before(ev, until)
    ensures LP.Deliverable(a, s'.ledger.disk, key, response, until)
  {
    match ev
    case Serve(op) => LP.StepKeepsRow(a, s.ledger, op, s'.ledger, key, response, until);
    case Ledger(op) => LP.StepKeepsRow(a, s.ledger, op, s'.ledger, key, response, until);
    case _ =>
  }

  lemma {:induction false} RowStays(hash: string -> string, a: Aead, states: seq<Sys>, events: seq<Event>, i: nat, j: nat,
                                    key: string, response: Bytes, until: nat)
    requires Correct(a) && Run(hash, a, states, events) && i <= j <= |events|
    requires LP.Deliverable(a, states[i].ledger.disk, key, response, until)
    requires forall n :: i <= n < j ==> Before(events[n], until)
    ensures LP.Deliverable(a, states[j].ledger.disk, key, response, until)
  {
    if i < j {
      RowStays(hash, a, states, events, i, j - 1, key, response, until);
      RunKeeps(hash, a, states, events, j - 1, j - 1);
      assert Taken(hash, a, states, events, j - 1);
      StepKeepsRow(hash, a, states[j - 1], events[j - 1], states[j], key, response, until);
    }
  }

  /** Step `i` serves a well-formed request for `key`. */
  predicate AsksAt(events: seq<Event>, i: nat, key: string)
    requires i < |events|
  {
    && events[i].Serve? && events[i].commit.OpCommit? && events[i].commit.q.Commit?
    && events[i].commit.q.key == key && LM.ValidCommit(events[i].commit.q)
  }

  /** From the moment a result is deliverable, until its window closes, every well-formed request for the
      pass is answered with it, whoever crashed in between. */
  lemma RetryServed(hash: string -> string, a: Aead, states: seq<Sys>, events: seq<Event>, i: nat, j: nat,
                    key: string, response: Bytes, until: nat)
    requires Correct(a) && Run(hash, a, states, events) && i <= j < |events| && AsksAt(events, j, key)
    requires LP.Deliverable(a, states[i].ledger.disk, key, response, until)
    requires forall n :: i <= n <= j ==> Before(events[n], until)
    ensures Serves(a, states[j], events[j], key, response, false) && (key, response) in states[j + 1].replies
  {
    RowStays(hash, a, states, events, i, j, key, response, until);
    RunKeeps(hash, a, states, events, j, j);
    assert Taken(hash, a, states, events, j) && Before(events[j], until);
    Replays(hash, a, states[j], events[j], states[j + 1], key, response, until);
  }

  lemma Replays(hash: string -> string, a: Aead, s: Sys, ev: Event, s': Sys, key: string, response: Bytes, until: nat)
    requires Inv(s) && Step(hash, a, s, ev, s') && ev.Serve? && ev.commit.q.key == key && LM.ValidCommit(ev.commit.q)
    requires LP.Deliverable(a, s.ledger.disk, key, response, until) && Before(ev, until)
    ensures Serves(a, s, ev, key, response, false) && (key, response) in s'.replies
  {
    LH.InMemory(s.ledger, key, r => LP.Delivers(a, key, r, response, until));
    LP.Replays(a, s.ledger, ev.commit, response, until);
  }

  /** Whatever is lost after a grant, a retry recovers it: while the reservation stands the client
      holds that pass and no other, and the response already granted is all it was and is ever given,
      provided the first answer for that pass was a grant for good. */
  lemma RetryRecovers(hash: string -> string, a: Aead, states: seq<Sys>, events: seq<Event>, i: nat, j: nat,
                      r: V.Reservation, response: Bytes, newly: bool)
    requires Correct(a) && Run(hash, a, states, events) && i < j <= |events|
    requires Reserved(states[i], r) && forall n :: i <= n < j ==> SparesHeld(states[n], events[n], r)
    requires Serves(a, states[i], events[i], r.pass.msg, response, newly)
    requires forall n :: 0 <= n < j ==> FirstForGood(a, states[n], events[n], states[n + 1], r.pass.msg)
    ensures Reserved(states[j], r)
    ensures forall x :: x in states[j].delivered && x !in states[i].delivered ==> x == Delivery(r, response)
    ensures forall x :: x in states[j].replies && x.0 == r.pass.msg ==> x.1 == response
  {
    OnePass(hash, a, states, events, i, j, r);
    var answer := OneAnswer(hash, a, states, events, j, r.pass.msg);
    RunKeeps(hash, a, states, events, i + 1, j);
    assert Taken(hash, a, states, events, i);
    Replied(hash, a, states[i], events[i], states[i + 1], r.pass.msg, response, newly);
  }

  lemma Replied(hash: string -> string, a: Aead, s: Sys, ev: Event, s': Sys, key: string, response: Bytes, newly: bool)
    requires Step(hash, a, s, ev, s') && Serves(a, s, ev, key, response, newly)
    ensures (key, response) in s'.replies
  {
  }
}
