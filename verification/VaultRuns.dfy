/**
 Whole histories of the client vault: any sequence of operations, each failing or succeeding at any
 point of its transaction, with crashes in between.

 A restart of the process changes nothing here, since every operation loads the vault afresh.
 */
module VaultRuns {
  import opened Text
  import opened Vault

  datatype Event = Call(op: Op, io: Io) | Crash

  /** A crash keeps the file the name refers to, or one it referred to before a directory sync. */
  ghost predicate Step(hash: string -> string, d: Slot, ev: Event, d': Slot) {
    match ev
    case Call(op, io) => d' == Mutate(hash, d, op, io).0
    case Crash => d.Entry(d'.file) && d'.shadows == {}
  }

  ghost predicate Run(hash: string -> string, states: seq<Slot>, events: seq<Event>) {
    && |states| == |events| + 1
    && forall n :: 0 <= n < |events| ==> Step(hash, states[n], events[n], states[n + 1])
  }

  // ---------------------------------------------------------------- transactions

  /** A success is durable.  A failure changes nothing or, if only the directory sync failed, has put
      the new vault in place while a crash may still bring the old one back. */
  lemma Transactional(hash: string -> string, d: Slot, op: Op, io: Io)
    ensures var (d', r) := Mutate(hash, d, op, io);
      var applied := Apply(hash, Loaded(d.file), op);
      && (r.Ok? ==> applied.Ok? && r.value == applied.value.1 && forall e :: d'.Entry(e) <==> e == Some(applied.value.0))
      && (r.Err? && !io.DirSyncFails? ==> d' == d)
      && (r.Err? && d' != d ==>
            && io.DirSyncFails? && applied.Ok? && d'.file == Some(applied.value.0)
            && forall e :: d'.Entry(e) <==> e == d'.file || d.Entry(e))
  {
  }

  ghost predicate Every(d: Slot, holds: Vault -> bool) { forall e :: d.Entry(e) ==> holds(Loaded(e)) }

  /** The operation takes the stored vault `v` to the vault `w`. */
  ghost predicate Turns(hash: string -> string, v: Vault, op: Op, w: Vault) {
    Valid(v) && Valid(w) && Apply(hash, v, op).Ok? && Apply(hash, v, op).value.0 == w
  }

  /** A property of vaults survives an event if applying the operation keeps it. */
  lemma StepEvery(hash: string -> string, d: Slot, ev: Event, d': Slot, holds: Vault -> bool)
    requires Step(hash, d, ev, d') && Every(d, holds)
    requires ev.Call? ==> forall v, w :: holds(v) && Turns(hash, v, ev.op, w) ==> holds(w)
    ensures Every(d', holds)
  {
    if ev.Call? {
      Transactional(hash, d, ev.op, ev.io);
      assert d.Entry(d.file);
      var v := Loaded(d.file);
      if d' != d {
        assert holds(v) && Turns(hash, v, ev.op, Apply(hash, v, ev.op).value.0);
      }
    }
  }

  lemma {:induction false} RunEvery(hash: string -> string, states: seq<Slot>, events: seq<Event>, i: nat, j: nat,
                                    holds: Vault -> bool)
    requires Run(hash, states, events) && i <= j <= |events| && Every(states[i], holds)
    requires forall n, v, w :: i <= n < j && events[n].Call? && holds(v) && Turns(hash, v, events[n].op, w) ==> holds(w)
    ensures Every(states[j], holds)
  {
    if i < j {
      RunEvery(hash, states, events, i, j - 1, holds);
      StepEvery(hash, states[j - 1], events[j - 1], states[j], holds);
    }
  }

  /** Every vault ever on the medium validates. */
  lemma StoredValid(hash: string -> string, states: seq<Slot>, events: seq<Event>, i: nat)
    requires Run(hash, states, events) && i <= |events| && Every(states[0], Valid)
    ensures Every(states[i], Valid)
  {
    RunEvery(hash, states, events, 0, i, Valid);
  }

  // ---------------------------------------------------------------- conservation of passes

  function Held(v: Vault): multiset<Pass> { multiset(Passes(v)) }

  /** Why passes came and went. */
  datatype Tally = Tally(added: multiset<Pass>, spent: multiset<Pass>, expired: multiset<Pass>, cleared: multiset<Pass>) {
    function Plus(t: Tally): Tally {
      Tally(added + t.added, spent + t.spent, expired + t.expired, cleared + t.cleared)
    }
  }

  const Nothing: Tally := Tally(multiset{}, multiset{}, multiset{}, multiset{})

  function Unredeemable(s: seq<Pass>, now: nat): seq<Pass> {
    if s == [] then [] else
    Unredeemable(s[..|s| - 1], now) + if Redeemable(s[|s| - 1].msg, now) then [] else [s[|s| - 1]]
  }

  /** The account an operation gives of the passes it moves: minted and paid passes come in, the
      reserved pass is spent by its completion, unredeemable ones expire. */
  function Moved(v: Vault, op: Op): Tally {
    match op
    case Reserve(_) => Nothing
    case Complete(_) => Nothing.(spent := if v.pending.Some? then multiset{v.pending.value.pass} else multiset{})
    case BeginMint(_) => Nothing
    case CommitMint(_, minted) => Nothing.(added := multiset(minted))
    case BeginIssue(_) => Nothing
    case CommitIssue(_, issued) => Nothing.(added := if v.issue.Some? then multiset{issued} else multiset{})
    case Add(added) => Nothing.(added := multiset(added))
    case Prune(now) => Nothing.(expired := multiset(Unredeemable(Passes(v), now)))
    case ReplaceAccount(_) => Nothing.(cleared := Held(v))
    case ClearAll => Nothing.(cleared := Held(v))
    case Clear => Nothing.(cleared := Held(v))
  }

  lemma {:induction false} KeptAndDropped(s: seq<Pass>, now: nat)
    ensures multiset(s) == multiset(Kept(s, now)) + multiset(Unredeemable(s, now))
  {
    if s != [] {
      var front, last := s[..|s| - 1], s[|s| - 1];
      KeptAndDropped(front, now);
      assert s == front + [last];
      AddedOnOneSide(front, Kept(front, now), Unredeemable(front, now), last);
      if Redeemable(last.msg, now) {
        assert Unredeemable(s, now) == Unredeemable(front, now);
      } else {
        assert Kept(s, now) == Kept(front, now);
      }
    }
  }

  lemma AddedOnOneSide(whole: seq<Pass>, left: seq<Pass>, right: seq<Pass>, p: Pass)
    requires multiset(whole) == multiset(left) + multiset(right)
    ensures multiset(whole + [p]) == multiset(left + [p]) + multiset(right) == multiset(left) + multiset(right + [p])
  {
  }

  lemma PrunePasses(v: Vault, now: nat)
    ensures Passes(PruneVault(v, now)) == Kept(Passes(v), now)
  {
    var all := Passes(v);
    if v.pending.Some? {
      assert all[..|all| - 1] == v.tokens;
    } else {
      assert all == v.tokens;
    }
  }

  /** `before` and what came in is `after` and what went. */
  ghost predicate Balances(before: multiset<Pass>, t: Tally, after: multiset<Pass>) {
    before + t.added == after + t.spent + t.expired + t.cleared
  }

  lemma Chained(x: multiset<Pass>, t: Tally, y: multiset<Pass>, u: Tally, z: multiset<Pass>)
    requires Balances(x, t, y) && Balances(y, u, z)
    ensures Balances(x, t.Plus(u), z)
  {
    calc {
      x + (t.added + u.added);
      (x + t.added) + u.added;
      (y + u.added) + (t.spent + t.expired + t.cleared);
      z + (t.spent + u.spent) + (t.expired + u.expired) + (t.cleared + u.cleared);
    }
  }

  lemma HeldIs(v: Vault)
    ensures Held(v) == multiset(v.tokens) + if v.pending.Some? then multiset{v.pending.value.pass} else multiset{}
  {
    assert v.pending.Some? ==> multiset([v.pending.value.pass]) == multiset{v.pending.value.pass};
  }

  lemma ReserveBalanced(v: Vault, ids: seq<string>)
    requires ReserveOne(v, ids).Ok?
    ensures Balances(Held(v), Nothing, Held(ReserveOne(v, ids).value.0))
  {
    if v.pending.None? && v.tokens != [] {
      HeldIs(v);
      HeldIs(ReserveOne(v, ids).value.0);
      assert v.tokens == [v.tokens[0]] + v.tokens[1..];
    }
  }

  lemma AppendBalanced(v: Vault, w: Vault, added: seq<Pass>, t: Tally)
    requires w.tokens == v.tokens + added && w.pending == v.pending && t == Nothing.(added := multiset(added))
    ensures Balances(Held(v), t, Held(w))
  {
    HeldIs(v);
    HeldIs(w);
  }

  lemma IssueBalanced(v: Vault, paymentId: string, issued: Pass, receipt: string)
    requires FinishIssue(v, paymentId, issued, receipt).Ok?
    ensures Balances(Held(v), Moved(v, CommitIssue(paymentId, issued)), Held(FinishIssue(v, paymentId, issued, receipt).value.0))
  {
    var t := Moved(v, CommitIssue(paymentId, issued));
    if v.issue.Some? {
      assert multiset([issued]) == multiset{issued};
      AppendBalanced(v, FinishIssue(v, paymentId, issued, receipt).value.0, [issued], t);
    }
  }

  lemma StillBalanced(v: Vault, w: Vault)
    requires w.tokens == v.tokens && w.pending == v.pending
    ensures Balances(Held(v), Nothing, Held(w))
  {
  }

  lemma ClearBalanced(v: Vault, w: Vault)
    requires w.tokens == [] && w.pending == None
    ensures Balances(Held(v), Nothing.(cleared := Held(v)), Held(w))
  {
    HeldIs(w);
  }

  lemma CompleteBalanced(v: Vault, id: string)
    requires CommitRedemption(v, id).Ok?
    ensures Balances(Held(v), Moved(v, Complete(id)), Held(CommitRedemption(v, id).value.0))
  {
    HeldIs(v);
    HeldIs(CommitRedemption(v, id).value.0);
  }

  lemma PruneBalanced(v: Vault, now: nat)
    ensures Balances(Held(v), Moved(v, Prune(now)), Held(PruneVault(v, now)))
  {
    PrunePasses(v, now);
    KeptAndDropped(Passes(v), now);
  }

  /** Every successful operation accounts for the passes it moves. */
  lemma Balanced(hash: string -> string, v: Vault, op: Op)
    requires Apply(hash, v, op).Ok?
    ensures Balances(Held(v), Moved(v, op), Held(Apply(hash, v, op).value.0))
  {
    var w := Apply(hash, v, op).value.0;
    match op
    case Reserve(ids) => ReserveBalanced(v, ids);
    case Complete(id) => CompleteBalanced(v, id);
    case BeginMint(_) => StillBalanced(v, w);
    case BeginIssue(_) => StillBalanced(v, w);
    case CommitIssue(paymentId, issued) => IssueBalanced(v, paymentId, issued, hash(paymentId));
    case Prune(now) => PruneBalanced(v, now);
    case _ => GrownOrCleared(hash, v, op);
  }

  lemma GrownOrCleared(hash: string -> string, v: Vault, op: Op)
    requires op.CommitMint? || op.Add? || op.ReplaceAccount? || op.ClearAll? || op.Clear?
    requires Apply(hash, v, op).Ok?
    ensures Balances(Held(v), Moved(v, op), Held(Apply(hash, v, op).value.0))
  {
    var w := Apply(hash, v, op).value.0;
    match op
    case CommitMint(_, minted) => AppendBalanced(v, w, minted, Moved(v, op));
    case Add(added) => AppendBalanced(v, w, added, Moved(v, op));
    case _ => ClearBalanced(v, w);
  }

  /** The vault after a chain of successful operations. */
  function Replay(hash: string -> string, v: Vault, chain: seq<Op>): Option<Vault> {
    if chain == [] then Some(v) else
    var u := Replay(hash, v, chain[..|chain| - 1]);
    if u.None? then None else
    match Apply(hash, u.value, chain[|chain| - 1])
    case Ok(p) => if Valid(p.0) then Some(p.0) else None
    case Err(_) => None
  }

  function Total(hash: string -> string, v: Vault, chain: seq<Op>): Tally {
    if chain == [] then Nothing else
    var u := Replay(hash, v, chain[..|chain| - 1]);
    if u.None? then Nothing else Total(hash, v, chain[..|chain| - 1]).Plus(Moved(u.value, chain[|chain| - 1]))
  }

  lemma {:induction false} ChainBalanced(hash: string -> string, v: Vault, chain: seq<Op>)
    requires Replay(hash, v, chain).Some?
    ensures Balances(Held(v), Total(hash, v, chain), Held(Replay(hash, v, chain).value))
  {
    if chain != [] {
      var front := chain[..|chain| - 1];
      ChainBalanced(hash, v, front);
      var u, op := Replay(hash, v, front).value, chain[|chain| - 1];
      Balanced(hash, u, op);
      Chained(Held(v), Total(hash, v, front), Held(u), Moved(u, op), Held(Replay(hash, v, chain).value));
    }
  }

  /** The call put a new vault under the name, whether or not it was then acknowledged. */
  ghost predicate Renames(hash: string -> string, d: Slot, ev: Event, w: Vault) {
    ev.Call? && (ev.io.Committed? || ev.io.DirSyncFails?) && Turns(hash, Loaded(d.file), ev.op, w)
  }

  predicate Acknowledged(hash: string -> string, d: Slot, ev: Event) {
    ev.Call? && Mutate(hash, d, ev.op, ev.io).1.Ok?
  }

  /** `chain` lists, in order, calls made from state `i` to state `j` that put a new vault in place,
      and among them every acknowledged one. */
  ghost predicate TookEffect(hash: string -> string, states: seq<Slot>, events: seq<Event>, i: nat, j: nat, chain: seq<Op>)
    requires |states| == |events| + 1 && i <= j <= |events|
    decreases j
  {
    if i == j then chain == [] else
    var (d, ev) := (states[j - 1], events[j - 1]);
    || (!Acknowledged(hash, d, ev) && TookEffect(hash, states, events, i, j - 1, chain))
    || (&& chain != [] && ev.Call? && ev.op == chain[|chain| - 1] && (exists w :: Renames(hash, d, ev, w))
        && TookEffect(hash, states, events, i, j - 1, chain[..|chain| - 1]))
  }

  lemma ReplaySnoc(hash: string -> string, v: Vault, front: seq<Op>, u: Vault, op: Op, w: Vault)
    requires Replay(hash, v, front) == Some(u) && Turns(hash, u, op, w)
    ensures Replay(hash, v, front + [op]) == Some(w)
  {
    assert (front + [op])[..|front|] == front;
  }

  /** After an acknowledged call, and for any new entry, what is there is the old vault turned by it. */
  lemma NewEntry(hash: string -> string, d: Slot, ev: Event, d': Slot, e: Option<Vault>)
    requires Step(hash, d, ev, d') && d'.Entry(e) && (Acknowledged(hash, d, ev) || !d.Entry(e))
    ensures Renames(hash, d, ev, Loaded(e))
  {
    if ev.Call? { Transactional(hash, d, ev.op, ev.io); }
  }

  /** Nothing acknowledged is lost and nothing half done is kept: from any point where the medium is
      settled, every vault a later crash may bring back is that vault after calls that took effect,
      each applied whole and in order, with every acknowledged one among them. */
  lemma {:induction false} Lineage(hash: string -> string, states: seq<Slot>, events: seq<Event>, i: nat, j: nat,
                                   e: Option<Vault>) returns (chain: seq<Op>)
    requires Run(hash, states, events) && i <= j <= |events| && states[i].shadows == {} && states[j].Entry(e)
    ensures TookEffect(hash, states, events, i, j, chain)
    ensures Replay(hash, Loaded(states[i].file), chain) == Some(Loaded(e))
    decreases j
  {
    if i == j {
      chain := [];
    } else {
      var d, ev := states[j - 1], events[j - 1];
      assert Step(hash, d, ev, states[j]);
      if !Acknowledged(hash, d, ev) && d.Entry(e) {
        chain := Lineage(hash, states, events, i, j - 1, e);
      } else {
        NewEntry(hash, d, ev, states[j], e);
        var front := Lineage(hash, states, events, i, j - 1, d.file);
        ReplaySnoc(hash, Loaded(states[i].file), front, Loaded(d.file), ev.op, Loaded(e));
        chain := front + [ev.op];
        assert chain[..|front|] == front;
      }
    }
  }

  /** Conservation over a whole run: of the passes in the first vault and those added since, each is
      still held, or was spent by its own completion, or expired, or was cleared, by calls that took
      effect. */
  lemma Conserved(hash: string -> string, states: seq<Slot>, events: seq<Event>, i: nat, j: nat, e: Option<Vault>)
    returns (chain: seq<Op>)
    requires Run(hash, states, events) && i <= j <= |events| && states[i].shadows == {} && states[j].Entry(e)
    ensures TookEffect(hash, states, events, i, j, chain) && Replay(hash, Loaded(states[i].file), chain) == Some(Loaded(e))
    ensures var v := Loaded(states[i].file); Balances(Held(v), Total(hash, v, chain), Held(Loaded(e)))
  {
    chain := Lineage(hash, states, events, i, j, e);
    ChainBalanced(hash, Loaded(states[i].file), chain);
  }

  // ---------------------------------------------------------------- reservations

  /** The operation leaves the reservation alone: it is not its completion, does not find it expired
      and clears nothing. */
  predicate Spares(op: Op, r: Reservation) {
    match op
    case Complete(id) => id != r.id
    case Prune(now) => Redeemable(r.pass.msg, now)
    case ReplaceAccount(_) => false
    case ClearAll => false
    case Clear => false
    case _ => true
  }

  /** An operation that succeeds on a vault keeps its reservation if and only if it spares it. */
  lemma ReservationKeptIff(hash: string -> string, v: Vault, op: Op, r: Reservation)
    requires v.pending == Some(r) && Apply(hash, v, op).Ok?
    ensures Apply(hash, v, op).value.0.pending == Some(r) <==> Spares(op, r)
    ensures !Spares(op, r) ==> Apply(hash, v, op).value.0.pending == None
  {
  }

  /** Once a reservation is acknowledged it stands in every vault that any crash may bring back, as
      long as every operation called since spares it. */
  lemma ReservationStands(hash: string -> string, states: seq<Slot>, events: seq<Event>, i: nat, j: nat, r: Reservation)
    requires Run(hash, states, events) && i <= j <= |events|
    requires states[i].shadows == {} && Loaded(states[i].file).pending == Some(r)
    requires forall n :: i <= n < j && events[n].Call? ==> Spares(events[n].op, r)
    ensures Every(states[j], (v: Vault) => v.pending == Some(r))
  {
    forall n, v: Vault, w: Vault | i <= n < j && events[n].Call? && v.pending == Some(r) && Turns(hash, v, events[n].op, w)
      ensures w.pending == Some(r)
    {
      ReservationKeptIff(hash, v, events[n].op, r);
    }
    RunEvery(hash, states, events, i, j, (v: Vault) => v.pending == Some(r));
  }

  /** `reserve_one` answers with the same id and the same pass until then, whatever fails, restarts or
      crashes in between, so no second pass is handed out. */
  lemma ReserveStable(hash: string -> string, states: seq<Slot>, events: seq<Event>, i: nat, j: nat, r: Reservation)
    requires Run(hash, states, events) && i <= j < |events|
    requires events[i].Call? && events[i].op.Reserve? && events[j].Call? && events[j].op.Reserve?
    requires Mutate(hash, states[i], events[i].op, events[i].io).1 == Ok(Reserved(Some(r)))
    requires forall n :: i < n < j && events[n].Call? ==> Spares(events[n].op, r)
    requires Mutate(hash, states[j], events[j].op, events[j].io).1.Ok?
    ensures Mutate(hash, states[j], events[j].op, events[j].io).1 == Ok(Reserved(Some(r)))
  {
    if i < j {
      assert Step(hash, states[i], events[i], states[i + 1]);
      Transactional(hash, states[i], events[i].op, events[i].io);
      ReservationStands(hash, states, events, i + 1, j, r);
      assert states[j].Entry(states[j].file);
    }
  }

  // ---------------------------------------------------------------- issuance in flight

  /** The operation leaves the pending batch alone. */
  predicate SparesMint(op: Op, m: Mint) {
    match op
    case CommitMint(id, _) => id != m.requestId
    case Prune(now) => MintRecoverable(m, now)
    case ReplaceAccount(_) => false
    case ClearAll => false
    case Clear => false
    case _ => true
  }

  lemma MintKeptIff(hash: string -> string, v: Vault, op: Op, m: Mint)
    requires v.mint == Some(m) && Apply(hash, v, op).Ok?
    ensures Apply(hash, v, op).value.0.mint == Some(m) <==> SparesMint(op, m)
  {
  }

  /** Every retry of a subscription mint sends the very batch that was stored first: `begin_mint`
      answers with it, whatever is proposed, until it is committed, expires or is cleared. */
  lemma MintStable(hash: string -> string, states: seq<Slot>, events: seq<Event>, i: nat, j: nat, m: Mint)
    requires Run(hash, states, events) && i < j < |events|
    requires events[i].Call? && events[i].op.BeginMint? && events[j].Call? && events[j].op.BeginMint?
    requires Mutate(hash, states[i], events[i].op, events[i].io).1 == Ok(MintPending(m))
    requires forall n :: i < n < j && events[n].Call? ==> SparesMint(events[n].op, m)
    requires Mutate(hash, states[j], events[j].op, events[j].io).1.Ok?
    ensures Mutate(hash, states[j], events[j].op, events[j].io).1 == Ok(MintPending(m))
  {
    assert Step(hash, states[i], events[i], states[i + 1]);
    Transactional(hash, states[i], events[i].op, events[i].io);
    forall n, v: Vault, w: Vault | i < n < j && events[n].Call? && v.mint == Some(m) && Turns(hash, v, events[n].op, w)
      ensures w.mint == Some(m)
    {
      MintKeptIff(hash, v, events[n].op, m);
    }
    RunEvery(hash, states, events, i + 1, j, (v: Vault) => v.mint == Some(m));
    assert states[j].Entry(states[j].file);
  }

  /** The payment is on record as completed and nothing is pending for it. */
  predicate PaidFor(hash: string -> string, v: Vault, paymentId: string) {
    v.receipt == Some(hash(paymentId)) && (v.issue.Some? ==> v.issue.value.paymentId != paymentId)
  }

  /** The operation completes no other payment and clears nothing. */
  predicate SparesPaid(op: Op, paymentId: string) {
    match op
    case CommitIssue(id, _) => id == paymentId
    case ReplaceAccount(_) => false
    case ClearAll => false
    case Clear => false
    case _ => true
  }

  lemma PaidKept(hash: string -> string, v: Vault, op: Op, w: Vault, paymentId: string)
    requires PaidFor(hash, v, paymentId) && Turns(hash, v, op, w) && SparesPaid(op, paymentId)
    ensures PaidFor(hash, w, paymentId)
  {
  }

  /** One payment, one pass: once its issuance is acknowledged, and until another payment completes or
      the vault is cleared, beginning it again is answered as completed and committing it again adds
      nothing. */
  lemma PaidOnce(hash: string -> string, states: seq<Slot>, events: seq<Event>, i: nat, j: nat, paymentId: string)
    requires Run(hash, states, events) && i < j <= |events|
    requires events[i].Call? && events[i].op.CommitIssue? && events[i].op.paymentId == paymentId
    requires Mutate(hash, states[i], events[i].op, events[i].io).1.Ok?
    requires forall n :: i < n < j && events[n].Call? ==> SparesPaid(events[n].op, paymentId)
    ensures var v := Loaded(states[j].file);
      && (forall x: Issue :: x.paymentId == paymentId ==> Apply(hash, v, BeginIssue(x)) == Ok((v, IssueCompleted(|v.tokens|))))
      && (forall p :: var r := Apply(hash, v, CommitIssue(paymentId, p)); r.Ok? ==> r.value == (v, Count(|v.tokens|)))
  {
    assert Step(hash, states[i], events[i], states[i + 1]);
    IssuedPaid(hash, states[i], events[i].op, events[i].io);
    forall n, v: Vault, w: Vault | i < n < j && events[n].Call? && PaidFor(hash, v, paymentId) && Turns(hash, v, events[n].op, w)
      ensures PaidFor(hash, w, paymentId)
    {
      PaidKept(hash, v, events[n].op, w, paymentId);
    }
    RunEvery(hash, states, events, i + 1, j, (v: Vault) => PaidFor(hash, v, paymentId));
    assert states[j].Entry(states[j].file);
  }

  lemma IssuedPaid(hash: string -> string, d: Slot, op: Op, io: Io)
    requires op.CommitIssue? && Mutate(hash, d, op, io).1.Ok?
    ensures Every(Mutate(hash, d, op, io).0, (v: Vault) => PaidFor(hash, v, op.paymentId))
  {
    Transactional(hash, d, op, io);
  }

  // ---------------------------------------------------------------- completions

  /** A completion changes a vault if and only if it names the pending reservation, and then it only
      turns that reservation into the receipt. */
  lemma CompletionIff(hash: string -> string, v: Vault, id: string)
    requires Valid(v)
    ensures var r := Apply(hash, v, Complete(id));
      && ((r.Ok? && r.value.0 != v) <==> (v.pending.Some? && v.pending.value.id == id))
      && (r.Ok? && r.value.0 != v ==> r.value.0 == v.(pending := None, lastId := Some(id)) && Valid(r.value.0))
      && (r.Ok? && r.value.0 == v <==> v.pending.None? && v.lastId == Some(id))
  {
    if v.pending.Some? && v.pending.value.id == id {
      var w := v.(pending := None, lastId := Some(id));
      assert Passes(w) == v.tokens && Passes(v)[..|v.tokens|] == v.tokens;
      assert forall k :: 0 <= k < |v.tokens| ==> v.tokens[k] == Passes(v)[k];
    }
  }

  /** The operation completes no other reservation and clears nothing. */
  predicate KeepsReceipt(op: Op, id: string) {
    match op
    case Complete(other) => other == id
    case ReplaceAccount(_) => false
    case ClearAll => false
    case Clear => false
    case _ => true
  }

  lemma ReceiptKept(hash: string -> string, v: Vault, op: Op, w: Vault, id: string)
    requires Turns(hash, v, op, w) && v.lastId == Some(id) && KeepsReceipt(op, id)
    ensures w.lastId == Some(id)
  {
  }

  /** As long as no other completion and no clearing is called, the latest completed id can be
      completed again without changing any vault: it answers `Done` while nothing is pending and
      is refused while a newer reservation is. */
  lemma RepeatHarmless(hash: string -> string, states: seq<Slot>, events: seq<Event>, i: nat, j: nat, id: string)
    requires Run(hash, states, events) && i < j <= |events| && Every(states[0], Valid)
    requires events[i].Call? && events[i].op == Complete(id) && Mutate(hash, states[i], events[i].op, events[i].io).1.Ok?
    requires forall n :: i < n < j && events[n].Call? ==> KeepsReceipt(events[n].op, id)
    ensures var v := Loaded(states[j].file);
      Apply(hash, v, Complete(id)) == if v.pending.None? then Ok((v, Done)) else Err(ReservationMismatch)
  {
    CompletedReceipt(hash, states[i], events[i], states[i + 1], id);
    forall n, v: Vault, w: Vault | i < n < j && events[n].Call? && v.lastId == Some(id) && Turns(hash, v, events[n].op, w)
      ensures w.lastId == Some(id)
    {
      ReceiptKept(hash, v, events[n].op, w, id);
    }
    RunEvery(hash, states, events, i + 1, j, (v: Vault) => v.lastId == Some(id));
    StoredValid(hash, states, events, j);
    assert states[j].Entry(states[j].file);
  }

  lemma CompletedReceipt(hash: string -> string, d: Slot, ev: Event, d': Slot, id: string)
    requires Step(hash, d, ev, d') && ev.Call? && ev.op == Complete(id) && Mutate(hash, d, ev.op, ev.io).1.Ok?
    ensures Every(d', (v: Vault) => v.lastId == Some(id))
  {
    Transactional(hash, d, ev.op, ev.io);
  }

  // ---------------------------------------------------------------- the note of origin

  function Renamed(p: Pass, f: Origin -> Origin): Pass { p.(origin := f(p.origin)) }

  function RenamedAll(s: seq<Pass>, f: Origin -> Origin): seq<Pass> { seq(|s|, i requires 0 <= i < |s| => Renamed(s[i], f)) }

  function RenamedVault(v: Vault, f: Origin -> Origin): Vault {
    v.(tokens := RenamedAll(v.tokens, f),
       pending := if v.pending.None? then None else Some(v.pending.value.(pass := Renamed(v.pending.value.pass, f))))
  }

  function RenamedOp(op: Op, f: Origin -> Origin): Op {
    match op
    case CommitMint(id, minted) => CommitMint(id, RenamedAll(minted, f))
    case CommitIssue(id, issued) => CommitIssue(id, Renamed(issued, f))
    case Add(added) => Add(RenamedAll(added, f))
    case _ => op
  }

  lemma {:induction false} KeptRenamed(s: seq<Pass>, now: nat, f: Origin -> Origin)
    ensures Kept(RenamedAll(s, f), now) == RenamedAll(Kept(s, now), f)
  {
    if s != [] {
      KeptRenamed(s[..|s| - 1], now, f);
      assert RenamedAll(s, f)[..|s| - 1] == RenamedAll(s[..|s| - 1], f);
    }
  }

  /** The note of origin steers nothing: changing every note throughout changes neither whether an
      operation succeeds nor anything else it leaves behind. */
  lemma Relabelled(hash: string -> string, v: Vault, op: Op, f: Origin -> Origin)
    ensures var (r, s) := (Apply(hash, v, op), Apply(hash, RenamedVault(v, f), RenamedOp(op, f)));
      r.Ok? == s.Ok? && (r.Ok? ==> s.value.0 == RenamedVault(r.value.0, f)) && (r.Err? ==> s == r)
    ensures Valid(RenamedVault(v, f)) == Valid(v)
  {
    ValidRenamed(v, f);
    ApplyRenamed(hash, v, op, f);
  }

  lemma ApplyRenamed(hash: string -> string, v: Vault, op: Op, f: Origin -> Origin)
    ensures var (r, s) := (Apply(hash, v, op), Apply(hash, RenamedVault(v, f), RenamedOp(op, f)));
      r.Ok? == s.Ok? && (r.Ok? ==> s.value.0 == RenamedVault(r.value.0, f)) && (r.Err? ==> s == r)
  {
    match op
    case Prune(now) => KeptRenamed(v.tokens, now, f);
    case _ =>
  }

  lemma ValidRenamed(v: Vault, f: Origin -> Origin)
    ensures Valid(RenamedVault(v, f)) == Valid(v)
  {
    var (p, q) := (Passes(v), Passes(RenamedVault(v, f)));
    assert |p| == |q| && forall k :: 0 <= k < |p| ==> q[k].msg == p[k].msg && q[k].token == p[k].token;
    assert forall k :: 0 <= k < |p| ==> ValidPass(q[k]) == ValidPass(p[k]);
  }
}
