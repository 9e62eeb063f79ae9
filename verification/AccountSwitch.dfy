/**
 Account changes against credential work in flight: the refill worker, one-payment purchases, logout
 and account replacement as tasks that interleave at every await
 (client/src-tauri/src/tokenrefill.rs, client/src-tauri/src/tokens.rs, client/src-tauri/src/lib.rs).

 One mutex serializes them; connecting takes no part in it and may touch the vault at any time.
 Whatever the Portal answers, a task may also fail or be dropped at any step.
 */
module AccountSwitch {
  import opened Text
  import opened Vault
  import VaultRuns
  import VaultAnswers

  const RefillTarget: nat := 8
  const LowWatermark: nat := 3

  /** `refill_batch_size`: a refill fills up to the target exactly, and only a low buffer. */
  function RefillBatch(current: nat): (n: Option<nat>)
    ensures n.Some? <==> current <= 3
    ensures n.Some? ==> current + n.value == 8
  {
    if current <= LowWatermark && RefillTarget > current then Some(RefillTarget - current) else None
  }

  // ---------------------------------------------------------------- tasks

  /** Where `refill_once` stands.  `gen` is the generation it started under. */
  datatype RefillAt =
    | Waiting
    | Locked
    | Started(gen: nat)
    | Swept(gen: nat)
    | Wanting(gen: nat, count: nat)
    | Authed(gen: nat, count: nat, material: Account)
    | Preparing(gen: nat, count: nat, material: Account)
    | Found(gen: nat, material: Account, mint: Mint)
    | Finished(gen: nat, material: Account, requestId: string, passes: seq<Pass>)
    | Rechecking(material: Account, requestId: string, passes: seq<Pass>)
    | Checked(material: Account, requestId: string, passes: seq<Pass>)

  datatype BuyAt = BuyWaiting | BuyLocked | BuySwept | BuyLooking | BuyPreparing | BuyFound(issue: Issue)

  datatype ChangeAt = ChangeWaiting | ChangeLocked

  /** A change to `None` is a logout. */
  datatype Task =
    | Refill(refill: RefillAt)
    | Buy(paymentId: string, buy: BuyAt)
    | Change(target: Option<Account>, change: ChangeAt)
  {
    predicate Waits() {
      match this
      case Refill(at) => at.Waiting?
      case Buy(_, at) => at.BuyWaiting?
      case Change(_, at) => at.ChangeWaiting?
    }

    /** Just past the gate. */
    function Entered(): Task {
      match this
      case Refill(_) => Refill(Locked)
      case Buy(paymentId, _) => Buy(paymentId, BuyLocked)
      case Change(target, _) => Change(target, ChangeLocked)
    }
  }

  /** What the outside world hands a task at one step: the fate of its transaction, the clock, the
      request it blinds and what the issuer's answer finalizes to. */
  datatype Input = Input(io: Io, now: nat, mint: Mint, passes: seq<Pass>, issue: Issue, pass: Pass)

  predicate Readable(d: Slot, io: Io) { !io.Unreadable? && Valid(Loaded(d.file)) }

  /** A finalized batch: one pass per request, minted on `account`. */
  predicate Finalizes(passes: seq<Pass>, mint: Mint, account: string) {
    |passes| == |mint.requests|
    && forall i :: 0 <= i < |passes| ==> passes[i].msg == mint.requests[i].msg && passes[i].origin == Minted(account)
  }

  /** One step of `refill_once` and `mint_batch_into_store`; `None` once it is over. */
  function RefillNext(hash: string -> string, d: Slot, generation: nat, at: RefillAt, x: Input): (Slot, Option<RefillAt>) {
    var v := Loaded(d.file);
    match at
    case Waiting => (d, Some(at))
    case Locked => (d, Some(Started(generation)))
    case Started(g) =>
      var (d', r) := Mutate(hash, d, Prune(x.now), x.io);
      (d', if r.Ok? then Some(Swept(g)) else None)
    case Swept(g) =>
      (d, if Readable(d, x.io) && RefillBatch(|Passes(v)|).Some? then Some(Wanting(g, RefillBatch(|Passes(v)|).value)) else None)
    case Wanting(g, n) =>
      (d, if Readable(d, x.io) && v.auth.Some? then Some(Authed(g, n, v.auth.value)) else None)
    case Authed(g, n, m) =>
      (d, if !Readable(d, x.io) then None else if v.mint.Some? then Some(Found(g, m, v.mint.value)) else Some(Preparing(g, n, m)))
    case Preparing(g, n, m) =>
      if !(ValidMint(x.mint) && x.mint.account == m.number && |x.mint.requests| == n) then (d, None) else
      var (d', r) := Mutate(hash, d, BeginMint(x.mint), x.io);
      (d', if r.Ok? && r.value.MintPending? then Some(Found(g, m, r.value.mint)) else None)
    case Found(g, m, mint) =>
      (d, if mint.account == m.number && Finalizes(x.passes, mint, m.number) then Some(Finished(g, m, mint.requestId, x.passes)) else None)
    case Finished(g, m, id, passes) =>
      (d, if generation == g then Some(Rechecking(m, id, passes)) else None)
    case Rechecking(m, id, passes) =>
      (d, if Readable(d, x.io) && v.auth == Some(m) then Some(Checked(m, id, passes)) else None)
    case Checked(m, id, passes) =>
      (Mutate(hash, d, CommitMint(id, passes), x.io).0, None)
  }

  /** One step of `buy_tokens` and `acquire_into_store`. */
  function BuyNext(hash: string -> string, d: Slot, paymentId: string, at: BuyAt, x: Input): (Slot, Option<BuyAt>) {
    var v := Loaded(d.file);
    match at
    case BuyWaiting => (d, Some(at))
    case BuyLocked =>
      var (d', r) := Mutate(hash, d, Prune(x.now), x.io);
      (d', if r.Ok? then Some(BuySwept) else None)
    case BuySwept =>
      (d, if Readable(d, x.io) && v.receipt != Some(hash(paymentId)) then Some(BuyLooking) else None)
    case BuyLooking =>
      (d, if !Readable(d, x.io) then None else if v.issue.Some? then Some(BuyFound(v.issue.value)) else Some(BuyPreparing))
    case BuyPreparing =>
      if !(ValidIssue(x.issue) && x.issue.paymentId == paymentId) then (d, None) else
      var (d', r) := Mutate(hash, d, BeginIssue(x.issue), x.io);
      (d', if r.Ok? && r.value.IssuePending? then Some(BuyFound(r.value.issue)) else None)
    case BuyFound(issue) =>
      if !(issue.paymentId == paymentId && x.pass.msg == issue.request.msg && x.pass.origin == Paid) then (d, None) else
      (Mutate(hash, d, CommitIssue(paymentId, x.pass), x.io).0, None)
  }

  /** Logout and account replacement: one transaction under the gate. */
  function ChangeOp(target: Option<Account>): Op {
    if target.Some? then ReplaceAccount(target.value) else ClearAll
  }

  function Next(hash: string -> string, d: Slot, generation: nat, task: Task, x: Input): (Slot, Option<Task>) {
    match task
    case Refill(at) =>
      var (d', at') := RefillNext(hash, d, generation, at, x);
      (d', if at'.Some? then Some(Refill(at'.value)) else None)
    case Buy(paymentId, at) =>
      var (d', at') := BuyNext(hash, d, paymentId, at, x);
      (d', if at'.Some? then Some(Buy(paymentId, at'.value)) else None)
    case Change(target, ChangeWaiting) => (d, Some(task))
    case Change(target, ChangeLocked) => (Mutate(hash, d, ChangeOp(target), x.io).0, None)
  }

  // ---------------------------------------------------------------- the system

  datatype Sys = Sys(disk: Slot, gate: Option<nat>, generation: nat, tasks: map<nat, Task>)

  datatype Event =
    | Start(t: nat, task: Task)
    | Lock(t: nat)
    | Go(t: nat, x: Input)
    | Drop(t: nat)
    | Connect(op: Op, io: Io)
    | Restart
    | Crash

  /** Connecting prunes, reserves and completes without the gate. */
  predicate Ungated(op: Op) { op.Prune? || op.Reserve? || op.Complete? }

  function Ended(s: Sys, t: nat): Sys {
    s.(tasks := s.tasks - {t}, gate := if s.gate == Some(t) then None else s.gate)
  }

  /** An account change bumps the generation before it queues for the gate. */
  ghost predicate Step(hash: string -> string, s: Sys, ev: Event, s': Sys) {
    match ev
    case Start(t, task) =>
      && t !in s.tasks && task.Waits()
      && s' == s.(tasks := s.tasks[t := task], generation := if task.Change? then (s.generation + 1) % U64 else s.generation)
    case Lock(t) =>
      && t in s.tasks && s.tasks[t].Waits() && s.gate == None
      && s' == s.(gate := Some(t), tasks := s.tasks[t := s.tasks[t].Entered()])
    case Go(t, x) =>
      && t in s.tasks && s.gate == Some(t) && !s.tasks[t].Waits()
      && var (d, next) := Next(hash, s.disk, s.generation, s.tasks[t], x);
         s' == if next.Some? then s.(disk := d, tasks := s.tasks[t := next.value]) else Ended(s.(disk := d), t)
    case Drop(t) =>
      t in s.tasks && s' == Ended(s, t)
    case Connect(op, io) =>
      Ungated(op) && s' == s.(disk := Mutate(hash, s.disk, op, io).0)
    case Restart =>
      s' == Sys(s.disk, None, 0, map[])
    case Crash =>
      && s.disk.Entry(s'.disk.file) && s'.disk.shadows == {}
      && s' == Sys(s'.disk, None, 0, map[])
  }

  ghost predicate Run(hash: string -> string, states: seq<Sys>, events: seq<Event>) {
    && |states| == |events| + 1
    && states[0] == Sys(states[0].disk, None, 0, map[]) && VaultRuns.Every(states[0].disk, Owned)
    && forall n :: 0 <= n < |events| ==> Step(hash, states[n], events[n], states[n + 1])
  }

  // ---------------------------------------------------------------- the invariant

  predicate PassOwned(p: Pass, auth: Option<Account>) {
    p.origin.Minted? ==> auth.Some? && auth.value.number == p.origin.account
  }

  predicate MintOwned(m: Option<Mint>, auth: Option<Account>) {
    m.Some? ==> auth.Some? && m.value.account == auth.value.number
  }

  /** Every subscription pass and the pending mint belong to the cached account. */
  predicate Owned(v: Vault) {
    MintOwned(v.mint, v.auth) && forall p :: p in Passes(v) ==> PassOwned(p, v.auth)
  }

  /** The account a task works for, once it has read it. */
  function WorksFor(task: Task): Option<Account> {
    match task
    case Refill(Authed(_, _, m)) => Some(m)
    case Refill(Preparing(_, _, m)) => Some(m)
    case Refill(Found(_, m, _)) => Some(m)
    case Refill(Finished(_, m, _, _)) => Some(m)
    case Refill(Rechecking(m, _, _)) => Some(m)
    case Refill(Checked(m, _, _)) => Some(m)
    case _ => None
  }

  /** The batch and the passes a task has in hand are for the account it works for. */
  predicate Carries(task: Task) {
    match task
    case Refill(Found(_, m, mint)) => mint.account == m.number
    case Refill(Finished(_, m, _, passes)) => forall p :: p in passes ==> p.origin == Minted(m.number)
    case Refill(Rechecking(m, _, passes)) => forall p :: p in passes ==> p.origin == Minted(m.number)
    case Refill(Checked(m, _, passes)) => forall p :: p in passes ==> p.origin == Minted(m.number)
    case _ => true
  }

  /** The account a task works for is the cached one. */
  predicate Serves(task: Task, v: Vault) {
    Carries(task) && (WorksFor(task).Some? ==> v.auth == WorksFor(task))
  }

  /** Only the holder of the gate has left the queue, and it serves the cached account. */
  ghost predicate Ordered(s: Sys) {
    && (s.gate.Some? ==> s.gate.value in s.tasks)
    && forall t :: t in s.tasks ==> (s.tasks[t].Waits() || s.gate == Some(t)) && Serves(s.tasks[t], Loaded(s.disk.file))
  }

  ghost predicate Inv(s: Sys) { VaultRuns.Every(s.disk, Owned) && Ordered(s) }

  // ---------------------------------------------------------------- operations

  /** The operation brings nothing in from another account than `auth`. */
  predicate Fits(op: Op, auth: Option<Account>) {
    match op
    case BeginMint(m) => MintOwned(Some(m), auth)
    case CommitMint(_, minted) => forall p :: p in minted ==> PassOwned(p, auth)
    case CommitIssue(_, issued) => PassOwned(issued, auth)
    case Add(added) => forall p :: p in added ==> PassOwned(p, auth)
    case _ => true
  }

  lemma {:induction false} KeptAreThere(s: seq<Pass>, now: nat)
    ensures forall p :: p in Kept(s, now) ==> p in s
  {
    if s != [] { KeptAreThere(s[..|s| - 1], now); }
  }

  lemma OwnedKept(hash: string -> string, v: Vault, op: Op, w: Vault)
    requires Owned(v) && VaultRuns.Turns(hash, v, op, w) && Fits(op, v.auth)
    ensures Owned(w)
  {
    PassesAre(v);
    PassesAre(w);
    match op
    case Prune(now) =>
      VaultRuns.PrunePasses(v, now);
      KeptAreThere(Passes(v), now);
    case _ =>
  }

  lemma PassesAre(v: Vault)
    ensures forall p :: p in Passes(v) <==> p in v.tokens || (v.pending.Some? && p == v.pending.value.pass)
  {
  }

  lemma AuthKept(hash: string -> string, v: Vault, op: Op, w: Vault)
    requires VaultRuns.Turns(hash, v, op, w) && !op.ReplaceAccount? && !op.ClearAll?
    ensures w.auth == v.auth
  {
  }

  lemma MutateKeeps(hash: string -> string, d: Slot, op: Op, io: Io)
    requires VaultRuns.Every(d, Owned) && Fits(op, Loaded(d.file).auth)
    ensures var d' := Mutate(hash, d, op, io).0;
      && VaultRuns.Every(d', Owned)
      && (!op.ReplaceAccount? && !op.ClearAll? ==> Loaded(d'.file).auth == Loaded(d.file).auth)
  {
    var d' := Mutate(hash, d, op, io).0;
    assert d.Entry(d.file) && d'.Entry(d'.file);
    forall e | d'.Entry(e) && !d.Entry(e) ensures Owned(Loaded(e)) {
      VaultRuns.NewEntry(hash, d, VaultRuns.Call(op, io), d', e);
      OwnedKept(hash, Loaded(d.file), op, Loaded(e));
    }
    if d'.file != d.file { MutateTurns(hash, d, op, io); }
  }

  lemma MutateTurns(hash: string -> string, d: Slot, op: Op, io: Io)
    requires Mutate(hash, d, op, io).0.file != d.file
    ensures VaultRuns.Turns(hash, Loaded(d.file), op, Loaded(Mutate(hash, d, op, io).0.file))
    ensures !op.ReplaceAccount? && !op.ClearAll? ==> Loaded(Mutate(hash, d, op, io).0.file).auth == Loaded(d.file).auth
  {
    if !op.ReplaceAccount? && !op.ClearAll? {
      AuthKept(hash, Loaded(d.file), op, Loaded(Mutate(hash, d, op, io).0.file));
    }
  }

  // ---------------------------------------------------------------- tasks keep it

  lemma RefillKeeps(hash: string -> string, d: Slot, generation: nat, at: RefillAt, x: Input)
    requires VaultRuns.Every(d, Owned) && Serves(Refill(at), Loaded(d.file))
    ensures var (d', at') := RefillNext(hash, d, generation, at, x);
      VaultRuns.Every(d', Owned) && (at'.Some? ==> Serves(Refill(at'.value), Loaded(d'.file)))
  {
    match at
    case Started(_) => MutateKeeps(hash, d, Prune(x.now), x.io);
    case Authed(_, _, _) => assert d.Entry(d.file);
    case Preparing(_, _, m) =>
      if x.mint.account == m.number {
        MutateKeeps(hash, d, BeginMint(x.mint), x.io);
        BegunOwned(hash, d, x.mint, x.io);
      }
    case Checked(_, id, passes) => MutateKeeps(hash, d, CommitMint(id, passes), x.io);
    case _ =>
  }

  /** The batch that `begin_mint` answers with is for the cached account. */
  lemma BegunOwned(hash: string -> string, d: Slot, proposed: Mint, io: Io)
    requires VaultRuns.Every(d, Owned) && MintOwned(Some(proposed), Loaded(d.file).auth)
    ensures var r := Mutate(hash, d, BeginMint(proposed), io).1;
      r.Ok? && r.value.MintPending? ==> MintOwned(Some(r.value.mint), Loaded(d.file).auth)
  {
    assert d.Entry(d.file);
  }

  lemma BuyKeeps(hash: string -> string, d: Slot, paymentId: string, at: BuyAt, x: Input)
    requires VaultRuns.Every(d, Owned)
    ensures VaultRuns.Every(BuyNext(hash, d, paymentId, at, x).0, Owned)
  {
    match at
    case BuyLocked => MutateKeeps(hash, d, Prune(x.now), x.io);
    case BuyPreparing => MutateKeeps(hash, d, BeginIssue(x.issue), x.io);
    case BuyFound(_) => if x.pass.origin == Paid { MutateKeeps(hash, d, CommitIssue(paymentId, x.pass), x.io); }
    case _ =>
  }

  lemma TaskKeeps(hash: string -> string, d: Slot, generation: nat, task: Task, x: Input)
    requires VaultRuns.Every(d, Owned) && Serves(task, Loaded(d.file))
    ensures var (d', next) := Next(hash, d, generation, task, x);
      VaultRuns.Every(d', Owned) && (next.Some? ==> Serves(next.value, Loaded(d'.file)))
  {
    match task
    case Refill(at) => RefillKeeps(hash, d, generation, at, x);
    case Buy(paymentId, at) => BuyKeeps(hash, d, paymentId, at, x);
    case Change(target, at) => if at.ChangeLocked? { MutateKeeps(hash, d, ChangeOp(target), x.io); }
  }

  lemma WaitingServes(task: Task, v: Vault)
    requires task.Waits()
    ensures Serves(task, v)
  {
  }

  lemma StepKeeps(hash: string -> string, s: Sys, ev: Event, s': Sys)
    requires Inv(s) && Step(hash, s, ev, s')
    ensures Inv(s')
  {
    match ev
    case Start(t, task) => WaitingServes(task, Loaded(s.disk.file));
    case Lock(t) =>
    case Go(t, x) =>
      TaskKeeps(hash, s.disk, s.generation, s.tasks[t], x);
      forall u | u in s'.tasks && u != t ensures Serves(s'.tasks[u], Loaded(s'.disk.file)) {
        WaitingServes(s'.tasks[u], Loaded(s'.disk.file));
      }
    case Drop(t) =>
    case Connect(op, io) => MutateKeeps(hash, s.disk, op, io);
    case Restart =>
    case Crash =>
  }

  // ---------------------------------------------------------------- theorems

  lemma {:induction false} RunKeeps(hash: string -> string, states: seq<Sys>, events: seq<Event>, i: nat)
    requires Run(hash, states, events) && i <= |events|
    ensures Inv(states[i])
  {
    if i > 0 {
      RunKeeps(hash, states, events, i - 1);
      StepKeeps(hash, states[i - 1], events[i - 1], states[i]);
    }
  }

  /** In every interleaving, in every vault that is stored or that a crash may bring back, every
      subscription pass, queued or reserved, and the pending mint belong to the cached account. */
  lemma AlwaysOwned(hash: string -> string, states: seq<Sys>, events: seq<Event>, i: nat, e: Option<Vault>)
    requires Run(hash, states, events) && i <= |events| && states[i].disk.Entry(e)
    ensures forall p :: p in Passes(Loaded(e)) && p.origin.Minted? ==>
      Loaded(e).auth.Some? && Loaded(e).auth.value.number == p.origin.account
    ensures Loaded(e).mint.Some? ==> Loaded(e).auth.Some? && Loaded(e).mint.value.account == Loaded(e).auth.value.number
  {
    RunKeeps(hash, states, events, i);
  }

  /** An acknowledged change of account leaves nothing at all of the previous one behind. */
  lemma ChangeLeavesNothing(hash: string -> string, d: Slot, target: Option<Account>, io: Io, e: Option<Vault>)
    requires var (d', r) := Mutate(hash, d, ChangeOp(target), io); r.Ok? && d'.Entry(e)
    ensures Loaded(e) == Empty.(auth := target)
  {
    VaultRuns.Transactional(hash, d, ChangeOp(target), io);
  }

  /** Two of the worker's checks never fire: the batch it finds pending is always for the account it
      read, and when it rechecks the cached account before committing, that is always still the one it
      minted for.  The gate alone guarantees both. */
  lemma ChecksHold(hash: string -> string, states: seq<Sys>, events: seq<Event>, i: nat, t: nat, x: Input)
    requires Run(hash, states, events) && i <= |events| && t in states[i].tasks && states[i].tasks[t].Refill?
    ensures var at := states[i].tasks[t].refill;
      && (at.Found? ==> at.mint.account == at.material.number)
      && (at.Rechecking? && Readable(states[i].disk, x.io) ==>
            RefillNext(hash, states[i].disk, states[i].generation, at, x).1 == Some(Checked(at.material, at.requestId, at.passes)))
  {
    RunKeeps(hash, states, events, i);
  }

  /** Without the gate the generation check at the end would come too late: a mint prepared for one
      account and begun after a change to another is stored beside the wrong account.  Beginning a
      mint keeps a vault owned if and only if one is pending already or the proposal is for the
      cached account. */
  lemma BeginMintOwnedIff(hash: string -> string, v: Vault, proposed: Mint)
    requires Owned(v)
    ensures Owned(Apply(hash, v, BeginMint(proposed)).value.0) <==> v.mint.Some? || MintOwned(Some(proposed), v.auth)
  {
    var w := Apply(hash, v, BeginMint(proposed)).value.0;
    assert Passes(w) == Passes(v);
  }

  // ---------------------------------------------------------------- a refill and a purchase that go through

  /** The first `n` steps of a refill, all given the same inputs. */
  function RefillSteps(hash: string -> string, d: Slot, generation: nat, at: RefillAt, x: Input, n: nat): (Slot, Option<RefillAt>)
    decreases n
  {
    if n == 0 then (d, Some(at)) else
    var (d', next) := RefillNext(hash, d, generation, at, x);
    if next.None? then (d', None) else RefillSteps(hash, d', generation, next.value, x, n - 1)
  }

  /** What the outside world contributes to a refill that succeeds: no I/O fails, a batch for the cached
      account of just the size wanted, and passes for it that are new to the vault. */
  ghost predicate Delivers(x: Input, w: Vault, m: Account) {
    && x.io.Committed? && ValidMint(x.mint) && x.mint.account == m.number && |x.mint.requests| == 8 - |Passes(w)|
    && Finalizes(x.passes, x.mint, m.number) && VaultAnswers.Fresh(w, x.passes)
  }

  /** From a low buffer a refill ends with exactly eight passes: those that are still current and one new
      one for each that was missing. */
  lemma RefillFills(hash: string -> string, d: Slot, generation: nat, x: Input, m: Account)
    requires var v := Loaded(d.file); var w := PruneVault(v, x.now);
      Valid(v) && v.auth == Some(m) && w.mint.None? && |Passes(w)| <= 3 && Delivers(x, w, m)
    ensures var w := PruneVault(Loaded(d.file), x.now);
      var full := w.(tokens := w.tokens + x.passes);
      RefillSteps(hash, d, generation, Locked, x, 10) == (Slot(Some(full), {}), None) && |Passes(full)| == 8
  {
    var v := Loaded(d.file);
    var w := PruneVault(v, x.now);
    var d1 := Slot(Some(w), {});
    VaultAnswers.PruneValid(v, x.now);
    RefillBegins(hash, d, generation, x, m);
    StepsThen(hash, d, generation, Locked, x, 5, 5, d1, Preparing(generation, 8 - |Passes(w)|, m));
    RefillEnds(hash, d1, generation, x, m);
  }

  lemma {:induction false} StepsThen(hash: string -> string, d: Slot, generation: nat, at: RefillAt, x: Input, n: nat, k: nat,
                                     d': Slot, at': RefillAt)
    requires RefillSteps(hash, d, generation, at, x, n) == (d', Some(at'))
    ensures RefillSteps(hash, d, generation, at, x, n + k) == RefillSteps(hash, d', generation, at', x, k)
    decreases n
  {
    if n > 0 {
      var (d1, next) := RefillNext(hash, d, generation, at, x);
      StepsThen(hash, d1, generation, next.value, x, n - 1, k, d', at');
    }
  }

  lemma OneStep(hash: string -> string, d: Slot, generation: nat, at: RefillAt, x: Input, n: nat, d': Slot, at': RefillAt)
    requires n > 0 && RefillNext(hash, d, generation, at, x) == (d', Some(at'))
    ensures RefillSteps(hash, d, generation, at, x, n) == RefillSteps(hash, d', generation, at', x, n - 1)
  {
  }

  /** Lock, prune, count, account, no batch pending. */
  lemma RefillBegins(hash: string -> string, d: Slot, g: nat, x: Input, m: Account)
    requires var v := Loaded(d.file); var w := PruneVault(v, x.now);
      Valid(v) && Valid(w) && v.auth == Some(m) && w.mint.None? && |Passes(w)| <= 3 && x.io.Committed?
    ensures var w := PruneVault(Loaded(d.file), x.now);
      RefillSteps(hash, d, g, Locked, x, 5) == (Slot(Some(w), {}), Some(Preparing(g, 8 - |Passes(w)|, m)))
  {
    var w := PruneVault(Loaded(d.file), x.now);
    var d1, n := Slot(Some(w), {}), 8 - |Passes(w)|;
    OneStep(hash, d, g, Locked, x, 5, d, Started(g));
    OneStep(hash, d, g, Started(g), x, 4, d1, Swept(g));
    OneStep(hash, d1, g, Swept(g), x, 3, d1, Wanting(g, n));
    OneStep(hash, d1, g, Wanting(g, n), x, 2, d1, Authed(g, n, m));
    OneStep(hash, d1, g, Authed(g, n, m), x, 1, d1, Preparing(g, n, m));
  }

  /** Store the batch, have it signed, check generation and account, commit. */
  lemma RefillEnds(hash: string -> string, d: Slot, g: nat, x: Input, m: Account)
    requires var w := Loaded(d.file);
      Valid(w) && w.auth == Some(m) && w.mint.None? && |Passes(w)| <= 3 && Delivers(x, w, m)
    ensures var w := Loaded(d.file); var full := w.(tokens := w.tokens + x.passes);
      RefillSteps(hash, d, g, Preparing(g, 8 - |Passes(w)|, m), x, 5) == (Slot(Some(full), {}), None) && |Passes(full)| == 8
  {
    var w := Loaded(d.file);
    var d1, id, n := Slot(Some(w.(mint := Some(x.mint))), {}), x.mint.requestId, 8 - |Passes(w)|;
    VaultAnswers.MintRound(hash, d, x.mint, x.mint, x.passes, x.mint.requestId + "x");
    OneStep(hash, d, g, Preparing(g, n, m), x, 5, d1, Found(g, m, x.mint));
    OneStep(hash, d1, g, Found(g, m, x.mint), x, 4, d1, Finished(g, m, id, x.passes));
    OneStep(hash, d1, g, Finished(g, m, id, x.passes), x, 3, d1, Rechecking(m, id, x.passes));
    assert Valid(w.(mint := Some(x.mint)));
    OneStep(hash, d1, g, Rechecking(m, id, x.passes), x, 2, d1, Checked(m, id, x.passes));
  }

  /** A worker that is overtaken by an account change, which counts the generation up before it waits for
      the gate, commits nothing of what it has minted. */
  lemma OvertakenCommitsNothing(hash: string -> string, s: Sys, t: nat, task: Task, u: nat, x: Input, s1: Sys, s2: Sys)
    requires Step(hash, s, Start(u, task), s1) && task.Change? && t in s.tasks && s.generation + 1 < U64
    requires s.tasks[t].Refill? && s.tasks[t].refill.Finished? && s.tasks[t].refill.gen <= s.generation
    requires Step(hash, s1, Go(t, x), s2)
    ensures s2.disk == s.disk && t !in s2.tasks && s2.gate == None
  {
  }

  function BuySteps(hash: string -> string, d: Slot, paymentId: string, at: BuyAt, x: Input, n: nat): (Slot, Option<BuyAt>)
    decreases n
  {
    if n == 0 then (d, Some(at)) else
    var (d', next) := BuyNext(hash, d, paymentId, at, x);
    if next.None? then (d', None) else BuySteps(hash, d', paymentId, next.value, x, n - 1)
  }

  lemma OneBuyStep(hash: string -> string, d: Slot, paymentId: string, at: BuyAt, x: Input, n: nat, d': Slot, at': BuyAt)
    requires n > 0 && BuyNext(hash, d, paymentId, at, x) == (d', Some(at'))
    ensures BuySteps(hash, d, paymentId, at, x, n) == BuySteps(hash, d', paymentId, at', x, n - 1)
  {
  }

  /** A purchase that goes through adds exactly the paid pass and the receipt of its payment. */
  lemma BuyAdds(hash: string -> string, d: Slot, x: Input)
    requires var v := Loaded(d.file); var w := PruneVault(v, x.now);
      && Valid(v) && w.issue.None? && v.receipt != Some(hash(x.issue.paymentId))
      && x.io.Committed? && ValidIssue(x.issue) && Hex(hash(x.issue.paymentId), 64)
      && x.pass.msg == x.issue.request.msg && x.pass.origin == Paid && VaultAnswers.Fresh(w, [x.pass])
    ensures var w := PruneVault(Loaded(d.file), x.now);
      BuySteps(hash, d, x.issue.paymentId, BuyLocked, x, 5) ==
        (Slot(Some(w.(tokens := w.tokens + [x.pass], receipt := Some(hash(x.issue.paymentId)))), {}), None)
  {
    var v, id := Loaded(d.file), x.issue.paymentId;
    var w := PruneVault(v, x.now);
    var d1 := Slot(Some(w), {});
    VaultAnswers.PruneValid(v, x.now);
    OneBuyStep(hash, d, id, BuyLocked, x, 5, d1, BuySwept);
    OneBuyStep(hash, d1, id, BuySwept, x, 4, d1, BuyLooking);
    OneBuyStep(hash, d1, id, BuyLooking, x, 3, d1, BuyPreparing);
    BuyEnds(hash, d1, x);
  }

  lemma BuyEnds(hash: string -> string, d: Slot, x: Input)
    requires var w := Loaded(d.file);
      && Valid(w) && w.issue.None? && w.receipt != Some(hash(x.issue.paymentId))
      && x.io.Committed? && ValidIssue(x.issue) && Hex(hash(x.issue.paymentId), 64)
      && x.pass.msg == x.issue.request.msg && x.pass.origin == Paid && VaultAnswers.Fresh(w, [x.pass])
    ensures var w := Loaded(d.file);
      BuySteps(hash, d, x.issue.paymentId, BuyPreparing, x, 2) ==
        (Slot(Some(w.(tokens := w.tokens + [x.pass], receipt := Some(hash(x.issue.paymentId)))), {}), None)
  {
    var w, id := Loaded(d.file), x.issue.paymentId;
    VaultAnswers.IssueRound(hash, d, x.issue, x.issue, x.pass, id + "x");
    OneBuyStep(hash, d, id, BuyPreparing, x, 2, Slot(Some(w.(issue := Some(x.issue))), {}), BuyFound(x.issue));
  }

  /** An account change with successful I/O is acknowledged, whatever the vault held. */
  lemma ChangeSucceeds(hash: string -> string, d: Slot, target: Option<Account>)
    requires Valid(Loaded(d.file)) && (target.Some? ==> Hex(target.value.number, 64) && Hex(target.value.seed, 64))
    ensures Mutate(hash, d, ChangeOp(target), Committed) == (Slot(Some(Empty.(auth := target)), {}), Ok(Done))
  {
  }
}
