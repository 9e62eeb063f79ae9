/**
 The client's sealed vault: what a well-formed vault is, and what each operation on it does
 (client/src-tauri/src/securestore.rs, client/src-tauri/src/tokenstore.rs).

 `Vault` is the value that is sealed and stored; `VaultV1` is the object the operations update in
 place.  Sealing and serialization are exact inverses here, so a file is the vault it holds.
 */
module Vault {
  import opened Text

  datatype Result<+T> = Ok(value: T) | Err(error: Error)

  datatype Error =
    | NoPendingReservation | ReservationMismatch | NoPendingMint | MintRequestMismatch
    | NoPendingPaidIssue | PaidIssueMismatch | NoEntropy | Invalid | Storage

  // ---------------------------------------------------------------- what is stored

  /** Where a pass came from.  A note of the model: the program stores no such thing, and no
      operation reads it (see `Relabelled`). */
  datatype Origin = Minted(account: string) | Paid | Elsewhere

  datatype Pass = Pass(msg: string, token: string, origin: Origin)

  datatype Account = Account(number: string, seed: string)

  datatype BlindRequest = BlindRequest(blindMsg: string, msg: string, secret: string, randomizer: Option<string>)

  /** A subscription batch on its way: the same requests are sent until it is committed. */
  datatype Mint = Mint(requestId: string, account: string, issuer: string, requests: seq<BlindRequest>)

  /** A one-payment issuance on its way. */
  datatype Issue = Issue(paymentId: string, issuer: string, request: BlindRequest)

  /** A pass set aside for one redemption. */
  datatype Reservation = Reservation(id: string, pass: Pass)

  datatype Vault = Vault(schema: nat, auth: Option<Account>, tokens: seq<Pass>, mint: Option<Mint>, issue: Option<Issue>,
                         receipt: Option<string>, pending: Option<Reservation>, lastId: Option<string>)

  const Empty: Vault := Vault(1, None, [], None, None, None, None, None)

  /** Queued passes, and the reserved one last. */
  function Passes(v: Vault): seq<Pass> { v.tokens + if v.pending.Some? then [v.pending.value.pass] else [] }

  // ---------------------------------------------------------------- well-formed vaults

  const MaxStoredTokens: nat := 16384
  const MaxMintBatch: nat := 16
  const MaxIssuerHex: nat := 8192
  const MaxPaymentReference: nat := 256

  predicate Hex(s: string, n: nat) { |s| == n && AllLowerHex(s) }

  predicate ValidIssuer(s: string) { 0 < |s| <= MaxIssuerHex && |s| % 2 == 0 && AllLowerHex(s) }

  predicate ValidRequest(r: BlindRequest) {
    Hex(r.blindMsg, 512) && Hex(r.msg, 64) && Hex(r.secret, 512) && (r.randomizer.Some? ==> Hex(r.randomizer.value, 64))
  }

  predicate ValidMint(m: Mint) {
    && Hex(m.requestId, 64) && Hex(m.account, 64) && ValidIssuer(m.issuer) && 1 <= |m.requests| <= MaxMintBatch
    && forall i :: 0 <= i < |m.requests| ==> ValidRequest(m.requests[i])
  }

  predicate IsControl(c: char) { c as int < 0x20 || c as int == 0x7f }

  predicate ValidIssue(i: Issue) {
    && 0 < |i.paymentId| <= MaxPaymentReference && (forall k :: 0 <= k < |i.paymentId| ==> !IsControl(i.paymentId[k]))
    && ValidIssuer(i.issuer) && ValidRequest(i.request)
  }

  predicate ValidPass(p: Pass) { Hex(p.msg, 64) && Hex(p.token, 512) }

  predicate Distinct(s: seq<Pass>) { forall i, j :: 0 <= i < j < |s| ==> s[i].msg != s[j].msg }

  /** Fields that do not concern queued or reserved passes. */
  predicate ValidFrame(v: Vault) {
    && v.schema == 1
    && (v.auth.Some? ==> Hex(v.auth.value.number, 64) && Hex(v.auth.value.seed, 64))
    && (v.mint.Some? ==> ValidMint(v.mint.value)) && (v.issue.Some? ==> ValidIssue(v.issue.value))
    && (v.receipt.Some? ==> Hex(v.receipt.value, 64)) && (v.lastId.Some? ==> Hex(v.lastId.value, 64))
    && (v.pending.Some? ==> Hex(v.pending.value.id, 64) && v.lastId != Some(v.pending.value.id))
  }

  /** No more passes than allowed, each well shaped, no message twice. */
  predicate ValidPasses(s: seq<Pass>) {
    |s| <= MaxStoredTokens && Distinct(s) && forall i :: 0 <= i < |s| ==> ValidPass(s[i])
  }

  predicate Valid(v: Vault) { ValidFrame(v) && ValidPasses(Passes(v)) }

  // ---------------------------------------------------------------- expiry

  const ValiditySecs: nat := 24 * 60 * 60
  const EpochSecs: nat := 60 * 60

  predicate IsV2(m: seq<byte>) { |m| == 32 && m[0] == 0x4e && m[1] == 0x54 && m[2] == 0x56 && m[3] == 0x32 }

  /** A v2 message names its expiry; one too far ahead is refused too. */
  predicate Current(m: seq<byte>, now: nat)
    requires IsV2(m)
  {
    now <= BigEndianValue(m[4..12]) <= (if now + ValiditySecs + EpochSecs < U64 then now + ValiditySecs + EpochSecs else U64 - 1)
  }

  /** `is_redeemable_at`: a loaded vault holds only lowercase hex messages. */
  predicate Redeemable(msg: string, now: nat) {
    && AllLowerHex(msg) && |msg| % 2 == 0
    && var m := FromLowerHex(msg); if IsV2(m) then Current(m, now) else |m| == 32
  }

  predicate Recoverable(msg: string, now: nat) {
    && AllLowerHex(msg) && |msg| % 2 == 0
    && var m := FromLowerHex(msg); IsV2(m) && Current(m, now)
  }

  predicate MintRecoverable(m: Mint, now: nat) {
    m.requests != [] && forall i :: 0 <= i < |m.requests| ==> Recoverable(m.requests[i].msg, now)
  }

  // ---------------------------------------------------------------- the operations

  /** A call on the token store.  `ids` are the reservation ids drawn, in order, until the entropy
      source fails; the passes of a commit are those its response was finalized to. */
  datatype Op =
    | Reserve(ids: seq<string>)
    | Complete(id: string)
    | BeginMint(proposedMint: Mint)
    | CommitMint(requestId: string, minted: seq<Pass>)
    | BeginIssue(proposedIssue: Issue)
    | CommitIssue(paymentId: string, issued: Pass)
    | Add(added: seq<Pass>)
    | Prune(now: nat)
    | ReplaceAccount(material: Account)
    | ClearAll
    | Clear

  datatype Answer =
    | Done
    | Reserved(reservation: Option<Reservation>)
    | MintPending(mint: Mint)
    | IssuePending(issue: Issue)
    | IssueCompleted(count: nat)
    | Count(n: nat)

  /** The first drawn id that is not the last completed one. */
  function FirstOther(ids: seq<string>, last: Option<string>): Option<string> {
    if ids == [] then None else if last != Some(ids[0]) then Some(ids[0]) else FirstOther(ids[1..], last)
  }

  function Kept(s: seq<Pass>, now: nat): (r: seq<Pass>)
    ensures |r| <= |s|
  {
    if s == [] then [] else
    Kept(s[..|s| - 1], now) + if Redeemable(s[|s| - 1].msg, now) then [s[|s| - 1]] else []
  }

  function PruneVault(v: Vault, now: nat): Vault {
    v.(mint := if v.mint.Some? && MintRecoverable(v.mint.value, now) then v.mint else None,
       issue := if v.issue.Some? && Recoverable(v.issue.value.request.msg, now) then v.issue else None,
       tokens := Kept(v.tokens, now),
       pending := if v.pending.Some? && Redeemable(v.pending.value.pass.msg, now) then v.pending else None)
  }

  function Pruned(v: Vault, now: nat): nat {
    var w := PruneVault(v, now);
    (if v.mint != w.mint then |v.mint.value.requests| else 0) + (if v.issue != w.issue then 1 else 0)
    + (|Passes(v)| - |Passes(w)|)
  }

  // What the closure of each operation does to a loaded vault, and what it answers.

  function ReserveOne(v: Vault, ids: seq<string>): Result<(Vault, Answer)> {
    if v.pending.None? && v.tokens != [] then
      match FirstOther(ids, v.lastId)
      case None => Err(NoEntropy)
      case Some(id) =>
        var reservation := Some(Reservation(id, v.tokens[0]));
        Ok((v.(tokens := v.tokens[1..], pending := reservation), Reserved(reservation)))
    else Ok((v, Reserved(v.pending)))
  }

  function CommitRedemption(v: Vault, id: string): Result<(Vault, Answer)> {
    if !Hex(id, 64) then Err(ReservationMismatch)
    else if v.pending.None? then if v.lastId == Some(id) then Ok((v, Done)) else Err(NoPendingReservation)
    else if v.pending.value.id != id then Err(ReservationMismatch)
    else Ok((v.(pending := None, lastId := Some(id)), Done))
  }

  function StartMint(v: Vault, proposed: Mint): Result<(Vault, Answer)> {
    var w := if v.mint.None? then v.(mint := Some(proposed)) else v;
    Ok((w, MintPending(w.mint.value)))
  }

  function FinishMint(v: Vault, requestId: string, minted: seq<Pass>): Result<(Vault, Answer)> {
    if v.mint.None? then Err(NoPendingMint)
    else if v.mint.value.requestId != requestId then Err(MintRequestMismatch)
    else Ok((v.(tokens := v.tokens + minted, mint := None), Count(|minted|)))
  }

  function StartIssue(v: Vault, proposed: Issue, receipt: string): Result<(Vault, Answer)> {
    if v.receipt == Some(receipt) then Ok((v, IssueCompleted(|v.tokens|))) else
    var w := if v.issue.None? then v.(issue := Some(proposed)) else v;
    Ok((w, IssuePending(w.issue.value)))
  }

  function FinishIssue(v: Vault, paymentId: string, issued: Pass, receipt: string): Result<(Vault, Answer)> {
    if v.issue.None? then if v.receipt == Some(receipt) then Ok((v, Count(|v.tokens|))) else Err(NoPendingPaidIssue)
    else if v.issue.value.paymentId != paymentId then Err(PaidIssueMismatch)
    else Ok((v.(tokens := v.tokens + [issued], issue := None, receipt := Some(receipt)), Count(|v.tokens| + 1)))
  }

  function Cleared(v: Vault): Vault {
    v.(tokens := [], mint := None, issue := None, receipt := None, pending := None, lastId := None)
  }

  /** `hash` is the receipt of a payment reference. */
  function Apply(hash: string -> string, v: Vault, op: Op): Result<(Vault, Answer)> {
    match op
    case Reserve(ids) => ReserveOne(v, ids)
    case Complete(id) => CommitRedemption(v, id)
    case BeginMint(proposed) => StartMint(v, proposed)
    case CommitMint(requestId, minted) => FinishMint(v, requestId, minted)
    case BeginIssue(proposed) => StartIssue(v, proposed, hash(proposed.paymentId))
    case CommitIssue(paymentId, issued) => FinishIssue(v, paymentId, issued, hash(paymentId))
    case Add(added) => Ok((v.(tokens := v.tokens + added), Done))
    case Prune(now) => Ok((PruneVault(v, now), Count(Pruned(v, now))))
    case ReplaceAccount(material) => Ok((Cleared(v).(auth := Some(material)), Done))
    case ClearAll => Ok((Cleared(v).(auth := None), Done))
    case Clear => Ok((Cleared(v), Done))
  }

  // ---------------------------------------------------------------- the code

  /** `constant_time_id_eq`: the accumulated difference is zero exactly for equal ids. */
  method SameId(left: seq<bv8>, right: seq<bv8>) returns (same: bool)
    ensures same <==> left == right
  {
    if |left| != |right| {
      return false;
    }
    var difference: bv8 := 0;
    for i := 0 to |left|
      invariant difference == 0 <==> left[..i] == right[..i]
    {
      difference := Accumulate(difference, left[i], right[i]);
      assert left[..i + 1] == left[..i] + [left[i]] && right[..i + 1] == right[..i] + [right[i]];
    }
    assert left[..|left|] == left && right[..|right|] == right;
    same := difference == 0;
  }

  function Accumulate(difference: bv8, x: bv8, y: bv8): (r: bv8)
    ensures r == 0 <==> difference == 0 && x == y
  {
    difference | (x ^ y)
  }

  /** A closure's answer and the vault it leaves; after an error the vault is thrown away. */
  predicate Agrees(spec: Result<(Vault, Answer)>, v: Vault, r: Result<Answer>) {
    match spec
    case Ok(p) => r == Ok(p.1) && v == p.0
    case Err(e) => r == Err(e)
  }

  class VaultV1 {
    var schema: nat
    var auth: Option<Account>
    var tokens: seq<Pass>
    var mint: Option<Mint>
    var issue: Option<Issue>
    var receipt: Option<string>
    var pending: Option<Reservation>
    var lastId: Option<string>

    function Value(): Vault
      reads this
    {
      Vault(schema, auth, tokens, mint, issue, receipt, pending, lastId)
    }

    constructor (v: Vault)
      ensures Value() == v
    {
      schema, auth, tokens, mint := v.schema, v.auth, v.tokens, v.mint;
      issue, receipt, pending, lastId := v.issue, v.receipt, v.pending, v.lastId;
    }

    /** `validate`: shapes in field order, and a set of the messages seen so far. */
    method Validate() returns (ok: bool)
      ensures ok <==> Valid(Value())
    {
      if !ValidFrame(Value()) || |Passes(Value())| > MaxStoredTokens {
        return false;
      }
      var all := Passes(Value());
      var messages: set<string> := {};
      for i := 0 to |all|
        invariant messages == set k | 0 <= k < i :: all[k].msg
        invariant forall k :: 0 <= k < i ==> ValidPass(all[k])
        invariant Distinct(all[..i])
      {
        if !ValidPass(all[i]) || all[i].msg in messages {
          assert !ValidPasses(all);
          return false;
        }
        messages := messages + {all[i].msg};
      }
      assert all[..|all|] == all;
      ok := true;
    }

    method Reserve(ids: seq<string>) returns (r: Result<Answer>)
      modifies this
      ensures Agrees(ReserveOne(old(Value()), ids), Value(), r)
    {
      if pending.None? && tokens != [] {
        var first := tokens[0];
        tokens := tokens[1..];
        var k := 0;
        while k < |ids| && lastId == Some(ids[k])
          invariant k <= |ids| && FirstOther(ids[k..], lastId) == FirstOther(ids, lastId)
        {
          assert ids[k..][1..] == ids[k + 1..];
          k := k + 1;
        }
        if k == |ids| {
          return Err(NoEntropy);
        }
        pending := Some(Reservation(ids[k], first));
      }
      r := Ok(Reserved(pending));
    }

    method CompleteRedemption(id: string) returns (r: Result<Answer>)
      modifies this
      ensures Agrees(CommitRedemption(old(Value()), id), Value(), r)
    {
      if !Hex(id, 64) {
        return Err(ReservationMismatch);
      }
      if pending.None? {
        return if lastId == Some(id) then Ok(Done) else Err(NoPendingReservation);
      }
      if pending.value.id != id {
        return Err(ReservationMismatch);
      }
      pending := None;
      lastId := Some(id);
      r := Ok(Done);
    }

    method BeginMint(proposed: Mint) returns (r: Result<Answer>)
      modifies this
      ensures Agrees(StartMint(old(Value()), proposed), Value(), r)
    {
      if mint.None? {
        mint := Some(proposed);
      }
      r := Ok(MintPending(mint.value));
    }

    method CommitMint(requestId: string, minted: seq<Pass>) returns (r: Result<Answer>)
      modifies this
      ensures Agrees(FinishMint(old(Value()), requestId, minted), Value(), r)
    {
      if mint.None? {
        return Err(NoPendingMint);
      }
      if mint.value.requestId != requestId {
        return Err(MintRequestMismatch);
      }
      tokens := tokens + minted;
      mint := None;
      r := Ok(Count(|minted|));
    }

    method BeginIssue(proposed: Issue, hashed: string) returns (r: Result<Answer>)
      modifies this
      ensures Agrees(StartIssue(old(Value()), proposed, hashed), Value(), r)
    {
      if receipt == Some(hashed) {
        return Ok(IssueCompleted(|tokens|));
      }
      if issue.None? {
        issue := Some(proposed);
      }
      r := Ok(IssuePending(issue.value));
    }

    method CommitIssue(paymentId: string, issued: Pass, hashed: string) returns (r: Result<Answer>)
      modifies this
      ensures Agrees(FinishIssue(old(Value()), paymentId, issued, hashed), Value(), r)
    {
      if issue.None? {
        return if receipt == Some(hashed) then Ok(Count(|tokens|)) else Err(NoPendingPaidIssue);
      }
      if issue.value.paymentId != paymentId {
        return Err(PaidIssueMismatch);
      }
      tokens := tokens + [issued];
      issue := None;
      receipt := Some(hashed);
      r := Ok(Count(|tokens|));
    }

    method PruneExpired(now: nat) returns (removed: nat)
      modifies this
      ensures Value() == PruneVault(old(Value()), now) && removed == Pruned(old(Value()), now)
    {
      removed := 0;
      if mint.Some? && !MintRecoverable(mint.value, now) {
        removed := removed + |mint.value.requests|;
        mint := None;
      }
      if issue.Some? && !Recoverable(issue.value.request.msg, now) {
        issue := None;
        removed := removed + 1;
      }
      var dropped := DropTokens(now);
      removed := removed + dropped;
      if pending.Some? && !Redeemable(pending.value.pass.msg, now) {
        pending := None;
        removed := removed + 1;
      }
    }

    /** `retain_mut` over the queue. */
    method DropTokens(now: nat) returns (dropped: nat)
      modifies this`tokens
      ensures tokens == Kept(old(tokens), now) && dropped == |old(tokens)| - |tokens|
    {
      var kept: seq<Pass> := [];
      dropped := 0;
      for i := 0 to |tokens|
        invariant kept == Kept(tokens[..i], now) && dropped + |kept| == i && tokens == old(tokens)
      {
        assert tokens[..i + 1][..i] == tokens[..i];
        if Redeemable(tokens[i].msg, now) {
          kept := kept + [tokens[i]];
        } else {
          dropped := dropped + 1;
        }
      }
      assert tokens[..|tokens|] == tokens;
      tokens := kept;
    }

    method ClearCredentials()
      modifies this
      ensures Value() == Cleared(old(Value()))
    {
      tokens, mint, issue, receipt, pending, lastId := [], None, None, None, None, None;
    }

    /** The closure that `op` hands to `mutate`. */
    method Run(hash: string -> string, op: Op) returns (r: Result<Answer>)
      modifies this
      ensures Agrees(Apply(hash, old(Value()), op), Value(), r)
    {
      match op
      case Reserve(ids) => r := Reserve(ids);
      case Complete(id) => r := CompleteRedemption(id);
      case BeginMint(proposed) => r := BeginMint(proposed);
      case CommitMint(requestId, minted) => r := CommitMint(requestId, minted);
      case BeginIssue(proposed) => r := BeginIssue(proposed, hash(proposed.paymentId));
      case CommitIssue(paymentId, issued) => r := CommitIssue(paymentId, issued, hash(paymentId));
      case Add(added) =>
        tokens := tokens + added;
        r := Ok(Done);
      case Prune(now) =>
        var removed := PruneExpired(now);
        r := Ok(Count(removed));
      case ReplaceAccount(material) =>
        ClearCredentials();
        auth := Some(material);
        r := Ok(Done);
      case ClearAll =>
        ClearCredentials();
        auth := None;
        r := Ok(Done);
      case Clear =>
        ClearCredentials();
        r := Ok(Done);
    }
  }

  // ---------------------------------------------------------------- transactions

  /** The vault's directory entry: the file it names, and those a crash may bring back because the
      directory has not been synced since.  Every file was synced before it got the name. */
  datatype Slot = Slot(file: Option<Vault>, shadows: set<Option<Vault>>) {
    ghost predicate Entry(e: Option<Vault>) { e == file || e in shadows }
  }

  /** How far a transaction gets: the file cannot be read, something fails before or at the rename,
      only the directory sync fails, or everything succeeds. */
  datatype Io = Unreadable | PersistFails | DirSyncFails | Committed

  function Loaded(e: Option<Vault>): Vault { if e.Some? then e.value else Empty }

  function Persist(d: Slot, v: Vault, io: Io): (Slot, bool) {
    match io
    case Unreadable => (d, false)
    case PersistFails => (d, false)
    case DirSyncFails => (Slot(Some(v), d.shadows + {d.file}), false)
    case Committed => (Slot(Some(v), {}), true)
  }

  /** `mutate`: load, apply, validate, replace. */
  function Mutate(hash: string -> string, d: Slot, op: Op, io: Io): (Slot, Result<Answer>) {
    if op.Complete? && !Hex(op.id, 64) then (d, Err(ReservationMismatch))
    else if io.Unreadable? then (d, Err(Storage))
    else if !Valid(Loaded(d.file)) then (d, Err(Invalid))
    else match Apply(hash, Loaded(d.file), op)
      case Err(e) => (d, Err(e))
      case Ok((v, answer)) =>
        if !Valid(v) then (d, Err(Invalid)) else
        var (d', ok) := Persist(d, v, io);
        (d', if ok then Ok(answer) else Err(Storage))
  }

  class SecureVault {
    var disk: Slot

    constructor (d: Slot)
      ensures disk == d
    {
      disk := d;
    }

    /** `load_locked`: a missing file is an empty vault, and a file that does not validate is refused. */
    method Load(io: Io) returns (v: Result<Vault>)
      ensures v.Ok? <==> !io.Unreadable? && Valid(Loaded(disk.file))
      ensures v.Ok? ==> v.value == Loaded(disk.file)
      ensures v.Err? ==> v.error == if io.Unreadable? then Storage else Invalid
    {
      if io.Unreadable? {
        return Err(Storage);
      }
      var draft := new VaultV1(Loaded(disk.file));
      var ok := draft.Validate();
      v := if ok then Ok(Loaded(disk.file)) else Err(Invalid);
    }

    /** `persist_locked` and `atomic_write_private`: nothing but the rename moves the name. */
    method Replace(v: Vault, io: Io) returns (ok: bool)
      modifies this
      ensures (disk, ok) == Persist(old(disk), v, io)
    {
      if io.Unreadable? || io.PersistFails? {
        return false;
      }
      disk := Slot(Some(v), disk.shadows + {disk.file});
      if io.DirSyncFails? {
        return false;
      }
      disk := disk.(shadows := {});
      ok := true;
    }

    method Transact(hash: string -> string, op: Op, io: Io) returns (r: Result<Answer>)
      modifies this
      ensures (disk, r) == Mutate(hash, old(disk), op, io)
    {
      if op.Complete? && !Hex(op.id, 64) {
        return Err(ReservationMismatch);
      }
      var loaded := Load(io);
      if loaded.Err? {
        return Err(loaded.error);
      }
      var vault := new VaultV1(loaded.value);
      r := vault.Run(hash, op);
      if r.Err? {
        return;
      }
      var valid := vault.Validate();
      if !valid {
        return Err(Invalid);
      }
      var ok := Replace(vault.Value(), io);
      if !ok {
        r := Err(Storage);
      }
    }
  }
}
