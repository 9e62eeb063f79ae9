/**
 What the operations on the client vault answer and leave, in plain terms: which vaults are accepted,
 what a reservation takes, how each two-step exchange runs from beginning to end, and which passes
 pruning keeps.
 */
module VaultAnswers {
  import opened Text
  import opened Vault

  // ---------------------------------------------------------------- which vaults are accepted

  /** Exactly `n` digits of lowercase hexadecimal. */
  predicate HexDigits(s: string, n: nat) {
    |s| == n && forall i :: 0 <= i < |s| ==> '0' <= s[i] <= '9' || 'a' <= s[i] <= 'f'
  }

  predicate IssuerName(s: string) { 2 <= |s| <= 8192 && |s| % 2 == 0 && HexDigits(s, |s|) }

  predicate BlindShape(r: BlindRequest) {
    && HexDigits(r.blindMsg, 512) && HexDigits(r.msg, 64) && HexDigits(r.secret, 512)
    && (r.randomizer.None? || HexDigits(r.randomizer.value, 64))
  }

  predicate PassShape(p: Pass) { HexDigits(p.msg, 64) && HexDigits(p.token, 512) }

  /** At most 16384 passes, the reserved one counted, and no message twice. */
  ghost predicate PassesFit(tokens: seq<Pass>, pending: Option<Reservation>) {
    && |tokens| + (if pending.Some? then 1 else 0) <= 16384
    && (forall p :: p in tokens ==> PassShape(p))
    && (forall i, j :: 0 <= i < j < |tokens| ==> tokens[i].msg != tokens[j].msg)
    && (pending.Some? ==> PassShape(pending.value.pass) && forall p :: p in tokens ==> p.msg != pending.value.pass.msg)
  }

  ghost predicate OtherFieldsFit(v: Vault) {
    && v.schema == 1
    && (v.auth.Some? ==> HexDigits(v.auth.value.number, 64) && HexDigits(v.auth.value.seed, 64))
    && (v.mint.Some? ==>
          && HexDigits(v.mint.value.requestId, 64) && HexDigits(v.mint.value.account, 64) && IssuerName(v.mint.value.issuer)
          && 1 <= |v.mint.value.requests| <= 16 && forall r :: r in v.mint.value.requests ==> BlindShape(r))
    && (v.issue.Some? ==>
          && 1 <= |v.issue.value.paymentId| <= 256 && IssuerName(v.issue.value.issuer) && BlindShape(v.issue.value.request)
          && forall c :: c in v.issue.value.paymentId ==> c as int >= 32 && c as int != 127)
    && (v.receipt.Some? ==> HexDigits(v.receipt.value, 64))
    && (v.lastId.Some? ==> HexDigits(v.lastId.value, 64))
    && (v.pending.Some? ==> HexDigits(v.pending.value.id, 64) && v.lastId != Some(v.pending.value.id))
  }

  lemma HexIs(s: string, n: nat)
    ensures Hex(s, n) <==> HexDigits(s, n)
  {
  }

  lemma PassesFitIff(v: Vault)
    ensures ValidPasses(Passes(v)) <==> PassesFit(v.tokens, v.pending)
  {
    var all := Passes(v);
    assert forall i :: 0 <= i < |v.tokens| ==> all[i] == v.tokens[i];
    assert v.pending.Some? ==> all[|v.tokens|] == v.pending.value.pass;
    forall p: Pass ensures ValidPass(p) <==> PassShape(p) { HexIs(p.msg, 64); HexIs(p.token, 512); }
    if ValidPasses(all) {
      forall p | p in v.tokens ensures PassShape(p) && (v.pending.Some? ==> p.msg != v.pending.value.pass.msg) {
        var i :| 0 <= i < |v.tokens| && v.tokens[i] == p;
        assert ValidPass(all[i]);
        assert v.pending.Some? ==> all[i].msg != all[|v.tokens|].msg;
      }
    }
  }

  lemma RequestIff(r: BlindRequest)
    ensures ValidRequest(r) <==> BlindShape(r)
  {
    HexIs(r.blindMsg, 512);
    HexIs(r.msg, 64);
    HexIs(r.secret, 512);
    if r.randomizer.Some? { HexIs(r.randomizer.value, 64); }
  }

  lemma MintIff(m: Mint)
    ensures ValidMint(m) <==>
      && HexDigits(m.requestId, 64) && HexDigits(m.account, 64) && IssuerName(m.issuer)
      && 1 <= |m.requests| <= 16 && forall r :: r in m.requests ==> BlindShape(r)
  {
    forall r ensures ValidRequest(r) <==> BlindShape(r) { RequestIff(r); }
    if forall i :: 0 <= i < |m.requests| ==> ValidRequest(m.requests[i]) {
      assert forall r :: r in m.requests ==> ValidRequest(r);
    }
  }

  lemma IssueIff(i: Issue)
    ensures ValidIssue(i) <==>
      && 1 <= |i.paymentId| <= 256 && IssuerName(i.issuer) && BlindShape(i.request)
      && forall c :: c in i.paymentId ==> c as int >= 32 && c as int != 127
  {
    RequestIff(i.request);
    if forall k :: 0 <= k < |i.paymentId| ==> !IsControl(i.paymentId[k]) {
      assert forall c :: c in i.paymentId ==> !IsControl(c);
    } else {
      var k :| 0 <= k < |i.paymentId| && IsControl(i.paymentId[k]);
      assert i.paymentId[k] in i.paymentId;
    }
  }

  /** A vault is accepted if and only if every field has its shape and the passes fit. */
  lemma AcceptedIff(v: Vault)
    ensures Valid(v) <==> OtherFieldsFit(v) && PassesFit(v.tokens, v.pending)
  {
    PassesFitIff(v);
    if v.mint.Some? { MintIff(v.mint.value); }
    if v.issue.Some? { IssueIff(v.issue.value); }
  }

  // ---------------------------------------------------------------- transactions

  /** With all I/O succeeding, an operation that applies and leaves a well-formed vault is acknowledged
      with its answer, and its vault is all a crash may leave. */
  lemma Commits(hash: string -> string, d: Slot, op: Op, w: Vault, answer: Answer)
    requires Valid(Loaded(d.file)) && Apply(hash, Loaded(d.file), op) == Ok((w, answer)) && Valid(w)
    requires op.Complete? ==> Hex(op.id, 64)
    ensures Mutate(hash, d, op, Committed) == (Slot(Some(w), {}), Ok(answer))
  {
  }

  /** A refused operation changes nothing, on disk or off. */
  lemma Refused(hash: string -> string, d: Slot, op: Op, io: Io)
    requires Apply(hash, Loaded(d.file), op).Err?
    ensures Mutate(hash, d, op, io).0 == d && Mutate(hash, d, op, io).1.Err?
  {
  }

  // ---------------------------------------------------------------- redemption

  /** `ids[k]` is the first drawn id that is not the last completed one. */
  ghost predicate FirstFresh(ids: seq<string>, last: Option<string>, k: nat) {
    k < |ids| && last != Some(ids[k]) && forall j :: 0 <= j < k ==> last == Some(ids[j])
  }

  lemma {:induction false} FirstOtherIs(ids: seq<string>, last: Option<string>)
    ensures FirstOther(ids, last).None? <==> forall i :: 0 <= i < |ids| ==> last == Some(ids[i])
    ensures forall k: nat :: FirstFresh(ids, last, k) ==> FirstOther(ids, last) == Some(ids[k])
  {
    if ids != [] {
      FirstOtherIs(ids[1..], last);
      forall k: nat | FirstFresh(ids, last, k) ensures FirstOther(ids, last) == Some(ids[k]) {
        if k > 0 { assert FirstFresh(ids[1..], last, k - 1); }
      }
      assert forall i :: 0 < i < |ids| ==> ids[i] == ids[1..][i - 1];
    }
  }

  /** The vault with its first queued pass set aside under `id`. */
  function SetAside(v: Vault, id: string): Vault
    requires v.tokens != []
  {
    Vault(v.schema, v.auth, v.tokens[1..], v.mint, v.issue, v.receipt, Some(Reservation(id, v.tokens[0])), v.lastId)
  }

  /** What a reservation answers and leaves: a standing one is repeated; otherwise the first pass is set
      aside under the first usable id, unless there is no pass or no such id. */
  lemma ReserveAnswers(hash: string -> string, v: Vault, ids: seq<string>)
    ensures var r := Apply(hash, v, Op.Reserve(ids));
      && (v.pending.Some? ==> r == Ok((v, Reserved(v.pending))))
      && (v.pending.None? && v.tokens == [] ==> r == Ok((v, Reserved(None))))
      && (v.pending.None? && v.tokens != [] ==>
            && (r.Ok? <==> exists i :: 0 <= i < |ids| && v.lastId != Some(ids[i]))
            && (r.Err? ==> r.error == NoEntropy)
            && forall k: nat :: FirstFresh(ids, v.lastId, k) ==>
                 r == Ok((SetAside(v, ids[k]), Reserved(Some(Reservation(ids[k], v.tokens[0]))))))
      && (r.Ok? && r.value.1 == Reserved(None) <==> v.pending.None? && v.tokens == [])
  {
    FirstOtherIs(ids, v.lastId);
  }

  lemma SetAsideValid(v: Vault, id: string)
    requires Valid(v) && v.pending.None? && v.tokens != [] && Hex(id, 64) && v.lastId != Some(id)
    ensures Valid(SetAside(v, id))
  {
    PassesFitIff(v);
    PassesFitIff(SetAside(v, id));
    assert v.tokens == [v.tokens[0]] + v.tokens[1..];
  }

  /** A redemption from beginning to end: the first pass is reserved and acknowledged, completed under its
      own id and gone for good; a repeat changes nothing and no other id is accepted before or after. */
  lemma RedeemRound(hash: string -> string, d: Slot, ids: seq<string>, k: nat, other: string)
    requires var v := Loaded(d.file); Valid(v) && v.pending.None? && v.tokens != [] && FirstFresh(ids, v.lastId, k)
    requires Hex(ids[k], 64) && Hex(other, 64) && other != ids[k]
    ensures var v := Loaded(d.file);
      var d1, r1 := Slot(Some(SetAside(v, ids[k])), {}), Reservation(ids[k], v.tokens[0]);
      var done := Vault(v.schema, v.auth, v.tokens[1..], v.mint, v.issue, v.receipt, None, Some(ids[k]));
      && Mutate(hash, d, Op.Reserve(ids), Committed) == (d1, Ok(Reserved(Some(r1))))
      && Mutate(hash, d1, Complete(other), Committed) == (d1, Err(ReservationMismatch))
      && Mutate(hash, d1, Complete(ids[k]), Committed) == (Slot(Some(done), {}), Ok(Done))
      && Mutate(hash, Slot(Some(done), {}), Complete(ids[k]), Committed) == (Slot(Some(done), {}), Ok(Done))
      && Mutate(hash, Slot(Some(done), {}), Complete(other), Committed) == (Slot(Some(done), {}), Err(NoPendingReservation))
  {
    var v := Loaded(d.file);
    var w := SetAside(v, ids[k]);
    var done := Vault(v.schema, v.auth, v.tokens[1..], v.mint, v.issue, v.receipt, None, Some(ids[k]));
    ReserveAnswers(hash, v, ids);
    SetAsideValid(v, ids[k]);
    DoneValid(v, done);
  }

  lemma DoneValid(v: Vault, done: Vault)
    requires Valid(v) && v.tokens != []
    requires done == v.(tokens := v.tokens[1..], pending := None, lastId := done.lastId)
    requires done.lastId.Some? && Hex(done.lastId.value, 64)
    ensures Valid(done)
  {
    PassesFitIff(v);
    PassesFitIff(done);
  }

  // ---------------------------------------------------------------- issuance

  /** Well-shaped passes that fit beside those of the vault. */
  ghost predicate Fresh(v: Vault, passes: seq<Pass>) {
    && |Passes(v)| + |passes| <= 16384 && (forall p :: p in passes ==> PassShape(p))
    && (forall i, j :: 0 <= i < j < |passes| ==> passes[i].msg != passes[j].msg)
    && (forall p, q :: p in passes && q in Passes(v) ==> p.msg != q.msg)
  }

  lemma AddedValid(v: Vault, w: Vault, passes: seq<Pass>)
    requires Valid(v) && Fresh(v, passes) && ValidFrame(w) && w.tokens == v.tokens + passes && w.pending == v.pending
    ensures Valid(w)
  {
    PassesFitIff(v);
    forall i, j | 0 <= i < j < |w.tokens| ensures w.tokens[i].msg != w.tokens[j].msg {
      if i < |v.tokens| <= j {
        assert Passes(v)[i] == w.tokens[i] && w.tokens[j] in passes;
      }
    }
    forall p | p in w.tokens && v.pending.Some? ensures p.msg != v.pending.value.pass.msg {
      assert Passes(v)[|v.tokens|] == v.pending.value.pass;
    }
    PassesFitIff(w);
  }

  /** A subscription batch from beginning to end: the proposal is stored and answered, repeated as it is
      whatever else is proposed, refused under another id, and committed with all its passes at once. */
  lemma MintRound(hash: string -> string, d: Slot, m: Mint, m': Mint, passes: seq<Pass>, other: string)
    requires var v := Loaded(d.file); Valid(v) && v.mint.None? && Fresh(v, passes)
    requires ValidMint(m) && other != m.requestId
    ensures var v := Loaded(d.file);
      var d1 := Slot(Some(v.(mint := Some(m))), {});
      && Mutate(hash, d, Op.BeginMint(m), Committed) == (d1, Ok(MintPending(m)))
      && Mutate(hash, d1, Op.BeginMint(m'), Committed) == (d1, Ok(MintPending(m)))
      && Mutate(hash, d1, Op.CommitMint(other, passes), Committed) == (d1, Err(MintRequestMismatch))
      && Mutate(hash, d1, Op.CommitMint(m.requestId, passes), Committed) ==
           (Slot(Some(v.(tokens := v.tokens + passes)), {}), Ok(Count(|passes|)))
      && Mutate(hash, d, Op.CommitMint(m.requestId, passes), Committed) == (d, Err(NoPendingMint))
  {
    var v := Loaded(d.file);
    assert Valid(v.(mint := Some(m)));
    AddedValid(v, v.(tokens := v.tokens + passes), passes);
    assert v.(mint := Some(m)).(tokens := v.tokens + passes, mint := None) == v.(tokens := v.tokens + passes);
  }

  /** A one-payment issuance from beginning to end, and what a repeat of either step answers. */
  lemma IssueRound(hash: string -> string, d: Slot, i: Issue, i': Issue, pass: Pass, other: string)
    requires var v := Loaded(d.file);
      Valid(v) && v.issue.None? && v.receipt != Some(hash(i.paymentId)) && Fresh(v, [pass])
    requires ValidIssue(i) && other != i.paymentId && Hex(hash(i.paymentId), 64)
    requires i'.paymentId == i.paymentId
    ensures var v := Loaded(d.file);
      var d1, paid := Slot(Some(v.(issue := Some(i))), {}), v.(tokens := v.tokens + [pass], receipt := Some(hash(i.paymentId)));
      && Mutate(hash, d, Op.BeginIssue(i), Committed) == (d1, Ok(IssuePending(i)))
      && Mutate(hash, d1, Op.BeginIssue(i'), Committed) == (d1, Ok(IssuePending(i)))
      && Mutate(hash, d1, Op.CommitIssue(other, pass), Committed) == (d1, Err(PaidIssueMismatch))
      && Mutate(hash, d1, Op.CommitIssue(i.paymentId, pass), Committed) == (Slot(Some(paid), {}), Ok(Count(|v.tokens| + 1)))
      && Mutate(hash, Slot(Some(paid), {}), Op.BeginIssue(i'), Committed) ==
           (Slot(Some(paid), {}), Ok(IssueCompleted(|v.tokens| + 1)))
      && Mutate(hash, Slot(Some(paid), {}), Op.CommitIssue(i.paymentId, pass), Committed) ==
           (Slot(Some(paid), {}), Ok(Count(|v.tokens| + 1)))
      && Mutate(hash, d, Op.CommitIssue(i.paymentId, pass), Committed) == (d, Err(NoPendingPaidIssue))
  {
    var v := Loaded(d.file);
    var paid := v.(tokens := v.tokens + [pass], receipt := Some(hash(i.paymentId)));
    assert Valid(v.(issue := Some(i)));
    AddedValid(v, paid, [pass]);
    assert v.(issue := Some(i)).(tokens := v.tokens + [pass], issue := None, receipt := Some(hash(i.paymentId))) == paid;
  }

  /** Passes are added behind those queued; clearing keeps the account, or nothing, or sets another. */
  lemma AddAndClear(hash: string -> string, v: Vault, passes: seq<Pass>, account: Account)
    ensures Apply(hash, v, Op.Add(passes)) ==
      Ok((Vault(v.schema, v.auth, v.tokens + passes, v.mint, v.issue, v.receipt, v.pending, v.lastId), Done))
    ensures Apply(hash, v, Op.Clear) == Ok((Vault(v.schema, v.auth, [], None, None, None, None, None), Done))
    ensures Apply(hash, v, ClearAll) == Ok((Vault(v.schema, None, [], None, None, None, None, None), Done))
    ensures Apply(hash, v, ReplaceAccount(account)) == Ok((Vault(v.schema, Some(account), [], None, None, None, None, None), Done))
  {
  }

  // ---------------------------------------------------------------- expiry

  /** A version-2 message: "NTV2", eight expiry bytes, twenty more. */
  function V2(expiry: seq<byte>, rest: seq<byte>): string
    requires |expiry| == 8 && |rest| == 20
  {
    ToHex([0x4e, 0x54, 0x56, 0x32] + expiry + rest)
  }

  function Seconds(b: seq<byte>): nat
    requires |b| == 8
  {
    (b[0] as int) * 0x100_0000_0000_0000 + (b[1] as int) * 0x1_0000_0000_0000 + (b[2] as int) * 0x100_0000_0000 +
    (b[3] as int) * 0x1_0000_0000 + (b[4] as int) * 0x100_0000 + (b[5] as int) * 0x1_0000 + (b[6] as int) * 0x100 + b[7]
  }

  lemma SecondsIs(b: seq<byte>)
    requires |b| == 8
    ensures BigEndianValue(b) == Seconds(b) < U64
  {
    assert b[..7][..6] == b[..6] && b[..6][..5] == b[..5] && b[..5][..4] == b[..4];
    assert b[..4][..3] == b[..3] && b[..3][..2] == b[..2] && b[..2][..1] == b[..1] && b[..1][..0] == [];
    assert BigEndianValue(b[..1]) == b[0] as int;
    assert BigEndianValue(b[..2]) == BigEndianValue(b[..1]) * 0x100 + b[1];
    assert BigEndianValue(b[..3]) == BigEndianValue(b[..2]) * 0x100 + b[2];
    assert BigEndianValue(b[..4]) == BigEndianValue(b[..3]) * 0x100 + b[3];
    assert BigEndianValue(b[..5]) == BigEndianValue(b[..4]) * 0x100 + b[4];
    assert BigEndianValue(b[..6]) == BigEndianValue(b[..5]) * 0x100 + b[5];
    assert BigEndianValue(b[..7]) == BigEndianValue(b[..6]) * 0x100 + b[6];
  }

  /** Such a message is current from now until 25 hours ahead, both ends included. */
  lemma V2Current(expiry: seq<byte>, rest: seq<byte>, now: nat)
    requires |expiry| == 8 && |rest| == 20
    ensures Redeemable(V2(expiry, rest), now) <==> now <= Seconds(expiry) <= now + 90000
    ensures Recoverable(V2(expiry, rest), now) <==> now <= Seconds(expiry) <= now + 90000
  {
    var m: seq<byte> := [0x4e, 0x54, 0x56, 0x32] + expiry + rest;
    HexRoundTrip(m);
    assert m[4..12] == expiry;
    SecondsIs(expiry);
  }

  /** Any other 32-byte message names no expiry and stays redeemable; it is never recoverable. */
  lemma LegacyCurrent(m: seq<byte>, now: nat)
    requires |m| == 32 && !(m[0] == 0x4e && m[1] == 0x54 && m[2] == 0x56 && m[3] == 0x32)
    ensures Redeemable(ToHex(m), now) && !Recoverable(ToHex(m), now)
  {
    HexRoundTrip(m);
  }

  lemma {:induction false} KeptIs(s: seq<Pass>, now: nat)
    ensures forall p :: p in Kept(s, now) <==> p in s && Redeemable(p.msg, now)
  {
    if s != [] {
      KeptIs(s[..|s| - 1], now);
      assert s == s[..|s| - 1] + [s[|s| - 1]];
    }
  }

  /** Pruning at `now` keeps a version-2 pass, queued or reserved, and a one-payment request exactly when
      the expiry is not past and at most 25 hours ahead. */
  lemma PruneKeeps(hash: string -> string, v: Vault, now: nat, p: Pass, expiry: seq<byte>, rest: seq<byte>)
    requires |expiry| == 8 && |rest| == 20 && p.msg == V2(expiry, rest)
    ensures Apply(hash, v, Prune(now)).Ok?
    ensures var w := Apply(hash, v, Prune(now)).value.0;
      && (p in w.tokens <==> p in v.tokens && now <= Seconds(expiry) <= now + 90000)
      && (v.pending.Some? && v.pending.value.pass == p ==>
            w.pending == if now <= Seconds(expiry) <= now + 90000 then v.pending else None)
      && (v.issue.Some? && v.issue.value.request.msg == p.msg ==>
            w.issue == if now <= Seconds(expiry) <= now + 90000 then v.issue else None)
      && w.schema == v.schema && w.auth == v.auth && w.receipt == v.receipt && w.lastId == v.lastId
  {
    V2Current(expiry, rest, now);
    KeptIs(v.tokens, now);
  }

  lemma {:induction false} KeptConcat(s: seq<Pass>, t: seq<Pass>, now: nat)
    ensures Kept(s + t, now) == Kept(s, now) + Kept(t, now)
    decreases |t|
  {
    if t == [] {
      assert s + t == s;
    } else {
      var u := s + t;
      assert u[..|u| - 1] == s + t[..|t| - 1];
      KeptConcat(s, t[..|t| - 1], now);
    }
  }

  /** Pruning keeps the order of the queue: what is left of two parts stands in the same order, and a queue
      of current passes is left as it is. */
  lemma PruneKeepsOrder(hash: string -> string, v: Vault, w: Vault, u: Vault, now: nat)
    requires u.tokens == v.tokens + w.tokens
    ensures Apply(hash, u, Prune(now)).Ok? && Apply(hash, v, Prune(now)).Ok? && Apply(hash, w, Prune(now)).Ok?
    ensures Apply(hash, u, Prune(now)).value.0.tokens ==
      Apply(hash, v, Prune(now)).value.0.tokens + Apply(hash, w, Prune(now)).value.0.tokens
    ensures (forall p :: p in v.tokens ==> Redeemable(p.msg, now)) ==> Apply(hash, v, Prune(now)).value.0.tokens == v.tokens
  {
    KeptConcat(v.tokens, w.tokens, now);
    AllKept(v.tokens, now);
  }

  lemma {:induction false} AllKept(s: seq<Pass>, now: nat)
    ensures (forall p :: p in s ==> Redeemable(p.msg, now)) ==> Kept(s, now) == s
  {
    if s != [] {
      AllKept(s[..|s| - 1], now);
      assert s == s[..|s| - 1] + [s[|s| - 1]];
    }
  }

  lemma {:induction false} KeptDistinct(s: seq<Pass>, now: nat)
    requires Distinct(s)
    ensures Distinct(Kept(s, now))
  {
    if s != [] {
      var front, last := s[..|s| - 1], s[|s| - 1];
      KeptDistinct(front, now);
      KeptIs(front, now);
      forall p | p in Kept(front, now) ensures p.msg != last.msg {
        var i :| 0 <= i < |front| && front[i] == p;
        assert s[i].msg != s[|s| - 1].msg;
      }
    }
  }

  /** Pruning a well-formed vault leaves one, so it never fails for want of that. */
  lemma PruneValid(v: Vault, now: nat)
    requires Valid(v)
    ensures Valid(PruneVault(v, now))
  {
    var w := PruneVault(v, now);
    PassesFitIff(v);
    assert Distinct(v.tokens);
    KeptDistinct(v.tokens, now);
    KeptIs(v.tokens, now);
    PassesFitIff(w);
  }

  /** It keeps a batch of version-2 requests exactly when all of them are current. */
  lemma PruneKeepsBatch(hash: string -> string, v: Vault, now: nat, expiries: seq<seq<byte>>, rests: seq<seq<byte>>)
    requires v.mint.Some? && |v.mint.value.requests| == |expiries| == |rests| > 0
    requires forall i :: 0 <= i < |expiries| ==>
      |expiries[i]| == 8 && |rests[i]| == 20 && v.mint.value.requests[i].msg == V2(expiries[i], rests[i])
    ensures Apply(hash, v, Prune(now)).Ok?
    ensures Apply(hash, v, Prune(now)).value.0.mint ==
      if forall i :: 0 <= i < |expiries| ==> now <= Seconds(expiries[i]) <= now + 90000 then v.mint else None
  {
    forall i | 0 <= i < |expiries|
      ensures Recoverable(v.mint.value.requests[i].msg, now) <==> now <= Seconds(expiries[i]) <= now + 90000
    {
      V2Current(expiries[i], rests[i], now);
    }
  }

  /** The number pruning answers: every pass and every request that is gone. */
  lemma PruneCounts(hash: string -> string, v: Vault, now: nat)
    ensures Apply(hash, v, Prune(now)).Ok?
    ensures var (w, answer) := Apply(hash, v, Prune(now)).value;
      answer == Count(|v.tokens| - |w.tokens|
                      + (if v.pending.Some? && w.pending.None? then 1 else 0)
                      + (if v.issue.Some? && w.issue.None? then 1 else 0)
                      + (if v.mint.Some? && w.mint.None? then |v.mint.value.requests| else 0))
  {
  }
}
