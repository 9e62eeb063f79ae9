/**
 Internet checksum finalisation of a packet read from a TUN device
 (crates/nil-core/src/checksum.rs).

 A packet has up to two checksum fields.  Each is described by a `Region`: the bytes it covers, the
 offset of the 16-bit field in them, and the pseudo-header sum that seeds the addition.  `Fixed`
 says what the in-place rewriting leaves behind; the lemmas say what that means on the wire.
 */
module Checksum {
  import opened Text

  type u16 = w: int | 0 <= w < 0x1_0000
  type u32 = w: int | 0 <= w < 0x1_0000_0000

  // ---------------------------------------------------------------- one's-complement sums

  /** Sum of the big-endian 16-bit words of `s`; a trailing odd byte is the high half of a word. */
  function WordSum(s: seq<byte>): nat {
    if |s| == 0 then 0
    else if |s| == 1 then 0x100 * s[0]
    else 0x100 * s[0] + s[1] + WordSum(s[2..])
  }

  /** The 16-bit one's-complement value of a sum (RFC 1071, section 1): end-around carries only. */
  function Fold(n: nat): (f: u16)
    ensures f % 0xffff == n % 0xffff
    ensures f == 0 <==> n == 0
  {
    if n == 0 then 0 else (n - 1) % 0xffff + 1
  }

  /** At most one 16-bit value is congruent to `n` and zero exactly when `n` is. */
  lemma FoldUnique(n: nat, f: u16)
    requires f % 0xffff == n % 0xffff
    requires f == 0 <==> n == 0
    ensures f == Fold(n)
  {
  }

  /** One pass of the carry loop keeps the folded value. */
  lemma FoldStep(n: nat)
    ensures Fold(n % 0x1_0000 + n / 0x1_0000) == Fold(n)
  {
    var q, r := n / 0x1_0000, n % 0x1_0000;
    assert n == 0xffff * q + (q + r);
    FoldShift(q + r, q);
  }

  /** Adding a multiple of 65535 to a nonzero sum does not change its folded value. */
  lemma {:induction false} FoldShift(n: nat, k: nat)
    requires n == 0 ==> k == 0
    ensures Fold(0xffff * k + n) == Fold(n)
  {
    if k > 0 {
      FoldShift(n, k - 1);
      var m := 0xffff * (k - 1) + n;
      assert 0xffff * k + n == m + 0xffff;
      assert (m - 1 + 0xffff) % 0xffff == (m - 1) % 0xffff;
    }
  }

  lemma {:induction false} WordSumBound(s: seq<byte>)
    ensures WordSum(s) <= 0xffff * ((|s| + 1) / 2)
  {
    if |s| >= 2 {
      WordSumBound(s[2..]);
    }
  }

  /** The 16-bit word at offset `i`. */
  function Word(s: seq<byte>, i: nat): (w: u16)
    requires i + 1 < |s|
  {
    (s[i] as int) * 0x100 + s[i + 1]
  }

  function SetWord(s: seq<byte>, i: nat, w: u16): (t: seq<byte>)
    requires i + 1 < |s|
    ensures |t| == |s| && Word(t, i) == w
    ensures forall k :: 0 <= k < |s| && k != i && k != i + 1 ==> t[k] == s[k]
  {
    s[i := w / 0x100][i + 1 := w % 0x100]
  }

  /** Replacing the word at an even offset replaces exactly its term of the sum. */
  lemma {:induction false} WordSumSet(s: seq<byte>, i: nat, w: u16)
    requires i % 2 == 0 && i + 1 < |s|
    ensures WordSum(SetWord(s, i, w)) + Word(s, i) == WordSum(s) + w
  {
    var t := SetWord(s, i, w);
    if i == 0 {
      assert t[2..] == s[2..];
    } else {
      WordSumSet(s[2..], i - 2, w);
      assert t[2..] == SetWord(s[2..], i - 2, w);
      assert Word(s[2..], i - 2) == Word(s, i);
    }
  }

  // ---------------------------------------------------------------- what a packet carries

  /** Bytes `start..end` plus a seed, with the checksum word at `start + off`.  `nonZero` marks the
      protocols that transmit a computed zero as 0xffff. */
  datatype Region = Region(start: nat, end: nat, off: nat, seed: nat, nonZero: bool)

  ghost function Sum(p: seq<byte>, r: Region): nat
    requires r.start <= r.end <= |p|
  {
    r.seed + WordSum(p[r.start..r.end])
  }

  function Field(p: seq<byte>, r: Region): u16
    requires InBounds(p, r)
  {
    Word(p, r.start + r.off)
  }

  /** The receiver's test: seed, data and checksum add up to all ones. */
  ghost predicate Verifies(p: seq<byte>, r: Region)
    requires r.start <= r.end <= |p|
  {
    Fold(Sum(p, r)) == 0xffff
  }

  function Min(a: nat, b: nat): nat { if a < b then a else b }

  /** The IPv4 header, when the packet has a well-formed one. */
  function Header(p: seq<byte>): Option<Region> {
    if |p| >= 20 && p[0] / 16 == 4 && p[0] % 16 >= 5 && |p| >= 4 * (p[0] % 16)
    then Some(Region(0, 4 * (p[0] % 16), 10, 0, false))
    else None
  }

  /** The TCP or UDP segment of an IPv4 packet, with its pseudo-header (RFC 768, RFC 9293). */
  function Segment4(p: seq<byte>): Option<Region> {
    if Header(p).None? then None else
    var ihl := 4 * (p[0] % 16);
    var end := Min(Word(p, 2), |p|);
    var off := if p[9] == 6 then 16 else 6;
    if (p[9] == 6 || p[9] == 17) && ihl + off + 2 <= end
    then Some(Region(ihl, end, off, WordSum(p[12..20]) + p[9] + (end - ihl), p[9] == 17))
    else None
  }

  /** The TCP, UDP or ICMPv6 segment of an IPv6 packet (section 8.1 of RFC 8200). */
  function Segment6(p: seq<byte>): Option<Region> {
    if |p| < 40 || p[0] / 16 != 6 then None else
    var end := Min(40 + Word(p, 4), |p|);
    var off := if p[6] == 6 then 16 else if p[6] == 17 then 6 else 2;
    if (p[6] == 6 || p[6] == 17 || p[6] == 58) && 40 + off + 2 <= end
    then Some(Region(40, end, off,
                     WordSum(p[8..40]) + (end - 40) / 0x1_0000 + (end - 40) % 0x1_0000 + p[6], p[6] != 6))
    else None
  }

  function Segment(p: seq<byte>): Option<Region> {
    if |p| > 0 && p[0] / 16 == 4 then Segment4(p) else Segment6(p)
  }

  /** `r` is one of the checksums that packet `p` carries. */
  ghost predicate Carries(p: seq<byte>, r: Region) {
    Header(p) == Some(r) || Segment(p) == Some(r)
  }

  predicate InBounds(p: seq<byte>, r: Region) {
    r.start + r.off + 2 <= r.end <= |p|
  }

  /** The value written into a field: the complement of the sum taken with the field zeroed. */
  function Canonical(p: seq<byte>, r: Region): u16
    requires InBounds(p, r)
  {
    var q := SetWord(p, r.start + r.off, 0);
    var c := 0xffff - Fold(r.seed + WordSum(q[r.start..r.end]));
    if r.nonZero && c == 0 then 0xffff else c
  }

  function Patch(p: seq<byte>, r: Option<Region>): (q: seq<byte>)
    requires r.Some? ==> InBounds(p, r.value)
    ensures |q| == |p|
  {
    match r
    case None => p
    case Some(f) => SetWord(p, f.start + f.off, Canonical(p, f))
  }

  /** The packet after `fix_l4_checksums`: header first, then the segment. */
  function Fixed(p: seq<byte>): (q: seq<byte>)
    ensures |q| == |p|
  {
    Patch(Patch(p, Header(p)), Segment(p))
  }

  // ---------------------------------------------------------------- where the fields are

  /** In bounds, aligned, and with something to sum even when the field is cleared. */
  ghost predicate WellPlaced(p: seq<byte>, r: Region) {
    && InBounds(p, r)
    && r.off % 2 == 0
    && r.seed + WordSum(SetWord(p, r.start + r.off, 0)[r.start..r.end]) > 0
  }

  /** Every checksum of a packet is well placed, and the header ends before the segment starts. */
  lemma CarriesSound(p: seq<byte>)
    ensures forall r :: Carries(p, r) ==> WellPlaced(p, r)
    ensures Header(p).Some? && Segment(p).Some? ==> Header(p).value.end <= Segment(p).value.start
  {
    if Header(p).Some? {
      var q := SetWord(p, 10, 0)[0..Header(p).value.end];
      assert q[0] == p[0] && p[0] >= 64;
      assert WordSum(q) >= q[0];
    }
  }

  ghost predicate InField(r: Region, k: nat) {
    k == r.start + r.off || k == r.start + r.off + 1
  }

  /** `p` and `q` differ at most in checksum fields of `p`. */
  ghost predicate SameButFields(p: seq<byte>, q: seq<byte>) {
    && |p| == |q|
    && forall k :: 0 <= k < |p| && p[k] != q[k] ==> exists r :: Carries(p, r) && InField(r, k)
  }

  lemma Agree4(p: seq<byte>, q: seq<byte>)
    requires |p| == |q| >= 20 && p[0] / 16 == 4
    requires forall k :: 0 <= k < 10 || 12 <= k < 20 ==> p[k] == q[k]
    ensures Header(q) == Header(p) && Segment(q) == Segment(p)
  {
    assert p[12..20] == q[12..20];
    assert Word(p, 2) == Word(q, 2);
  }

  lemma Agree6(p: seq<byte>, q: seq<byte>)
    requires |p| == |q| >= 40 && p[0] / 16 == 6
    requires forall k :: 0 <= k < 40 ==> p[k] == q[k]
    ensures Header(q) == Header(p) && Segment(q) == Segment(p)
  {
    assert p[8..40] == q[8..40];
    assert Word(p, 4) == Word(q, 4);
  }

  /** Rewriting checksum fields never moves, adds or removes a checksum. */
  lemma FieldsStable(p: seq<byte>, q: seq<byte>)
    requires SameButFields(p, q)
    ensures Header(q) == Header(p) && Segment(q) == Segment(p)
  {
    if |p| >= 20 && p[0] / 16 == 4 {
      forall r | Carries(p, r) ensures r.start + r.off >= 20 || r.start + r.off == 10 { }
      Agree4(p, q);
    } else if |p| >= 40 && p[0] / 16 == 6 {
      forall r | Carries(p, r) ensures r.start + r.off >= 40 { }
      Agree6(p, q);
    }
  }

  // ---------------------------------------------------------------- one field

  /** Rewriting one field makes its region verify, and doing so again changes nothing. */
  lemma PatchSelf(p: seq<byte>, r: Region)
    requires WellPlaced(p, r)
    ensures Verifies(Patch(p, Some(r)), r)
    ensures Canonical(Patch(p, Some(r)), r) == Field(Patch(p, Some(r)), r) == Canonical(p, r)
  {
    PatchVerifies(p, r);
    PatchHolds(p, r);
  }

  lemma PatchHolds(p: seq<byte>, r: Region)
    requires InBounds(p, r)
    ensures Canonical(Patch(p, Some(r)), r) == Field(Patch(p, Some(r)), r) == Canonical(p, r)
  {
    SetWordTwice(p, r.start + r.off, Canonical(p, r));
  }

  lemma PatchVerifies(p: seq<byte>, r: Region)
    requires WellPlaced(p, r)
    ensures Verifies(Patch(p, Some(r)), r)
  {
    var c, cleared := Canonical(p, r), Sum(SetWord(p, r.start + r.off, 0), r);
    ClearedSum(p, r, c);
    FoldComplement(cleared, c);
  }

  /** A sum and the complement of its folded value add up to all ones. */
  lemma FoldComplement(n: nat, c: u16)
    requires n > 0 && (c == 0xffff - Fold(n) || (c == 0xffff && Fold(n) == 0xffff))
    ensures Fold(n + c) == 0xffff
  {
    FoldUnique(n + c, 0xffff);
  }

  lemma SetWordTwice(p: seq<byte>, i: nat, w: u16)
    requires i + 1 < |p|
    ensures SetWord(SetWord(p, i, w), i, 0) == SetWord(p, i, 0) && Word(SetWord(p, i, w), i) == w
  {
  }

  /** The sum of a region with `w` in its field is the cleared sum plus `w`. */
  lemma ClearedSum(p: seq<byte>, r: Region, w: u16)
    requires InBounds(p, r) && r.off % 2 == 0
    ensures Sum(SetWord(p, r.start + r.off, w), r) == Sum(SetWord(p, r.start + r.off, 0), r) + w
  {
    var s, i := p[r.start..r.end], r.start + r.off;
    WordSumSet(s, r.off, w);
    WordSumSet(s, r.off, 0);
    assert SetWord(p, i, w)[r.start..r.end] == SetWord(s, r.off, w);
    assert SetWord(p, i, 0)[r.start..r.end] == SetWord(s, r.off, 0);
  }

  /** A region verifies exactly when its field is congruent to the canonical value, and holds that
      value exactly when it also avoids the other zero of one's-complement arithmetic. */
  lemma VerifiedField(p: seq<byte>, r: Region)
    requires WellPlaced(p, r)
    ensures Verifies(p, r) <==> Field(p, r) % 0xffff == Canonical(p, r) % 0xffff
    ensures Field(p, r) == Canonical(p, r)
       <==> Verifies(p, r) && Field(p, r) != OtherZero(r)
  {
    var i, w := r.start + r.off, Field(p, r);
    assert SetWord(p, i, w) == p;
    ClearedSum(p, r, w);
    CanonicalValue(Sum(SetWord(p, i, 0), r), r.nonZero, w);
  }

  lemma CanonicalValue(n: nat, nonZero: bool, w: u16)
    requires n > 0
    ensures var c := if nonZero && Fold(n) == 0xffff then 0xffff else 0xffff - Fold(n);
            && (Fold(n + w) == 0xffff <==> w % 0xffff == c % 0xffff)
            && (w == c <==> w % 0xffff == c % 0xffff && w != (if nonZero then 0 else 0xffff))
  {
    FoldedWith(n, w);
    Congruent16(w, if nonZero && Fold(n) == 0xffff then 0xffff else 0xffff - Fold(n));
  }

  lemma Congruent16(a: u16, b: u16)
    ensures a % 0xffff == b % 0xffff <==> a == b || (a == 0 && b == 0xffff) || (a == 0xffff && b == 0)
  {
  }

  lemma FoldedWith(n: nat, w: u16)
    requires n > 0
    ensures Fold(n + w) == 0xffff <==> Fold(n) + w == 0xffff || Fold(n) + w == 0x1_fffe
  {
    var m, q := Fold(n), (n - 1) / 0xffff;
    assert n == 0xffff * q + m;
    FoldShift(m + w, q);
  }

  // ---------------------------------------------------------------- the whole packet

  /** Rewriting one field leaves a region that does not contain it as it was. */
  lemma PatchApart(p: seq<byte>, r: Region, s: Region)
    requires InBounds(p, r) && InBounds(p, s)
    requires r.end <= s.start || s.end <= r.start
    ensures var q := Patch(p, Some(r));
            && Sum(q, s) == Sum(p, s) && Field(q, s) == Field(p, s)
            && Canonical(q, s) == Canonical(p, s) && (WellPlaced(q, s) <==> WellPlaced(p, s))
  {
    var q, i := Patch(p, Some(r)), s.start + s.off;
    assert q[s.start..s.end] == p[s.start..s.end];
    assert SetWord(q, i, 0)[s.start..s.end] == SetWord(p, i, 0)[s.start..s.end];
  }

  /** What one field of the finished packet holds. */
  ghost predicate Finished(p: seq<byte>, q: seq<byte>, r: Region) {
    && |p| == |q| && WellPlaced(p, r)
    && Verifies(q, r) && Field(q, r) == Canonical(p, r) == Canonical(q, r)
  }

  lemma HeaderFinished(p: seq<byte>)
    requires Header(p).Some?
    ensures Finished(p, Fixed(p), Header(p).value)
  {
    CarriesSound(p);
    var r := Header(p).value;
    PatchSelf(p, r);
    if Segment(p).Some? {
      PatchApart(Patch(p, Some(r)), Segment(p).value, r);
    }
  }

  lemma SegmentFinished(p: seq<byte>)
    requires Segment(p).Some?
    ensures Finished(p, Fixed(p), Segment(p).value)
  {
    CarriesSound(p);
    var r := Segment(p).value;
    if Header(p).Some? {
      PatchApart(p, Header(p).value, r);
    }
    PatchSelf(Patch(p, Header(p)), r);
  }

  /** Only checksum fields are written, and all of them hold their canonical value. */
  lemma FixedFields(p: seq<byte>)
    ensures SameButFields(p, Fixed(p))
    ensures Header(Fixed(p)) == Header(p) && Segment(Fixed(p)) == Segment(p)
    ensures forall r :: Carries(p, r) ==> Finished(p, Fixed(p), r)
  {
    var q := Fixed(p);
    forall k | 0 <= k < |p| && p[k] != q[k] ensures exists r :: Carries(p, r) && InField(r, k) {
      if Header(p).Some? && InField(Header(p).value, k) {
      } else {
        assert Segment(p).Some? && InField(Segment(p).value, k);
      }
    }
    FieldsStable(p, q);
    if Header(p).Some? { HeaderFinished(p); }
    if Segment(p).Some? { SegmentFinished(p); }
  }

  /** After finalisation every checksum the packet carries verifies at the receiver, and UDP and
      ICMPv6 over IPv6 never carry a zero. */
  lemma FixedVerifies(p: seq<byte>)
    ensures forall r :: Carries(Fixed(p), r) ==>
      InBounds(p, r) && Verifies(Fixed(p), r) && (r.nonZero ==> Field(Fixed(p), r) != 0)
  {
    FixedFields(p);
    forall r | Carries(Fixed(p), r) ensures Finished(p, Fixed(p), r) { assert Carries(p, r); }
  }

  lemma PatchKept(p: seq<byte>, r: Region)
    requires InBounds(p, r) && Field(p, r) == Canonical(p, r)
    ensures Patch(p, Some(r)) == p
  {
    var i := r.start + r.off;
    assert SetWord(p, i, Word(p, i)) == p;
  }

  /** Writing canonical values over canonical values changes nothing. */
  lemma CanonicalKept(p: seq<byte>)
    requires forall r :: Carries(p, r) ==> InBounds(p, r) && Field(p, r) == Canonical(p, r)
    ensures Fixed(p) == p
  {
    if Header(p).Some? { PatchKept(p, Header(p).value); }
    if Segment(p).Some? { PatchKept(p, Segment(p).value); }
  }

  lemma FixedIdempotent(p: seq<byte>)
    ensures Fixed(Fixed(p)) == Fixed(p)
  {
    FixedFields(p);
    var q := Fixed(p);
    forall r | Carries(q, r) ensures InBounds(q, r) && Field(q, r) == Canonical(q, r) {
      assert Carries(p, r) && Finished(p, q, r);
    }
    CanonicalKept(q);
  }

  /** The spelling of zero that the code never writes into this field. */
  function OtherZero(r: Region): u16 { if r.nonZero then 0 else 0xffff }

  /** A packet is left byte-for-byte alone exactly when all its checksums verify and none of them
      uses the other spelling of zero. */
  lemma UnchangedIff(p: seq<byte>)
    ensures Fixed(p) == p <==>
      forall r :: Carries(p, r) ==> InBounds(p, r) && Verifies(p, r) && Field(p, r) != OtherZero(r)
  {
    FixedFields(p);
    forall r | Carries(p, r) { VerifiedField(p, r); }
    if forall r :: Carries(p, r) ==> Field(p, r) == Canonical(p, r) {
      CanonicalKept(p);
    }
  }

  /** A field that already verified keeps its value modulo 65535. */
  lemma VerifiedKeepsResidue(p: seq<byte>, r: Region)
    requires Carries(p, r) && InBounds(p, r) && Verifies(p, r)
    ensures Field(Fixed(p), r) % 0xffff == Field(p, r) % 0xffff
  {
    FixedFields(p);
    VerifiedField(p, r);
  }

  /** 45 00 .. 00 ff ff ba ff 00 .. 00: twenty bytes whose checksum field spells zero as 0xffff. */
  ghost predicate IsOnesHeader(p: seq<byte>) {
    && |p| == 20 && p[0] == 0x45 && p[10] == p[11] == 0xff && p[12] == 0xba && p[13] == 0xff
    && forall k :: 1 <= k < 10 || 14 <= k < 20 ==> p[k] == 0
  }

  /** The file's header comment promises that an already correct packet is rewritten to the same
      bytes.  This IPv4 header verifies and is nevertheless rewritten. */
  lemma CorrectHeaderRewritten(p: seq<byte>)
    requires IsOnesHeader(p)
    ensures Carries(p, Region(0, 20, 10, 0, false)) && Verifies(p, Region(0, 20, 10, 0, false))
    ensures Fixed(p) != p
  {
    var r := Region(0, 20, 10, 0, false);
    assert Header(p) == Some(r);
    CorrectHeaderSum(p);
    VerifiedField(p, r);
    UnchangedIff(p);
  }

  lemma CorrectHeaderSum(p: seq<byte>)
    requires IsOnesHeader(p)
    ensures InBounds(p, Region(0, 20, 10, 0, false)) && WellPlaced(p, Region(0, 20, 10, 0, false))
    ensures Canonical(p, Region(0, 20, 10, 0, false)) == 0
  {
    var z := SetWord(p, 10, 0);
    assert z[0..20] == z;
    ClearedHeaderSum(z);
    CanonicalZero(p, Region(0, 20, 10, 0, false), z);
  }

  lemma CanonicalZero(p: seq<byte>, r: Region, z: seq<byte>)
    requires InBounds(p, r) && r.off % 2 == 0 && r.seed == 0 && !r.nonZero
    requires z == SetWord(p, r.start + r.off, 0)[r.start..r.end] && WordSum(z) == 0xffff
    ensures WellPlaced(p, r) && Canonical(p, r) == 0
  {
  }

  lemma ClearedHeaderSum(z: seq<byte>)
    requires |z| == 20 && z[0] == 0x45 && z[12] == 0xba && z[13] == 0xff
    requires forall k :: 1 <= k < 12 || 14 <= k < 20 ==> z[k] == 0
    ensures WordSum(z) == 0xffff
  {
    assert WordSum(z) == 0x4500 + WordSum(z[2..]);
    var y := z[2..];
    ZeroPrefix(y, 5);
    assert y[10..] == z[12..];
    var x := z[12..];
    assert WordSum(x) == 0xbaff + WordSum(x[2..]);
    assert x[2..] == z[14..];
    var w := z[14..];
    ZeroPrefix(w, 3);
    assert w[6..] == [];
  }

  lemma {:induction false} ZeroPrefix(s: seq<byte>, n: nat)
    requires 2 * n <= |s| && forall k :: 0 <= k < 2 * n ==> s[k] == 0
    ensures WordSum(s) == WordSum(s[2 * n..])
  {
    if n > 0 {
      ZeroPrefix(s[2..], n - 1);
      assert s[2..][2 * (n - 1)..] == s[2 * n..];
    } else {
      assert s[0..] == s;
    }
  }

  // ---------------------------------------------------------------- the code

  /** `ones_complement` over `pkt[lo..hi]`.  The accumulator is a `u32`; callers keep it in range. */
  method OnesComplement(pkt: array<byte>, lo: nat, hi: nat, initial: u32) returns (c: u16)
    requires lo <= hi <= pkt.Length
    requires initial + WordSum(pkt[lo..hi]) < 0x1_0000_0000
    ensures c == 0xffff - Fold(initial + WordSum(pkt[lo..hi]))
  {
    ghost var total := initial + WordSum(pkt[lo..hi]);
    var sum: u32 := initial;
    var i := lo;
    while i + 1 < hi
      invariant lo <= i <= hi
      invariant sum + WordSum(pkt[i..hi]) == total
    {
      assert pkt[i..hi][2..] == pkt[i + 2..hi];
      sum := sum + ((pkt[i] as int) * 0x100 + pkt[i + 1]);
      i := i + 2;
    }
    if i < hi {
      sum := sum + (pkt[i] as int) * 0x100;
    }
    while sum / 0x1_0000 != 0
      invariant Fold(sum) == Fold(total)
      decreases sum
    {
      FoldStep(sum);
      sum := sum % 0x1_0000 + sum / 0x1_0000;
    }
    FoldUnique(sum, sum);
    c := 0xffff - sum;
  }

  /** The pseudo-header address words `pkt[lo..hi]`, two bytes at a time. */
  method AddressSum(pkt: array<byte>, lo: nat, hi: nat) returns (sum: u32)
    requires lo <= hi <= pkt.Length && (hi - lo) % 2 == 0 && hi - lo <= 32
    ensures sum == WordSum(pkt[lo..hi]) <= 16 * 0xffff
  {
    WordSumBound(pkt[lo..hi]);
    sum := 0;
    var i := lo;
    while i < hi
      invariant lo <= i <= hi && (hi - i) % 2 == 0
      invariant sum + WordSum(pkt[i..hi]) == WordSum(pkt[lo..hi])
    {
      assert pkt[i..hi][2..] == pkt[i + 2..hi];
      sum := sum + ((pkt[i] as int) * 0x100 + pkt[i + 1]);
      i := i + 2;
    }
  }

  /** Zero the field of `r`, sum, and write the complement back, as both families do. */
  method RewriteField(pkt: array<byte>, start: nat, end: nat, off: nat, seed: u32, nonZero: bool)
    requires start + off + 2 <= end <= pkt.Length
    requires end - start <= 0x1_0000 && seed <= 0x20_0000
    modifies pkt
    ensures pkt[..] == Patch(old(pkt[..]), Some(Region(start, end, off, seed, nonZero)))
  {
    StoreWord(pkt, start + off, 0);
    ghost var cleared := pkt[..];
    assert cleared[start..end] == pkt[start..end];
    WordSumBound(pkt[start..end]);
    var c := OnesComplement(pkt, start, end, seed);
    if nonZero && c == 0 {
      c := 0xffff;
    }
    StoreWord(pkt, start + off, c);
    SetWordAgain(old(pkt[..]), start + off, c);
  }

  method StoreWord(pkt: array<byte>, i: nat, w: u16)
    requires i + 2 <= pkt.Length
    modifies pkt
    ensures pkt[..] == SetWord(old(pkt[..]), i, w)
  {
    pkt[i] := w / 0x100;
    pkt[i + 1] := w % 0x100;
    assert pkt[..] == SetWord(old(pkt[..]), i, w);
  }

  lemma SetWordAgain(p: seq<byte>, i: nat, w: u16)
    requires i + 1 < |p|
    ensures SetWord(SetWord(p, i, 0), i, w) == SetWord(p, i, w)
  {
  }

  method FixIpv4(pkt: array<byte>)
    modifies pkt
    ensures pkt[..] == Patch(Patch(old(pkt[..]), Header(old(pkt[..]))), Segment4(old(pkt[..])))
  {
    ghost var p := pkt[..];
    if pkt.Length < 20 || pkt[0] / 16 != 4 {
      return;
    }
    var ihl := (pkt[0] % 16) * 4;
    if ihl < 20 || pkt.Length < ihl {
      return;
    }
    RewriteField(pkt, 0, ihl, 10, 0, false);
    Agree4(p, pkt[..]);
    FixSegment4(pkt, ihl);
  }

  /** The second half of `fix_ipv4_checksums`, once the header checksum is in place. */
  method FixSegment4(pkt: array<byte>, ihl: nat)
    requires Header(pkt[..]).Some? && ihl == Header(pkt[..]).value.end
    modifies pkt
    ensures pkt[..] == Patch(old(pkt[..]), Segment4(old(pkt[..])))
  {
    ghost var p := pkt[..];
    var proto := pkt[9];
    var totalLen := (pkt[2] as int) * 0x100 + pkt[3];
    assert totalLen == Word(p, 2);
    var end := Min(totalLen, pkt.Length);
    if end <= ihl {
      return;
    }
    var csumOff;
    if proto == 6 {
      csumOff := 16;
    } else if proto == 17 {
      csumOff := 6;
    } else {
      return;
    }
    var l4Len := end - ihl;
    if l4Len < csumOff + 2 {
      return;
    }
    var sum := AddressSum(pkt, 12, 20);
    assert pkt[12..20] == p[12..20];
    sum := sum + proto;
    sum := sum + l4Len;
    assert Segment4(p) == Some(Region(ihl, end, csumOff, sum, proto == 17));
    RewriteField(pkt, ihl, end, csumOff, sum, proto == 17);
  }

  method FixIpv6(pkt: array<byte>)
    modifies pkt
    ensures pkt[..] == Patch(old(pkt[..]), Segment6(old(pkt[..])))
  {
    ghost var p := pkt[..];
    if pkt.Length < 40 || pkt[0] / 16 != 6 {
      return;
    }
    var nextHeader := pkt[6];
    var payloadLen := (pkt[4] as int) * 0x100 + pkt[5];
    var csumOff;
    if nextHeader == 6 {
      csumOff := 16;
    } else if nextHeader == 17 {
      csumOff := 6;
    } else if nextHeader == 58 {
      csumOff := 2;
    } else {
      return;
    }
    FixSegment6(pkt, nextHeader, payloadLen, csumOff);
  }

  /** The second half of `fix_ipv6_checksums`, once the protocol is known. */
  method FixSegment6(pkt: array<byte>, nextHeader: byte, payloadLen: nat, csumOff: nat)
    requires pkt.Length >= 40 && pkt[0] / 16 == 6 && nextHeader == pkt[6] && payloadLen == Word(pkt[..], 4)
    requires (nextHeader == 6 && csumOff == 16) || (nextHeader == 17 && csumOff == 6) || (nextHeader == 58 && csumOff == 2)
    modifies pkt
    ensures pkt[..] == Patch(old(pkt[..]), Segment6(old(pkt[..])))
  {
    ghost var p := pkt[..];
    var end := Min(40 + payloadLen, pkt.Length);
    if end <= 40 {
      return;
    }
    var l4Len := end - 40;
    if l4Len < csumOff + 2 {
      return;
    }
    var sum := AddressSum(pkt, 8, 40);
    assert pkt[8..40] == p[8..40];
    sum := sum + l4Len / 0x1_0000;
    sum := sum + l4Len % 0x1_0000;
    sum := sum + nextHeader;
    assert Segment6(p) == Some(Region(40, end, csumOff, sum, nextHeader != 6));
    RewriteField(pkt, 40, end, csumOff, sum, nextHeader == 17 || nextHeader == 58);
  }

  /** `fix_l4_checksums`: dispatch on the version nibble. */
  method FixL4Checksums(pkt: array<byte>)
    modifies pkt
    ensures pkt[..] == Fixed(old(pkt[..]))
  {
    ghost var p := pkt[..];
    if pkt.Length > 0 && pkt[0] / 16 == 4 {
      FixIpv4(pkt);
    } else if pkt.Length > 0 && pkt[0] / 16 == 6 {
      FixIpv6(pkt);
    }
  }
}
