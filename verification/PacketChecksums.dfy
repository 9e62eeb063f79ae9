/**
 What `fix_l4_checksums` means on the wire (crates/nil-core/src/checksum.rs), in the terms of the
 protocols: the header and pseudo-header sums of RFC 791, RFC 768, RFC 9293 and RFC 8200, written out
 as bytes, and the offsets as numbers.
 */
module PacketChecksums {
  import opened Text
  import opened Checksum

  /** `p` and `q` differ at most at these positions. */
  ghost predicate SameExcept(p: seq<byte>, q: seq<byte>, at: set<int>) {
    |q| == |p| && forall k :: 0 <= k < |p| && k !in at ==> q[k] == p[k]
  }

  /** The receiver of these bytes accepts them. */
  ghost predicate AddsUp(s: seq<byte>) { Fold(WordSum(s)) == 0xffff }

  lemma {:induction false} WordSumConcat(s: seq<byte>, t: seq<byte>)
    requires |s| % 2 == 0
    ensures WordSum(s + t) == WordSum(s) + WordSum(t)
  {
    if s == [] {
      assert s + t == t;
    } else {
      WordSumConcat(s[2..], t);
      assert (s + t)[2..] == s[2..] + t;
    }
  }

  // ---------------------------------------------------------------- IPv4

  /** Source, destination, zero and protocol, length: the twelve bytes summed before the segment. */
  function Pseudo4(q: seq<byte>, protocol: byte, length: nat): seq<byte>
    requires |q| >= 20 && length < 0x1_0000
  {
    q[12..16] + q[16..20] + [0, protocol] + [length / 0x100, length % 0x100]
  }

  lemma Pseudo4Sum(q: seq<byte>, protocol: byte, length: nat)
    requires |q| >= 20 && length < 0x1_0000
    ensures |Pseudo4(q, protocol, length)| == 12
    ensures WordSum(Pseudo4(q, protocol, length)) == WordSum(q[12..20]) + protocol + length
  {
    var tail: seq<byte> := [0, protocol] + [length / 0x100, length % 0x100];
    assert Pseudo4(q, protocol, length) == q[12..20] + tail;
    WordSumConcat(q[12..20], tail);
    assert tail[2..] == [length / 0x100, length % 0x100] && tail[2..][2..] == [];
    assert WordSum(tail) == protocol + WordSum(tail[2..]) == protocol + length;
  }

  /** A well-formed header of `ihl` bytes. */
  predicate Ipv4(p: seq<byte>, ihl: nat) {
    |p| >= 20 && p[0] / 16 == 4 && ihl == 4 * (p[0] % 16) && 20 <= ihl <= |p|
  }

  /** Where the datagram ends: its total length, or the end of the buffer if that comes first. */
  function End4(p: seq<byte>): nat
    requires |p| >= 4
  {
    var total := 0x100 * (p[2] as int) + p[3];
    if total < |p| then total else |p|
  }

  /** A checksum the packet carries, once it is finished. */
  lemma Carried(p: seq<byte>, r: Region)
    requires Carries(p, r)
    ensures InBounds(p, r) && |Fixed(p)| == |p| && Verifies(Fixed(p), r)
    ensures r.nonZero ==> Word(Fixed(p), r.start + r.off) != 0
  {
    FixedFields(p);
    assert Finished(p, Fixed(p), r);
    FixedVerifies(p);
    assert Carries(Fixed(p), r);
  }

  /** A well-formed header leaves with a sum of all ones. */
  lemma HeaderAddsUp(p: seq<byte>, ihl: nat)
    requires Ipv4(p, ihl)
    ensures |Fixed(p)| == |p| && AddsUp(Fixed(p)[..ihl])
  {
    var r := Region(0, ihl, 10, 0, false);
    assert Header(p) == Some(r);
    Carried(p, r);
    assert Fixed(p)[0..ihl] == Fixed(p)[..ihl];
  }

  /** The checksum of a segment is at `ihl + off`. */
  ghost predicate Field4(p: seq<byte>, ihl: nat, off: nat) {
    && Ipv4(p, ihl) && ihl + off + 2 <= End4(p)
    && ((p[9] == 6 && off == 16) || (p[9] == 17 && off == 6))
  }

  lemma Segment4Is(p: seq<byte>, ihl: nat, off: nat) returns (r: Region)
    requires Field4(p, ihl, off)
    ensures Segment(p) == Some(r)
    ensures r == Region(ihl, End4(p), off, WordSum(p[12..20]) + p[9] + (End4(p) - ihl), p[9] == 17)
  {
    r := Region(ihl, End4(p), off, WordSum(p[12..20]) + p[9] + (End4(p) - ihl), p[9] == 17);
  }

  /** Only the two bytes at 10 and those of the segment's field may change. */
  lemma Outside4(p: seq<byte>, ihl: nat, off: nat)
    requires Field4(p, ihl, off)
    ensures SameExcept(p, Fixed(p), {10, 11, ihl + off, ihl + off + 1})
  {
    var r := Segment4Is(p, ihl, off);
    var h := Region(0, ihl, 10, 0, false);
    assert Header(p) == Some(h);
    PatchOutside(p, h);
    PatchOutside(Patch(p, Some(h)), r);
  }

  lemma PatchOutside(p: seq<byte>, r: Region)
    requires InBounds(p, r)
    ensures SameExcept(p, Patch(p, Some(r)), {r.start + r.off, r.start + r.off + 1})
  {
  }

  /** A TCP or UDP packet leaves with a segment that adds up. */
  lemma SegmentAddsUp4(p: seq<byte>, ihl: nat, off: nat)
    requires Field4(p, ihl, off)
    ensures |Fixed(p)| == |p| && AddsUp(Pseudo4(Fixed(p), p[9], End4(p) - ihl) + Fixed(p)[ihl..End4(p)])
  {
    AddressesKept(p, ihl, off);
    var end, r := Seed4(p, Fixed(p), ihl, off);
    Carried(p, r);
    Pseudo4Adds(Fixed(p), p[9], ihl, end, r);
  }

  lemma AddressesKept(p: seq<byte>, ihl: nat, off: nat)
    requires Field4(p, ihl, off)
    ensures |Fixed(p)| == |p| && Fixed(p)[12..20] == p[12..20]
  {
    Outside4(p, ihl, off);
  }

  /** The region of the segment, seen from any packet with the same addresses. */
  lemma Seed4(p: seq<byte>, q: seq<byte>, ihl: nat, off: nat) returns (end: nat, r: Region)
    requires Field4(p, ihl, off) && |q| == |p| && q[12..20] == p[12..20]
    ensures Carries(p, r) && end == End4(p) && 20 <= ihl <= end <= |q| && end - ihl < 0x1_0000
    ensures r.start == ihl && r.end == end && r.seed == WordSum(q[12..20]) + p[9] + (end - ihl)
  {
    r := Segment4Is(p, ihl, off);
    end := End4(p);
  }

  lemma Pseudo4Adds(q: seq<byte>, protocol: byte, ihl: nat, end: nat, r: Region)
    requires 20 <= ihl <= end <= |q| && end - ihl < 0x1_0000
    requires r.start == ihl && r.end == end && r.seed == WordSum(q[12..20]) + protocol + (end - ihl) && Verifies(q, r)
    ensures AddsUp(Pseudo4(q, protocol, end - ihl) + q[ihl..end])
  {
    Pseudo4Sum(q, protocol, end - ihl);
    WordSumConcat(Pseudo4(q, protocol, end - ihl), q[ihl..end]);
  }

  /** A UDP checksum is not zero, which would mean that there is none. */
  lemma FieldNotZero(p: seq<byte>, ihl: nat)
    requires Field4(p, ihl, 6)
    ensures |Fixed(p)| == |p| && !(Fixed(p)[ihl + 6] == 0 && Fixed(p)[ihl + 7] == 0)
  {
    var r := Segment4Is(p, ihl, 6);
    Carried(p, r);
    WordNotZero(Fixed(p), ihl + 6);
  }

  lemma WordNotZero(q: seq<byte>, i: nat)
    requires i + 1 < |q| && Word(q, i) != 0
    ensures !(q[i] == 0 && q[i + 1] == 0)
  {
  }

  /** Any other packet with a well-formed header: only the header's own field. */
  lemma Other4(p: seq<byte>, ihl: nat)
    requires Ipv4(p, ihl) && !(p[9] == 6 && ihl + 18 <= End4(p)) && !(p[9] == 17 && ihl + 8 <= End4(p))
    ensures |Fixed(p)| == |p| && AddsUp(Fixed(p)[..ihl]) && SameExcept(p, Fixed(p), {10, 11})
  {
    HeaderAddsUp(p, ihl);
    var h := Region(0, ihl, 10, 0, false);
    assert Header(p) == Some(h) && Segment(p) == None;
    PatchOutside(p, h);
  }

  // ---------------------------------------------------------------- IPv6

  /** Source, destination, length in four bytes, three zeros and the next header: forty bytes. */
  function Pseudo6(q: seq<byte>, next: byte, length: nat): seq<byte>
    requires |q| >= 40 && length < 0x1_0000
  {
    q[8..24] + q[24..40] + [0, 0, length / 0x100, length % 0x100] + [0, 0, 0, next]
  }

  lemma Pseudo6Sum(q: seq<byte>, next: byte, length: nat)
    requires |q| >= 40 && length < 0x1_0000
    ensures |Pseudo6(q, next, length)| == 40
    ensures WordSum(Pseudo6(q, next, length)) == WordSum(q[8..40]) + length + next
  {
    var size: seq<byte>, last: seq<byte> := [0, 0, length / 0x100, length % 0x100], [0, 0, 0, next];
    assert Pseudo6(q, next, length) == q[8..40] + (size + last);
    WordSumConcat(q[8..40], size + last);
    WordSumConcat(size, last);
    assert size[2..] == [length / 0x100, length % 0x100] && size[2..][2..] == [];
    assert last[2..] == [0, next] && last[2..][2..] == [];
    assert WordSum(size) == WordSum(size[2..]) == length && WordSum(last) == WordSum(last[2..]) == next;
  }

  predicate Ipv6(p: seq<byte>) { |p| >= 40 && p[0] / 16 == 6 }

  function End6(p: seq<byte>): nat
    requires |p| >= 40
  {
    var end := 40 + 0x100 * (p[4] as int) + p[5];
    if end < |p| then end else |p|
  }

  /** The checksum of a segment is at `40 + off`. */
  ghost predicate Field6(p: seq<byte>, off: nat) {
    && Ipv6(p) && 40 + off + 2 <= End6(p)
    && ((p[6] == 6 && off == 16) || (p[6] == 17 && off == 6) || (p[6] == 58 && off == 2))
  }

  lemma Segment6Is(p: seq<byte>, off: nat) returns (r: Region)
    requires Field6(p, off)
    ensures Header(p) == None && Segment(p) == Some(r)
    ensures r == Region(40, End6(p), off, WordSum(p[8..40]) + (End6(p) - 40) + p[6], p[6] != 6)
  {
    r := Region(40, End6(p), off, WordSum(p[8..40]) + (End6(p) - 40) + p[6], p[6] != 6);
  }

  /** Only the two bytes of the field may change. */
  lemma Outside6(p: seq<byte>, off: nat)
    requires Field6(p, off)
    ensures SameExcept(p, Fixed(p), {40 + off, 41 + off})
  {
    var r := Segment6Is(p, off);
    PatchOutside(p, r);
  }

  /** A TCP, UDP or ICMPv6 packet leaves with a segment that adds up; for the last two the field is not
      zero. */
  lemma SegmentAddsUp6(p: seq<byte>, off: nat)
    requires Field6(p, off)
    ensures |Fixed(p)| == |p| && AddsUp(Pseudo6(Fixed(p), p[6], End6(p) - 40) + Fixed(p)[40..End6(p)])
    ensures p[6] != 6 ==> !(Fixed(p)[40 + off] == 0 && Fixed(p)[40 + off + 1] == 0)
  {
    var r := Segment6Is(p, off);
    Carried(p, r);
    Outside6(p, off);
    assert Fixed(p)[8..40] == p[8..40];
    Pseudo6Adds(Fixed(p), p[6], End6(p), r);
  }

  lemma Pseudo6Adds(q: seq<byte>, next: byte, end: nat, r: Region)
    requires 40 <= end <= |q| && end - 40 < 0x1_0000
    requires r.start == 40 && r.end == end && r.seed == WordSum(q[8..40]) + (end - 40) + next && Verifies(q, r)
    ensures AddsUp(Pseudo6(q, next, end - 40) + q[40..end])
  {
    Pseudo6Sum(q, next, end - 40);
    WordSumConcat(Pseudo6(q, next, end - 40), q[40..end]);
  }

  // ---------------------------------------------------------------- everything else

  /** Nothing else is touched: other IPv6 protocols, segments too short for their field, malformed
      headers, other versions and the empty buffer. */
  lemma OthersUntouched(p: seq<byte>)
    requires |p| >= 20 && p[0] / 16 == 4 ==> p[0] % 16 < 5 || |p| < 4 * (p[0] % 16)
    requires Ipv6(p) ==>
      !(p[6] == 6 && 58 <= End6(p)) && !(p[6] == 17 && 48 <= End6(p)) && !(p[6] == 58 && 44 <= End6(p))
    ensures Fixed(p) == p
  {
  }
}
