/**
 The DER framing check of the client trust bundle (client/src-tauri/trust_bundle.rs).
 */
module DerFraming {
  import opened Text

  const USIZE: nat := U64

  /** Shortest big-endian spelling of `n`. */
  function BigEndian(n: nat): seq<byte> {
    if n == 0 then [] else BigEndian(n / 0x100) + [n % 0x100]
  }

  /** The length octets of section 10.1 of ITU-T X.690: short form below 128, otherwise the fewest
      octets behind a count (section 8.1.3). */
  function LengthOctets(n: nat): seq<int> {
    if n < 0x80 then [n] else [0x80 + |BigEndian(n)|] + BigEndian(n)
  }

  function Encode(body: seq<byte>): seq<int> { [0x30] + LengthOctets(|body|) + body }

  /** `der` is one SEQUENCE in its minimal definite-length encoding. */
  ghost predicate IsSequence(der: seq<byte>) {
    exists body: seq<byte> :: der == Encode(body)
  }

  lemma {:induction false} ValueOfBigEndian(n: nat)
    ensures BigEndianValue(BigEndian(n)) == n
    ensures n > 0 ==> |BigEndian(n)| > 0 && BigEndian(n)[0] != 0
    ensures forall k: nat :: n < Pow256(k) ==> |BigEndian(n)| <= k
  {
    if n > 0 {
      ValueOfBigEndian(n / 0x100);
      var s := BigEndian(n);
      assert s[..|s| - 1] == BigEndian(n / 0x100);
      forall k: nat | n < Pow256(k) ensures |s| <= k {
        assert k > 0 && n / 0x100 < Pow256(k - 1);
      }
    }
  }

  lemma {:induction false} BigEndianOfValue(s: seq<byte>)
    requires s == [] || s[0] != 0
    ensures BigEndian(BigEndianValue(s)) == s
  {
    if s != [] {
      var t := s[..|s| - 1];
      BigEndianOfValue(t);
      if t == [] {
        assert s == [s[0]];
        assert BigEndian(s[0]) == BigEndian(0) + [s[0]];
      } else {
        ValueNonZero(t);
        assert BigEndianValue(s) / 0x100 == BigEndianValue(t) && BigEndianValue(s) % 0x100 == s[|s| - 1];
      }
    }
  }

  lemma {:induction false} ValueNonZero(s: seq<byte>)
    requires s != [] && s[0] != 0
    ensures BigEndianValue(s) > 0
  {
    if |s| > 1 {
      ValueNonZero(s[..|s| - 1]);
    }
  }

  lemma {:induction false} ValueBound(s: seq<byte>)
    ensures BigEndianValue(s) < Pow256(|s|)
  {
    if s != [] {
      ValueBound(s[..|s| - 1]);
    }
  }

  lemma {:induction false} PowMonotone(i: nat, j: nat)
    requires i <= j
    ensures Pow256(i) <= Pow256(j)
  {
    if i < j { PowMonotone(i, j - 1); }
  }

  /** The accepted string read back: header length, body length and minimality. */
  ghost predicate Framed(der: seq<byte>) {
    && |der| >= 2 && der[0] == 0x30
    && (if der[1] < 0x80 then |der| == 2 + der[1]
        else var count := der[1] - 0x80;
             && 1 <= count <= 8 && |der| >= 2 + count && der[2] != 0
             && BigEndianValue(der[2..2 + count]) >= 0x80
             && |der| == 2 + count + BigEndianValue(der[2..2 + count]))
  }

  /** Reading the header back is the same as being a minimal encoding. */
  lemma FramedIffSequence(der: seq<byte>)
    requires |der| < USIZE
    ensures Framed(der) <==> IsSequence(der)
  {
    if Framed(der) {
      FramedIsSequence(der);
    }
    if IsSequence(der) {
      var body: seq<byte> :| der == Encode(body);
      SequenceIsFramed(der, body);
    }
  }

  lemma FramedIsSequence(der: seq<byte>)
    requires Framed(der)
    ensures IsSequence(der)
  {
    if der[1] < 0x80 {
      SplitHeader(der, 0);
      assert der == Encode(der[2..]);
    } else {
      var count := der[1] - 0x80;
      LongIsSequence(der, count, der[2..2 + count], der[2 + count..]);
    }
  }

  lemma LongIsSequence(der: seq<byte>, count: nat, octets: seq<byte>, body: seq<byte>)
    requires 2 + count <= |der| && octets == der[2..2 + count] && body == der[2 + count..]
    requires der[0] == 0x30 && der[1] == 0x80 + count && octets != [] && octets[0] != 0
    requires |body| == BigEndianValue(octets) >= 0x80
    ensures der == Encode(body)
  {
    BigEndianOfValue(octets);
    SplitHeader(der, count);
  }

  lemma SplitHeader(der: seq<byte>, count: nat)
    requires 2 + count <= |der|
    ensures der == [der[0]] + ([der[1]] + der[2..2 + count]) + der[2 + count..]
    ensures der == [der[0]] + [der[1]] + der[2..]
  {
  }

  lemma SequenceIsFramed(der: seq<byte>, body: seq<byte>)
    requires |der| < USIZE && der == Encode(body)
    ensures Framed(der)
  {
    if |body| >= 0x80 {
      var octets := BigEndian(|body|);
      WidthBounds();
      ValueOfBigEndian(|body|);
      LongForm(der, octets, body);
      assert |octets| <= 8;
    }
  }

  lemma LongForm(der: seq<int>, octets: seq<byte>, body: seq<byte>)
    requires der == [0x30] + ([0x80 + |octets|] + octets) + body && octets != []
    ensures |der| == 2 + |octets| + |body| && der[0] == 0x30 && der[1] == 0x80 + |octets|
    ensures der[2] == octets[0] && der[2..2 + |octets|] == octets
  {
  }

  /** `is_complete_der_sequence`.  A slice is shorter than the address space; the checked
      multiplication and addition of the length loop never fail. */
  method IsCompleteDerSequence(der: seq<byte>) returns (ok: bool)
    requires |der| < USIZE
    ensures ok <==> IsSequence(der)
  {
    FramedIffSequence(der);
    if |der| < 2 || der[0] != 0x30 {
      return false;
    }
    var first := der[1];
    var bodyLen, headerLen := first, 2;
    if first >= 0x80 {
      var count := first - 0x80;
      if count == 0 || count > 8 || |der| < 2 + count {
        return false;
      }
      if der[2] == 0 {
        return false;
      }
      var len := ReadLength(der[2..2 + count]);
      if len < 0x80 {
        return false;
      }
      bodyLen, headerLen := len, 2 + count;
    }
    return headerLen + bodyLen == |der|;
  }

  /** The length loop: every intermediate value fits a 64-bit `usize`. */
  method ReadLength(octets: seq<byte>) returns (len: nat)
    requires |octets| <= 8
    ensures len == BigEndianValue(octets)
  {
    len := 0;
    for i := 0 to |octets|
      invariant len == BigEndianValue(octets[..i])
    {
      assert octets[..i + 1][..i] == octets[..i];
      NoOverflow(octets[..i + 1]);
      assert len * 0x100 + octets[i] < USIZE;
      len := len * 0x100 + octets[i];
    }
    assert octets[..|octets|] == octets;
  }

  lemma NoOverflow(s: seq<byte>)
    requires |s| <= 8
    ensures BigEndianValue(s) < USIZE
  {
    ValueBound(s);
    PowMonotone(|s|, 8);
    WidthBounds();
  }

  /** What the header of an encoding says. */
  lemma ReadBack(body: seq<byte>)
    ensures var e := Encode(body);
      && |e| >= 2 + |body| && e[|e| - |body|..] == body && (e[1] < 0x80 <==> |body| < 0x80)
      && (if |body| < 0x80 then e[1] == |body|
          else |e| == 2 + |BigEndian(|body|)| + |body| && e[1] == 0x80 + |BigEndian(|body|)|
               && e[2..2 + |BigEndian(|body|)|] == BigEndian(|body|))
  {
    if |body| >= 0x80 {
      ValueOfBigEndian(|body|);
      LongForm(Encode(body), BigEndian(|body|), body);
    }
  }

  /** Two bodies never share an encoding: the accepted strings determine their content. */
  lemma SequenceUnique(a: seq<byte>, b: seq<byte>)
    requires Encode(a) == Encode(b)
    ensures a == b
  {
    ReadBack(a);
    ReadBack(b);
    ValueOfBigEndian(|a|);
    ValueOfBigEndian(|b|);
    assert |a| == |b|;
  }
}
