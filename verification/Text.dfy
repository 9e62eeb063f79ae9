/**
 Text primitives of the log formats: line splitting, decimal numbers and lowercase hex, as the Rust
 standard library and `nil_core::grant` define them.
 */
module Text {
  datatype Option<+T> = None | Some(value: T)

  const U32: nat := 0x1_0000_0000
  const U64: nat := 0x1_0000_0000_0000_0000

  // ---------------------------------------------------------------- searching

  /** Position of the first `c`, or the length when there is none. */
  function IndexOf(c: char, s: string): (i: nat)
    ensures i <= |s|
    ensures i < |s| ==> s[i] == c
    ensures forall k :: 0 <= k < i ==> s[k] != c
  {
    if s == [] || s[0] == c then 0 else 1 + IndexOf(c, s[1..])
  }

  lemma IndexOfUnique(c: char, s: string, i: nat)
    requires i <= |s| && (i < |s| ==> s[i] == c) && forall k :: 0 <= k < i ==> s[k] != c
    ensures IndexOf(c, s) == i
  {
  }

  lemma IndexOfExtends(c: char, s: string, t: string)
    requires c in s
    ensures IndexOf(c, s + t) == IndexOf(c, s) < |s|
  {
    IndexOfUnique(c, s + t, IndexOf(c, s));
  }

  /** The first `n` characters, or all of a shorter string. */
  function Cut(s: string, n: nat): string { if n <= |s| then s[..n] else s }

  /** Empty or ending with a newline: nothing is half written. */
  predicate Complete(s: string) {
    s == [] || s[|s| - 1] == '\n'
  }

  // ---------------------------------------------------------------- decimal numbers

  predicate IsDigit(c: char) { '0' <= c <= '9' }

  function Digit(d: nat): (c: char)
    requires d < 10
    ensures IsDigit(c)
  {
    ('0' as int + d) as char
  }

  /** `to_string` of an unsigned integer. */
  function ToDecimal(n: nat): (s: string)
    ensures s != [] && forall i :: 0 <= i < |s| ==> IsDigit(s[i])
  {
    if n < 10 then [Digit(n)] else ToDecimal(n / 10) + [Digit(n % 10)]
  }

  function DigitsValue(s: string): nat
    requires forall i :: 0 <= i < |s| ==> IsDigit(s[i])
  {
    if s == [] then 0 else
    assert IsDigit(s[|s| - 1]);
    DigitsValue(s[..|s| - 1]) * 10 + (s[|s| - 1] as int - '0' as int)
  }

  /** `str::parse` of an unsigned integer below `bound`: digits, with one optional leading plus. */
  function ParseUnsigned(s: string, bound: nat): (r: Option<nat>)
    ensures r.Some? ==> r.value < bound
  {
    var t := if |s| > 1 && s[0] == '+' then s[1..] else s;
    if t == [] || exists i :: 0 <= i < |t| && !IsDigit(t[i]) then None
    else if DigitsValue(t) < bound then Some(DigitsValue(t)) else None
  }

  lemma {:induction false} DecimalValue(n: nat)
    ensures DigitsValue(ToDecimal(n)) == n
  {
    if n >= 10 {
      DecimalValue(n / 10);
      var s := ToDecimal(n);
      assert s[..|s| - 1] == ToDecimal(n / 10);
    } else {
      assert DigitsValue([Digit(n)]) == DigitsValue([]) * 10 + n;
    }
  }

  lemma DecimalRoundTrip(n: nat, bound: nat)
    requires n < bound
    ensures ParseUnsigned(ToDecimal(n), bound) == Some(n)
  {
    DecimalValue(n);
  }

  function Pow10(k: nat): nat { if k == 0 then 1 else 10 * Pow10(k - 1) }

  /** A number below 10^k has at most `k` digits. */
  lemma {:induction false} DecimalLength(n: nat, k: nat)
    requires k > 0 && n < Pow10(k)
    ensures |ToDecimal(n)| <= k
  {
    if n >= 10 {
      DecimalLength(n / 10, k - 1);
    }
  }

  lemma DecimalLengthU32(n: nat)
    requires n < U32
    ensures |ToDecimal(n)| <= 10
  {
    assert Pow10(5) == 100000;
    assert Pow10(10) == 100000 * Pow10(5);
    DecimalLength(n, 10);
  }

  lemma DecimalLengthU64(n: nat)
    requires n < U64
    ensures |ToDecimal(n)| <= 20
  {
    assert Pow10(5) == 100000;
    assert Pow10(10) == 100000 * Pow10(5);
    assert Pow10(15) == 100000 * Pow10(10);
    assert Pow10(20) == 100000 * Pow10(15);
    DecimalLength(n, 20);
  }

  // ---------------------------------------------------------------- lowercase hex

  type byte = b: int | 0 <= b < 0x100

  function Pow256(k: nat): nat { if k == 0 then 1 else 0x100 * Pow256(k - 1) }

  lemma WidthBounds()
    ensures Pow256(4) == U32 && Pow256(8) == U64
  {
    assert Pow256(2) == 0x1_0000;
    assert Pow256(4) == 0x1_0000 * Pow256(2);
    assert Pow256(6) == 0x1_0000 * Pow256(4);
    assert Pow256(8) == 0x1_0000 * Pow256(6);
  }

  /** Big-endian value of a byte string. */
  function BigEndianValue(s: seq<byte>): nat {
    if s == [] then 0 else BigEndianValue(s[..|s| - 1]) * 0x100 + s[|s| - 1]
  }

  predicate IsLowerHex(c: char) { IsDigit(c) || 'a' <= c <= 'f' }

  predicate AllLowerHex(s: string) { forall i :: 0 <= i < |s| ==> IsLowerHex(s[i]) }

  function HexDigit(d: nat): (c: char)
    requires d < 16
    ensures IsLowerHex(c)
  {
    if d < 10 then ('0' as int + d) as char else ('a' as int + (d - 10)) as char
  }

  function Nibble(c: char): (d: nat)
    requires IsLowerHex(c)
    ensures d < 16 && HexDigit(d) == c
  {
    if IsDigit(c) then c as int - '0' as int else c as int - 'a' as int + 10
  }

  lemma NibbleOfDigit(d: nat)
    requires d < 16
    ensures Nibble(HexDigit(d)) == d
  {
  }

  function ToHex(bytes: seq<byte>): (s: string)
    ensures |s| == 2 * |bytes| && AllLowerHex(s)
  {
    if bytes == [] then [] else [HexDigit(bytes[0] / 16), HexDigit(bytes[0] % 16)] + ToHex(bytes[1..])
  }

  function FromLowerHex(s: string): (bytes: seq<byte>)
    requires |s| % 2 == 0 && AllLowerHex(s)
    ensures 2 * |bytes| == |s|
  {
    if s == [] then [] else [Nibble(s[0]) * 16 + Nibble(s[1])] + FromLowerHex(s[2..])
  }

  lemma {:induction false} HexRoundTrip(bytes: seq<byte>)
    ensures FromLowerHex(ToHex(bytes)) == bytes
  {
    if bytes != [] {
      HexRoundTrip(bytes[1..]);
      NibbleOfDigit(bytes[0] / 16);
      NibbleOfDigit(bytes[0] % 16);
      assert ToHex(bytes)[2..] == ToHex(bytes[1..]);
    }
  }

  lemma {:induction false} HexCanonical(s: string)
    requires |s| % 2 == 0 && AllLowerHex(s)
    ensures ToHex(FromLowerHex(s)) == s
  {
    if s != [] {
      HexCanonical(s[2..]);
      var b := FromLowerHex(s);
      assert b[1..] == FromLowerHex(s[2..]);
      assert s == [s[0], s[1]] + s[2..];
    }
  }
}
