/**
 Sealing of redemption results (`ReplayCipher` in crates/nil-coordinator/src/nullifier.rs).  The AEAD
 itself is a parameter; `Correct` says what is expected of it.
 */
module Cipher {
  import opened Text

  type Bytes = seq<byte>

  const NonceLen: nat := 12
  const TagLen: nat := 16
  const MaxResult: nat := 64 * 1024
  const MaxCiphertext: nat := NonceLen + MaxResult + TagLen

  /** Associated data is a string of octets; key characters enter by their code. */
  type Octets = seq<int>

  datatype Aead = Aead(
    encrypt: (Bytes, Octets, Bytes) -> Bytes,
    decrypt: (Bytes, Octets, Bytes) -> Option<Bytes>)

  /** Decryption under the same nonce and associated data undoes encryption; the tag is 16 bytes. */
  ghost predicate Correct(a: Aead) {
    forall nonce, aad, p ::
      |a.encrypt(nonce, aad, p)| == |p| + TagLen && a.decrypt(nonce, aad, a.encrypt(nonce, aad, p)) == Some(p)
  }

  /** Big-endian octets of fixed width. */
  function Be(n: nat, width: nat): (r: Octets)
    ensures |r| == width
  {
    if width == 0 then [] else Be(n / 0x100, width - 1) + [n % 0x100]
  }

  function Codes(s: string): (r: Octets)
    ensures |r| == |s|
    ensures forall i :: 0 <= i < |s| ==> r[i] == s[i] as int
  {
    seq(|s|, i requires 0 <= i < |s| => s[i] as int)
  }

  const Domain: string := "nilvpn.redemption-result.v1"

  /** What a ciphertext is bound to: format domain, epoch, expiry and nullifier. */
  function Aad(epoch: nat, key: string, until: nat): Octets {
    Codes(Domain) + Be(epoch, 4) + Be(until, 8) + Codes(key)
  }

  lemma {:induction false} BeInjective(m: nat, n: nat, width: nat)
    requires Be(m, width) == Be(n, width) && m < Pow256(width) && n < Pow256(width)
    ensures m == n
  {
    if width > 0 {
      var x, y := Be(m, width), Be(n, width);
      assert x[..width - 1] == Be(m / 0x100, width - 1) && y[..width - 1] == Be(n / 0x100, width - 1);
      assert x[width - 1] == m % 0x100 && y[width - 1] == n % 0x100;
      BeInjective(m / 0x100, n / 0x100, width - 1);
    }
  }

  /** Two rows share associated data only when they agree on epoch, nullifier and expiry. */
  lemma AadInjective(epoch: nat, key: string, until: nat, epoch': nat, key': string, until': nat)
    requires epoch < U32 && epoch' < U32 && until < U64 && until' < U64
    requires Aad(epoch, key, until) == Aad(epoch', key', until')
    ensures epoch == epoch' && key == key' && until == until'
  {
    var x, y, d := Aad(epoch, key, until), Aad(epoch', key', until'), |Domain|;
    assert x[d..d + 4] == Be(epoch, 4) && y[d..d + 4] == Be(epoch', 4);
    assert x[d + 4..d + 12] == Be(until, 8) && y[d + 4..d + 12] == Be(until', 8);
    assert x[d + 12..] == Codes(key) && y[d + 12..] == Codes(key');
    WidthBounds();
    BeInjective(epoch, epoch', 4);
    BeInjective(until, until', 8);
    forall i | 0 <= i < |key| ensures key[i] == key'[i] {
      assert Codes(key)[i] == Codes(key')[i];
    }
  }

  predicate ValidResult(p: Bytes) { 0 < |p| <= MaxResult }

  /** `seal`, with the nonce as input. */
  function Seal(a: Aead, nonce: Bytes, epoch: nat, key: string, until: nat, p: Bytes): Option<Bytes> {
    if ValidResult(p) then Some(nonce + a.encrypt(nonce, Aad(epoch, key, until), p)) else None
  }

  /** `open`. */
  function Unseal(a: Aead, epoch: nat, key: string, until: nat, stored: Bytes): Option<Bytes> {
    if !(NonceLen + TagLen <= |stored| <= MaxCiphertext) then None else
    var p := a.decrypt(stored[..NonceLen], Aad(epoch, key, until), stored[NonceLen..]);
    if p.Some? && ValidResult(p.value) then p else None
  }

  /** A sealed result opens, under its own row, to exactly what was sealed. */
  lemma UnsealSeal(a: Aead, nonce: Bytes, epoch: nat, key: string, until: nat, p: Bytes)
    requires Correct(a) && |nonce| == NonceLen && ValidResult(p)
    ensures var c := Seal(a, nonce, epoch, key, until, p);
      c.Some? && |c.value| <= MaxCiphertext && c.value[..NonceLen] == nonce
      && Unseal(a, epoch, key, until, c.value) == Some(p)
  {
    var c := Seal(a, nonce, epoch, key, until, p).value;
    assert c[..NonceLen] == nonce && c[NonceLen..] == a.encrypt(nonce, Aad(epoch, key, until), p);
  }

  /** Moved to another row it opens only if the AEAD accepts it under associated data that differs
      from the data it was made with. */
  lemma UnsealSwapped(a: Aead, nonce: Bytes, epoch: nat, key: string, until: nat, p: Bytes,
                      epoch': nat, key': string, until': nat)
    requires |nonce| == NonceLen && ValidResult(p)
    requires epoch < U32 && epoch' < U32 && until < U64 && until' < U64
    requires (epoch, key, until) != (epoch', key', until')
    requires Unseal(a, epoch', key', until', Seal(a, nonce, epoch, key, until, p).value).Some?
    ensures Aad(epoch', key', until') != Aad(epoch, key, until)
    ensures a.decrypt(nonce, Aad(epoch', key', until'), a.encrypt(nonce, Aad(epoch, key, until), p)).Some?
  {
    var c := Seal(a, nonce, epoch, key, until, p).value;
    assert c[..NonceLen] == nonce && c[NonceLen..] == a.encrypt(nonce, Aad(epoch, key, until), p);
    if Aad(epoch, key, until) == Aad(epoch', key', until') {
      AadInjective(epoch, key, until, epoch', key', until');
    }
  }

  /** Such ciphers exist, so theorems about them are not empty. */
  lemma CorrectExists() returns (a: Aead)
    ensures Correct(a)
  {
    var zeros := seq(TagLen, _ => 0 as byte);
    a := Aead((nonce, aad, p) => p + zeros,
              (nonce, aad, c) => if |c| < TagLen then None else Some(c[..|c| - TagLen]));
    forall nonce: Bytes, aad: Octets, p: Bytes
      ensures a.decrypt(nonce, aad, a.encrypt(nonce, aad, p)) == Some(p)
    {
      assert (p + zeros)[..|p + zeros| - TagLen] == p;
    }
  }
}
