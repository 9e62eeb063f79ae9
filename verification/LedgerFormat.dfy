/**
 The redemption ledger's file format (crates/nil-coordinator/src/nullifier.rs): `NR2` records, the
 legacy one- and two-field lines, recovery of a torn tail, and the loading fold.
 */
module LedgerFormat {
  import opened Text
  import opened Cipher

  /** A permanent spent marker, with the encrypted first response while that is replayable. */
  datatype StoredRecord = StoredRecord(epoch: nat, until: Option<nat>, ciphertext: Option<Bytes>)

  type Records = map<string, StoredRecord>

  const MaxStoredKey: nat := 16 * 1024
  const MaxLine: nat := 4 + 1 + 10 + 1 + MaxStoredKey + 1 + 20 + 1 + MaxCiphertext * 2 + 1

  predicate ValidStoredKey(key: string) {
    key != "" && |key| <= MaxStoredKey && |key| % 2 == 0 && AllLowerHex(key)
  }

  /** Both replay fields or neither, and numbers of their declared width. */
  predicate Consistent(r: StoredRecord) {
    && r.epoch < U32 && (r.until.Some? <==> r.ciphertext.Some?)
    && (r.until.Some? ==> r.until.value < U64)
    && (r.ciphertext.Some? ==> 0 < |r.ciphertext.value| <= MaxCiphertext)
  }

  predicate ValidRecord(key: string, r: StoredRecord) { ValidStoredKey(key) && Consistent(r) }

  ghost predicate ValidRecords(m: Records) { forall k :: k in m ==> ValidRecord(k, m[k]) }

  function SpentOnly(epoch: nat): StoredRecord { StoredRecord(epoch, None, None) }

  // ---------------------------------------------------------------- one line

  /** The line of a record, without its newline. */
  function Line(key: string, r: StoredRecord): string {
    "NR2" + " " + (ToDecimal(r.epoch) + " " + (key + " " + (UntilText(r) + " " + BlobText(r))))
  }

  /** `encode_record`: refused for a bad key, an inconsistent record or an oversized line. */
  function Encode(key: string, r: StoredRecord): Option<string> {
    if !ValidStoredKey(key) || r.until.Some? != r.ciphertext.Some? then None else
    var line := Line(key, r) + "\n";
    if |line| > MaxLine then None else Some(line)
  }

  /** Valid records always fit the line bound. */
  lemma ValidEncodes(key: string, r: StoredRecord)
    requires ValidRecord(key, r)
    ensures Encode(key, r) == Some(Line(key, r) + "\n")
    ensures |Line(key, r)| + 1 <= MaxLine
  {
    DecimalLengthU32(r.epoch);
    if r.until.Some? { DecimalLengthU64(r.until.value); }
  }

  /** `char::is_whitespace`. */
  predicate IsSpace(c: char) {
    var x := c as int;
    9 <= x <= 13 || x == 32 || x == 0x85 || x == 0xa0 || x == 0x1680 || 0x2000 <= x <= 0x200a
    || x == 0x2028 || x == 0x2029 || x == 0x202f || x == 0x205f || x == 0x3000
  }

  predicate IsWord(w: string) { w != "" && forall i :: 0 <= i < |w| ==> !IsSpace(w[i]) }

  /** Length of the leading run of non-space characters. */
  function WordLen(s: string): (n: nat)
    ensures n <= |s| && (n < |s| ==> IsSpace(s[n]))
    ensures forall i :: 0 <= i < n ==> !IsSpace(s[i])
  {
    if s == "" || IsSpace(s[0]) then 0 else 1 + WordLen(s[1..])
  }

  /** `split_whitespace`. */
  function Fields(s: string): seq<string>
    decreases |s|
  {
    if s == "" then []
    else if IsSpace(s[0]) then Fields(s[1..])
    else [s[..WordLen(s)]] + Fields(s[WordLen(s)..])
  }

  lemma WordLenUnique(s: string, n: nat)
    requires n <= |s| && (n < |s| ==> IsSpace(s[n])) && forall i :: 0 <= i < n ==> !IsSpace(s[i])
    ensures WordLen(s) == n
  {
  }

  lemma FieldsCons(w: string, rest: string)
    requires IsWord(w)
    ensures Fields(w + " " + rest) == [w] + Fields(rest)
  {
    var s := w + " " + rest;
    WordLenUnique(s, |w|);
    assert s[..|w|] == w && s[|w|..] == " " + rest && (" " + rest)[1..] == rest;
    assert Fields(" " + rest) == Fields(rest);
  }

  lemma FieldsLast(w: string)
    requires IsWord(w)
    ensures Fields(w) == [w]
  {
    WordLenUnique(w, |w|);
    assert w[..|w|] == w && w[|w|..] == "";
  }

  /** `parse_record`. */
  function Parse(line: string): Option<(string, StoredRecord)> { ParseFields(Fields(line)) }

  function ParseFields(fields: seq<string>): Option<(string, StoredRecord)> {
    if |fields| > 0 && fields[0] == "NR2" then
      if |fields| != 5 then None else ParseNr2(fields[1], fields[2], fields[3], fields[4])
    else if |fields| == 1 then
      if ValidStoredKey(fields[0]) then Some((fields[0], SpentOnly(0))) else None
    else if |fields| == 2 then
      var epoch := ParseUnsigned(fields[0], U32);
      if epoch.Some? && ValidStoredKey(fields[1]) then Some((fields[1], SpentOnly(epoch.value))) else None
    else None
  }

  function ParseNr2(epochText: string, key: string, untilText: string, blob: string): Option<(string, StoredRecord)> {
    var epoch := ParseUnsigned(epochText, U32);
    if epoch.None? || !ValidStoredKey(key) then None
    else if untilText == "-" && blob == "-" then Some((key, SpentOnly(epoch.value)))
    else
      var until := ParseUnsigned(untilText, U64);
      if until.None? || |blob| > MaxCiphertext * 2 || |blob| % 2 != 0 || !AllLowerHex(blob) then None
      else Some((key, StoredRecord(epoch.value, until, Some(FromLowerHex(blob)))))
  }

  lemma {:induction false} FieldsAreWords(s: string)
    ensures forall w :: w in Fields(s) ==> IsWord(w)
    decreases |s|
  {
    if s != "" {
      if IsSpace(s[0]) {
        FieldsAreWords(s[1..]);
      } else {
        FieldsAreWords(s[WordLen(s)..]);
      }
    }
  }

  /** Everything parsed is a valid record. */
  lemma ParsedValid(line: string)
    ensures Parse(line).Some? ==> ValidRecord(Parse(line).value.0, Parse(line).value.1)
  {
    FieldsAreWords(line);
    var fields := Fields(line);
    if |fields| == 5 && fields[0] == "NR2" {
      assert fields[4] in fields;
    }
  }

  lemma HexIsWord(s: string)
    requires s != "" && AllLowerHex(s)
    ensures IsWord(s)
  {
  }

  lemma DigitsAreWord(s: string)
    requires s != "" && forall i :: 0 <= i < |s| ==> IsDigit(s[i])
    ensures IsWord(s)
  {
  }

  lemma FiveFields(a: string, b: string, c: string, d: string, e: string)
    requires IsWord(a) && IsWord(b) && IsWord(c) && IsWord(d) && IsWord(e)
    ensures Fields(a + " " + (b + " " + (c + " " + (d + " " + e)))) == [a, b, c, d, e]
  {
    ThreeFields(c, d, e);
    FieldsCons(b, c + " " + (d + " " + e));
    FieldsCons(a, b + " " + (c + " " + (d + " " + e)));
  }

  lemma ThreeFields(c: string, d: string, e: string)
    requires IsWord(c) && IsWord(d) && IsWord(e)
    ensures Fields(c + " " + (d + " " + e)) == [c, d, e]
  {
    FieldsLast(e);
    FieldsCons(d, e);
    FieldsCons(c, d + " " + e);
  }

  function UntilText(r: StoredRecord): string {
    if r.until.Some? then ToDecimal(r.until.value) else "-"
  }

  function BlobText(r: StoredRecord): string {
    if r.ciphertext.Some? then ToHex(r.ciphertext.value) else "-"
  }

  lemma RecordWords(key: string, r: StoredRecord)
    requires ValidRecord(key, r)
    ensures IsWord(ToDecimal(r.epoch)) && IsWord(key) && IsWord(UntilText(r)) && IsWord(BlobText(r))
  {
    assert IsWord("-");
    DigitsAreWord(ToDecimal(r.epoch));
    HexIsWord(key);
    if r.until.Some? {
      DigitsAreWord(ToDecimal(r.until.value));
      HexIsWord(ToHex(r.ciphertext.value));
    }
  }

  lemma Nr2RoundTrip(key: string, r: StoredRecord)
    requires ValidRecord(key, r)
    ensures ParseNr2(ToDecimal(r.epoch), key, UntilText(r), BlobText(r)) == Some((key, r))
  {
    DecimalRoundTrip(r.epoch, U32);
    if r.until.Some? {
      DecimalRoundTrip(r.until.value, U64);
      HexRoundTrip(r.ciphertext.value);
      assert ToDecimal(r.until.value) != "-" by { assert IsDigit(ToDecimal(r.until.value)[0]); }
    }
  }

  /** Writing a valid record and reading the line gives it back. */
  lemma LineRoundTrip(key: string, r: StoredRecord)
    requires ValidRecord(key, r)
    ensures Parse(Line(key, r)) == Some((key, r))
  {
    RecordWords(key, r);
    assert IsWord("NR2");
    FiveFields("NR2", ToDecimal(r.epoch), key, UntilText(r), BlobText(r));
    Nr2RoundTrip(key, r);
  }

  /** A key that may be stored: an even number of lowercase hexadecimal digits, at most 16384. */
  predicate StoredKey(key: string) {
    2 <= |key| <= 16384 && |key| % 2 == 0 && forall i :: 0 <= i < |key| ==> '0' <= key[i] <= '9' || 'a' <= key[i] <= 'f'
  }

  /** The two older formats: a bare key is spent under epoch zero, and an epoch may stand before it; any
      other single word is refused. */
  lemma LegacyReads(key: string, epoch: nat)
    requires IsWord(key) && key != "NR2" && epoch < 0x1_0000_0000
    ensures Parse(key) == if StoredKey(key) then Some((key, StoredRecord(0, None, None))) else None
    ensures Parse(ToDecimal(epoch) + " " + key) == if StoredKey(key) then Some((key, StoredRecord(epoch, None, None))) else None
  {
    assert ValidStoredKey(key) <==> StoredKey(key);
    FieldsLast(key);
    DigitsAreWord(ToDecimal(epoch));
    FieldsCons(ToDecimal(epoch), key);
    DecimalRoundTrip(epoch, U32);
    assert IsDigit(ToDecimal(epoch)[0]);
  }

  lemma Spaced(a: string, b: string, c: string, d: string, e: string)
    ensures a + " " + b + " " + c + " " + d + " " + e == a + " " + (b + " " + (c + " " + (d + " " + e)))
  {
    assert c + " " + d + " " + e == c + " " + (d + " " + e);
    assert b + " " + c + " " + d + " " + e == b + " " + (c + " " + d + " " + e);
    assert a + " " + b + " " + c + " " + d + " " + e == a + " " + (b + " " + c + " " + d + " " + e);
  }

  /** The current format, spelled out: version, epoch, key, expiry and ciphertext, or two dashes. */
  lemma Nr2Reads(key: string, epoch: nat, until: nat, ciphertext: Bytes)
    requires ValidStoredKey(key) && epoch < U32 && until < U64 && 0 < |ciphertext| <= MaxCiphertext
    ensures Parse("NR2" + " " + ToDecimal(epoch) + " " + key + " " + "-" + " " + "-") == Some((key, StoredRecord(epoch, None, None)))
    ensures Parse("NR2" + " " + ToDecimal(epoch) + " " + key + " " + ToDecimal(until) + " " + ToHex(ciphertext)) ==
      Some((key, StoredRecord(epoch, Some(until), Some(ciphertext))))
  {
    LineRoundTrip(key, StoredRecord(epoch, None, None));
    Spaced("NR2", ToDecimal(epoch), key, "-", "-");
    LineRoundTrip(key, StoredRecord(epoch, Some(until), Some(ciphertext)));
    Spaced("NR2", ToDecimal(epoch), key, ToDecimal(until), ToHex(ciphertext));
  }

  /** The line holds no line break of its own. */
  lemma LineClean(key: string, r: StoredRecord)
    requires ValidRecord(key, r)
    ensures '\n' !in Line(key, r) && '\r' !in Line(key, r) && Line(key, r) != ""
  {
    RecordWords(key, r);
  }
}
