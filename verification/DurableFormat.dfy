/**
 The strict line fold shared by the three durable sets: newline-terminated lines only, and no key
 under two tags.  How one line is read is a parameter.
 */
module LogFold {
  import opened Text

  /** Key to tag; a flat set tags every key with zero. */
  type Entries = map<string, nat>

  /** One line as a key and its tag, or nothing when the line is malformed. */
  type LineParser = string -> Option<(string, nat)>

  /** `acc` with one more line.  Refused: a malformed line, a key that already has another tag. */
  function AddLine(parse: LineParser, line: string, acc: Entries): Option<Entries> {
    var entry := parse(line);
    if entry.None? || (entry.value.0 in acc && acc[entry.value.0] != entry.value.1) then None
    else Some(acc[entry.value.0 := entry.value.1])
  }

  /** Fold the log `text` into `acc`; a torn final record or a refused line refuses the log. */
  function Fold(parse: LineParser, text: string, acc: Entries): Option<Entries>
    decreases |text|
  {
    if text == "" then Some(acc) else
    var i := IndexOf('\n', text);
    if i == |text| then None else
    var m := AddLine(parse, text[..i], acc);
    if m.None? then None else Fold(parse, text[i + 1..], m.value)
  }

  lemma FoldLine(parse: LineParser, line: string, acc: Entries)
    requires '\n' !in line
    ensures Fold(parse, line + "\n", acc) == AddLine(parse, line, acc)
  {
    var text := line + "\n";
    IndexOfUnique('\n', text, |line|);
    assert text[..|line|] == line && text[|line| + 1..] == "";
    assert forall m :: Fold(parse, "", m) == Some(m);
  }

  /** Reading resumes where a complete log ends. */
  lemma {:induction false} FoldConcat(parse: LineParser, t: string, u: string, acc: Entries)
    requires Complete(t)
    ensures Fold(parse, t + u, acc) ==
            match Fold(parse, t, acc) case None => None case Some(m) => Fold(parse, u, m)
    decreases |t|
  {
    if t == "" {
      assert t + u == u;
    } else {
      IndexOfExtends('\n', t, u);
      var i := IndexOf('\n', t);
      assert (t + u)[..i] == t[..i] && (t + u)[i + 1..] == t[i + 1..] + u;
      var m := AddLine(parse, t[..i], acc);
      if m.Some? {
        FoldConcat(parse, t[i + 1..], u, m.value);
      }
    }
  }

  /** A log that does not end with a newline is refused, whatever comes before. */
  lemma {:induction false} TornRefused(parse: LineParser, text: string, acc: Entries)
    requires !Complete(text)
    ensures Fold(parse, text, acc) == None
    decreases |text|
  {
    var i := IndexOf('\n', text);
    if i < |text| {
      var m := AddLine(parse, text[..i], acc);
      if m.Some? {
        TornRefused(parse, text[i + 1..], m.value);
      }
    }
  }

  /** Reading on never forgets or retags an entry. */
  lemma {:induction false} FoldGrows(parse: LineParser, text: string, acc: Entries)
    requires Fold(parse, text, acc).Some?
    ensures forall k :: k in acc ==> k in Fold(parse, text, acc).value && Fold(parse, text, acc).value[k] == acc[k]
    decreases |text|
  {
    if text != "" {
      var i := IndexOf('\n', text);
      FoldGrows(parse, text[i + 1..], AddLine(parse, text[..i], acc).value);
    }
  }

  /** Whatever a complete log holds, every readable extension of it holds too. */
  lemma ExtensionKeeps(parse: LineParser, t: string, b: string)
    requires Complete(t) && t <= b && Fold(parse, b, map[]).Some?
    ensures Fold(parse, t, map[]).Some?
    ensures forall k :: k in Fold(parse, t, map[]).value ==>
      k in Fold(parse, b, map[]).value && Fold(parse, b, map[]).value[k] == Fold(parse, t, map[]).value[k]
  {
    assert b == t + b[|t|..];
    FoldConcat(parse, t, b[|t|..], map[]);
    FoldGrows(parse, b[|t|..], Fold(parse, t, map[]).value);
  }
}

/**
 The on-disk formats of the three durable sets (crates/nil-core/src/durable.rs): bare keys, keys
 tagged with an issuer epoch, and keys tagged with an insertion time.  One newline-terminated record
 per entry; anything torn or malformed refuses the whole log.
 */
module DurableFormat {
  import opened Text
  import opened LogFold

  datatype Kind = Flat | Epoch | Timed

  predicate ValidKey(kind: Kind, key: string) {
    key != "" && '\n' !in key && (kind.Flat? || ' ' !in key)
  }

  predicate ValidTag(kind: Kind, tag: nat) {
    match kind
    case Flat => tag == 0
    case Epoch => tag < U32
    case Timed => tag < U64
  }

  ghost predicate ValidEntries(kind: Kind, m: Entries) {
    forall k :: k in m ==> ValidKey(kind, k) && ValidTag(kind, m[k])
  }

  /** One entry as the append path writes it. */
  function Record(kind: Kind, key: string, tag: nat): string {
    match kind
    case Flat => key + "\n"
    case Epoch => ToDecimal(tag) + " " + key + "\n"
    case Timed => key + " " + ToDecimal(tag) + "\n"
  }

  function ParseLine(kind: Kind, line: string): Option<(string, nat)> {
    var i := IndexOf(' ', line);
    match kind
    case Flat => if line == "" then None else Some((line, 0))
    case Epoch =>
      if i == |line| || line[i + 1..] == "" || ' ' in line[i + 1..] then None else
      var tag := ParseUnsigned(line[..i], U32);
      if tag.None? then None else Some((line[i + 1..], tag.value))
    case Timed =>
      if i == |line| || i == 0 || ' ' in line[i + 1..] then None else
      var tag := ParseUnsigned(line[i + 1..], U64);
      if tag.None? then None else Some((line[..i], tag.value))
  }

  function Parser(kind: Kind): string -> Option<(string, nat)> {
    line => ParseLine(kind, line)
  }

  /** The entries of the log `text`, or nothing when the log is refused. */
  function Load(kind: Kind, text: string, acc: Entries): Option<Entries> {
    Fold(Parser(kind), text, acc)
  }

  /** The reading loop of `open`. */
  method ReadLog(kind: Kind, text: string) returns (r: Option<Entries>)
    ensures r == Load(kind, text, map[])
  {
    var seen: Entries := map[];
    var rest := text;
    while rest != ""
      invariant Load(kind, rest, seen) == Load(kind, text, map[])
      decreases |rest|
    {
      var i := IndexOf('\n', rest);
      if i == |rest| {
        return None;
      }
      var entry := ParseLine(kind, rest[..i]);
      if entry.None? || (entry.value.0 in seen && seen[entry.value.0] != entry.value.1) {
        return None;
      }
      seen := seen[entry.value.0 := entry.value.1];
      rest := rest[i + 1..];
    }
    return Some(seen);
  }

  // ---------------------------------------------------------------- one record

  /** A record is one line, and reads back as the entry it was written for. */
  lemma RecordReadsBack(kind: Kind, key: string, tag: nat)
    requires ValidKey(kind, key) && ValidTag(kind, tag)
    ensures var r := Record(kind, key, tag);
      && r != "" && Complete(r) && '\n' !in r[..|r| - 1]
      && ParseLine(kind, r[..|r| - 1]) == Some((key, tag))
  {
    var r := Record(kind, key, tag);
    match kind
    case Flat =>
      assert r[..|r| - 1] == key;
    case Epoch =>
      assert r[..|r| - 1] == ToDecimal(tag) + " " + key;
      EpochLine(key, tag);
    case Timed =>
      assert r[..|r| - 1] == key + " " + ToDecimal(tag);
      TimedLine(key, tag);
  }

  lemma EpochLine(key: string, tag: nat)
    requires key != "" && ' ' !in key && tag < U32
    ensures ParseLine(Epoch, ToDecimal(tag) + " " + key) == Some((key, tag))
  {
    var d := ToDecimal(tag);
    var line := d + " " + key;
    IndexOfUnique(' ', line, |d|);
    assert line[..|d|] == d && line[|d| + 1..] == key;
    DecimalRoundTrip(tag, U32);
  }

  lemma TimedLine(key: string, tag: nat)
    requires key != "" && ' ' !in key && tag < U64
    ensures ParseLine(Timed, key + " " + ToDecimal(tag)) == Some((key, tag))
  {
    var d := ToDecimal(tag);
    var line := key + " " + d;
    IndexOfUnique(' ', line, |key|);
    assert line[..|key|] == key && line[|key| + 1..] == d;
    DecimalRoundTrip(tag, U64);
  }

  lemma LoadRecord(kind: Kind, key: string, tag: nat, acc: Entries)
    requires ValidKey(kind, key) && ValidTag(kind, tag) && key !in acc
    ensures Load(kind, Record(kind, key, tag), acc) == Some(acc[key := tag])
  {
    var r := Record(kind, key, tag);
    RecordReadsBack(kind, key, tag);
    FoldLine(Parser(kind), r[..|r| - 1], acc);
    assert r == r[..|r| - 1] + "\n";
  }

  // ---------------------------------------------------------------- whole logs

  /** Everything that can be read back could have been inserted. */
  lemma {:induction false} LoadedValid(kind: Kind, text: string, acc: Entries)
    requires Load(kind, text, acc).Some? && ValidEntries(kind, acc)
    ensures ValidEntries(kind, Load(kind, text, acc).value)
    decreases |text|
  {
    if text != "" {
      var i := IndexOf('\n', text);
      LineValid(kind, text[..i]);
      LoadedValid(kind, text[i + 1..], AddLine(Parser(kind), text[..i], acc).value);
    }
  }

  lemma LineValid(kind: Kind, line: string)
    requires '\n' !in line
    ensures var entry := ParseLine(kind, line);
      entry.Some? ==> ValidKey(kind, entry.value.0) && ValidTag(kind, entry.value.1)
  {
  }

  /** Appending the record of a new key to a readable log adds exactly that entry. */
  lemma AppendReads(kind: Kind, t: string, m: Entries, key: string, tag: nat)
    requires Load(kind, t, map[]) == Some(m) && key !in m
    requires ValidKey(kind, key) && ValidTag(kind, tag)
    ensures Load(kind, t + Record(kind, key, tag), map[]) == Some(m[key := tag])
  {
    if !Complete(t) { TornRefused(Parser(kind), t, map[]); }
    FoldConcat(Parser(kind), t, Record(kind, key, tag), map[]);
    LoadRecord(kind, key, tag, m);
  }

  /** A log whose append stopped part way through its record is refused. */
  lemma PartialAppendRefused(kind: Kind, t: string, key: string, tag: nat, n: nat)
    requires ValidKey(kind, key) && ValidTag(kind, tag) && 0 < n < |Record(kind, key, tag)|
    ensures Load(kind, t + Record(kind, key, tag)[..n], map[]) == None
  {
    RecordCut(kind, key, tag, "");
    var w := Record(kind, key, tag)[..n];
    assert Record(kind, key, tag) + "" == Record(kind, key, tag);
    assert (t + w)[|t + w| - 1] == w[n - 1];
    TornRefused(Parser(kind), t + w, map[]);
  }

  // ---------------------------------------------------------------- printing a map

  /** The log that lists `order`, each key with its tag in `m`. */
  function Print(kind: Kind, order: seq<string>, m: Entries): string
    requires forall k :: k in order ==> k in m
  {
    if order == [] then "" else Record(kind, order[0], m[order[0]]) + Print(kind, order[1..], m)
  }

  ghost predicate NoDuplicates(order: seq<string>) {
    forall i, j :: 0 <= i < j < |order| ==> order[i] != order[j]
  }

  /** `order` lists the keys of `m`, each once: some iteration order of the hash map. */
  ghost predicate Lists(order: seq<string>, m: Entries) {
    NoDuplicates(order) && forall k :: k in order <==> k in m
  }

  function Restrict(m: Entries, order: seq<string>): Entries {
    map k | k in m && k in order :: m[k]
  }

  lemma RestrictStep(m: Entries, order: seq<string>, acc: Entries)
    requires order != [] && order[0] in m && forall k :: k in order ==> k !in acc
    ensures acc[order[0] := m[order[0]]] + Restrict(m, order[1..]) == acc + Restrict(m, order)
  {
    assert order == [order[0]] + order[1..];
    forall k ensures k in order <==> k == order[0] || k in order[1..] { }
  }

  lemma {:induction false} PrintReads(kind: Kind, order: seq<string>, m: Entries, acc: Entries)
    requires NoDuplicates(order) && forall k :: k in order ==> k in m && k !in acc
    requires forall k :: k in order ==> ValidKey(kind, k) && ValidTag(kind, m[k])
    ensures Load(kind, Print(kind, order, m), acc) == Some(acc + Restrict(m, order))
  {
    if order == [] {
      assert acc + Restrict(m, order) == acc;
    } else {
      var k, rest := order[0], order[1..];
      RestrictStep(m, order, acc);
      RecordReadsBack(kind, k, m[k]);
      LoadRecord(kind, k, m[k], acc);
      FoldConcat(Parser(kind), Record(kind, k, m[k]), Print(kind, rest, m), acc);
      PrintReads(kind, rest, m, acc[k := m[k]]);
    }
  }

  /** Printing any valid map, in any order, and reading it gives the map back. */
  lemma PrintRoundTrip(kind: Kind, order: seq<string>, m: Entries)
    requires Lists(order, m) && ValidEntries(kind, m)
    ensures Complete(Print(kind, order, m)) && Load(kind, Print(kind, order, m), map[]) == Some(m)
  {
    PrintReads(kind, order, m, map[]);
    assert map[] + Restrict(m, order) == m;
    if !Complete(Print(kind, order, m)) { TornRefused(Parser(kind), Print(kind, order, m), map[]); }
  }

  /** Cutting a printed log: between records the entries before the cut are read, inside a record
      the whole log is refused. */
  lemma CutLog(kind: Kind, order: seq<string>, m: Entries, acc: Entries, n: nat)
    requires NoDuplicates(order) && forall k :: k in order ==> k in m && k !in acc
    requires forall k :: k in order ==> ValidKey(kind, k) && ValidTag(kind, m[k])
    requires n <= |Print(kind, order, m)|
    ensures forall j :: 0 <= j <= |order| && Print(kind, order, m)[..n] == Print(kind, order[..j], m) ==>
      Load(kind, Print(kind, order, m)[..n], acc) == Some(acc + Restrict(m, order[..j]))
    ensures (forall j :: 0 <= j <= |order| ==> Print(kind, order, m)[..n] != Print(kind, order[..j], m)) ==>
      Load(kind, Print(kind, order, m)[..n], acc) == None
  {
    var cut := Print(kind, order, m)[..n];
    forall j | 0 <= j <= |order| && cut == Print(kind, order[..j], m)
      ensures Load(kind, cut, acc) == Some(acc + Restrict(m, order[..j]))
    {
      PrintReads(kind, order[..j], m, acc);
    }
    if Complete(cut) {
      CompleteCut(kind, order, m, n);
    } else {
      TornRefused(Parser(kind), cut, acc);
    }
  }

  /** A cut inside the first record is not complete, whatever follows the record. */
  lemma RecordCut(kind: Kind, key: string, tag: nat, rest: string)
    requires ValidKey(kind, key) && ValidTag(kind, tag)
    ensures var r := Record(kind, key, tag); forall n :: 0 < n < |r| ==> !Complete((r + rest)[..n])
  {
    RecordReadsBack(kind, key, tag);
    var r := Record(kind, key, tag);
    forall n | 0 < n < |r| ensures !Complete((r + rest)[..n]) {
      assert (r + rest)[..n][n - 1] == r[..|r| - 1][n - 1];
    }
  }

  lemma CutAfter(r: string, q: string, n: nat)
    requires |r| <= n <= |r| + |q| && Complete((r + q)[..n])
    ensures (r + q)[..n] == r + q[..n - |r|] && Complete(q[..n - |r|])
  {
    assert n > |r| ==> q[..n - |r|][n - |r| - 1] == (r + q)[..n][n - 1];
  }

  lemma {:induction false} CompleteCut(kind: Kind, order: seq<string>, m: Entries, n: nat)
    requires forall k :: k in order ==> k in m && ValidKey(kind, k) && ValidTag(kind, m[k])
    requires n <= |Print(kind, order, m)| && Complete(Print(kind, order, m)[..n])
    ensures exists j :: 0 <= j <= |order| && Print(kind, order, m)[..n] == Print(kind, order[..j], m)
  {
    if n == 0 {
      assert Print(kind, order, m)[..n] == Print(kind, order[..0], m);
    } else {
      var k, rest := order[0], order[1..];
      var r, p := Record(kind, k, m[k]), Print(kind, order, m);
      var q := Print(kind, rest, m);
      RecordCut(kind, k, m[k], q);
      assert p == r + q && n >= |r|;
      CutAfter(r, q, n);
      CompleteCut(kind, rest, m, n - |r|);
      var j :| 0 <= j <= |rest| && q[..n - |r|] == Print(kind, rest[..j], m);
      assert order[..j + 1][1..] == rest[..j];
      assert p[..n] == Print(kind, order[..j + 1], m);
    }
  }
}
