/**
 Loading and recovering the redemption ledger's file: the record fold of `load_records` and the
 backward scan of `truncate_unterminated_tail` (crates/nil-coordinator/src/nullifier.rs).
 */
module LedgerLog {
  import opened Text
  import opened LedgerFormat

  type RecordParser = string -> Option<(string, StoredRecord)>

  const NrParser: RecordParser := line => Parse(line)

  // ---------------------------------------------------------------- the fold

  /** One carriage return before the newline is dropped. */
  function Strip(line: string): string {
    if line != "" && line[|line| - 1] == '\r' then line[..|line| - 1] else line
  }

  /** Blank lines are skipped; the first record of a key wins. */
  function AddLine(parse: RecordParser, line: string, acc: Records): Option<Records> {
    if Strip(line) == "" then Some(acc) else
    var entry := parse(Strip(line));
    if entry.None? then None
    else if entry.value.0 in acc then Some(acc)
    else Some(acc[entry.value.0 := entry.value.1])
  }

  /** `load_records`: bounded lines, an unterminated final fragment ignored. */
  function Fold(parse: RecordParser, text: string, acc: Records): Option<Records>
    decreases |text|
  {
    if text == "" then Some(acc) else
    var i := IndexOf('\n', text);
    if i == |text| then (if |text| <= MaxLine then Some(acc) else None)
    else if i + 1 > MaxLine then None
    else
      var m := AddLine(parse, text[..i], acc);
      if m.None? then None else Fold(parse, text[i + 1..], m.value)
  }

  function Load(text: string): Option<Records> { Fold(NrParser, text, map[]) }

  /** The reading loop. */
  method LoadRecords(text: string) returns (r: Option<Records>)
    ensures r == Load(text)
  {
    var records: Records := map[];
    var rest := text;
    while rest != ""
      invariant Fold(NrParser, rest, records) == Load(text)
      decreases |rest|
    {
      var i := IndexOf('\n', rest);
      if i == |rest| {
        if |rest| > MaxLine {
          return None;
        }
        break;
      }
      if i + 1 > MaxLine {
        return None;
      }
      var line := Strip(rest[..i]);
      if line != "" {
        var entry := Parse(line);
        if entry.None? {
          return None;
        }
        if entry.value.0 !in records {
          records := records[entry.value.0 := entry.value.1];
        }
      }
      rest := rest[i + 1..];
    }
    return Some(records);
  }

  lemma FoldLine(parse: RecordParser, line: string, acc: Records)
    requires '\n' !in line && |line| + 1 <= MaxLine
    ensures Fold(parse, line + "\n", acc) == AddLine(parse, line, acc)
  {
    var text := line + "\n";
    IndexOfUnique('\n', text, |line|);
    assert text[..|line|] == line && text[|line| + 1..] == "";
    assert forall m :: Fold(parse, "", m) == Some(m);
  }

  lemma {:induction false} FoldConcat(parse: RecordParser, t: string, u: string, acc: Records)
    requires Complete(t)
    ensures Fold(parse, t + u, acc) ==
            match Fold(parse, t, acc) case None => None case Some(m) => Fold(parse, u, m)
    decreases |t|
  {
    if t == "" {
      assert t + u == u;
    } else {
      IndexOfExtends('\n', t, u);
      var i := IndexOf('\n', t);
      assert (t + u)[..i] == t[..i] && (t + u)[i + 1..] == t[i + 1..] + u;
      if i + 1 <= MaxLine {
        var m := AddLine(parse, t[..i], acc);
        if m.Some? {
          FoldConcat(parse, t[i + 1..], u, m.value);
        }
      }
    }
  }

  lemma AddedValid(line: string, acc: Records)
    requires ValidRecords(acc) && AddLine(NrParser, line, acc).Some?
    ensures ValidRecords(AddLine(NrParser, line, acc).value)
  {
    ParsedValid(Strip(line));
  }

  lemma {:induction false} LoadedValid(text: string, acc: Records)
    requires ValidRecords(acc) && Fold(NrParser, text, acc).Some?
    ensures ValidRecords(Fold(NrParser, text, acc).value)
    decreases |text|
  {
    if text != "" {
      var i := IndexOf('\n', text);
      if i < |text| {
        var added := AddLine(NrParser, text[..i], acc);
        AddedValid(text[..i], acc);
        LoadedValid(text[i + 1..], added.value);
        assert Fold(NrParser, text, acc) == Fold(NrParser, text[i + 1..], added.value);
      }
    }
  }

  /** Appending the line of a valid record adds it, unless its key is already there. */
  lemma AppendLoads(t: string, m: Records, key: string, r: StoredRecord)
    requires Complete(t) && Load(t) == Some(m) && ValidRecord(key, r)
    ensures Load(t + (Line(key, r) + "\n")) == Some(if key in m then m else m[key := r])
  {
    LineRoundTrip(key, r);
    LineClean(key, r);
    ValidEncodes(key, r);
    FoldConcat(NrParser, t, Line(key, r) + "\n", map[]);
    FoldLine(NrParser, Line(key, r), m);
    assert Strip(Line(key, r)) == Line(key, r);
  }

  // ---------------------------------------------------------------- the torn tail

  /** Where the last line starts: just after the last newline, or at zero. */
  function LastLine(text: string): (s: nat)
    ensures s <= |text| && (s > 0 ==> text[s - 1] == '\n')
    ensures forall i :: s <= i < |text| ==> text[i] != '\n'
  {
    if text == "" then 0 else if text[|text| - 1] == '\n' then |text| else LastLine(text[..|text| - 1])
  }

  /** How much of the file recovery keeps; nothing when the torn tail is longer than any record. */
  function Keeps(text: string): (r: Option<nat>)
    ensures r.Some? ==> r.value <= |text|
  {
    var s := LastLine(text);
    if Complete(text) then Some(|text|)
    else if s == 0 then (if |text| <= MaxLine then Some(0) else None)
    else if |text| - s < MaxLine then Some(s) else None
  }

  /** `truncate_unterminated_tail`: scan back byte by byte to the last newline, up to a fixed bound. */
  method TruncateTail(text: string) returns (r: Option<nat>)
    ensures r == Keeps(text)
  {
    if text == "" || text[|text| - 1] == '\n' {
      return Some(|text|);
    }
    var position, scanned := |text| - 1, 1;
    while true
      invariant 0 <= position < |text| && scanned == |text| - position <= MaxLine
      invariant forall i :: position <= i < |text| ==> text[i] != '\n'
      decreases position
    {
      if position == 0 {
        assert LastLine(text) == 0;
        return Some(0);
      }
      if scanned >= MaxLine {
        return None;
      }
      position := position - 1;
      scanned := scanned + 1;
      if text[position] == '\n' {
        assert LastLine(text) == position + 1;
        return Some(position + 1);
      }
    }
  }

  /** A whole-record log followed by part of one line: exactly the whole records are kept. */
  lemma KeepsWhole(t: string, fragment: string)
    requires Complete(t) && '\n' !in fragment && |fragment| < MaxLine
    ensures Keeps(t + fragment) == Some(|t|)
  {
    var text := t + fragment;
    assert forall i :: |t| <= i < |text| ==> text[i] == fragment[i - |t|];
    LastLineUnique(text, |t|);
  }

  /** What recovery does with a torn tail, exactly: it goes if it is shorter than the longest record, or just
      as long and all there is; otherwise the log is refused. */
  lemma TailKeptIff(t: string, fragment: string)
    requires Complete(t) && '\n' !in fragment && fragment != ""
    ensures Keeps(t + fragment) == if |fragment| < 147551 || (t == "" && |fragment| == 147551) then Some(|t|) else None
  {
    var text := t + fragment;
    assert forall i :: |t| <= i < |text| ==> text[i] == fragment[i - |t|];
    LastLineUnique(text, |t|);
  }

  /** A blank line is skipped; a line longer than any record refuses the whole log. */
  lemma LineRules(line: string, rest: string)
    requires '\n' !in line
    ensures |line| >= 147551 ==> Load(line + "\n" + rest) == None
    ensures line == "" || line == "\r" ==> Load(line + "\n" + rest) == Load(rest)
  {
    var text := line + "\n" + rest;
    IndexOfUnique('\n', text, |line|);
    assert text[..|line|] == line && text[|line| + 1..] == rest;
  }

  lemma LastLineUnique(text: string, s: nat)
    requires s <= |text| && (s > 0 ==> text[s - 1] == '\n')
    requires forall i :: s <= i < |text| ==> text[i] != '\n'
    ensures LastLine(text) == s
  {
  }

  /** What a reopen reads from `text`: the load of what recovery keeps. */
  function Recover(text: string): Option<Records> {
    if Keeps(text).None? then None else Load(text[..Keeps(text).value])
  }

  /** A crash anywhere inside one append: the records before it, or those plus the one in flight.
      Never a partial record, and never a refusal. */
  lemma RecoverInFlight(t: string, m: Records, key: string, r: StoredRecord, text: string)
    requires Complete(t) && Load(t) == Some(m) && ValidRecord(key, r)
    requires t <= text <= t + (Line(key, r) + "\n")
    ensures Recover(text) == Some(if text == t + (Line(key, r) + "\n") && key !in m then m[key := r] else m)
  {
    var line := Line(key, r);
    if text == t + (line + "\n") {
      AppendLoads(t, m, key, r);
      RecoverWhole(text);
    } else {
      LineClean(key, r);
      ValidEncodes(key, r);
      PartOfLine(t, line, text);
      RecoverFragment(t, text[|t|..]);
    }
  }

  lemma PartOfLine(t: string, line: string, text: string)
    requires t <= text <= t + (line + "\n") && text != t + (line + "\n")
    ensures text == t + text[|t|..] && text[|t|..] <= line
  {
    assert (t + (line + "\n"))[|t|..] == line + "\n";
    assert |text| <= |t| + |line|;
  }

  lemma RecoverWhole(t: string)
    requires Complete(t)
    ensures Recover(t) == Load(t)
  {
    assert t[..|t|] == t;
  }

  lemma RecoverFragment(t: string, fragment: string)
    requires Complete(t) && '\n' !in fragment && |fragment| < MaxLine
    ensures Recover(t + fragment) == Load(t)
  {
    KeepsWhole(t, fragment);
    assert (t + fragment)[..|t|] == t;
  }

  // ---------------------------------------------------------------- whole lines

  /** Lines that recovery can step over: no newline inside, within the bound. */
  ghost predicate Bounded(lines: seq<string>) {
    forall i :: 0 <= i < |lines| ==> '\n' !in lines[i] && |lines[i]| + 1 <= MaxLine
  }

  function Join(lines: seq<string>): (s: string)
    ensures Complete(s)
  {
    if lines == [] then "" else Join(lines[..|lines| - 1]) + (lines[|lines| - 1] + "\n")
  }

  lemma {:induction false} JoinPrefix(lines: seq<string>, j: nat)
    requires j <= |lines|
    ensures Join(lines[..j]) <= Join(lines)
  {
    if j == |lines| {
      assert lines[..j] == lines;
    } else {
      assert lines[..|lines| - 1][..j] == lines[..j];
      JoinPrefix(lines[..|lines| - 1], j);
    }
  }

  lemma JoinSnoc(lines: seq<string>, j: nat)
    requires j < |lines|
    ensures Join(lines[..j + 1]) == Join(lines[..j]) + (lines[j] + "\n")
  {
    assert lines[..j + 1][..j] == lines[..j];
  }

  /** The number of whole lines within the first `n` characters. */
  lemma WholeLines(lines: seq<string>, n: nat) returns (j: nat)
    ensures j <= |lines| && |Join(lines[..j])| <= n
    ensures j < |lines| ==> n < |Join(lines[..j + 1])|
  {
    j := 0;
    while j < |lines| && |Join(lines[..j + 1])| <= n
      invariant j <= |lines| && |Join(lines[..j])| <= n
    {
      j := j + 1;
    }
  }

  /** Cut anywhere, recovery keeps exactly the whole lines before the cut. */
  lemma CutKeeps(lines: seq<string>, n: nat) returns (j: nat)
    requires Bounded(lines) && n <= |Join(lines)|
    ensures j <= |lines| && |Join(lines[..j])| <= n
    ensures j < |lines| ==> n < |Join(lines[..j + 1])|
    ensures Keeps(Join(lines)[..n]) == Some(|Join(lines[..j])|)
    ensures Join(lines)[..n][..|Join(lines[..j])|] == Join(lines[..j])
  {
    j := WholeLines(lines, n);
    var t := Join(lines[..j]);
    JoinPrefix(lines, j);
    assert Join(lines)[..n][..|t|] == t;
    if j == |lines| {
      assert lines[..j] == lines && Join(lines)[..n] == t + "";
      KeepsWhole(t, "");
    } else {
      JoinSnoc(lines, j);
      JoinPrefix(lines, j + 1);
      var fragment := lines[j][..n - |t|];
      assert Join(lines)[..n] == t + fragment;
      KeepsWhole(t, fragment);
    }
  }

  // ---------------------------------------------------------------- printing a map

  function LinesOf(order: seq<string>, m: Records): (lines: seq<string>)
    requires forall k :: k in order ==> k in m
    ensures |lines| == |order|
    ensures forall i :: 0 <= i < |order| ==> lines[i] == Line(order[i], m[order[i]])
  {
    seq(|order|, i requires 0 <= i < |order| => Line(order[i], m[order[i]]))
  }

  /** The rewritten file that lists `order`. */
  function Print(order: seq<string>, m: Records): string
    requires forall k :: k in order ==> k in m
  {
    Join(LinesOf(order, m))
  }

  ghost predicate Lists(order: seq<string>, m: Records) {
    (forall i, j :: 0 <= i < j < |order| ==> order[i] != order[j]) && forall k :: k in order <==> k in m
  }

  function Restrict(m: Records, order: seq<string>): Records { map k | k in m && k in order :: m[k] }

  lemma RestrictSnoc(m: Records, rest: seq<string>, k: string)
    requires k in m
    ensures Restrict(m, rest + [k]) ==
      if k in Restrict(m, rest) then Restrict(m, rest) else Restrict(m, rest)[k := m[k]]
  {
    forall x ensures x in rest + [k] <==> x in rest || x == k { }
  }

  lemma LinesSnoc(order: seq<string>, m: Records, j: nat)
    requires j <= |order| && forall k :: k in order ==> k in m
    ensures LinesOf(order, m)[..j] == LinesOf(order[..j], m)
  {
  }

  lemma PrintSnoc(rest: seq<string>, k: string, m: Records)
    requires k in m && forall x :: x in rest ==> x in m
    ensures Print(rest + [k], m) == Print(rest, m) + (Line(k, m[k]) + "\n") && Complete(Print(rest, m))
  {
    var order := rest + [k];
    LinesSnoc(order, m, |rest|);
    assert order[..|rest|] == rest;
    JoinSnoc(LinesOf(order, m), |rest|);
    assert LinesOf(order, m)[..|rest| + 1] == LinesOf(order, m);
  }

  lemma {:induction false} PrintLoads(order: seq<string>, m: Records)
    requires forall k :: k in order ==> k in m && ValidRecord(k, m[k])
    ensures Load(Print(order, m)) == Some(Restrict(m, order))
  {
    if order == [] {
      assert Restrict(m, order) == map[];
    } else {
      var rest, k := order[..|order| - 1], order[|order| - 1];
      assert order == rest + [k];
      PrintLoads(rest, m);
      PrintSnoc(rest, k, m);
      RestrictSnoc(m, rest, k);
      AppendLoads(Print(rest, m), Restrict(m, rest), k, m[k]);
    }
  }

  /** Rewriting any valid ledger, in any order, and loading it gives the ledger back. */
  lemma PrintRoundTrip(order: seq<string>, m: Records)
    requires Lists(order, m) && ValidRecords(m)
    ensures Complete(Print(order, m)) && Load(Print(order, m)) == Some(m)
  {
    PrintLoads(order, m);
    assert Restrict(m, order) == m;
  }

  lemma LinesBounded(order: seq<string>, m: Records)
    requires forall k :: k in order ==> k in m && ValidRecord(k, m[k])
    ensures Bounded(LinesOf(order, m))
  {
    forall i | 0 <= i < |order| ensures '\n' !in LinesOf(order, m)[i] && |LinesOf(order, m)[i]| + 1 <= MaxLine {
      assert order[i] in order;
      LineClean(order[i], m[order[i]]);
      ValidEncodes(order[i], m[order[i]]);
    }
  }

  /** A ledger file cut at any byte is recovered as exactly its longest whole-record prefix. */
  lemma CutRecovers(order: seq<string>, m: Records, n: nat) returns (j: nat)
    requires forall k :: k in order ==> k in m && ValidRecord(k, m[k])
    requires n <= |Print(order, m)|
    ensures j <= |order| && |Print(order[..j], m)| <= n
    ensures j < |order| ==> n < |Print(order[..j + 1], m)|
    ensures Recover(Print(order, m)[..n]) == Some(Restrict(m, order[..j]))
  {
    j := CutPrint(order, m, n);
    PrintLoads(order[..j], m);
    RecoverKept(Print(order, m)[..n], Print(order[..j], m));
  }

  lemma RecoverKept(text: string, kept: string)
    requires Keeps(text) == Some(|kept|) && text[..|kept|] == kept
    ensures Recover(text) == Load(kept)
  {
  }

  lemma CutPrint(order: seq<string>, m: Records, n: nat) returns (j: nat)
    requires forall k :: k in order ==> k in m && ValidRecord(k, m[k])
    requires n <= |Print(order, m)|
    ensures j <= |order| && |Print(order[..j], m)| <= n
    ensures j < |order| ==> n < |Print(order[..j + 1], m)|
    ensures Keeps(Print(order, m)[..n]) == Some(|Print(order[..j], m)|)
    ensures Print(order, m)[..n][..|Print(order[..j], m)|] == Print(order[..j], m)
  {
    LinesBounded(order, m);
    j := CutKeeps(LinesOf(order, m), n);
    PrintFirst(order, m, j);
    if j < |order| { PrintFirst(order, m, j + 1); }
  }

  lemma PrintFirst(order: seq<string>, m: Records, j: nat)
    requires j <= |order| && forall k :: k in order ==> k in m
    ensures Join(LinesOf(order, m)[..j]) == Print(order[..j], m)
  {
    LinesSnoc(order, m, j);
  }
}
