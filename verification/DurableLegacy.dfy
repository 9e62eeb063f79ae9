/**
 The one-shot fold-in of a legacy key file when an epoch log is opened
 (`EpochDurableSet::open` in crates/nil-core/src/durable.rs): every legacy key the log does not hold is
 appended under the reserved epoch, one write per key and one sync at the end.

 The legacy file is renamed aside afterwards, best effort, so the same file may be folded in again.
 */
module DurableLegacy {
  import opened Text
  import opened Storage
  import opened LogFold
  import opened DurableFormat
  import opened DurableSet

  const LegacyEpoch: nat := 0

  // ---------------------------------------------------------------- reading the legacy file

  /** `read_complete_records`: the lines of a file, unless its last one is torn. */
  function Lines(text: string): (r: Option<seq<string>>)
    ensures r.Some? <==> Complete(text)
    ensures r.Some? ==> forall i :: 0 <= i < |r.value| ==> '\n' !in r.value[i]
    decreases |text|
  {
    if text == "" then Some([]) else
    var i := IndexOf('\n', text);
    if i == |text| then None else
    var rest := Lines(text[i + 1..]);
    if rest.None? then None else Some([text[..i]] + rest.value)
  }

  /** A legacy key that fits the epoch format. */
  predicate Foldable(key: string) { key != "" && ' ' !in key }

  predicate AllFoldable(keys: seq<string>) { forall i :: 0 <= i < |keys| ==> Foldable(keys[i]) }

  /** The keys that get written, in order: new ones, up to the first that does not fit. */
  function Missing(seen: Entries, keys: seq<string>): seq<string>
    decreases |keys|
  {
    if keys == [] || !Foldable(keys[0]) then []
    else if keys[0] in seen then Missing(seen, keys[1..])
    else [keys[0]] + Missing(seen[keys[0] := LegacyEpoch], keys[1..])
  }

  // ---------------------------------------------------------------- what folding leaves behind

  /** How folding ends: synced, a write stopped after some whole records and `n` characters of the
      next, or everything written and not synced. */
  datatype FoldIo = FoldSynced | FoldStops(whole: nat, n: nat) | FoldSyncFails

  function LegacyRecord(key: string): string { Record(Epoch, key, LegacyEpoch) }

  function WriteAll(f: File, keys: seq<string>): File {
    if keys == [] then f else WriteAll(f, keys[..|keys| - 1]).Write(LegacyRecord(keys[|keys| - 1]))
  }

  function Extended(seen: Entries, keys: seq<string>): Entries {
    seen + map k | k in keys :: LegacyEpoch
  }

  /** The log afterwards, and whether opening goes on; `fits` says that every legacy key does. */
  function FoldFile(f: File, missing: seq<string>, fits: bool, io: FoldIo): (File, bool) {
    if io.FoldStops? && io.whole < |missing| then
      (WriteAll(f, missing[..io.whole]).Write(Cut(LegacyRecord(missing[io.whole]), io.n)), false)
    else if !fits then (WriteAll(f, missing), false)
    else if missing == [] then (f, true)
    else if io.FoldSyncFails? then (WriteAll(f, missing), false)
    else (WriteAll(f, missing).Sync(), true)
  }

  /** The disk afterwards and, unless opening fails, the store. */
  function FoldIn(s: Store, legacy: string, io: FoldIo): (Disk, Option<Store>)
    requires s.disk.log.Some?
  {
    if Lines(legacy).None? then (s.disk, None) else
    var keys := Lines(legacy).value;
    var missing := Missing(s.seen, keys);
    var (f, ok) := FoldFile(s.disk.log.value, missing, AllFoldable(keys), io);
    var d := s.disk.SetLog(f);
    (d, if ok then Some(Store(d, Extended(s.seen, missing), s.handle)) else None)
  }

  /** The loop of `open` over the legacy records. */
  method FoldLegacy(store: DurableStore, legacy: string, io: FoldIo) returns (ok: bool)
    requires store.disk.log.Some?
    modifies store
    ensures store.disk == FoldIn(old(store.State()), legacy, io).0
    ensures ok <==> FoldIn(old(store.State()), legacy, io).1.Some?
    ensures ok ==> Some(store.State()) == FoldIn(old(store.State()), legacy, io).1
  {
    var lines := Lines(legacy);
    if lines.None? {
      return false;
    }
    var ok', seen, f := FoldKeys(store.disk.log.value, store.seen, lines.value, io);
    assert store.disk.SetLog(store.disk.log.value) == store.disk;
    store.disk := store.disk.SetLog(f);
    store.seen := seen;
    ok := ok';
  }

  method FoldKeys(log: File, known: Entries, keys: seq<string>, io: FoldIo) returns (ok: bool, seen: Entries, f: File)
    ensures (f, ok) == FoldFile(log, Missing(known, keys), AllFoldable(keys), io)
    ensures ok ==> seen == Extended(known, Missing(known, keys))
  {
    var folded;
    ok, seen, f, folded := WriteMissing(log, known, keys, io);
    if ok && folded > 0 {
      if io.FoldSyncFails? {
        return false, seen, f;
      }
      f := f.Sync();
    }
  }

  predicate Stopped(missing: seq<string>, io: FoldIo) { io.FoldStops? && io.whole < |missing| }

  /** The loop over the legacy keys: one write per key, and no further than a key that does not fit. */
  method WriteMissing(log: File, known: Entries, keys: seq<string>, io: FoldIo)
    returns (ok: bool, seen: Entries, f: File, folded: nat)
    ensures var missing := Missing(known, keys);
      && ok == (!Stopped(missing, io) && AllFoldable(keys))
      && f == (if Stopped(missing, io) then FoldFile(log, missing, true, io).0 else WriteAll(log, missing))
      && (ok ==> folded == |missing| && seen == Extended(known, missing))
  {
    ghost var done: seq<string> := [];
    seen, f, folded := known, log, 0;
    StartsOut(log, known, keys);
    for i := 0 to |keys|
      invariant folded == |done| && (io.FoldStops? ==> folded <= io.whole)
      invariant Progress(log, known, keys, i, seen, f, done)
    {
      var key := keys[i];
      if !Foldable(key) {
        EndsAt(log, known, keys, i, seen, f, done);
        return false, seen, f, folded;
      }
      if key in seen {
        Skips(log, known, keys, i, seen, f, done);
        continue;
      }
      if io.FoldStops? && io.whole == folded {
        StopsAt(log, known, keys, i, seen, f, done);
        f := f.Write(Cut(LegacyRecord(key), io.n));
        return false, seen, f, folded;
      }
      Writes(log, known, keys, i, seen, f, done);
      f := f.Write(LegacyRecord(key));
      seen := seen[key := LegacyEpoch];
      done, folded := done + [key], folded + 1;
    }
    EndsAt(log, known, keys, |keys|, seen, f, done);
    ok := true;
  }

  /** Before key `i`: what has been written, and what is still to be. */
  ghost predicate Progress(log: File, known: Entries, keys: seq<string>, i: nat, seen: Entries, f: File, done: seq<string>)
    requires i <= |keys|
  {
    && Missing(known, keys) == done + Missing(seen, keys[i..])
    && seen == Extended(known, done) && f == WriteAll(log, done) && AllFoldable(keys[..i])
  }

  lemma StartsOut(log: File, known: Entries, keys: seq<string>)
    ensures Progress(log, known, keys, 0, known, log, [])
  {
    assert keys[0..] == keys && Extended(known, []) == known;
  }

  lemma Skips(log: File, known: Entries, keys: seq<string>, i: nat, seen: Entries, f: File, done: seq<string>)
    requires i < |keys| && Progress(log, known, keys, i, seen, f, done) && Foldable(keys[i]) && keys[i] in seen
    ensures Progress(log, known, keys, i + 1, seen, f, done)
  {
    MissingAt(seen, keys, i);
  }

  lemma Writes(log: File, known: Entries, keys: seq<string>, i: nat, seen: Entries, f: File, done: seq<string>)
    requires i < |keys| && Progress(log, known, keys, i, seen, f, done) && Foldable(keys[i]) && keys[i] !in seen
    ensures Progress(log, known, keys, i + 1, seen[keys[i] := LegacyEpoch], f.Write(LegacyRecord(keys[i])), done + [keys[i]])
  {
    MissingAt(seen, keys, i);
    Next(done, keys[i], Missing(seen[keys[i] := LegacyEpoch], keys[i + 1..]));
    WriteAllSnoc(log, done, keys[i]);
    ExtendedSnoc(known, done, keys[i]);
  }

  lemma StopsAt(log: File, known: Entries, keys: seq<string>, i: nat, seen: Entries, f: File, done: seq<string>)
    requires i < |keys| && Progress(log, known, keys, i, seen, f, done) && Foldable(keys[i]) && keys[i] !in seen
    ensures var missing := Missing(known, keys);
      |done| < |missing| && missing[..|done|] == done && missing[|done|] == keys[i] && f == WriteAll(log, missing[..|done|])
  {
    MissingAt(seen, keys, i);
    Next(done, keys[i], Missing(seen[keys[i] := LegacyEpoch], keys[i + 1..]));
  }

  lemma EndsAt(log: File, known: Entries, keys: seq<string>, i: nat, seen: Entries, f: File, done: seq<string>)
    requires i <= |keys| && Progress(log, known, keys, i, seen, f, done) && (i == |keys| || !Foldable(keys[i]))
    ensures Missing(known, keys) == done && f == WriteAll(log, done) && seen == Extended(known, done)
    ensures AllFoldable(keys) <==> i == |keys|
  {
    if i < |keys| {
      MissingAt(seen, keys, i);
    } else {
      assert keys[i..] == [] && keys[..i] == keys;
    }
  }

  lemma MissingAt(seen: Entries, keys: seq<string>, i: nat)
    requires i < |keys|
    ensures Missing(seen, keys[i..]) ==
      if !Foldable(keys[i]) then [] else if keys[i] in seen then Missing(seen, keys[i + 1..])
      else [keys[i]] + Missing(seen[keys[i] := LegacyEpoch], keys[i + 1..])
    ensures AllFoldable(keys[..i + 1]) <==> AllFoldable(keys[..i]) && Foldable(keys[i])
    ensures AllFoldable(keys) ==> Foldable(keys[i])
  {
    assert keys[i..][0] == keys[i] && keys[i..][1..] == keys[i + 1..] && keys[..i + 1] == keys[..i] + [keys[i]];
    assert keys[..i + 1][i] == keys[i];
  }

  lemma Next(done: seq<string>, key: string, rest: seq<string>)
    ensures var all := done + ([key] + rest); all == done + [key] + rest && all[..|done|] == done && all[|done|] == key
  {
  }

  lemma WriteAllSnoc(f: File, keys: seq<string>, key: string)
    ensures WriteAll(f, keys + [key]) == WriteAll(f, keys).Write(LegacyRecord(key))
  {
    assert (keys + [key])[..|keys|] == keys;
  }

  lemma ExtendedSnoc(seen: Entries, keys: seq<string>, key: string)
    ensures Extended(seen, keys + [key]) == Extended(seen, keys)[key := LegacyEpoch]
  {
  }

  // ---------------------------------------------------------------- what it means

  function FoldText(keys: seq<string>): string {
    if keys == [] then "" else LegacyRecord(keys[0]) + FoldText(keys[1..])
  }

  /** What folding may write: keys the log lacks, each once, in the epoch format. */
  ghost predicate Fresh(seen: Entries, keys: seq<string>) {
    NoDuplicates(keys) && forall k :: k in keys ==> k !in seen && ValidKey(Epoch, k)
  }

  lemma {:induction false} MissingFresh(seen: Entries, keys: seq<string>)
    requires forall i :: 0 <= i < |keys| ==> '\n' !in keys[i]
    ensures Fresh(seen, Missing(seen, keys))
    ensures forall k :: k in Missing(seen, keys) ==> k in keys
    ensures AllFoldable(keys) ==> forall k :: k in keys ==> k in seen || k in Missing(seen, keys)
    decreases |keys|
  {
    if keys != [] && Foldable(keys[0]) {
      assert keys == [keys[0]] + keys[1..];
      if keys[0] in seen {
        MissingFresh(seen, keys[1..]);
      } else {
        MissingFresh(seen[keys[0] := LegacyEpoch], keys[1..]);
        FreshCons(seen, keys[0], Missing(seen[keys[0] := LegacyEpoch], keys[1..]));
      }
    }
  }

  lemma FreshCons(seen: Entries, key: string, rest: seq<string>)
    requires Fresh(seen[key := LegacyEpoch], rest) && key !in seen && ValidKey(Epoch, key)
    ensures Fresh(seen, [key] + rest)
  {
    var all := [key] + rest;
    forall i, j | 0 <= i < j < |all| ensures all[i] != all[j] {
      assert all[j] == rest[j - 1] && rest[j - 1] in rest;
      assert i > 0 ==> all[i] == rest[i - 1];
    }
  }

  lemma ExtendedStep(seen: Entries, keys: seq<string>)
    requires keys != []
    ensures Extended(seen[keys[0] := LegacyEpoch], keys[1..]) == Extended(seen, keys)
  {
    assert keys == [keys[0]] + keys[1..];
  }

  lemma FreshStep(seen: Entries, keys: seq<string>)
    requires Fresh(seen, keys) && keys != []
    ensures keys[0] !in seen && ValidKey(Epoch, keys[0]) && Fresh(seen[keys[0] := LegacyEpoch], keys[1..])
  {
    assert keys == [keys[0]] + keys[1..];
  }

  lemma FoldTextFirst(t: string, keys: seq<string>)
    requires keys != []
    ensures t + FoldText(keys) == t + LegacyRecord(keys[0]) + FoldText(keys[1..])
  {
    var r, q := LegacyRecord(keys[0]), FoldText(keys[1..]);
    assert t + (r + q) == t + r + q;
  }

  /** A log with folded records appended reads as the map with those keys. */
  lemma {:induction false} TextReads(t: string, seen: Entries, keys: seq<string>)
    requires Load(Epoch, t, map[]) == Some(seen) && Fresh(seen, keys)
    ensures Load(Epoch, t + FoldText(keys), map[]) == Some(Extended(seen, keys))
    decreases |keys|
  {
    if keys == [] {
      assert t + FoldText(keys) == t && Extended(seen, keys) == seen;
    } else {
      FreshStep(seen, keys);
      AppendReads(Epoch, t, seen, keys[0], LegacyEpoch);
      TextReads(t + LegacyRecord(keys[0]), seen[keys[0] := LegacyEpoch], keys[1..]);
      FoldTextFirst(t, keys);
      ExtendedStep(seen, keys);
    }
  }

  /** Cut anywhere, the log is refused or reads as the map with the first few of those keys. */
  lemma {:induction false} TextCut(t: string, seen: Entries, keys: seq<string>, b: string) returns (j: nat)
    requires Load(Epoch, t, map[]) == Some(seen) && Fresh(seen, keys)
    requires t <= b <= t + FoldText(keys) && Load(Epoch, b, map[]).Some?
    ensures j <= |keys| && Load(Epoch, b, map[]) == Some(Extended(seen, keys[..j]))
    decreases |keys|
  {
    if b == t {
      j := 0;
      assert Extended(seen, keys[..0]) == seen;
    } else {
      var r := LegacyRecord(keys[0]);
      FreshStep(seen, keys);
      FoldTextFirst(t, keys);
      CutBeyond(t, keys[0], FoldText(keys[1..]), b);
      AppendReads(Epoch, t, seen, keys[0], LegacyEpoch);
      var k := TextCut(t + r, seen[keys[0] := LegacyEpoch], keys[1..], b);
      j := k + 1;
      assert keys[..j][1..] == keys[1..][..k];
      ExtendedStep(seen, keys[..j]);
    }
  }

  /** A readable log that goes beyond `t` holds the whole next record. */
  lemma CutBeyond(t: string, key: string, rest: string, b: string)
    requires t <= b <= t + LegacyRecord(key) + rest && b != t && ValidKey(Epoch, key) && Load(Epoch, b, map[]).Some?
    ensures t + LegacyRecord(key) <= b
  {
    var r, w := LegacyRecord(key), b[|t|..];
    assert b == t + w;
    if |w| < |r| {
      assert w == r[..|w|];
      PartialAppendRefused(Epoch, t, key, LegacyEpoch, |w|);
    }
  }

  /** Folding resumed after `j` records writes exactly the rest. */
  lemma {:induction false} MissingResumes(seen: Entries, keys: seq<string>, j: nat)
    requires j <= |Missing(seen, keys)|
    ensures Missing(Extended(seen, Missing(seen, keys)[..j]), keys) == Missing(seen, keys)[j..]
    decreases |keys|
  {
    var missing := Missing(seen, keys);
    if j == 0 {
      assert Extended(seen, missing[..0]) == seen;
    } else if keys[0] in seen {
      MissingResumes(seen, keys[1..], j);
    } else {
      assert missing[..j][1..] == missing[1..][..j - 1];
      ExtendedStep(seen, missing[..j]);
      MissingResumes(seen[keys[0] := LegacyEpoch], keys[1..], j - 1);
      assert keys[0] in missing[..j];
    }
  }

  lemma ExtendedTwice(seen: Entries, keys: seq<string>, j: nat)
    requires j <= |keys|
    ensures Extended(Extended(seen, keys[..j]), keys[j..]) == Extended(seen, keys)
  {
    assert keys == keys[..j] + keys[j..];
  }

  lemma {:induction false} WriteAllIs(f: File, keys: seq<string>)
    ensures WriteAll(f, keys).cur == f.cur + FoldText(keys) && WriteAll(f, keys).stable == f.stable
    ensures f.Ok() ==> WriteAll(f, keys).Ok() && forall x :: x in WriteAll(f, keys).tails ==> x in f.tails || x <= f.cur + FoldText(keys)
  {
    if keys != [] {
      var front := keys[..|keys| - 1];
      WriteAllIs(f, front);
      FoldTextSnoc(front, keys[|keys| - 1]);
      assert keys == front + [keys[|keys| - 1]];
    }
  }

  lemma {:induction false} FoldTextSnoc(keys: seq<string>, key: string)
    ensures FoldText(keys + [key]) == FoldText(keys) + LegacyRecord(key)
  {
    if keys != [] {
      assert (keys + [key])[1..] == keys[1..] + [key];
      FoldTextSnoc(keys[1..], key);
    } else {
      assert [key][1..] == [];
    }
  }

  // ---------------------------------------------------------------- theorems

  /** The log reads as the map in memory, whether or not all of it is on the medium. */
  ghost predicate Reads(s: Store) {
    && s.disk.log.Some? && s.disk.log.value.Ok()
    && Load(Epoch, s.disk.log.value.cur, map[]) == Some(s.seen)
  }

  /** When folding succeeds, log and memory hold exactly the old entries and every legacy key. */
  lemma FoldComplete(s: Store, legacy: string, io: FoldIo)
    requires Reads(s) && FoldIn(s, legacy, io).1.Some?
    ensures var s' := FoldIn(s, legacy, io).1.value;
      && Reads(s') && Lines(legacy).Some?
      && s'.seen.Keys == s.seen.Keys + (set k | k in Lines(legacy).value)
      && forall k :: k in s'.seen ==> s'.seen[k] == if k in s.seen then s.seen[k] else 0
  {
    var keys := Lines(legacy).value;
    var missing := Missing(s.seen, keys);
    MissingFresh(s.seen, keys);
    TextReads(s.disk.log.value.cur, s.seen, missing);
    FoldedFile(s.disk.log.value, missing, AllFoldable(keys), io);
    ExtendedBy(s.seen, keys);
  }

  /** The log was on the medium before, or folding had a key to write and so synced it. */
  predicate FoldsForGood(s: Store, legacy: string)
    requires s.disk.log.Some? && Lines(legacy).Some?
  {
    s.disk.log.value.Synced() || Missing(s.seen, Lines(legacy).value) != []
  }

  /** What a successful fold leaves is what every crash reads back if and only if it folded for good:
      when nothing is missing it syncs nothing. */
  lemma FoldDurableIff(s: Store, legacy: string, io: FoldIo)
    requires Reads(s) && s.disk.shadows == {} && FoldIn(s, legacy, io).1.Some?
    ensures Lines(legacy).Some?
    ensures var d := FoldIn(s, legacy, io).0;
      (forall text :: d.MayRead(text) ==> text == d.log.value.cur) <==> FoldsForGood(s, legacy)
  {
    var keys := Lines(legacy).value;
    var d := FoldIn(s, legacy, io).0;
    FoldedFile(s.disk.log.value, Missing(s.seen, keys), AllFoldable(keys), io);
    var f := d.log.value;
    SyncedIff(f);
    assert d.Entry(Some(f)) && forall b :: f.Image(b) ==> d.MayRead(b);
  }

  lemma FoldedFile(f: File, missing: seq<string>, fits: bool, io: FoldIo)
    requires f.Ok() && FoldFile(f, missing, fits, io).1
    ensures var g := FoldFile(f, missing, fits, io).0;
      && g.Ok() && g.cur == f.cur + FoldText(missing) && fits
      && (g.Synced() <==> f.Synced() || missing != [])
  {
    WriteAllIs(f, missing);
    if missing == [] { assert f.cur + "" == f.cur; }
  }

  lemma ExtendedBy(seen: Entries, keys: seq<string>)
    requires AllFoldable(keys) && forall i :: 0 <= i < |keys| ==> '\n' !in keys[i]
    ensures var m := Extended(seen, Missing(seen, keys));
      && m.Keys == seen.Keys + (set k | k in keys)
      && forall k :: k in m ==> m[k] == if k in seen then seen[k] else LegacyEpoch
  {
    MissingFresh(seen, keys);
  }

  /** However folding ends, whatever a crash leaves is refused, or could be left before, or is a log
      from which folding the same file again reaches the same map: nothing new is lost and nothing is
      folded twice. */
  lemma FoldResumes(s: Store, legacy: string, io: FoldIo, text: string)
    requires Reads(s) && FoldIn(s, legacy, io).0.MayRead(text) && Load(Epoch, text, map[]).Some? && Lines(legacy).Some?
    ensures var m, keys := Load(Epoch, text, map[]).value, Lines(legacy).value;
      || s.disk.MayRead(text)
      || (&& s.seen.Keys <= m.Keys
          && Extended(m, Missing(m, keys)) == Extended(s.seen, Missing(s.seen, keys)))
  {
    var keys := Lines(legacy).value;
    var missing := Missing(s.seen, keys);
    FoldReaches(s, legacy, io, missing, text);
    if !s.disk.MayRead(text) {
      MissingFresh(s.seen, keys);
      var j := TextCut(s.disk.log.value.cur, s.seen, missing, text);
      MissingResumes(s.seen, keys, j);
      ExtendedTwice(s.seen, missing, j);
    }
  }

  lemma FoldReaches(s: Store, legacy: string, io: FoldIo, missing: seq<string>, text: string)
    requires Reads(s) && Lines(legacy).Some? && missing == Missing(s.seen, Lines(legacy).value)
    requires FoldIn(s, legacy, io).0.MayRead(text)
    ensures s.disk.MayRead(text) || s.disk.log.value.cur <= text <= s.disk.log.value.cur + FoldText(missing)
  {
    var d, f := FoldIn(s, legacy, io).0, s.disk.log.value;
    var e :| d.Entry(e) && (match e case None => text == "" case Some(f) => f.Image(text));
    if s.disk.Entry(e) {
      assert s.disk.MayRead(text);
    } else {
      FileReaches(f, missing, AllFoldable(Lines(legacy).value), io, text);
      assert s.disk.Entry(Some(f));
    }
  }

  lemma FileReaches(f: File, missing: seq<string>, fits: bool, io: FoldIo, text: string)
    requires f.Ok() && FoldFile(f, missing, fits, io).0.Image(text)
    ensures f.Image(text) || f.cur <= text <= f.cur + FoldText(missing)
  {
    var g := FoldFile(f, missing, fits, io).0;
    if io.FoldStops? && io.whole < |missing| {
      StoppedReaches(f, missing, io.whole, io.n, text);
    } else {
      assert g == WriteAll(f, missing) || g == WriteAll(f, missing).Sync();
      WriteAllIs(f, missing);
      GrownReads(f, WriteAll(f, missing), FoldText(missing), text);
    }
  }

  lemma StoppedReaches(f: File, keys: seq<string>, whole: nat, n: nat, text: string)
    requires f.Ok() && whole < |keys|
    requires WriteAll(f, keys[..whole]).Write(Cut(LegacyRecord(keys[whole]), n)).Image(text)
    ensures f.Image(text) || f.cur <= text <= f.cur + FoldText(keys)
  {
    var front, r := FoldText(keys[..whole]), LegacyRecord(keys[whole]);
    FoldTextPrefix(keys, whole);
    assert front <= front + r <= FoldText(keys);
    WriteAllIs(f, keys[..whole]);
    CutPrefix(f.cur, front, r, 0, FoldText(keys));
    CutPrefix(f.cur, front, r, n, FoldText(keys));
    assert f.cur + front + Cut(r, 0) == f.cur + front;
    GrownReads(f, WriteAll(f, keys[..whole]).Write(Cut(r, n)), FoldText(keys), text);
  }

  lemma CutPrefix(t: string, front: string, r: string, n: nat, all: string)
    requires front + r <= all
    ensures t + front + Cut(r, n) <= t + all
  {
    assert front + Cut(r, n) <= all;
    assert t + front + Cut(r, n) == t + (front + Cut(r, n));
  }

  lemma {:induction false} FoldTextPrefix(keys: seq<string>, whole: nat)
    requires whole < |keys|
    ensures FoldText(keys[..whole]) + LegacyRecord(keys[whole]) <= FoldText(keys)
  {
    if whole > 0 {
      FoldTextPrefix(keys[1..], whole - 1);
      assert keys[..whole][1..] == keys[1..][..whole - 1];
    }
  }
}
