/**
 What the calls of a durable set answer, call by call and in plain terms, and what an admission cap
 promises over whole histories (`insert_if_below_capacity` in crates/nil-core/src/durable.rs, used for
 pending checkouts in crates/nil-portal/src/billing.rs).
 */
module DurableAnswers {
  import opened Text
  import opened Storage
  import opened LogFold
  import opened DurableFormat
  import opened DurableSet
  import opened DurableLegacy
  import opened DurableRuns

  // ---------------------------------------------------------------- one call

  /** A key that can be written: not empty, on one line and, where a tag stands beside it, one word. */
  predicate Writable(kind: Kind, key: string) {
    key != "" && (forall i :: 0 <= i < |key| ==> key[i] != '\n') && (kind == Flat || forall i :: 0 <= i < |key| ==> key[i] != ' ')
  }

  /** The line of an entry. */
  function LineOf(kind: Kind, key: string, tag: nat): string {
    match kind
    case Flat => key + "\n"
    case Epoch => ToDecimal(tag) + " " + key + "\n"
    case Timed => key + " " + ToDecimal(tag) + "\n"
  }

  predicate Room(s: Store, capacity: Option<nat>) { capacity.None? || |s.seen| < capacity.value }

  /** The four answers of an insert: duplicates before capacity, capacity before the disk. */
  lemma InsertAnswers(kind: Kind, s: Store, key: string, tag: nat, capacity: Option<nat>, io: AppendIo)
    ensures var (s', r) := Insert(kind, s, key, tag, capacity, io);
      && (r.AlreadyPresent? <==> Writable(kind, key) && key in s.seen)
      && (r.CapacityReached? <==> Writable(kind, key) && key !in s.seen && !Room(s, capacity))
      && (r.Inserted? <==>
            && Writable(kind, key) && key !in s.seen && Room(s, capacity)
            && s.handle && s.disk.log.Some? && io.Appended?)
      && (r.AlreadyPresent? || r.CapacityReached? ==> s' == s)
      && (r.Failed? ==> s'.seen == s.seen && (Writable(kind, key) ==> !s'.handle))
      && (r.Inserted? ==>
            && s'.seen == s.seen[key := tag] && s'.handle && s'.disk.shadows == s.disk.shadows
            && s'.disk.log == Some(Recovered(s.disk.log.value.cur + LineOf(kind, key, tag))))
  {
  }

  /** A compaction: all or nothing, the map only after the replacement is durable. */
  lemma CompactAnswers(kind: Kind, s: Store, kept: Entries, order: seq<string>, io: CompactIo)
    requires Lists(order, kept) && ValidEntries(kind, kept)
    ensures var (s', ok) := Compact(kind, s, kept, order, io);
      && (ok <==> io.Compacted?)
      && (!ok ==> s'.seen == s.seen && !s'.handle)
      && (ok ==> s'.seen == kept && s'.handle && s'.disk.Settled() && Load(kind, s'.disk.log.value.cur, map[]) == Some(kept))
      && (io.TempStops? || io.RenameFails? ==> s'.disk == s.disk)
  {
    PrintRoundTrip(kind, order, kept);
  }

  /** What a reader finds: a missing file reads as empty. */
  function Reading(d: Disk): string { if d.log.Some? then d.log.value.cur else "" }

  /** Opening: exactly the entries of a log that reads, under a durable name, or nothing. */
  lemma OpenAnswers(kind: Kind, d: Disk, io: OpenIo)
    ensures var (d', s) := Open(kind, d, io);
      && (s.Some? <==>
            && Load(kind, Reading(d), map[]).Some? && !io.OpenFails? && !io.OpenDirSyncFails?
            && (d.log.None? ==> !io.NewFileSyncFails?))
      && (s.Some? ==>
            && s.value == Store(d', Load(kind, Reading(d), map[]).value, true) && d'.shadows == {}
            && d'.log == if d.log.Some? then d.log else Some(Recovered("")))
  {
  }

  /** Folding in succeeds if and only if the legacy file is whole, each of its keys fits the format, and
      all that was missing could be written and synced. */
  lemma FoldAnswers(s: Store, legacy: string, io: FoldIo)
    requires s.disk.log.Some?
    ensures FoldIn(s, legacy, io).1.Some? <==>
      && Complete(legacy)
      && (forall k :: k in Lines(legacy).value ==> k != "" && ' ' !in k)
      && ((exists k :: k in Lines(legacy).value && k !in s.seen) ==> !io.FoldSyncFails?)
      && (io.FoldStops? ==> io.whole >= |Missing(s.seen, Lines(legacy).value)|)
  {
    if Complete(legacy) {
      var keys := Lines(legacy).value;
      FoldableIff(keys);
      if AllFoldable(keys) { NothingMissing(s.seen, keys); }
      FoldFileAnswers(s.disk.log.value, Missing(s.seen, keys), AllFoldable(keys), io);
    }
  }

  lemma FoldableIff(keys: seq<string>)
    ensures AllFoldable(keys) <==> forall k :: k in keys ==> k != "" && ' ' !in k
  {
    if AllFoldable(keys) {
      forall k | k in keys ensures k != "" && ' ' !in k {
        var i :| 0 <= i < |keys| && keys[i] == k;
        assert Foldable(keys[i]);
      }
    } else {
      var i :| 0 <= i < |keys| && !Foldable(keys[i]);
      assert keys[i] in keys;
    }
  }

  lemma FoldFileAnswers(f: File, missing: seq<string>, fits: bool, io: FoldIo)
    ensures FoldFile(f, missing, fits, io).1 <==>
      fits && (missing != [] ==> !io.FoldSyncFails?) && (io.FoldStops? ==> io.whole >= |missing|)
  {
  }

  lemma {:induction false} NothingMissing(seen: Entries, keys: seq<string>)
    requires AllFoldable(keys)
    ensures Missing(seen, keys) == [] <==> forall k :: k in keys ==> k in seen
    decreases |keys|
  {
    if keys != [] {
      assert keys == [keys[0]] + keys[1..];
      if keys[0] in seen {
        NothingMissing(seen, keys[1..]);
      }
    }
  }

  // ---------------------------------------------------------------- the cap over histories

  /** The running map and every log a crash may leave hold at most `c` keys. */
  ghost predicate Within(kind: Kind, m: Machine, c: nat) {
    && (m.store.Some? ==> |m.store.value.seen| <= c)
    && forall text :: m.disk.MayRead(text) && Load(kind, text, map[]).Some? ==> |Load(kind, text, map[]).value| <= c
  }

  /** An insert is capped at `c`, and nothing is folded in. */
  predicate Capped(op: Op, c: nat) {
    && (op.OpInsert? ==> op.capacity.Some? && op.capacity.value <= c)
    && !op.OpFold?
  }

  lemma OpenWithin(kind: Kind, m: Machine, io: OpenIo, m': Machine, c: nat)
    requires Safe(kind, m) && Step(kind, m, OpOpen(io), m') && Within(kind, m, c)
    ensures Within(kind, m', c)
  {
    assert m.disk.Entry(m.disk.log);
    assert m.disk.log.Some? ==> m.disk.log.value.Image(m.disk.log.value.cur);
    assert m.disk.MayRead(Reading(m.disk));
    OpenAnswers(kind, m.disk, io);
    forall text | m'.disk.MayRead(text) ensures m.disk.MayRead(text) {
      CreatedReads(m.disk, text);
    }
  }

  /** After an append the log reads as before, as it did at its end, or with the new record. */
  lemma AppendedReads(f: File, record: string, io: AppendIo, text: string)
    requires f.Ok() && Append(f, record, io).Image(text)
    ensures f.Image(text) || f.cur <= text <= f.cur + record
  {
    match io
    case Appended => assert text == f.cur + record;
    case WriteStops(n) => GrownReads(f, f.Write(Cut(record, n)), record, text);
    case SyncFails => GrownReads(f, f.Write(record), record, text);
  }

  lemma RecordWithin(kind: Kind, t: string, m: Entries, key: string, tag: nat, text: string)
    requires Load(kind, t, map[]) == Some(m) && ValidKey(kind, key) && ValidTag(kind, tag) && key !in m
    requires t <= text <= t + Record(kind, key, tag) && Load(kind, text, map[]).Some?
    ensures Load(kind, text, map[]).value == m || Load(kind, text, map[]).value == m[key := tag]
  {
    var record, n := Record(kind, key, tag), |text| - |t|;
    assert text == t + record[..n];
    if n == 0 {
      assert text == t;
    } else if n < |record| {
      PartialAppendRefused(kind, t, key, tag, n);
    } else {
      assert text == t + record;
      AppendReads(kind, t, m, key, tag);
    }
  }

  lemma InsertWithin(kind: Kind, m: Machine, op: Op, m': Machine, c: nat)
    requires op.OpInsert? && Safe(kind, m) && Step(kind, m, op, m') && Within(kind, m, c) && Capped(op, c)
    ensures Within(kind, m', c)
  {
    var s := m.store.value;
    InsertAnswers(kind, s, op.key, op.tag, op.capacity, op.appendIo);
    if m'.disk != m.disk {
      var f, record := m.disk.log.value, Record(kind, op.key, op.tag);
      assert m.disk.Entry(m.disk.log);
      forall text | m'.disk.MayRead(text) && Load(kind, text, map[]).Some? ensures |Load(kind, text, map[]).value| <= c {
        if !m.disk.MayRead(text) {
          AppendedReads(f, record, op.appendIo, text);
          RecordWithin(kind, f.cur, s.seen, op.key, op.tag, text);
        }
      }
    }
  }

  lemma CompactWithin(kind: Kind, m: Machine, op: Op, m': Machine, c: nat)
    requires op.OpCompact? && Safe(kind, m) && Step(kind, m, op, m') && Within(kind, m, c)
    ensures Within(kind, m', c)
  {
    var s := m.store.value;
    var kept := Kept(s.seen, op.dropped);
    PrintRoundTrip(kind, op.order, kept);
    SubmapSize(kept, s.seen);
    CompactLeaves(kind, s, kept, op.order, op.compactIo);
    forall text | m'.disk.MayRead(text) && !m.disk.MayRead(text) ensures Load(kind, text, map[]) == Some(kept) {
      assert text == Print(kind, op.order, kept);
    }
  }

  /** However a compaction ends, the disk reads as before or as the new log. */
  lemma CompactLeaves(kind: Kind, s: Store, kept: Entries, order: seq<string>, io: CompactIo)
    requires Lists(order, kept)
    ensures var s' := Compact(kind, s, kept, order, io).0;
      && (s'.seen == s.seen || s'.seen == kept)
      && forall text :: s'.disk.MayRead(text) ==> s.disk.MayRead(text) || text == Print(kind, order, kept)
  {
    var s' := Compact(kind, s, kept, order, io).0;
    forall text | s'.disk.MayRead(text) && !s.disk.MayRead(text) ensures text == Print(kind, order, kept) {
      ReplaceReads(s.disk, Recovered(Print(kind, order, kept)), text);
    }
  }

  lemma StepWithin(kind: Kind, m: Machine, op: Op, m': Machine, c: nat)
    requires Safe(kind, m) && Step(kind, m, op, m') && Within(kind, m, c) && Capped(op, c)
    ensures Within(kind, m', c)
  {
    match op
    case OpOpen(io) => OpenWithin(kind, m, io, m', c);
    case OpInsert(_, _, _, _) => InsertWithin(kind, m, op, m', c);
    case OpCompact(_, _, _) => CompactWithin(kind, m, op, m', c);
    case OpRestart =>
    case OpCrash => CrashReads(m.disk, m'.disk);
  }

  /** From any point at which they do: as long as every insert is capped and nothing is folded in, the
      running map and every log a crash may leave hold at most that many keys. */
  lemma {:induction false} CapHolds(kind: Kind, states: seq<Machine>, ops: seq<Op>, i: nat, j: nat, c: nat)
    requires Run(kind, states, ops) && i <= j <= |ops| && Within(kind, states[i], c)
    requires forall n :: i <= n < j ==> Capped(ops[n], c)
    ensures Within(kind, states[j], c)
  {
    if i < j {
      CapHolds(kind, states, ops, i, j - 1, c);
      RunSafe(kind, states, ops, j - 1);
      StepWithin(kind, states[j - 1], ops[j - 1], states[j], c);
    }
  }
}
