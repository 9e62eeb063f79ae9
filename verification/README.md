# Single-use credentials in NIL VPN, modelled in Dafny

NIL VPN sells anonymous connection passes. A client keeps its passes in a sealed vault, redeems one
with the Coordinator, and receives a path of independent nodes. A pass must be spent exactly once, and
neither a lost response, a crash, a failed sync nor a race may lose it or spend it twice. This project
models the code that has to guarantee this, and proves what it guarantees.

| module | models |
|---|---|
| `Storage` | the file system: what readers see, what a crash keeps, what a crash may bring back |
| `LogFold`, `DurableFormat`, `DurableSet`, `DurableLegacy`, `DurableRuns`, `DurableAnswers` | the three append-only sets of `durable.rs`, their legacy fold-in, every history of them, and what each call answers |
| `Cipher`, `LedgerFormat`, `LedgerLog` | sealing, the `NR2` file format, loading and tail recovery of the redemption ledger |
| `LedgerMachine` | the ledger as one abstract machine; the volatile and the Postgres backend |
| `FileLedger`, `LedgerRuns`, `LedgerHistory`, `LedgerReplay`, `LedgerExact`, `LedgerLegacy` | the crash-safe file backend, every history of it, and exactly which grants outlive every crash |
| `Vault`, `VaultRuns`, `VaultAnswers`, `VaultMigration` | the client vault, its operations and transactions, every history of them, what each exchange answers, and the import of the old plaintext stores |
| `AccountSwitch` | refill worker, purchases, logout and account replacement interleaved under the gate |
| `RedeemProtocol` | client and Coordinator together over a lossy channel, with crashes on both sides |
| `PathSelection` | the backtracking path search and the binding of neighbouring hops |
| `Checksum`, `PacketChecksums` | in-place Internet checksum rewriting, and what it means for each kind of packet |
| `RateLimit`, `DerFraming`, `Text` | the rate limiter, the DER framing check, decimal and hex text |

## How the model is built

- Code that updates state is a class or a method here too. Each method is proved equal to a function of
  the old state and of the I/O outcomes, and the theorems are about that function.
- Every I/O outcome is an input: how far a write got, which sync failed, whether a rename happened. A
  crash in the middle of a call is that call with the matching failure, followed by a crash.
- A file has its current content, the part a crash is sure to keep, and the tails it may keep in part.
  A name has the file it refers to now and those a crash may bring back. Only a successful file sync
  and a successful directory sync settle them (the Unix behaviour).
- Clocks, entropy, iteration orders of hash maps and everything the network delivers are inputs.
- The AEAD is a pair of functions of which only correctness is asked (`Cipher.Correct`); nothing is
  assumed about it that no function could satisfy (`Cipher.CorrectExists`).
- `u32` and `u64` arithmetic is written out: wrapping, saturating, or proved never to overflow.
- Log text is a sequence of characters; UTF-8 itself is not modelled.

## Where code and documentation differ

- `crates/nil-core/src/checksum.rs:7-8` says that an already correct packet is rewritten to the same
  bytes. A field may spell zero in two ways and the code writes only one of them; `UnchangedIff` is the
  exact condition and `CorrectHeaderRewritten` a verifying header that is rewritten.
- A durable set that holds its append handle need not agree with the medium: opening does not sync an
  existing log, so a record whose sync failed is believed after a mere restart (`MediumCanLag`). At any
  point of any history they agree if and only if the last open found the log synced or missing, or an
  accepted insert, a compaction or a fold with something to write has synced it since
  (`HandleMeansDurable`). For inserted keys the at-most-once guarantee does not depend on it
  (`AtMostOnce`). For keys migrated from a legacy file it does.
- `crates/nil-core/src/durable.rs:419-425` calls the fold-in of a legacy file synced whenever that file is
  set aside. The code syncs only when it had a key to write (lines 415-418). After a fold that failed
  only at its sync, a second one finds nothing missing, syncs nothing and succeeds; a crash then forgets
  the migrated keys, and they are accepted as new (`FoldForgets`). A successful fold is on the medium if
  and only if the log was synced before or a key was missing (`FoldDurableIff`); the keys of such a fold
  are safe over every history (`FoldedOnce`).
- In the redemption ledger the same gap, and a rewrite that keeps its handle after a failed directory
  sync, let a grant be made that a crash then forgets; the same nullifier is later granted anew with other
  bytes (`UncleanRegrants`, `DirSyncRegrants`). Whether this can happen is decided nullifier by nullifier,
  at the moment of its grant: in every continuation all grants carry the same bytes and none is newly
  committed if and only if every crash image recovers with a row for it that can answer with nothing else
  (`ForGoodIff`), and valid retries replay it until some time if and only if every image's row does
  (`DeliverableIff`). A grant that leaves the ledger at rest is of this kind (`RestForGood`), a first grant
  whenever no directory sync is outstanding (`NewGrantRests`), and `HandleMeansAtRest` says exactly after
  which steps a ledger is at rest. What other keys, later opens and later syncs do is of no concern, and
  atomicity under crashes needs no condition at all (`CrashAtomic`).
- `client/src-tauri/src/securestore.rs:618-622` promises that a failed transaction leaves the committed
  file in place. A failure of the final directory sync comes after the rename; `Transactional` states
  both outcomes.
- A vault import whose directory sync failed is believed by the next start, which then removes the old
  files: the credentials are safe if and only if the vault's name was durable (`PresentSafeIff`).
- An import takes a missing plaintext file for removed. If an earlier attempt unlinked it and the directory
  sync failed, a crash may bring it back after a success (`PlaintextReturns`); `GoneIff` is the exact
  condition.

## Model

| member | source | states |
|---|---|---|
| `Storage.CrashReads` | crates/nil-core/src/durable.rs:107-123 | after a crash the log reads as one of the texts foreseen before it and is settled unless the file is gone |
| `Storage.SyncedIff` | crates/nil-core/src/durable.rs:160-174 | a file reads back as its current content after every crash if and only if all of it, and nothing else, is on the medium |
| `Storage.SettledReads` | crates/nil-core/src/durable.rs:107-123 | a settled disk reads back as its current content and nothing else |
| `Storage.ReplaceReads` | crates/nil-core/src/durable.rs:509-571 | after a rename a crash reads the old texts or the new file, never a mixture |
| `Text.DecimalRoundTrip` | crates/nil-core/src/durable.rs:363-386 | printing an unsigned integer and parsing it gives it back |
| `Text.HexRoundTrip` | crates/nil-core/src/grant.rs:548-576 | decoding the hex of any byte string gives the bytes back |
| `Text.HexCanonical` | client/src-tauri/trust_bundle.rs:93-117 | every even lowercase hex string is the encoding of what it decodes to, so keys have one spelling |
| `LogFold.TornRefused` | crates/nil-core/src/durable.rs:128-142 | a log that does not end with a newline is refused, whatever comes before |
| `LogFold.ExtensionKeeps` | crates/nil-core/src/durable.rs:128-142 | every readable extension of a readable log still holds all its keys, each under its old epoch or time |
| `DurableFormat.ReadLog` | crates/nil-core/src/durable.rs:214-222 | the reading loop yields exactly the entries of the log, or refuses a torn, malformed or contradictory one |
| `DurableFormat.RecordReadsBack` | crates/nil-core/src/durable.rs:363-386 | in all three formats a record is one line that parses to the entry it was written for |
| `DurableFormat.AppendReads` | crates/nil-core/src/durable.rs:246-265 | appending the record of a new key to a readable log adds exactly that entry |
| `DurableFormat.PartialAppendRefused` | crates/nil-core/src/durable.rs:128-142 | a log whose append stopped inside its record is refused |
| `DurableFormat.PrintRoundTrip` | crates/nil-core/src/durable.rs:509-571 | printing any valid map, in any order and any of the three formats, and reading it gives the map back |
| `DurableFormat.CutLog` | crates/nil-core/src/durable.rs:128-142 | a printed log cut between records reads as the entries before the cut; cut inside a record it is refused |
| `DurableSet.DurableStore.OpenAt` | crates/nil-core/src/durable.rs:206-236 | disk and store after opening, for every I/O outcome and every content of the log |
| `DurableAnswers.OpenAnswers` | crates/nil-core/src/durable.rs:206-236 | opening succeeds if and only if the log reads and each sync it needs succeeds, and then holds exactly the entries of the log under a durable name |
| `DurableSet.DurableStore.AppendRecord` | crates/nil-core/src/durable.rs:160-174 | what an append leaves in the file, and that every failure gives the handle up |
| `DurableSet.DurableStore.InsertKey` | crates/nil-core/src/durable.rs:718-743 | answer and whole new state of an insert: disk before memory, duplicates before capacity, no handle no insert |
| `DurableAnswers.InsertAnswers` | crates/nil-core/src/durable.rs:718-743 | the four answers of an insert, each if and only if: known key, no room, inserted (new, room left, handle held, append durable), failed; what is written and synced, and that a refusal for a known key or for want of room changes nothing |
| `DurableAnswers.CapHolds` | crates/nil-core/src/durable.rs:701-743 | over any history whose inserts are capped and which folds nothing in, the running map and every log a crash may leave hold at most the cap |
| `DurableSet.DurableStore.CompactLog` | crates/nil-core/src/durable.rs:509-571 | a compaction that stops anywhere leaves the map alone and no handle; memory changes only after the replacement is durable |
| `DurableAnswers.CompactAnswers` | crates/nil-core/src/durable.rs:509-571 | a compaction succeeds if and only if every step does, and then map, log and medium are exactly the survivors; otherwise the map is unchanged and the handle gone |
| `DurableSet.DurableStore.DropEpochs` | crates/nil-core/src/durable.rs:494-575 | exactly the retained partitions survive, all or nothing, with the number dropped |
| `DurableSet.DurableStore.PruneOlderThan` | crates/nil-core/src/durable.rs:774-834 | exactly the entries at or after the cutoff survive, all or nothing, with the number dropped |
| `DurableSet.WriteTemp` | crates/nil-core/src/durable.rs:529-541 | the finished temporary is the printed survivors, synced; a failed write yields none |
| `DurableLegacy.FoldLegacy` | crates/nil-core/src/durable.rs:391-428 | disk and store after folding a legacy file in, for a failure at any byte of any record |
| `DurableAnswers.FoldAnswers` | crates/nil-core/src/durable.rs:391-428 | a fold succeeds if and only if the legacy file is whole, every key fits the format, and what was missing could be written and synced |
| `DurableLegacy.FoldComplete` | crates/nil-core/src/durable.rs:391-428 | a successful fold, into any log that reads as the map in memory, leaves in memory and in the log exactly the old entries and every legacy key |
| `DurableLegacy.FoldDurableIff` | crates/nil-core/src/durable.rs:415-428 | what a successful fold leaves is what every crash reads back if and only if the log was synced before or some legacy key was missing |
| `DurableLegacy.FoldResumes` | crates/nil-core/src/durable.rs:399-428 | from any log that reads as the map in memory, synced or not: whatever a crash leaves of a fold is refused, or could be left before, or is a log from which folding the same file again reaches the same map |
| `DurableRuns.StepKeepsSafe` | crates/nil-core/src/durable.rs:160-174 | every insert, compaction, fold, restart, crash and reopen, with any I/O outcome, keeps every owed key on the medium under its epoch or time; owed are the keys inserted, or folded in for good, and not dropped by a compaction since |
| `DurableRuns.AtMostOnce` | crates/nil-core/src/durable.rs:447-464 | over any history a key reported newly inserted is reported so again only if a compaction dropped it in between |
| `DurableRuns.FoldedOnce` | crates/nil-core/src/durable.rs:391-428 | a legacy key migrated by a successful fold, into a synced log or with some key to write, is reported newly inserted later only if a compaction dropped it in between |
| `DurableRuns.RetiredByTag` | crates/nil-core/src/durable.rs:494-575 | a key taken in under an epoch, or at a time, is accepted again only after a compaction that dropped it: an epoch drop that did not retain its epoch, or a prune with a later cutoff |
| `DurableRuns.ChosenByTag` | crates/nil-core/src/durable.rs:774-834 | both are compactions of the histories above: what they keep is exactly the retained epochs, or the entries since the cutoff |
| `DurableRuns.FoldForgets` | crates/nil-core/src/durable.rs:415-428 | from any settled state and for any new legacy key: a fold that fails only at its sync, an open, a second fold that succeeds, a crash and an open lead to the key being reported newly inserted |
| `DurableRuns.AcceptedSurvives` | crates/nil-core/src/durable.rs:246-265 | whatever a crash leaves, a log that opens holds every key inserted, or folded in for good, that no compaction dropped since, under its own epoch or time |
| `DurableRuns.HandleMeansCurrent` | crates/nil-core/src/durable.rs:160-174 | while a store holds its handle the log reads as exactly the map in memory |
| `DurableRuns.NoHandleNoInsert` | crates/nil-core/src/durable.rs:509-571 | without a handle nothing is accepted until a reopen or a fully successful compaction |
| `DurableRuns.HandleMeansDurable` | crates/nil-core/src/durable.rs:206-236 | at any point of any history where a handle is held, every crash reads back the log as it is if and only if the last open was clean or an insert, a compaction or a fold synced the log since; and then it is exactly the map in memory |
| `DurableRuns.OpenDurableIff` | crates/nil-core/src/durable.rs:206-236 | at the moment of opening, what was loaded is what every crash reads back if and only if the log was missing or fully synced |
| `DurableRuns.MediumCanLag` | crates/nil-core/src/durable.rs:206-236 | from any settled state and for any new key: a failed sync, a restart and an open make the store know a key the medium may lack |
| `Cipher.AadInjective` | crates/nil-coordinator/src/nullifier.rs:118-125 | two rows share associated data only if they agree on epoch, nullifier and expiry |
| `Cipher.UnsealSeal` | crates/nil-coordinator/src/nullifier.rs:127-200 | a sealed result opens under its own row to exactly what was sealed |
| `Cipher.UnsealSwapped` | crates/nil-coordinator/src/nullifier.rs:161-200 | moved to another row it opens only if the AEAD accepts it under different associated data |
| `LedgerFormat.ValidEncodes` | crates/nil-coordinator/src/nullifier.rs:758-781 | every valid record fits the line bound and is encoded |
| `LedgerFormat.LineRoundTrip` | crates/nil-coordinator/src/nullifier.rs:828-870 | writing a valid record and parsing the line gives the record back |
| `LedgerFormat.Nr2Reads` | crates/nil-coordinator/src/nullifier.rs:828-870 | the current format spelled out as text, with a result and without |
| `LedgerFormat.LegacyReads` | crates/nil-coordinator/src/nullifier.rs:872-914 | a bare key is spent under epoch zero, an epoch may stand before it, and a word that is not 2 to 16384 lowercase hex digits, evenly many, is refused |
| `LedgerFormat.ParsedValid` | crates/nil-coordinator/src/nullifier.rs:828-914 | whatever parses, in the current or a legacy format, is a valid record |
| `LedgerLog.LoadRecords` | crates/nil-coordinator/src/nullifier.rs:783-826 | the reading loop yields the fold of the lines: blank lines skipped, first record of a key wins, oversized lines refused |
| `LedgerLog.AppendLoads` | crates/nil-coordinator/src/nullifier.rs:550-588 | appending a valid record's line adds it, unless its key is already there |
| `LedgerLog.TruncateTail` | crates/nil-coordinator/src/nullifier.rs:717-756 | the backward scan finds the end of the last whole line, or refuses a tail longer than any record |
| `LedgerLog.TailKeptIff` | crates/nil-coordinator/src/nullifier.rs:717-756 | a torn tail is cut off if and only if it is shorter than 147551 characters, or just that long and all there is |
| `LedgerLog.LineRules` | crates/nil-coordinator/src/nullifier.rs:783-826 | blank lines are skipped and a line of 147551 characters or more refuses the log |
| `LedgerLog.KeepsWhole` | crates/nil-coordinator/src/nullifier.rs:717-756 | after a torn append exactly the whole records are kept |
| `LedgerLog.RecoverInFlight` | crates/nil-coordinator/src/nullifier.rs:717-756 | a crash anywhere inside one append recovers as the rows before it or those and the one in flight |
| `LedgerLog.PrintRoundTrip` | crates/nil-coordinator/src/nullifier.rs:513-545 | rewriting any valid ledger, in any order, and loading it gives the ledger back |
| `LedgerLog.CutRecovers` | crates/nil-coordinator/src/nullifier.rs:717-756 | a ledger file cut at any byte recovers as exactly its longest whole-record prefix |
| `LedgerMachine.MemoryLedger.CommitOrReplay` | crates/nil-coordinator/src/nullifier.rs:306-338 | answer and new rows of a commit on the volatile backend |
| `LedgerMachine.PruneRows` | crates/nil-coordinator/src/nullifier.rs:340-353 | the loop clears exactly the expired results and counts them |
| `LedgerMachine.MemoryRefines` | crates/nil-coordinator/src/nullifier.rs:304-353 | the volatile backend answers every sequence of commits and prunes as the abstract machine |
| `LedgerMachine.PostgresRefines` | crates/nil-coordinator/src/nullifier.rs:1011-1099 | so does the Postgres upsert, for times below 2^63 and pairwise distinct nonces |
| `LedgerMachine.PostgresRefusesIff` | crates/nil-coordinator/src/nullifier.rs:1011-1045 | the time bound is exact: a commit the others serve is refused if and only if its expiry does not fit |
| `LedgerMachine.PostgresNewlyIff` | crates/nil-coordinator/src/nullifier.rs:943-951 | the nonce bound is exact: a replay is called newly committed if and only if the proposal sealed to the stored bytes |
| `LedgerMachine.BookKeeps` | crates/nil-coordinator/src/nullifier.rs:257-275 | a spent nullifier stays spent, and its entry only ever changes to none |
| `LedgerMachine.CommitAnswers` | crates/nil-coordinator/src/nullifier.rs:306-338 | with all bounds as numbers: an ill-formed commit fails and changes nothing, a first one is granted, a later one is given the first response while that window is open and refused as spent afterwards |
| `LedgerMachine.PruneAnswers` | crates/nil-coordinator/src/nullifier.rs:340-353 | a cleanup keeps every nullifier and every open response and counts the others |
| `LedgerMachine.FirstResponseOnly` | crates/nil-coordinator/src/nullifier.rs:257-275 | over any requests in between, later commits of a nullifier are given its first response or refused as spent, and given it as long as all clocks are before its end |
| `FileLedger.FileStore.OpenAt` | crates/nil-coordinator/src/nullifier.rs:424-495 | disk and ledger after startup: tail recovery, load, legacy fold-in, durable name, rewrite, setting aside |
| `LedgerLegacy.OpenLoadsAll` | crates/nil-coordinator/src/nullifier.rs:444-459 | a successful open has in memory exactly the keys of the log and of the legacy ledger; the log wins where both have a key, and no result outlives its window |
| `LedgerLegacy.OpensIff` | crates/nil-coordinator/src/nullifier.rs:424-495 | opening succeeds if and only if the legacy ledger can be read and each I/O step that is needed succeeds |
| `LedgerLegacy.LegacyKnown` | crates/nil-coordinator/src/nullifier.rs:444-495 | in every history from a first start beside a legacy ledger: it stays in place until an open succeeds, and from then on every crash image knows each of its keys |
| `LedgerLegacy.LegacyNeverNew` | crates/nil-coordinator/src/nullifier.rs:444-495 | so a key of the legacy ledger is never granted as newly committed, across failed opens, restarts and crashes |
| `FileLedger.FileStore.AppendAndSync` | crates/nil-coordinator/src/nullifier.rs:646-678 | what an append leaves: durable, rolled back, or poisoned when the rollback fails |
| `FileLedger.FileStore.RewriteLocked` | crates/nil-coordinator/src/nullifier.rs:513-545 | what a rewrite leaves at each point of failure; memory follows the rename |
| `FileLedger.FileStore.CommitOrReplay` | crates/nil-coordinator/src/nullifier.rs:550-588 | answer and whole new state of a commit on the file backend |
| `FileLedger.FileStore.PruneExpired` | crates/nil-coordinator/src/nullifier.rs:497-511 | answer and whole new state of a cleanup |
| `LedgerRuns.StepKeepsSound` | crates/nil-coordinator/src/nullifier.rs:424-678 | every step, with any I/O outcome, keeps the machine sound: whatever a crash leaves is recovered, the rows in memory are something a crash may leave, and with a handle they are what the log reads as |
| `LedgerHistory.EmptySound` | crates/nil-coordinator/src/nullifier.rs:424-495 | a first start, with or without a legacy ledger beside it, is sound |
| `LedgerHistory.StepStands` | crates/nil-coordinator/src/nullifier.rs:513-678 | what every crash image knows about one key every step keeps, whatever it does to other keys and however it fails; only a result whose window is over may be cleared |
| `LedgerHistory.SingleResponse` | crates/nil-coordinator/src/nullifier.rs:550-588 | in every history, once every crash image knows a nullifier with a row that can answer with one response only, all grants of it carry these bytes and none is newly committed, across any failures, crashes and reopens |
| `LedgerHistory.GrantRow` | crates/nil-coordinator/src/nullifier.rs:550-588 | after a grant the row in memory answers with the granted bytes, and after a first one until the time its redeemer asked for |
| `LedgerHistory.RestForGood` | crates/nil-coordinator/src/nullifier.rs:550-588 | whatever a ledger at rest answers with, it answers with for good: a grant that leaves it at rest is of that kind |
| `LedgerHistory.NewGrantRests` | crates/nil-coordinator/src/nullifier.rs:550-588 | a first grant leaves the ledger at rest, whatever the log was before, if no directory sync is outstanding |
| `LedgerHistory.SpentSurvives` | crates/nil-coordinator/src/nullifier.rs:424-495 | once every crash image knows a key, every crash image and every running ledger of every continuation knows it, and it is never newly committed |
| `LedgerHistory.AlwaysRecovers` | crates/nil-coordinator/src/nullifier.rs:717-756 | whatever any history leaves, recovery never refuses it |
| `LedgerRuns.RewriteAtomic` | crates/nil-coordinator/src/nullifier.rs:513-545 | a rewrite of any ledger, poisoned and unsynced ones included, cut short anywhere reads back as it could before or recovers as exactly the new rows |
| `LedgerRuns.AppendAtomic` | crates/nil-coordinator/src/nullifier.rs:646-678 | a commit of a new key cut short at any byte, onto a synced or unsynced log, reads back as it could before or recovers as the old rows or those with its own |
| `LedgerRuns.OpenAtomic` | crates/nil-coordinator/src/nullifier.rs:424-495 | startup and legacy migration from any disk, with no log, a torn tail or a record in flight, cut short anywhere recover as the disk could before or as the rows startup rewrites to |
| `LedgerHistory.CrashAtomic` | crates/nil-coordinator/src/nullifier.rs:424-678 | whatever step of whatever history is cut short, the ledger recovers as it could before the step or as exactly the rows the step commits |
| `LedgerReplay.StepKeepsRow` | crates/nil-coordinator/src/nullifier.rs:497-545 | no step before a result's window closes takes it from anything a crash may leave |
| `LedgerReplay.RetryDelivers` | crates/nil-coordinator/src/nullifier.rs:550-588 | once every crash image can answer with a result until some time, every valid commit of the nullifier before that time is granted the same bytes without any I/O, across failures, restarts and crashes |
| `LedgerReplay.RestDelivers` | crates/nil-coordinator/src/nullifier.rs:550-588 | whatever a ledger at rest answers with is of that kind, for the whole window of its row |
| `LedgerExact.FileRefines` | crates/nil-coordinator/src/nullifier.rs:549-592 | with successful I/O the file backend answers every sequence of commits and prunes as the abstract machine |
| `LedgerExact.HandleMeansAtRest` | crates/nil-coordinator/src/nullifier.rs:646-678 | at any point of any history with a handle the log reads as the rows in memory, and it is on the medium under a durable name if and only if the last open was clean or replaced the log or something has synced it since, and no rewrite has failed at its directory sync since |
| `LedgerExact.OpenDurableIff` | crates/nil-coordinator/src/nullifier.rs:424-495 | after a successful open what the log reads as is what every crash reads back if and only if the log was missing, synced or torn, or opening had expired results to drop or legacy keys to fold in |
| `LedgerExact.CrashAnswers` | crates/nil-coordinator/src/nullifier.rs:424-588 | from any sound machine and for anything a crash may leave: that crash, an ordinary open and a commit are answered as the recovered rows say |
| `LedgerExact.ForGoodIff` | crates/nil-coordinator/src/nullifier.rs:550-588 | in every continuation all grants of a nullifier carry one response and none is newly committed if and only if every crash image knows it with a row that can answer with that response only; with no legacy ledger left to fold in, as after any grant |
| `LedgerExact.DeliverableIff` | crates/nil-coordinator/src/nullifier.rs:550-588 | in every continuation every valid commit of a nullifier before some time replays one response if and only if every crash image has a row that does; likewise |
| `LedgerExact.EveryGrantForGood` | crates/nil-coordinator/src/nullifier.rs:424-588 | as long as every open that succeeds finds a clean log or replaces it and no new key is accepted while a directory sync is outstanding, every grant is for good |
| `LedgerExact.UncleanOpenExposes` | crates/nil-coordinator/src/nullifier.rs:646-678 | from any ledger at rest with nothing expired, and for any new key: failed sync, failed rollback, restart and startup grant what a crash may forget |
| `LedgerExact.GrantDurableIff` | crates/nil-coordinator/src/nullifier.rs:575-588 | a new key is granted for good, in everything a crash may leave, if and only if the ledger's name is durable at that moment, given that the files it might fall back to do not hold the key |
| `LedgerExact.RewriteDurableIff` | crates/nil-coordinator/src/nullifier.rs:536-545 | through the handle a rewrite leaves, new keys are granted for good if and only if the rewrite did not fail at its directory sync |
| `LedgerExact.DirSyncExposes` | crates/nil-coordinator/src/nullifier.rs:536-545 | a rewrite that fails only at its directory sync keeps a handle through which such a grant is made |
| `LedgerExact.ExposedRegrants` | crates/nil-coordinator/src/nullifier.rs:550-588 | after any such grant a crash, a successful startup and another commit of the same nullifier grant any other response as newly committed |
| `LedgerExact.UncleanRegrants` | crates/nil-coordinator/src/nullifier.rs:646-678 | from any ledger at rest with nothing expired, and for any new key: failed sync and rollback, restart, startup and a retry grant one response; a crash, a startup and another commit grant another |
| `LedgerExact.DirSyncRegrants` | crates/nil-coordinator/src/nullifier.rs:536-588 | from any ledger at rest with results to drop: a cleanup that fails only at its directory sync and a commit grant one response; a crash, a startup and another commit grant another |
| `Vault.SameId` | client/src-tauri/src/tokenstore.rs:467-477 | the accumulated byte differences are zero exactly for equal ids |
| `Vault.VaultV1.Validate` | client/src-tauri/src/securestore.rs:229-314 | accepts exactly the well-formed vaults: shapes, capacity, distinct messages among queued and reserved passes, distinct ids |
| `VaultAnswers.AcceptedIff` | client/src-tauri/src/securestore.rs:229-314 | with every bound as a number: which vaults are accepted, both directions |
| `Vault.VaultV1.Reserve` | client/src-tauri/src/tokenstore.rs:364-389 | first pass reserved under the first drawn id other than the last completed one, or the standing reservation |
| `VaultAnswers.ReserveAnswers` | client/src-tauri/src/tokenstore.rs:364-389 | a standing reservation is repeated; otherwise the first pass is set aside under the first usable id, if and only if there is such an id; none is answered exactly when nothing is pending or queued |
| `Vault.VaultV1.CompleteRedemption` | client/src-tauri/src/tokenstore.rs:394-423 | the pending reservation is completed under its own id only, the latest completion repeats, all else is refused |
| `VaultAnswers.RedeemRound` | client/src-tauri/src/tokenstore.rs:364-423 | a redemption from beginning to end: reserved and acknowledged, completed under its own id, the pass gone; a repeat changes nothing, any other id is refused before and after |
| `Vault.VaultV1.BeginMint` | client/src-tauri/src/tokenstore.rs:234-246 | a pending batch wins over the proposed one |
| `Vault.VaultV1.CommitMint` | client/src-tauri/src/tokenstore.rs:250-272 | all passes of the matching batch and the end of its pending state in one change |
| `VaultAnswers.MintRound` | client/src-tauri/src/tokenstore.rs:234-272 | a batch from beginning to end: stored, repeated whatever else is proposed, refused under another id or without a batch, committed with all its passes |
| `Vault.VaultV1.BeginIssue` | client/src-tauri/src/tokenstore.rs:299-325 | a completed payment is acknowledged, a pending one wins over the proposed one |
| `Vault.VaultV1.CommitIssue` | client/src-tauri/src/tokenstore.rs:329-358 | the pass, the receipt and the end of the pending state in one change, and a repeat changes nothing |
| `VaultAnswers.IssueRound` | client/src-tauri/src/tokenstore.rs:299-358 | a paid issuance from beginning to end, and what a repeat of either step, another payment and a missing request are answered |
| `VaultAnswers.AddAndClear` | client/src-tauri/src/tokenstore.rs:67-86 | what adding passes, clearing, logging out and replacing the account leave, field by field |
| `Vault.VaultV1.PruneExpired` | client/src-tauri/src/tokenstore.rs:160-211 | exactly the unrecoverable requests and unredeemable passes go, and their number |
| `VaultAnswers.V2Current` | crates/nil-crypto/src/token.rs:75-84 | a version-2 message is redeemable and recoverable exactly from now until 90000 seconds ahead |
| `VaultAnswers.LegacyCurrent` | client/src-tauri/src/tokens.rs:65-74 | any other 32-byte message stays redeemable and is never recoverable |
| `VaultAnswers.PruneKeeps` | client/src-tauri/src/tokenstore.rs:160-211 | pruning keeps a version-2 pass, queued or reserved, and a paid request exactly when its expiry is in that range, and touches no other field |
| `VaultAnswers.PruneKeepsBatch` | client/src-tauri/src/tokenstore.rs:160-211 | it keeps a pending batch exactly when all its requests are in that range |
| `VaultAnswers.PruneKeepsOrder` | client/src-tauri/src/tokenstore.rs:160-211 | it keeps the order of the queue, and a queue of current passes as it is |
| `VaultAnswers.PruneCounts` | client/src-tauri/src/tokenstore.rs:160-211 | it answers the number of passes and requests that are gone |
| `Vault.SecureVault.Load` | client/src-tauri/src/securestore.rs:754-774 | a missing file is an empty vault, and a file that does not validate is refused |
| `Vault.SecureVault.Replace` | client/src-tauri/src/securestore.rs:968-1022 | nothing but the rename moves the name, and only the directory sync settles it |
| `Vault.SecureVault.Transact` | client/src-tauri/src/securestore.rs:623-633 | answer and whole new state of any operation: load, apply, validate, replace |
| `VaultAnswers.Commits` | client/src-tauri/src/securestore.rs:617-633 | with all I/O succeeding an operation that applies and leaves a well-formed vault is acknowledged, and its vault is all a crash may leave |
| `VaultAnswers.Refused` | client/src-tauri/src/securestore.rs:617-633 | an operation that is refused changes nothing, whatever the I/O does |
| `VaultRuns.Transactional` | client/src-tauri/src/securestore.rs:617-633 | a success is durable; a failure leaves the old vault or, only after the rename, the new one with the old still possible |
| `VaultRuns.StoredValid` | client/src-tauri/src/securestore.rs:229-314 | every vault ever on the medium validates |
| `VaultRuns.Balanced` | client/src-tauri/src/tokenstore.rs:160-457 | every successful operation accounts for each pass it moves |
| `VaultRuns.Lineage` | client/src-tauri/src/securestore.rs:617-633 | from any settled point, every vault a later crash may leave is that vault after calls that took effect, whole and in order, every acknowledged one among them |
| `VaultRuns.Conserved` | client/src-tauri/src/tokenstore.rs:160-457 | over any history each pass held or added is still held, or was spent by its own completion, or expired, or was cleared, by calls that took effect |
| `VaultRuns.ReservationKeptIff` | client/src-tauri/src/tokenstore.rs:364-423 | a successful operation keeps the reservation if and only if it is not its completion, its expiry or a clearing |
| `VaultRuns.ReservationStands` | client/src-tauri/src/tokenstore.rs:364-389 | an acknowledged reservation stands in everything a crash may leave until one of those is called |
| `VaultRuns.ReserveStable` | client/src-tauri/src/tokenstore.rs:360-389 | until then `reserve_one` answers with the same id and pass, across failures, restarts and crashes |
| `VaultRuns.MintKeptIff` | client/src-tauri/src/tokenstore.rs:232-272 | a successful operation keeps the pending batch if and only if it is not its commit, its expiry or a clearing |
| `VaultRuns.MintStable` | client/src-tauri/src/tokenstore.rs:232-246 | until then `begin_mint` answers with the batch stored first, whatever is proposed, across failures, restarts and crashes |
| `VaultRuns.PaidOnce` | client/src-tauri/src/tokenstore.rs:299-358 | after an acknowledged issuance, until another payment completes or a clearing, the same payment adds nothing more |
| `VaultRuns.CompletionIff` | client/src-tauri/src/tokenstore.rs:394-423 | a completion changes a vault if and only if it names the pending reservation |
| `VaultRuns.RepeatHarmless` | client/src-tauri/src/tokenstore.rs:394-410 | until another completion or a clearing, repeating the latest one changes nothing |
| `VaultRuns.Relabelled` | client/src-tauri/src/tokens.rs:44-58 | the note of origin added by the model steers no operation and no validation |
| `VaultMigration.Migrator.MigrateLegacy` | client/src-tauri/src/securestore.rs:657-717 | answer and whole new state of the import, for every point of failure |
| `VaultMigration.MigrateAnswers` | client/src-tauri/src/securestore.rs:657-717 | each answer of an import, if and only if, and the vault it leaves: the old account and passes and nothing else |
| `VaultMigration.GoneIff` | client/src-tauri/src/securestore.rs:960-966 | after any success neither old file is there; no crash can bring one back if and only if no earlier unlink was left unsynced |
| `VaultMigration.PlaintextReturns` | client/src-tauri/src/securestore.rs:960-966 | an unlink whose directory sync fails and a second attempt that succeeds leave a plaintext file that a crash may bring back |
| `VaultMigration.MigrationSafe` | client/src-tauri/src/securestore.rs:657-717 | no failure and no crash loses the credentials, if a vault already present has a durable name |
| `VaultMigration.PresentSafeIff` | client/src-tauri/src/securestore.rs:669-674 | that condition is exact |
| `VaultMigration.UnsyncedAttempt` | client/src-tauri/src/securestore.rs:693-705 | an import that fails only at its directory sync leaves a name that is not durable |
| `AccountSwitch.RefillBatch` | client/src-tauri/src/tokenrefill.rs:167-171 | a refill is wanted exactly at or below the low watermark, and then fills up to the target |
| `AccountSwitch.RefillFills` | client/src-tauri/src/tokenrefill.rs:114-150 | with successful I/O a refill from three or fewer current passes ends with exactly eight |
| `AccountSwitch.OvertakenCommitsNothing` | client/src-tauri/src/tokenrefill.rs:137-145 | a worker overtaken by an account change commits nothing of what it has minted |
| `AccountSwitch.BuyAdds` | client/src-tauri/src/lib.rs:673-694 | with successful I/O a purchase adds exactly the paid pass and the receipt of its payment |
| `AccountSwitch.StepKeeps` | client/src-tauri/src/tokenrefill.rs:60-70 | every step of every task, gated or not, keeps each stored vault to one account and the gate's holder to the cached one |
| `AccountSwitch.AlwaysOwned` | client/src-tauri/src/tokenrefill.rs:114-150 | in every interleaving, from any vault kept to one account, every subscription pass and pending mint in anything a crash may leave belongs to the cached account |
| `AccountSwitch.ChangeLeavesNothing` | client/src-tauri/src/tokenstore.rs:67-86 | an acknowledged change of account leaves the new account and nothing else |
| `AccountSwitch.ChangeSucceeds` | client/src-tauri/src/tokenstore.rs:67-86 | with successful I/O a change of account is acknowledged, whatever the vault held |
| `AccountSwitch.ChecksHold` | client/src-tauri/src/tokenrefill.rs:139-145 | the batch the worker finds and the account it rechecks always match the account it minted for; the gate alone guarantees it |
| `AccountSwitch.BeginMintOwnedIff` | client/src-tauri/src/tokenstore.rs:234-246 | beginning a mint keeps the vault to one account if and only if one is pending or the proposal is for the cached account |
| `RedeemProtocol.KeyOf` | crates/nil-coordinator/src/api.rs:178-187 | the spent key of a stored pass is its message |
| `RedeemProtocol.OnePath` | crates/nil-coordinator/src/api.rs:187-227 | every path ever delivered for a pass is the same, across retries, duplicates and crashes of either side, provided the first answer for that pass was a grant for good |
| `RedeemProtocol.RestForGood` | crates/nil-coordinator/src/api.rs:187-227 | a grant that leaves the ledger at rest is for good |
| `RedeemProtocol.GuardedOnePath` | crates/nil-coordinator/src/api.rs:187-227 | so it is for every pass at once, as long as every open of the ledger that succeeds finds a clean log or replaces it and no new key is accepted while a directory sync is outstanding |
| `RedeemProtocol.TwoPaths` | crates/nil-coordinator/src/api.rs:187-227 | the condition is needed: if an answer was not for good, some continuation delivers two paths for one reservation |
| `RedeemProtocol.OnePass` | client/src-tauri/src/lib.rs:345-375 | from its acknowledged reservation until completion, expiry or clearing, all that is sent and delivered is for that pass |
| `RedeemProtocol.BeginReserves` | client/src-tauri/src/lib.rs:345-352 | a reservation is in force as soon as it is answered |
| `RedeemProtocol.RedeemsOnce` | client/src-tauri/src/lib.rs:345-375 | when nothing fails: the first pass is reserved, sent and granted, its path delivered, and it is gone from the vault and spent in the ledger |
| `RedeemProtocol.RetryServed` | crates/nil-coordinator/src/api.rs:187-227 | once every crash image of the ledger can answer with a result until some time, every well-formed request for the pass before that time is answered with it |
| `RedeemProtocol.RetryRecovers` | client/src-tauri/src/lib.rs:345-375 | after a grant, whatever is lost, the client still holds that pass and that response is all it was and is ever given, provided the first answer for that pass was a grant for good |
| `PathSelection.ExtendPath` | crates/nil-coordinator/src/pathsel.rs:608-640 | finds the first trust-split path extending the stack if there is one; on failure the stack is restored and none extends it |
| `PathSelection.GoodIff` | crates/nil-coordinator/src/pathsel.rs:608-640 | what the search looks for, in plain terms: operators, jurisdictions, identities and endpoints pairwise different; an entry, middles and an exit |
| `PathSelection.Shuffle` | crates/nil-coordinator/src/pathsel.rs:647-661 | the order each draw of random words leaves, and the old one without entropy |
| `PathSelection.ShuffledSame` | crates/nil-coordinator/src/pathsel.rs:647-661 | shuffling loses and invents nothing, for any words |
| `PathSelection.ShuffleKeepsFeasible` | crates/nil-coordinator/src/pathsel.rs:582-602 | a path exists in a permutation if and only if it exists in the original |
| `PathSelection.Registry.SelectPath` | crates/nil-coordinator/src/pathsel.rs:582-602 | returns a path exactly when the live nodes contain a trust-split one of that length, for every shuffle, and then the endpoints, identities and roles of such a path: the first in shuffled order |
| `PathSelection.EveryPathSelectable` | crates/nil-coordinator/src/pathsel.rs:575-602 | every good path over the live nodes is what some draw of random words selects |
| `PathSelection.Registry.MarkDown` | crates/nil-coordinator/src/pathsel.rs:539-547 | exactly the nodes of this host leave the live pool |
| `PathSelection.Registry.MarkUp` | crates/nil-coordinator/src/pathsel.rs:551-556 | exactly the nodes of this host join the live pool, if they were not in it |
| `PathSelection.MarkDownIff` | crates/nil-coordinator/src/pathsel.rs:535-568 | with a host marked down a request is served if and only if some path avoids that host |
| `PathSelection.Live` | crates/nil-coordinator/src/pathsel.rs:558-568 | the live nodes are exactly those whose host is not marked down |
| `PathSelection.MarkUpMonotone` | crates/nil-coordinator/src/pathsel.rs:549-568 | marking a host up never turns success into refusal |
| `PathSelection.BindNeighbours` | crates/nil-coordinator/src/api.rs:250-290 | succeeds exactly when the roles are in order and, for two hops or more, every host parses; otherwise the error of the first hop with one: the host before it, then the host after it, then its role |
| `PathSelection.SelectedNeighbours` | crates/nil-coordinator/src/api.rs:250-290 | over a selected path with IPv4 hosts binding cannot fail; consecutive hops name each other, only the first lacks a previous and only the last a next |
| `PathSelection.PreparePath` | crates/nil-coordinator/src/api.rs:145-169 | selection then binding, as with a grant signer: with IPv4 hosts it stops only for lack of a path, and then there is none |
| `Checksum.OnesComplement` | crates/nil-core/src/checksum.rs:119-133 | the carry loop computes the complement of the folded sum, and the `u32` accumulator never overflows |
| `Checksum.FixIpv4` | crates/nil-core/src/checksum.rs:22-69 | header then segment are patched, malformed packets left alone |
| `Checksum.FixIpv6` | crates/nil-core/src/checksum.rs:75-115 | the segment is patched, skipped packets left alone |
| `Checksum.FixL4Checksums` | crates/nil-core/src/checksum.rs:12-18 | dispatch by version; the packet becomes `Fixed` of itself |
| `PacketChecksums.HeaderAddsUp` | crates/nil-core/src/checksum.rs:22-38 | a well-formed IPv4 header leaves with a sum of all ones |
| `PacketChecksums.SegmentAddsUp4` | crates/nil-core/src/checksum.rs:40-69 | a TCP or UDP segment over IPv4, summed with its twelve-byte pseudo-header, leaves with all ones |
| `PacketChecksums.FieldNotZero` | crates/nil-core/src/checksum.rs:59-69 | a UDP checksum over IPv4 is never zero |
| `PacketChecksums.Outside4` | crates/nil-core/src/checksum.rs:22-69 | of such a packet only bytes 10 and 11 and two of the segment change: 16 and 17 for TCP, 6 and 7 for UDP |
| `PacketChecksums.Other4` | crates/nil-core/src/checksum.rs:22-69 | of any other packet with a well-formed IPv4 header only bytes 10 and 11 change |
| `PacketChecksums.SegmentAddsUp6` | crates/nil-core/src/checksum.rs:75-115 | a TCP, UDP or ICMPv6 segment, summed with its forty-byte pseudo-header, leaves with all ones, and the last two not with zero |
| `PacketChecksums.Outside6` | crates/nil-core/src/checksum.rs:75-115 | of such a packet only the two bytes of the field change: at 16, 6 or 2 of the segment |
| `PacketChecksums.OthersUntouched` | crates/nil-core/src/checksum.rs:12-115 | every other packet is left as it is |
| `Checksum.FixedVerifies` | crates/nil-core/src/checksum.rs:22-115 | afterwards every checksum the packet carries verifies, the 0 to 0xffff substitution included |
| `Checksum.FixedFields` | crates/nil-core/src/checksum.rs:22-115 | only checksum bytes change, and each field holds its canonical value |
| `Checksum.FixedIdempotent` | crates/nil-core/src/checksum.rs:12-18 | fixing twice is fixing once |
| `Checksum.UnchangedIff` | crates/nil-core/src/checksum.rs:7-8 | a packet is left alone if and only if all its checksums verify and none spells zero the other way |
| `Checksum.VerifiedKeepsResidue` | crates/nil-core/src/checksum.rs:119-133 | a field that already verified keeps its value modulo 65535 |
| `Checksum.CorrectHeaderRewritten` | crates/nil-core/src/checksum.rs:7-8 | a header that verifies and is nevertheless rewritten |
| `RateLimit.Limiter.Check` | crates/nil-coordinator/src/ratelimit.rs:32-51 | answer and whole new state of a check, with the sweep and the wrapping counter |
| `RateLimit.SweepInvisibleFromStart` | crates/nil-coordinator/src/ratelimit.rs:32-51 | for nondecreasing times and fewer than 2^32 hits per key and window, sweeping changes no answer |
| `RateLimit.AllowedIff` | crates/nil-coordinator/src/ratelimit.rs:32-51 | the code lets a hit through if and only if it is among the first `max` of its key since the hit that opened its window, whatever other keys do; for nondecreasing times and fewer than 2^32 hits per key and window |
| `RateLimit.FewerThanTwiceTheCap` | crates/nil-coordinator/src/ratelimit.rs:32-51 | the code, sweep and wrapping counter included, accepts at most one less than twice the cap in any half-open interval one window long, for nondecreasing times and fewer than 2^32 hits per key and window |
| `RateLimit.BoundMet` | crates/nil-coordinator/src/ratelimit.rs:32-51 | that bound is met for every cap and every window of at least two ticks |
| `DerFraming.IsCompleteDerSequence` | client/src-tauri/trust_bundle.rs:121-152 | accepts exactly 0x30, the minimal definite length of a body, and the body |
| `DerFraming.ReadLength` | client/src-tauri/trust_bundle.rs:136-145 | the length loop computes the big-endian value and never overflows a 64-bit `usize` |
| `DerFraming.SequenceUnique` | client/src-tauri/trust_bundle.rs:121-152 | an accepted string determines its body |

## Left out

- AES-GCM, blind RSA, Ed25519, SHA-256, grant minting and attestation: values or function parameters here.
- DurableLegacy.FoldComplete: does not promise that the folded keys are on the medium, because the code does not sync when nothing is missing; `FoldDurableIff` states when they are.
- Quality of randomness: nonces, ids and shuffle words are arbitrary inputs; distinct nonces are asked for only where stated.
- `drop_epochs` of the redemption ledger: it forgets spent keys by design.
- HTTP handlers, request limits, platform bridges and user interface: no state-machine content.
- JSON and sealing of vaults and path responses: a stored vault is a value with an exact inverse, so size limits are one more way to fail before the rename; the first development shape of a pending redemption is not modelled.
- File permissions, symbolic links, process locks and zeroization: one writer per file is taken for granted.
- Non-Unix directory syncs: the crash theorems need a directory sync that works.
- `AuthStore::save` and `AuthStore::clear`: no command calls them; they would separate passes from their account.
- IP fragmentation and IPv6 extension headers: the checksum code treats the bytes as one segment or skips them.
- With what probability each good path is chosen: only that each can be.
- Liveness: nothing says that a retry is ever made or a message ever arrives.
