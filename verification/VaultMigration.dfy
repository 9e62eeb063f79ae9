/**
 The import of the two historical plaintext stores into the vault (`migrate_legacy` in
 client/src-tauri/src/securestore.rs): write the vault, read it back, and only then unlink the old
 files.  The old files live in another directory than the vault, so neither directory sync helps the
 other.
 */
module VaultMigration {
  import opened Text
  import opened Vault

  /** An old file; `removed` is its content while an unlink has not been synced. */
  datatype Old<T> = Old(file: Option<T>, removed: Option<T>) {
    ghost predicate MayRead(x: Option<T>) { x == file || (file.None? && x == removed) }
  }

  datatype Files = Files(slot: Slot, auth: Old<Account>, tokens: Old<seq<Pass>>)

  datatype RemoveIo = RemoveFails | RemoveUnsynced | Removed

  /** How each step ends: reading the vault or the old files, writing, reading back (and, if that
      fails, whether the new file could be unlinked), and the two unlinks. */
  datatype MigrateIo = MigrateIo(vaultReads: bool, oldReads: bool, persist: Io, verifies: bool, undone: bool,
                                 auth: RemoveIo, tokens: RemoveIo)

  datatype Migration = NoLegacyData | VaultAlreadyPresent | Migrated(hadAuth: bool, count: nat)

  // ---------------------------------------------------------------- what it leaves behind

  /** `remove_legacy_if_present`. */
  function Remove<T>(entry: Old<T>, io: RemoveIo): (Old<T>, bool) {
    if entry.file.None? then (entry, true) else
    match io
    case RemoveFails => (entry, false)
    case RemoveUnsynced => (Old(None, entry.file), false)
    case Removed => (Old(None, None), true)
  }

  function RemoveBoth(s: Files, io: MigrateIo): (Files, bool) {
    var (auth, ok) := Remove(s.auth, io.auth);
    if !ok then (s.(auth := auth), false) else
    var (tokens, ok') := Remove(s.tokens, io.tokens);
    (s.(auth := auth, tokens := tokens), ok')
  }

  function Imported(s: Files): Vault {
    Empty.(auth := s.auth.file, tokens := if s.tokens.file.Some? then s.tokens.file.value else [])
  }

  function Migrate(s: Files, io: MigrateIo): (Files, Result<Migration>) {
    if s.slot.file.Some? then
      if !io.vaultReads || !Valid(s.slot.file.value) then (s, Err(Storage)) else
      var (s', ok) := RemoveBoth(s, io);
      (s', if ok then Ok(VaultAlreadyPresent) else Err(Storage))
    else if !io.oldReads then (s, Err(Storage))
    else if s.auth.file.None? && s.tokens.file.None? then (s, Ok(NoLegacyData))
    else
      var vault := Imported(s);
      if !Valid(vault) then (s, Err(Invalid)) else
      var (slot, ok) := Persist(s.slot, vault, io.persist);
      if !ok then (s.(slot := slot), Err(Storage))
      else if !io.verifies then
        (s.(slot := if io.undone then Slot(None, slot.shadows + {slot.file}) else slot), Err(Storage))
      else
        var (s', ok') := RemoveBoth(s.(slot := slot), io);
        (s', if ok' then Ok(Migrated(vault.auth.Some?, |vault.tokens|)) else Err(Storage))
  }

  // ---------------------------------------------------------------- the code

  class Migrator {
    var slot: Slot
    var auth: Old<Account>
    var tokens: Old<seq<Pass>>

    function State(): Files
      reads this
    {
      Files(slot, auth, tokens)
    }

    constructor (s: Files)
      ensures State() == s
    {
      slot, auth, tokens := s.slot, s.auth, s.tokens;
    }

    method MigrateLegacy(io: MigrateIo) returns (r: Result<Migration>)
      modifies this
      ensures (State(), r) == Migrate(old(State()), io)
    {
      if slot.file.Some? {
        if !io.vaultReads || !Valid(slot.file.value) {
          return Err(Storage);
        }
        var ok := Unlink(io);
        return if ok then Ok(VaultAlreadyPresent) else Err(Storage);
      }
      if !io.oldReads {
        return Err(Storage);
      }
      if auth.file.None? && tokens.file.None? {
        return Ok(NoLegacyData);
      }
      var vault := Imported(State());
      if !Valid(vault) {
        return Err(Invalid);
      }
      var written;
      slot, written := WriteVault(slot, vault, io.persist);
      if !written {
        return Err(Storage);
      }
      if !io.verifies {
        if io.undone {
          slot := Slot(None, slot.shadows + {slot.file});
        }
        return Err(Storage);
      }
      var ok := Unlink(io);
      r := if ok then Ok(Migrated(vault.auth.Some?, |vault.tokens|)) else Err(Storage);
    }

    method Unlink(io: MigrateIo) returns (ok: bool)
      modifies this
      ensures (State(), ok) == RemoveBoth(old(State()), io)
    {
      auth, ok := Remove(auth, io.auth).0, Remove(auth, io.auth).1;
      if ok {
        tokens, ok := Remove(tokens, io.tokens).0, Remove(tokens, io.tokens).1;
      }
    }
  }

  method WriteVault(d: Slot, v: Vault, io: Io) returns (d': Slot, ok: bool)
    ensures (d', ok) == Persist(d, v, io)
  {
    var vault := new SecureVault(d);
    ok := vault.Replace(v, io);
    d' := vault.disk;
  }

  // ---------------------------------------------------------------- nothing is lost

  /** What a crash at this moment may leave: a vault or none, and the old files or none. */
  ghost predicate Leaves(s: Files, e: Option<Vault>, auth: Option<Account>, tokens: Option<seq<Pass>>) {
    s.slot.Entry(e) && s.auth.MayRead(auth) && s.tokens.MayRead(tokens)
  }

  /** The credentials are still there: in the vault if there is one, else in the old files. */
  predicate Holds(e: Option<Vault>, auth: Option<Account>, tokens: Option<seq<Pass>>, a: Option<Account>, t: Option<seq<Pass>>) {
    match e
    case Some(v) => v.auth == a && v.tokens == (if t.Some? then t.value else [])
    case None => auth == a && tokens == t
  }

  /** Whatever a crash leaves holds the credentials `a` and `t`. */
  ghost predicate Safe(s: Files, a: Option<Account>, t: Option<seq<Pass>>) {
    forall e, auth, tokens :: Leaves(s, e, auth, tokens) ==> Holds(e, auth, tokens, a, t)
  }

  /** The vault's name, if it has one, is on the medium. */
  predicate NameDurable(s: Files) { s.slot.file.Some? ==> None !in s.slot.shadows }

  /** No step of a migration, failing anywhere, can lose the credentials, if a vault that is already
      present has a durable name. */
  lemma MigrationSafe(s: Files, io: MigrateIo, a: Option<Account>, t: Option<seq<Pass>>)
    requires Safe(s, a, t) && NameDurable(s)
    ensures Safe(Migrate(s, io).0, a, t)
  {
    var s' := Migrate(s, io).0;
    assert Leaves(s, s.slot.file, s.auth.file, s.tokens.file);
    forall e, auth, tokens | Leaves(s', e, auth, tokens) ensures Holds(e, auth, tokens, a, t) {
      if s.slot.Entry(e) && e.Some? {
        assert Leaves(s, e, s.auth.file, s.tokens.file);
      } else if e.None? {
        assert Leaves(s, e, auth, tokens);
      }
    }
  }

  /** The condition is exact.  When the vault is present and the migration then succeeds in removing
      an old file, the credentials are safe afterwards if and only if the vault's name was durable:
      an earlier attempt whose directory sync failed is believed by the next one. */
  lemma PresentSafeIff(s: Files, io: MigrateIo, a: Option<Account>, t: Option<seq<Pass>>)
    requires Safe(s, a, t) && Migrate(s, io).1 == Ok(VaultAlreadyPresent)
    requires s.auth.file.Some? || s.tokens.file.Some?
    ensures Safe(Migrate(s, io).0, a, t) <==> NameDurable(s)
  {
    var s' := Migrate(s, io).0;
    if NameDurable(s) {
      MigrationSafe(s, io, a, t);
    } else {
      assert Leaves(s, None, s.auth.file, s.tokens.file);
      assert Leaves(s', None, s'.auth.file, s'.tokens.file);
    }
  }

  // ---------------------------------------------------------------- what it answers

  predicate Unlinks<T>(entry: Old<T>, io: RemoveIo) { entry.file.None? || io.Removed? }

  /** The answers of an import and the vault it leaves: an existing vault is kept; otherwise the account
      and the passes of the old files, and nothing else, become the vault. */
  lemma MigrateAnswers(s: Files, io: MigrateIo)
    ensures var (s', r) := Migrate(s, io);
      var passes := if s.tokens.file.Some? then s.tokens.file.value else [];
      var vault := Vault(1, s.auth.file, passes, None, None, None, None, None);
      var unlinked := Unlinks(s.auth, io.auth) && Unlinks(s.tokens, io.tokens);
      && (s.slot.file.Some? ==>
            && s'.slot == s.slot
            && (r.Ok? <==> io.vaultReads && Valid(s.slot.file.value) && unlinked)
            && (r.Ok? ==> r.value == VaultAlreadyPresent))
      && (s.slot.file.None? && s.auth.file.None? && s.tokens.file.None? ==>
            s' == s && (r.Ok? <==> io.oldReads) && (r.Ok? ==> r.value == NoLegacyData))
      && (s.slot.file.None? && (s.auth.file.Some? || s.tokens.file.Some?) ==>
            && (r.Ok? <==> io.oldReads && Valid(vault) && io.persist.Committed? && io.verifies && unlinked)
            && (r.Ok? ==> r.value == Migrated(s.auth.file.Some?, |passes|) && s'.slot == Slot(Some(vault), {})))
  {
  }

  // ---------------------------------------------------------------- no plaintext stays behind

  /** Whatever a crash leaves, the old file is not there. */
  ghost predicate Gone<T(!new)>(entry: Old<T>) { forall x :: entry.MayRead(x) ==> x == None }

  /** The old file is there now, or an earlier unlink of it is durable. */
  predicate Settled<T>(entry: Old<T>) { entry.file.Some? || entry.removed.None? }

  /** After any success neither old file is there.  No crash can bring one back if and only if no unlink
      of an earlier attempt was still unsynced: a missing file is taken for removed. */
  lemma GoneIff(s: Files, io: MigrateIo)
    requires Migrate(s, io).1.Ok?
    ensures var s' := Migrate(s, io).0;
      && s'.auth.file.None? && s'.tokens.file.None?
      && (Gone(s'.auth) && Gone(s'.tokens) <==> Settled(s.auth) && Settled(s.tokens))
  {
    var s' := Migrate(s, io).0;
    assert s'.auth.MayRead(s'.auth.removed) && s'.tokens.MayRead(s'.tokens.removed);
  }

  /** The gap: an unlink whose directory sync fails, then a second attempt that succeeds, and a crash may
      bring the plaintext back. */
  lemma PlaintextReturns(s: Files, io: MigrateIo, io': MigrateIo)
    requires s.slot.file.Some? && Valid(s.slot.file.value) && s.auth.file.Some?
    requires io.vaultReads && io.auth.RemoveUnsynced? && io'.vaultReads && Unlinks(s.tokens, io'.tokens)
    ensures var s1 := Migrate(s, io).0; var (s2, r) := Migrate(s1, io');
      Migrate(s, io).1.Err? && r == Ok(VaultAlreadyPresent) && s2.auth.MayRead(s.auth.file)
  {
  }

  /** An unsynced first attempt leaves exactly such a name, with the credentials still safe. */
  lemma UnsyncedAttempt(s: Files, io: MigrateIo)
    requires s.slot == Slot(None, {}) && s.auth.removed.None? && s.tokens.removed.None?
    requires (s.auth.file.Some? || s.tokens.file.Some?) && Valid(Imported(s)) && io.oldReads && io.persist.DirSyncFails?
    ensures var s' := Migrate(s, io).0; Safe(s', s.auth.file, s.tokens.file) && !NameDurable(s')
  {
    MigrationSafe(s, io, s.auth.file, s.tokens.file);
  }
}
