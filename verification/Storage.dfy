/**
 The part of a Unix file system that the durable stores rely on: one log file per store, with what
 its readers see now, what the medium is sure to keep, and what a crash may bring back.

 A successful `sync_all` makes the current bytes durable; a successful directory sync makes the
 current name durable.  Nothing else does.
 */
module Storage {
  import opened Text

  /** An inode.  A crash keeps `stable` and any further bytes of one unsynced tail. */
  datatype File = File(cur: string, stable: string, tails: set<string>) {
    ghost predicate Ok() {
      stable <= cur && (cur == stable || cur in tails) && forall t :: t in tails ==> stable <= t
    }

    /** `b` may be the content after a crash. */
    ghost predicate Image(b: string) {
      b == stable || exists t :: t in tails && stable <= b <= t
    }

    /** Every byte is on the medium, and no other. */
    predicate Synced() {
      cur == stable && tails <= {stable}
    }

    /** `write_all` got as far as `w`. */
    function Write(w: string): File {
      File(cur + w, stable, tails + {cur + w})
    }

    function Sync(): File {
      File(cur, cur, {})
    }

    /** `set_len(n)`. */
    function Truncate(n: nat): File
      requires n <= |cur|
    {
      File(cur[..n], if n < |stable| then stable[..n] else stable, tails + {cur, stable, cur[..n]})
    }
  }

  /** What is found on the medium after a restart of the machine. */
  function Recovered(b: string): File { File(b, b, {}) }

  /** The directory entry of the log: the inode it names now, and the entries a crash may bring
      back because the directory has not been synced since. */
  datatype Disk = Disk(log: Option<File>, shadows: set<Option<File>>) {
    ghost predicate Ok() {
      (log.Some? ==> log.value.Ok()) && forall e :: e in shadows && e.Some? ==> e.value.Ok()
    }

    /** The entry `e` may be what the name refers to after a crash. */
    ghost predicate Entry(e: Option<File>) {
      e == log || e in shadows
    }

    /** `text` may be what a reader finds after a crash; a missing file reads as empty. */
    ghost predicate MayRead(text: string) {
      exists e :: Entry(e) && (match e case None => text == "" case Some(f) => f.Image(text))
    }

    /** Name and bytes are all on the medium. */
    predicate Settled() {
      shadows == {} && log.Some? && log.value.Synced()
    }

    function SetLog(f: File): Disk {
      Disk(Some(f), shadows)
    }

    /** `open` with create: a missing entry becomes an empty inode. */
    function Create(): Disk {
      if log.Some? then this else Disk(Some(Recovered("")), shadows + {None})
    }

    /** `rename` of a finished temporary over the log. */
    function Replace(f: File): Disk {
      Disk(Some(f), shadows + {log})
    }

    function SyncDir(): Disk {
      Disk(log, {})
    }
  }

  /** The machine stops and comes back. */
  ghost predicate Crash(d: Disk, d': Disk) {
    && d'.shadows == {}
    && exists e :: d.Entry(e) &&
         match e
         case None => d'.log == None
         case Some(f) => d'.log.Some? && f.Image(d'.log.value.cur) && d'.log.value == Recovered(d'.log.value.cur)
  }

  /** After a crash the log reads as one of the texts foreseen before it, and is settled unless the
      file is gone. */
  lemma CrashReads(d: Disk, d': Disk)
    requires Crash(d, d')
    ensures d'.Ok()
    ensures d'.log.Some? ==> d'.Settled() && d.MayRead(d'.log.value.cur)
    ensures d'.log.None? ==> d.MayRead("")
    ensures forall text :: d'.MayRead(text) ==> d.MayRead(text)
  {
    var e :| d.Entry(e) &&
      match e
      case None => d'.log == None
      case Some(f) => d'.log.Some? && f.Image(d'.log.value.cur) && d'.log.value == Recovered(d'.log.value.cur);
    forall text | d'.MayRead(text) ensures d.MayRead(text) {
      assert e.Some? ==> text == d'.log.value.cur;
      assert e.None? ==> text == "";
    }
  }

  /** Whether a crash can change what is read is decided by the bytes not yet synced. */
  lemma SyncedIff(f: File)
    requires f.Ok()
    ensures f.Synced() <==> forall b :: f.Image(b) ==> b == f.cur
  {
    assert f.Image(f.stable);
    forall t | t in f.tails ensures f.Image(t) { }
  }

  /** A settled log can only be read back as it is. */
  lemma SettledReads(d: Disk, text: string)
    requires d.Settled()
    ensures d.MayRead(text) <==> text == d.log.value.cur
  {
    assert d.Entry(d.log);
  }

  /** After a replacement, synced or not, the log reads as before or as the replacement. */
  lemma ReplaceReads(d: Disk, f: File, text: string)
    requires d.Replace(f).MayRead(text) || d.Replace(f).SyncDir().MayRead(text)
    ensures d.MayRead(text) || f.Image(text)
  {
    if d.Replace(f).MayRead(text) {
      var e :| d.Replace(f).Entry(e) && (match e case None => text == "" case Some(g) => g.Image(text));
      assert e == Some(f) || d.Entry(e);
    }
  }

  /** Writing more to a file: what it may read back as is an old image or lies beyond the old end. */
  lemma GrownReads(f: File, g: File, more: string, text: string)
    requires f.Ok() && g.stable == f.stable && (g.Image(text) || text == f.cur + more)
    requires forall x :: x in g.tails ==> x in f.tails || x <= f.cur + more
    ensures f.Image(text) || f.cur <= text <= f.cur + more
  {
    if g.Image(text) && text != f.stable {
      var x :| x in g.tails && f.stable <= text <= x;
      if x !in f.tails && |text| <= |f.cur| {
        assert text <= f.cur;
      }
    }
  }

  /** Creating a missing file and making its name durable adds nothing to what may be read back. */
  lemma CreatedReads(d: Disk, text: string)
    ensures d.Create().MayRead(text) || d.Create().SyncDir().MayRead(text) ==> d.MayRead(text)
  {
    var c := d.Create();
    if c.SyncDir().MayRead(text) {
      var e :| c.SyncDir().Entry(e) && (match e case None => text == "" case Some(f) => f.Image(text));
      assert c.Entry(e);
    }
    if c.MayRead(text) {
      var e :| c.Entry(e) && (match e case None => text == "" case Some(f) => f.Image(text));
      assert d.Entry(e) || (text == "" && d.Entry(None));
    }
  }
}
