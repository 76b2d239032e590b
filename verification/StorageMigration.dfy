/** The one-time migration from JSON files to SQLite, at every start of the program. */
module StorageMigration {
  import opened Wrappers
  import opened LegacyFiles
  import opened StorageDisk
  import opened MigrationProgress

  // ------------------------------------------------------ what the disk means

  /** The records of the installation: the database if there is one, else what the files stand for. */
  ghost predicate Means(database: Option<Db>, legacy: Files, r: Records) {
    match database
    case Some(db) => db.records == r
    case None => StandsFor(legacy, r)
  }

  /** A database beside JSON files carries the mark of a finished migration. */
  predicate Clean(database: Option<Db>, legacy: Files) {
    database.Some? && legacy != map[] ==> database.value.marked
  }

  ghost predicate Kept(legacy0: Files, archive0: map<Archived, Content>, legacy: Files,
      archive: map<Archived, Content>) {
    && (forall p :: p in legacy ==> p in legacy0 && legacy[p] == legacy0[p])
    && (forall a :: a in archive0 ==> a in archive && archive[a] == archive0[a])
    && (forall p :: p in legacy0 && p !in legacy ==>
        exists dir :: Archived(dir, p) in archive && archive[Archived(dir, p)] == legacy0[p])
  }

  function PathsOf(legacy: Files, kind: Kind): set<Path> {
    set p | p in legacy && p.kind == kind
  }

  datatype Outcome = Ready(migrated: bool) | Refused | Raised

  class Storage {
    const disk: Disk
    var ready: bool  // this process has been through it

    constructor (disk: Disk)
      ensures this.disk == disk && !ready
    {
      this.disk, ready := disk, false;
    }

    /** The records imported so far are in the temporary database, if the power is still on. */
    ghost predicate InTemp(files: Files, done: Files, r: Records, c: Counts, lossless: bool)
      reads disk`clock, disk`crashAt, disk`temp
    {
      disk.Up() ==> Progress(files, done, r, c, lossless) && disk.temp == Some(Db(true, false, r))
    }

    /** Import users, groups or peers: one record per file, overwriting like the store does. */
    method ImportKind(kind: Kind, counts: Counts, ghost done: Files, ghost recs: Records, ghost lossless: bool)
      returns (ok: bool, c: Counts, ghost done': Files, ghost recs': Records, ghost lossless': bool)
      requires !kind.FirewallFile? && forall p :: p in done ==> p.kind != kind
      requires InTemp(disk.legacy, done, recs, counts, lossless)
      modifies disk`clock, disk`temp
      ensures old(disk.clock) <= disk.clock
      ensures ok ==> InTemp(disk.legacy, done', recs', c, lossless')
      ensures ok ==> done'.Keys == done.Keys + PathsOf(disk.legacy, kind)
      ensures old(disk.Undisturbed()) ==> disk.Undisturbed() && (Importable(disk.legacy) ==> ok)
    {
      hide Progress, Importable, GoodFile, Items, LetsIn;
      ok, c, done', recs', lossless' := true, counts, done, recs, lossless;
      var todo := PathsOf(disk.legacy, kind);
      while todo != {}
        invariant todo <= PathsOf(disk.legacy, kind) && old(disk.clock) <= disk.clock
        invariant done'.Keys == done.Keys + (PathsOf(disk.legacy, kind) - todo)
        invariant InTemp(disk.legacy, done', recs', c, lossless')
        invariant old(disk.Undisturbed()) ==> disk.Undisturbed()
        decreases todo
      {
        var p :| p in todo;
        var content := disk.legacy[p];
        if !GoodFile(p, content) {
          BadFileBlocks(disk.legacy, p);
          return false, c, done', recs', lossless';
        }
        GoodOne(p, content);
        var item := Items(p, content)[0];
        if disk.Up() && !LetsIn(recs', item) {
          NameRefused(disk.legacy, done', recs', c, lossless', p);
        }
        var put := disk.Put(item);
        if !put {
          return false, c, done', recs', lossless';
        }
        if disk.Up() {
          OneRecordIn(disk.legacy, done', recs', c, lossless', p);
        }
        done', recs', c, lossless' := done'[p := content], recs'[item.0 := item.1], Plus(c, kind, 1), lossless' &&
        item.0 !in recs';
        todo := todo - {p};
      }
    }

    /** Import firewall files: all rows of a file in one transaction. */
    method ImportFirewall(counts: Counts, ghost done: Files, ghost recs: Records, ghost lossless: bool)
      returns (ok: bool, c: Counts, ghost done': Files, ghost recs': Records)
      requires forall p :: p in done ==> !p.kind.FirewallFile?
      requires InTemp(disk.legacy, done, recs, counts, lossless)
      modifies disk`clock, disk`temp
      ensures old(disk.clock) <= disk.clock
      ensures ok ==> InTemp(disk.legacy, done', recs', c, lossless)
      ensures ok ==> done'.Keys == done.Keys + PathsOf(disk.legacy, FirewallFile)
      ensures old(disk.Undisturbed()) ==> disk.Undisturbed() && (Importable(disk.legacy) ==> ok)
    {
      hide Progress, Importable, GoodFile, Items, Insertable, Adding;
      ok, c, done', recs' := true, counts, done, recs;
      var todo := PathsOf(disk.legacy, FirewallFile);
      while todo != {}
        invariant todo <= PathsOf(disk.legacy, FirewallFile) && old(disk.clock) <= disk.clock
        invariant done'.Keys == done.Keys + (PathsOf(disk.legacy, FirewallFile) - todo)
        invariant InTemp(disk.legacy, done', recs', c, lossless)
        invariant old(disk.Undisturbed()) ==> disk.Undisturbed()
        decreases todo
      {
        var p :| p in todo;
        var content := disk.legacy[p];
        if !GoodFile(p, content) {
          BadFileBlocks(disk.legacy, p);
          return false, c, done', recs';
        }
        GoodMany(p, content);
        var items := Items(p, content);
        if disk.Up() && !Insertable(recs', items) {
          RowsRefused(disk.legacy, done', recs', c, lossless, p);
        }
        var inserted := disk.InsertAll(items);
        if !inserted {
          return false, c, done', recs';
        }
        if disk.Up() {
          RowsIn(disk.legacy, done', recs', c, lossless, p);
        }
        done', recs', c := done'[p := content], Adding(recs', items), Plus(c, FirewallFile, |items|);
        todo := todo - {p};
      }
    }

    /** Import everything, kind by kind. */
    method ImportAll(counts0: Counts)
      returns (ok: bool, counts: Counts, ghost done: Files, ghost recs: Records, ghost lossless: bool)
      requires InTemp(disk.legacy, map[], map[], counts0, true)
      modifies disk`clock, disk`temp
      ensures old(disk.clock) <= disk.clock
      ensures ok ==> InTemp(disk.legacy, done, recs, counts, lossless)
      ensures ok ==>
        done.Keys ==
          PathsOf(disk.legacy, GroupFile) + PathsOf(disk.legacy, UserFile) + PathsOf(disk.legacy, PeerFile) +
          PathsOf(disk.legacy, FirewallFile)
      ensures old(disk.Undisturbed()) ==> disk.Undisturbed() && (Importable(disk.legacy) ==> ok)
    {
      hide Progress, Importable, InTemp;
      ok, counts, done, recs, lossless := ImportKind(GroupFile, counts0, map[], map[], true);
      if !ok {
        return;
      }
      ok, counts, done, recs, lossless := ImportKind(UserFile, counts, done, recs, lossless);
      if !ok {
        return;
      }
      ok, counts, done, recs, lossless := ImportKind(PeerFile, counts, done, recs, lossless);
      if !ok {
        return;
      }
      ok, counts, done, recs := ImportFirewall(counts, done, recs, lossless);
    }

    /** Fill and check the temporary database. */
    method FillTemp() returns (ok: bool, ghost recs: Records)
      modifies disk`clock, disk`temp
      ensures old(disk.clock) <= disk.clock
      ensures ok && disk.Up() ==> StandsFor(disk.legacy, recs) && disk.temp == Some(Db(true, false, recs))
      ensures old(disk.Undisturbed()) ==> disk.Undisturbed() && (Importable(disk.legacy) ==> ok)
    {
      hide Progress, StandsFor, Importable, CountsMatch;
      recs := map[];
      ok := disk.CreateTemp();
      if !ok {
        return;
      }
      NothingIn(disk.legacy);
      var counts;
      ghost var done, lossless;
      ok, counts, done, recs, lossless := ImportAll(Counts(0, 0, 0, 0));
      if !ok {
        return;
      }
      ok := VerifyCounts(counts);
      if disk.Up() {
        AllIn(disk.legacy, done, recs, counts, lossless);
      }
    }

    method VerifyCounts(counts: Counts) returns (ok: bool)
      ensures disk.temp.Some? ==> (ok <==> CountsMatch(disk.temp.value.records, counts))
    {
      if disk.temp.None? {
        return true;
      }
      var r := disk.temp.value.records;
      ok := |KeysOf(r, GroupFile)| == counts.groups && |KeysOf(r, UserFile)| == counts.users &&
        |KeysOf(r, PeerFile)| == counts.peers && |KeysOf(r, FirewallFile)| == counts.rules;
      FourKinds(r, counts);
    }

    /** Mark, flush and rename. The database appears with all records in it, or not at all. */
    method Activate(ghost recs: Records) returns (ok: bool)
      requires disk.database.None?
      requires disk.Up() ==> disk.temp == Some(Db(true, false, recs))
      modifies disk`clock, disk`temp, disk`database
      ensures old(disk.clock) <= disk.clock
      ensures disk.database == None || (disk.database == Some(Db(true, true, recs)) && old(disk.Up()))
      ensures ok && disk.Up() ==> disk.database.Some?
      ensures old(disk.Undisturbed()) ==> ok && disk.Undisturbed()
    {
      ok := disk.Touch();  // the time of the migration
      if !ok {
        return;
      }
      ok := disk.MarkTemp();
      if !ok {
        return;
      }
      ok := disk.Touch();  // checkpoint
      if !ok {
        return;
      }
      ok := disk.Touch();  // sidecar files
      if !ok {
        return;
      }
      ok := disk.ReplaceDatabase();
      if !ok {
        return;
      }
      ok := disk.Touch();  // permissions
    }

    /** Move every JSON file to a new archive directory; a failure is only logged. */
    method ArchiveLegacyFiles(dir: string)
      modifies disk`clock, disk`legacy, disk`archive
      ensures old(disk.clock) <= disk.clock
      ensures Kept(old(disk.legacy), old(disk.archive), disk.legacy, disk.archive)
      ensures !old(disk.Up()) ==> disk.legacy == old(disk.legacy) && disk.archive == old(disk.archive)
      ensures old(disk.Undisturbed()) ==> disk.Undisturbed()
      ensures old(disk.Undisturbed()) && (forall p :: Archived(dir, p) !in old(disk.archive)) ==> disk.legacy == map[]
    {
      ghost var legacy0, archive0 := disk.legacy, disk.archive;
      if disk.legacy == map[] {
        return;
      }
      var made := disk.MakeArchive(dir);
      if !made {
        return;
      }
      var todo := disk.legacy.Keys;
      while todo != {}
        invariant old(disk.clock) <= disk.clock && todo <= disk.legacy.Keys
        invariant Kept(legacy0, archive0, disk.legacy, disk.archive)
        invariant !old(disk.Up()) ==> disk.legacy == legacy0 && disk.archive == archive0
        invariant disk.Up() ==> disk.legacy.Keys == todo && forall p :: p in todo ==> Archived(dir, p) !in disk.archive
        invariant old(disk.Undisturbed()) ==> disk.Undisturbed()
        decreases todo
      {
        var p :| p in todo;
        ghost var legacy1, archive1 := disk.legacy, disk.archive;
        if disk.Works() {
          OneMoved(legacy0, archive0, disk.legacy, disk.archive, dir, p);
        }
        var moved := disk.Move(dir, p);
        if !moved {
          return;
        }
        todo := todo - {p};
      }
    }

    /** Start the program's storage. */
    method EnsureReady(dir: string) returns (out: Outcome)
      modifies this`ready, disk
      ensures disk.crashAt == old(disk.crashAt)
      ensures forall r :: Means(disk.database, disk.legacy, r) <==> Means(old(disk.database), old(disk.legacy), r)
      ensures Clean(old(disk.database), old(disk.legacy)) ==> Clean(disk.database, disk.legacy) && !out.Refused?
      ensures Kept(old(disk.legacy), old(disk.archive), disk.legacy, disk.archive)
      ensures old(disk.database).Some? ==> disk.database == old(disk.database)
      ensures !old(ready) && out.Ready? && disk.Up() ==> disk.database.Some?
      ensures old(disk.database).None? && !Importable(old(disk.legacy)) ==>
        && disk.database.None? && disk.legacy == old(disk.legacy) && disk.archive == old(disk.archive)
        && (!old(ready) && disk.Up() ==> out.Raised?)
      ensures old(disk.Undisturbed()) && !old(ready) && old(disk.database).None? && Importable(old(disk.legacy)) ==>
        out == Ready(true) && disk.database.Some? && disk.database.value.marked &&
        StandsFor(old(disk.legacy), disk.database.value.records)
    {
      hide Importable, Collects, StandsFor;
      KeptItself(disk.legacy, disk.archive);
      if ready {
        return Ready(false);
      }
      if disk.database.Some? {
        out := OpenExisting(dir);
        return;
      }
      ghost var legacy := disk.legacy;
      var ok := disk.DropTemp();
      if !ok {
        return Raised;
      }
      ghost var recs;
      ok, recs := FillTemp();
      if ok {
        ok := Activate(recs);
      }
      if disk.database.Some? {
        SameMeaning(legacy, recs);
      }
      if !ok {
        var dropped := disk.DropTemp();
        return Raised;
      }
      ArchiveLegacyFiles(dir);
      ready := true;
      return Ready(true);
    }

    /** There is a database: JSON files beside it are archived, never read. */
    method OpenExisting(dir: string) returns (out: Outcome)
      requires disk.database.Some?
      modifies this`ready, disk`clock, disk`legacy, disk`archive
      ensures Clean(disk.database, old(disk.legacy)) ==> Clean(disk.database, disk.legacy) && !out.Refused?
      ensures Kept(old(disk.legacy), old(disk.archive), disk.legacy, disk.archive)
      ensures disk.Up() ==> old(disk.Up())
    {
      KeptItself(disk.legacy, disk.archive);
      var ok := disk.Touch();  // create missing tables
      if !ok || !disk.database.value.schemaOk {
        return Raised;
      }
      if disk.legacy != map[] && !disk.database.value.marked {
        return Refused;
      }
      if disk.legacy != map[] {
        ArchiveLegacyFiles(dir);
      }
      ready := true;
      return Ready(false);
    }
  }

  // ---------------------------------------------------------------- details

  lemma GoodOne(p: Path, c: Content)
    requires GoodFile(p, c) && !p.kind.FirewallFile?
    ensures c.One? && |Items(p, c)| == 1
  {
  }

  lemma GoodMany(p: Path, c: Content)
    requires GoodFile(p, c) && p.kind.FirewallFile?
    ensures c.Many?
  {
  }

  lemma FourKinds(r: Records, c: Counts)
    ensures CountsMatch(r, c) <==>
      |KeysOf(r, GroupFile)| == c.groups && |KeysOf(r, UserFile)| == c.users && |KeysOf(r, PeerFile)| == c.peers &&
      |KeysOf(r, FirewallFile)| == c.rules
  {
    hide KeysOf;
    assert Of(c, GroupFile) == c.groups && Of(c, UserFile) == c.users && Of(c, PeerFile) == c.peers &&
      Of(c, FirewallFile) == c.rules;
  }

  lemma AllIn(files: Files, done: Files, r: Records, c: Counts, lossless: bool)
    requires Progress(files, done, r, c, lossless)
    requires done.Keys ==
      PathsOf(files, GroupFile) + PathsOf(files, UserFile) + PathsOf(files, PeerFile) + PathsOf(files, FirewallFile)
    ensures CountsMatch(r, c) ==> StandsFor(files, r)
    ensures !CountsMatch(r, c) ==> !Importable(files)
  {
    hide StandsFor, Importable, CountsMatch;
    forall p | p in files ensures p in done {
      assert p.kind.GroupFile? || p.kind.UserFile? || p.kind.PeerFile? || p.kind.FirewallFile?;
    }
    assert done == files;
  }

  lemma SameMeaning(legacy: Files, recs: Records)
    requires StandsFor(legacy, recs)
    ensures Importable(legacy) && forall r :: StandsFor(legacy, r) <==> r == recs
  {
    hide Importable, Collects;
    forall r | StandsFor(legacy, r) ensures r == recs {
      StandsForOne(legacy, r, recs);
    }
  }

  lemma KeptItself(legacy: Files, archive: map<Archived, Content>)
    ensures Kept(legacy, archive, legacy, archive)
  {
  }

  lemma OneMoved(legacy0: Files, archive0: map<Archived, Content>, legacy: Files,
      archive: map<Archived, Content>, dir: string, p: Path)
    requires Kept(legacy0, archive0, legacy, archive) && p in legacy && Archived(dir, p) !in archive
    ensures Kept(legacy0, archive0, legacy - {p}, archive[Archived(dir, p) := legacy[p]])
  {
    var archive' := archive[Archived(dir, p) := legacy[p]];
    forall q | q in legacy0 && q !in legacy - {p}
      ensures exists d :: Archived(d, q) in archive' && archive'[Archived(d, q)] == legacy0[q]
    {
      if q == p {
        assert Archived(dir, q) in archive' && archive'[Archived(dir, q)] == legacy0[q];
      } else {
        var d :| Archived(d, q) in archive && archive[Archived(d, q)] == legacy0[q];
        assert Archived(d, q) in archive' && archive'[Archived(d, q)] == legacy0[q];
      }
    }
  }

  // ------------------------------------------------------------ many restarts

  /** One start of the machine: when the power goes, which steps raise, the archive directory's name,
  and what the application writes once the storage is ready. */
  datatype Start = Start(crashAt: Option<nat>, fails: nat -> bool, dir: string, written: Option<Records>)

  /** `wrote` goes with the starts: only those with something to write did. */
  predicate Fitting(starts: seq<Start>, wrote: seq<bool>) {
    |wrote| == |starts| && forall i :: 0 <= i < |starts| && wrote[i] ==> starts[i].written.Some?
  }

  /** What the last start that wrote has written; before any, the records of the beginning. */
  function LastWritten(starts: seq<Start>, wrote: seq<bool>, first: Records): Records
    requires Fitting(starts, wrote)
  {
    if starts == [] then first
    else if wrote[|wrote| - 1] then starts[|starts| - 1].written.value
    else LastWritten(starts[..|starts| - 1], wrote[..|wrote| - 1], first)
  }

  lemma OneMoreStart(starts: seq<Start>, wrote: seq<bool>, first: Records, start: Start, writes: bool)
    requires Fitting(starts, wrote) && (writes ==> start.written.Some?)
    ensures Fitting(starts + [start], wrote + [writes])
    ensures LastWritten(starts + [start], wrote + [writes], first) ==
      if writes then start.written.value else LastWritten(starts, wrote, first)
  {
    assert (starts + [start])[..|starts|] == starts && (wrote + [writes])[..|wrote|] == wrote;
  }

  /** However often the program is started, wherever the power goes and whatever raises: the records
  are those of the files at first and then what the application last wrote, and every start that keeps its
  power and reports ready lets it write; no JSON file is lost; and the refusal to start beside an unmarked
  database never happens. */
  method Restarts(disk: Disk, starts: seq<Start>, ghost first: Records)
    returns (outs: seq<Outcome>, ghost wrote: seq<bool>)
    requires Clean(disk.database, disk.legacy) && Means(disk.database, disk.legacy, first)
    modifies disk
    ensures |outs| == |starts| && Fitting(starts, wrote) && Refused !in outs
    ensures forall i :: 0 <= i < |starts| && wrote[i] ==> outs[i].Ready?
    ensures forall i :: 0 <= i < |starts| && outs[i].Ready? && starts[i].crashAt.None? ==>
      (wrote[i] <==> starts[i].written.Some?)
    ensures Clean(disk.database, disk.legacy)
    ensures Means(disk.database, disk.legacy, LastWritten(starts, wrote, first))
    ensures Kept(old(disk.legacy), old(disk.archive), disk.legacy, disk.archive)
  {
    hide Means, Kept, LastWritten;
    outs, wrote := [], [];
    KeptItself(disk.legacy, disk.archive);
    NothingWritten(first);
    for i := 0 to |starts|
      invariant |outs| == i && Fitting(starts[..i], wrote) && Refused !in outs
      invariant forall k :: 0 <= k < i && wrote[k] ==> outs[k].Ready?
      invariant forall k :: 0 <= k < i && outs[k].Ready? && starts[k].crashAt.None? ==>
        (wrote[k] <==> starts[k].written.Some?)
      invariant Clean(disk.database, disk.legacy)
      invariant Means(disk.database, disk.legacy, LastWritten(starts[..i], wrote, first))
      invariant Kept(old(disk.legacy), old(disk.archive), disk.legacy, disk.archive)
    {
      disk.Boot(starts[i].crashAt, starts[i].fails);
      ghost var legacy1, archive1 := disk.legacy, disk.archive;
      var storage := new Storage(disk);
      var out := storage.EnsureReady(starts[i].dir);
      KeptTwice(old(disk.legacy), old(disk.archive), legacy1, archive1, disk.legacy, disk.archive);
      var writes := out.Ready? && disk.Up() && starts[i].written.Some?;
      assert starts[..i + 1] == starts[..i] + [starts[i]];
      OneMoreStart(starts[..i], wrote, first, starts[i], writes);
      if writes {
        disk.database := Some(disk.database.value.(records := starts[i].written.value));
        WrittenMeans(disk.database, disk.legacy, starts[i].written.value);
      }
      outs, wrote := outs + [out], wrote + [writes];
    }
    assert starts[..|starts|] == starts;
  }

  lemma NothingWritten(first: Records)
    ensures LastWritten([], [], first) == first
  {
  }

  /** Files that cannot be imported stay where they are: however often the program is started, there is
  no database, nothing is moved, and no start that keeps its power reports that storage is ready. */
  method RestartsOnBadFiles(disk: Disk, starts: seq<Start>) returns (outs: seq<Outcome>, ghost powered: seq<bool>)
    requires disk.database.None? && !Importable(disk.legacy)
    modifies disk
    ensures disk.database.None? && disk.legacy == old(disk.legacy) && disk.archive == old(disk.archive)
    ensures |outs| == |powered| == |starts| && forall i :: 0 <= i < |starts| && powered[i] ==> outs[i].Raised?
    ensures forall i :: 0 <= i < |starts| && starts[i].crashAt.None? ==> powered[i]
  {
    hide Importable, Means, Kept;
    outs, powered := [], [];
    for i := 0 to |starts|
      invariant disk.database.None? && disk.legacy == old(disk.legacy) && disk.archive == old(disk.archive)
      invariant |outs| == |powered| == i && forall k :: 0 <= k < i && powered[k] ==> outs[k].Raised?
      invariant forall k :: 0 <= k < i && starts[k].crashAt.None? ==> powered[k]
    {
      disk.Boot(starts[i].crashAt, starts[i].fails);
      var storage := new Storage(disk);
      var out := storage.EnsureReady(starts[i].dir);
      outs, powered := outs + [out], powered + [disk.Up()];
    }
  }

  lemma WrittenMeans(database: Option<Db>, legacy: Files, r: Records)
    requires database.Some? && database.value.records == r
    ensures Means(database, legacy, r)
  {
  }

  lemma KeptTwice(l0: Files, a0: map<Archived, Content>, l1: Files, a1: map<Archived, Content>, l2: Files,
      a2: map<Archived, Content>)
    requires Kept(l0, a0, l1, a1) && Kept(l1, a1, l2, a2)
    ensures Kept(l0, a0, l2, a2)
  {
    forall p | p in l0 && p !in l2 ensures exists dir :: Archived(dir, p) in a2 && a2[Archived(dir, p)] == l0[p] {
      if p in l1 {
        var dir :| Archived(dir, p) in a2 && a2[Archived(dir, p)] == l1[p];
        assert a2[Archived(dir, p)] == l0[p];
      } else {
        var dir :| Archived(dir, p) in a1 && a1[Archived(dir, p)] == l0[p];
        assert Archived(dir, p) in a2 && a2[Archived(dir, p)] == l0[p];
      }
    }
  }
}
