/** The files that a migration touches, on a machine that can lose power between any two steps and
whose file system can refuse any single one. */
module StorageDisk {
  import opened Wrappers
  import opened LegacyFiles

  /** A SQLite file. `marked` is the `storage_backend` entry. */
  datatype Db = Db(schemaOk: bool, marked: bool, records: Records)

  datatype Archived = Archived(dir: string, path: Path)

  class Disk {
    var database: Option<Db>
    var temp: Option<Db>  // the `.migrating` file
    var legacy: Files
    var archive: map<Archived, Content>

    var clock: nat  // steps since boot
    var crashAt: Option<nat>  // the step at which the power goes; it and later ones have no effect
    var fails: nat -> bool  // steps that raise, without effect

    constructor (legacy: Files)
      ensures database == None && temp == None && this.legacy == legacy && archive == map[]
    {
      database, temp, this.legacy, archive := None, None, legacy, map[];
      clock, crashAt, fails := 0, None, _ => false;
    }

    /** The power was on at every step so far. */
    predicate Up()
      reads this`clock, this`crashAt
    {
      crashAt.None? || clock <= crashAt.value
    }

    /** Nothing raises from here on, and the power stays on. */
    ghost predicate Undisturbed()
      reads this`clock, this`crashAt, this`fails
    {
      crashAt.None? && forall n :: n >= clock ==> !fails(n)
    }

    method Boot(crashAt: Option<nat>, fails: nat -> bool)
      modifies this`clock, this`crashAt, this`fails
      ensures clock == 0 && this.crashAt == crashAt && this.fails == fails
    {
      clock, this.crashAt, this.fails := 0, crashAt, fails;
    }

    /** The next step does what it is meant to do. */
    predicate Works()
      reads this`clock, this`crashAt, this`fails
    {
      PoweredAt(clock) && !fails(clock)
    }

    predicate PoweredAt(n: nat)
      reads this`crashAt
    {
      crashAt.None? || n < crashAt.value
    }

    /** One step. `effect`: it takes effect. `ok`: it does not raise; after the power is gone nobody
    is there to see. */
    method Step() returns (effect: bool, ok: bool)
      modifies this`clock
      ensures clock == old(clock) + 1
      ensures effect == old(Works()) && (ok <==> effect || !PoweredAt(old(clock)))
      ensures old(Undisturbed()) ==> effect && Undisturbed()
    {
      effect := Works();
      ok := effect || !PoweredAt(clock);
      clock := clock + 1;
    }

    /** A step of which nothing remains to be seen here: checkpoint, sidecar files, permissions. */
    method Touch() returns (ok: bool)
      modifies this`clock
      ensures clock == old(clock) + 1 && (old(Undisturbed()) ==> ok && Undisturbed())
    {
      var effect;
      effect, ok := Step();
    }

    method DropTemp() returns (ok: bool)
      modifies this`clock, this`temp
      ensures clock == old(clock) + 1 && (old(Undisturbed()) ==> ok && Undisturbed())
      ensures temp == if old(Works()) then None else old(temp)
      ensures ok && Up() ==> old(Works())
    {
      var effect;
      effect, ok := Step();
      if effect {
        temp := None;
      }
    }

    method CreateTemp() returns (ok: bool)
      modifies this`clock, this`temp
      ensures clock == old(clock) + 1 && (old(Undisturbed()) ==> ok && Undisturbed())
      ensures ok && Up() ==> temp == Some(Db(true, false, map[]))
    {
      var effect;
      effect, ok := Step();
      if effect {
        temp := Some(Db(true, false, map[]));
      }
    }

    /** Insert or overwrite one record; another record with its name makes the store raise. */
    method Put(item: Item) returns (ok: bool)
      modifies this`clock, this`temp
      ensures clock == old(clock) + 1
      ensures old(Undisturbed()) ==> Undisturbed() && (old(temp).Some? && LetsIn(old(temp).value.records, item) ==> ok)
      ensures ok && Up() && old(temp).Some? ==> LetsIn(old(temp).value.records, item)
      ensures ok && Up() && old(temp).Some? ==>
        temp == Some(old(temp).value.(records := old(temp).value.records[item.0 := item.1]))
    {
      var effect;
      effect, ok := Step();
      if effect && temp.Some? {
        if LetsIn(temp.value.records, item) {
          temp := Some(temp.value.(records := temp.value.records[item.0 := item.1]));
        } else {
          ok := false;
        }
      }
    }

    /** Insert rows in one transaction; a key that is already there, or twice in the rows, aborts it. */
    method InsertAll(items: seq<Item>) returns (ok: bool)
      modifies this`clock, this`temp
      ensures clock == old(clock) + 1
      ensures old(Undisturbed()) ==>
        Undisturbed() && (old(temp).Some? && Insertable(old(temp).value.records, items) ==> ok)
      ensures ok && Up() && old(temp).Some? ==>
        Insertable(old(temp).value.records, items) &&
        temp == Some(old(temp).value.(records := Adding(old(temp).value.records, items)))
    {
      var effect;
      effect, ok := Step();
      if effect && temp.Some? {
        if Insertable(temp.value.records, items) {
          temp := Some(temp.value.(records := Adding(temp.value.records, items)));
        } else {
          ok := false;
        }
      }
    }

    method MarkTemp() returns (ok: bool)
      modifies this`clock, this`temp
      ensures clock == old(clock) + 1 && (old(Undisturbed()) ==> ok && Undisturbed())
      ensures ok && Up() && old(temp).Some? ==> temp == Some(old(temp).value.(marked := true))
    {
      var effect;
      effect, ok := Step();
      if effect && temp.Some? {
        temp := Some(temp.value.(marked := true));
      }
    }

    /** `os.replace`: one atomic rename. */
    method ReplaceDatabase() returns (ok: bool)
      modifies this`clock, this`temp, this`database
      ensures clock == old(clock) + 1 && (old(Undisturbed()) && old(temp).Some? ==> ok && Undisturbed())
      ensures database == if old(Works()) && old(temp).Some? then old(temp) else old(database)
      ensures old(Up()) && ok && Up() ==> old(Works()) && old(temp).Some?
    {
      var effect;
      effect, ok := Step();
      if effect {
        if temp.Some? {
          database, temp := temp, None;
        } else {
          ok := false;
        }
      }
    }

    /** Create a new archive directory; one that exists already is refused. */
    method MakeArchive(dir: string) returns (ok: bool)
      modifies this`clock
      ensures clock == old(clock) + 1
      ensures old(Undisturbed()) ==> Undisturbed() && (ok <==> forall p :: Archived(dir, p) !in archive)
      ensures ok && Up() ==> forall p :: Archived(dir, p) !in archive
    {
      var effect;
      effect, ok := Step();
      if exists a :: a in archive && a.dir == dir {
        ok := !Up();
      }
    }

    /** Move one file into the archive, in one rename. */
    method Move(dir: string, p: Path) returns (ok: bool)
      requires p in legacy
      modifies this`clock, this`legacy, this`archive
      ensures clock == old(clock) + 1 && (old(Undisturbed()) ==> ok && Undisturbed())
      ensures
        if old(Works()) then legacy == old(legacy) - {p} && archive == old(archive)[Archived(dir, p) := old(legacy)[p]]
        else legacy == old(legacy) && archive == old(archive)
      ensures ok && Up() ==> old(Works())
    {
      var effect;
      effect, ok := Step();
      if effect {
        archive := archive[Archived(dir, p) := legacy[p]];
        legacy := legacy - {p};
      }
    }
  }

  predicate Insertable(r: Records, items: seq<Item>) {
    DistinctItems(items) && forall i :: 0 <= i < |items| ==> items[i].0 !in r
  }
}
