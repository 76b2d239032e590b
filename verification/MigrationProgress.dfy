/** How far an import has come: which files are in, and whether a record was overwritten on the way. */
module MigrationProgress {
  import opened LegacyFiles
  import opened StorageDisk

  datatype Counts = Counts(groups: nat, users: nat, peers: nat, rules: nat)

  function Of(c: Counts, kind: Kind): nat {
    match kind
    case GroupFile => c.groups
    case UserFile => c.users
    case PeerFile => c.peers
    case FirewallFile => c.rules
  }

  function Plus(c: Counts, kind: Kind, n: nat): (r: Counts)
    ensures forall k :: Of(r, k) == Of(c, k) + if k == kind then n else 0
  {
    match kind
    case GroupFile => c.(groups := c.groups + n)
    case UserFile => c.(users := c.users + n)
    case PeerFile => c.(peers := c.peers + n)
    case FirewallFile => c.(rules := c.rules + n)
  }

  function KeysOf(r: Records, kind: Kind): set<Key> {
    set k | k in r && k.kind == kind
  }

  predicate CountsMatch(r: Records, c: Counts) {
    forall kind :: |KeysOf(r, kind)| == Of(c, kind)
  }

  /** The imported files are part of all files. While nothing was overwritten the records are theirs;
  once something was, some count is too large for the records, and the files are not importable. */
  ghost predicate Progress(files: Files, done: Files, r: Records, c: Counts, lossless: bool) {
    && (forall p :: p in done ==> p in files && done[p] == files[p])
    && (forall kind :: |KeysOf(r, kind)| <= Of(c, kind))
    && (lossless ==> StandsFor(done, r) && CountsMatch(r, c))
    && (!lossless ==> !Importable(files) && !CountsMatch(r, c))
  }

  lemma PutCounts(r: Records, item: Item, kind: Kind)
    ensures |KeysOf(r[item.0 := item.1], kind)| ==
      |KeysOf(r, kind)| + if item.0.kind == kind && item.0 !in r then 1 else 0
  {
    var r' := r[item.0 := item.1];
    if item.0.kind == kind && item.0 !in r {
      assert KeysOf(r', kind) == KeysOf(r, kind) + {item.0};
    } else {
      assert KeysOf(r', kind) == KeysOf(r, kind);
    }
  }

  lemma {:induction false} AddingCounts(r: Records, items: seq<Item>, own: Kind, kind: Kind)
    requires Insertable(r, items) && forall i :: 0 <= i < |items| ==> items[i].0.kind == own
    ensures |KeysOf(Adding(r, items), kind)| == |KeysOf(r, kind)| + if kind == own then |items| else 0
  {
    if items != [] {
      var front, last := items[..|items| - 1], items[|items| - 1];
      AddingCounts(r, front, own, kind);
      AddingContents(r, front);
      PutCounts(Adding(r, front), last, kind);
    }
  }

  /** A record that is already there comes from another file, or from another row. */
  lemma Collision(files: Files, done: Files, r: Records, p: Path, i: nat)
    requires Collects(r, done) && (forall q :: q in done ==> q in files && done[q] == files[q])
    requires p in files && p !in done && IsItem(files, p, i) && ItemAt(files, p, i).0 in r
    ensures !Importable(files)
  {
    hide Items, GoodFile;
    var k := ItemAt(files, p, i).0;
    var q, j: nat :| IsItem(done, q, j) && ItemAt(done, q, j).0 == k;
    assert IsItem(files, q, j) && ItemAt(files, q, j).0 == k && q != p;
  }

  lemma Overlap(files: Files, p: Path)
    requires p in files && !DistinctItems(Items(p, files[p]))
    ensures !Importable(files)
  {
    hide Items, GoodFile;
    var items := Items(p, files[p]);
    var i: nat, j: nat :| i < j < |items| && items[i].0 == items[j].0;
    assert IsItem(files, p, i) && IsItem(files, p, j);
    assert ItemAt(files, p, i).0 == ItemAt(files, p, j).0;
  }

  lemma BadFileBlocks(files: Files, p: Path)
    requires p in files && !GoodFile(p, files[p])
    ensures !Importable(files)
  {
  }

  /** Importing a file that holds one record. */
  lemma OneRecordIn(files: Files, done: Files, r: Records, c: Counts, lossless: bool, p: Path)
    requires Progress(files, done, r, c, lossless) && p in files && p !in done
    requires GoodFile(p, files[p]) && files[p].One? && LetsIn(r, Items(p, files[p])[0])
    ensures var item := Items(p, files[p])[0];
      item.0.kind == p.kind &&
      Progress(files, done[p := files[p]], r[item.0 := item.1], Plus(c, p.kind, 1), lossless && item.0 !in r)
  {
    hide GoodFile, StandsFor, Collects, Importable, KeysOf, Adding, LetsIn;
    var item, file := Items(p, files[p])[0], files[p];
    var r', c' := r[item.0 := item.1], Plus(c, p.kind, 1);
    forall kind { PutCounts(r, item, kind); }
    assert item.0.kind == p.kind;
    if lossless && item.0 !in r {
      assert Adding(r, Items(p, file)) == r' by { OneItem(r, item, Items(p, file)); }
      OneMoreFile(done, r, p, file);
    } else {
      if lossless {
        assert ItemAt(files, p, 0) == item && Collects(r, done) by { StandsForCollects(done, r); }
        Collision(files, done, r, p, 0);
      }
      StillTooFew(r, c, r', c', p.kind, lossless);
    }
  }

  /** A record that the unique index refuses shows that the files cannot be imported. */
  lemma NameRefused(files: Files, done: Files, r: Records, c: Counts, lossless: bool, p: Path)
    requires Progress(files, done, r, c, lossless) && p in files
    requires GoodFile(p, files[p]) && files[p].One? && !LetsIn(r, Items(p, files[p])[0])
    ensures !Importable(files)
  {
    hide Items, GoodFile, Clash, CountsMatch;
    OneItemOnly(p, files[p]);
    if lossless {
      var item := Items(p, files[p])[0];
      var k :| k in r && Clash((k, r[k]), item);
      var q, j: nat :| IsItem(done, q, j) && ItemAt(done, q, j).0 == k;
      assert IsItem(files, p, 0) && IsItem(files, q, j) && ItemAt(files, q, j) == (k, r[k]);
      assert Clash(ItemAt(files, q, j), ItemAt(files, p, 0));
    }
  }

  lemma OneItemOnly(p: Path, c: Content)
    requires c.One?
    ensures |Items(p, c)| == 1
  {
  }

  lemma StandsForCollects(files: Files, r: Records)
    requires StandsFor(files, r)
    ensures Collects(r, files)
  {
  }

  lemma OneItem(r: Records, item: Item, items: seq<Item>)
    requires items == [item]
    ensures Adding(r, items) == r[item.0 := item.1]
  {
    assert items[..0] == [];
  }

  lemma StillTooFew(r: Records, c: Counts, r': Records, c': Counts, own: Kind, lossless: bool)
    requires forall kind :: |KeysOf(r, kind)| <= Of(c, kind)
    requires c' == Plus(c, own, 1)
    requires forall kind :: |KeysOf(r', kind)| <= |KeysOf(r, kind)| + if kind == own then 1 else 0
    requires lossless ==> |KeysOf(r', own)| == |KeysOf(r, own)|
    requires !lossless ==> !CountsMatch(r, c)
    ensures !CountsMatch(r', c')
  {
    if lossless {
      assert |KeysOf(r', own)| < Of(c', own);
    } else {
      var kind :| |KeysOf(r, kind)| != Of(c, kind);
      assert |KeysOf(r', kind)| < Of(c', kind);
    }
  }

  /** Importing a file of rules, whose keys are all new. */
  lemma RowsIn(files: Files, done: Files, r: Records, c: Counts, lossless: bool, p: Path)
    requires Progress(files, done, r, c, lossless) && p in files && p !in done
    requires GoodFile(p, files[p]) && files[p].Many? && Insertable(r, Items(p, files[p]))
    ensures Progress(files, done[p := files[p]], Adding(r, Items(p, files[p])),
      Plus(c, FirewallFile, |Items(p, files[p])|), lossless)
  {
    hide GoodFile, Adding, StandsFor, Collects, Importable, KeysOf, LetsIn;
    RowsHaveNoName(r, p, files[p]);
    var file := files[p];
    var items := Items(p, file);
    forall kind { AddingCounts(r, items, FirewallFile, kind); }
    if lossless {
      OneMoreFile(done, r, p, file);
    } else {
      var kind :| |KeysOf(r, kind)| != Of(c, kind);
      assert |KeysOf(Adding(r, items), kind)| != Of(Plus(c, FirewallFile, |items|), kind);
    }
  }

  lemma RowsHaveNoName(r: Records, p: Path, c: Content)
    requires c.Many?
    ensures forall i :: 0 <= i < |Items(p, c)| ==> LetsIn(r, Items(p, c)[i])
  {
  }

  /** Rows that the table refuses show that the files cannot be imported. */
  lemma RowsRefused(files: Files, done: Files, r: Records, c: Counts, lossless: bool, p: Path)
    requires Progress(files, done, r, c, lossless) && p in files && p !in done
    requires !Insertable(r, Items(p, files[p]))
    ensures !Importable(files)
  {
    hide Items, GoodFile;
    if !DistinctItems(Items(p, files[p])) {
      Overlap(files, p);
    } else if lossless {
      var i: nat :| i < |Items(p, files[p])| && Items(p, files[p])[i].0 in r;
      assert ItemAt(files, p, i).0 in r;
      Collision(files, done, r, p, i);
    }
  }

  lemma NothingIn(files: Files)
    ensures Progress(files, map[], map[], Counts(0, 0, 0, 0), true)
  {
    NoFiles();
    forall kind: Kind ensures KeysOf(map[], kind) == {} { }
  }
}
