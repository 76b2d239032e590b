/** The JSON files of old installations and the records they stand for. */
module LegacyFiles {
  import opened Text

  datatype Kind = GroupFile | UserFile | PeerFile | FirewallFile

  /** `<directory>/<stem>.json` */
  datatype Path = Path(kind: Kind, stem: string)

  /** A rule of a firewall file; the owner may be left out. */
  datatype RuleRow = RuleRow(id: string, owner: string, data: int)

  /** What a file holds once read and validated; `Bad` when it cannot be. The name is that of a
  group, or the bound user of a peer. */
  datatype Content = Bad | One(id: string, name: string, data: int) | Many(rows: seq<RuleRow>)

  type Files = map<Path, Content>

  datatype Key = Key(kind: Kind, id: string)

  datatype Value = Value(owner: string, name: string, data: int)

  type Records = map<Key, Value>

  type Item = (Key, Value)

  // ---------------------------------------------------------- what files mean

  function RowItems(rows: seq<RuleRow>, owner: string): seq<Item> {
    seq(|rows|, i requires 0 <= i < |rows| => (Key(FirewallFile, Strip(rows[i].id)), Value(owner, "", rows[i].data)))
  }

  /** The records of one file; the store strips identifiers. */
  function Items(p: Path, c: Content): seq<Item> {
    match c
    case Bad => []
    case One(id, name, data) => [(Key(p.kind, Strip(id)), Value("", name, data))]
    case Many(rows) => RowItems(rows, p.stem)
  }

  predicate GoodRow(r: RuleRow, owner: string) {
    (r.owner == "" || r.owner == owner) && Strip(r.id) != ""
  }

  /** The file passes the checks that look at it alone. */
  predicate GoodFile(p: Path, c: Content) {
    match c
    case Bad => false
    case One(id, _, _) => !p.kind.FirewallFile? && id == p.stem && Strip(id) != ""
    case Many(rows) => p.kind.FirewallFile? && forall i :: 0 <= i < |rows| ==> GoodRow(rows[i], p.stem)
  }

  ghost predicate IsItem(files: Files, p: Path, i: nat) {
    p in files && i < |Items(p, files[p])|
  }

  function ItemAt(files: Files, p: Path, i: nat): Item
    requires p in files && i < |Items(p, files[p])|
  {
    Items(p, files[p])[i]
  }

  ghost predicate KeysApart(files: Files) {
    forall p, i: nat, q, j: nat ::
      IsItem(files, p, i) && IsItem(files, q, j) && ItemAt(files, p, i).0 == ItemAt(files, q, j).0 ==> p == q && i == j
  }

  /** Two groups of one name, or two peers bound to one user: the tables refuse the second. */
  predicate Clash(a: Item, b: Item) {
    a.0.kind == b.0.kind && (a.0.kind.GroupFile? || a.0.kind.PeerFile?) && a.0 != b.0 && a.1.name == b.1.name
  }

  ghost predicate NamesApart(files: Files) {
    forall p, i: nat, q, j: nat ::
      IsItem(files, p, i) && IsItem(files, q, j) ==> !Clash(ItemAt(files, p, i), ItemAt(files, q, j))
  }

  /** The whole set of files can be imported: each is good, no two records have the same key, and no two
  groups or peers the same name. */
  ghost predicate Importable(files: Files) {
    (forall p :: p in files ==> GoodFile(p, files[p])) && KeysApart(files) && NamesApart(files)
  }

  /** The unique index lets the record in; the record that it overwrites does not count. */
  predicate LetsIn(r: Records, item: Item) {
    forall k :: k in r ==> !Clash((k, r[k]), item)
  }

  /** `r` holds exactly the records of the files. */
  ghost predicate Collects(r: Records, files: Files) {
    && (forall p, i: nat :: IsItem(files, p, i) ==>
        ItemAt(files, p, i).0 in r && r[ItemAt(files, p, i).0] == ItemAt(files, p, i).1)
    && (forall k :: k in r ==> exists p, i: nat :: IsItem(files, p, i) && ItemAt(files, p, i).0 == k)
  }

  ghost predicate StandsFor(files: Files, r: Records) {
    Importable(files) && Collects(r, files)
  }

  /** Files stand for at most one set of records. */
  lemma StandsForOne(files: Files, r: Records, s: Records)
    requires StandsFor(files, r) && StandsFor(files, s)
    ensures r == s
  {
    hide Importable;
    forall k ensures k in r <==> k in s {
      if k in r {
        var p, i: nat :| IsItem(files, p, i) && ItemAt(files, p, i).0 == k;
      }
      if k in s {
        var p, i: nat :| IsItem(files, p, i) && ItemAt(files, p, i).0 == k;
      }
    }
    forall k | k in r ensures r[k] == s[k] {
      var p, i: nat :| IsItem(files, p, i) && ItemAt(files, p, i).0 == k;
    }
  }

  /** The file says so: a single record has its own name and data, a rule belongs to the file it is in. */
  predicate WrittenIn(p: Path, c: Content, k: Key, v: Value) {
    match c
    case Bad => false
    case One(id, name, data) => k == Key(p.kind, Strip(id)) && v == Value("", name, data)
    case Many(rows) =>
      exists i :: 0 <= i < |rows| &&
        k == Key(FirewallFile, Strip(rows[i].id)) && v == Value(p.stem, "", rows[i].data)
  }

  lemma ItemsAreWritten(p: Path, c: Content, k: Key, v: Value)
    ensures WrittenIn(p, c, k, v) <==> exists i: nat :: i < |Items(p, c)| && Items(p, c)[i] == (k, v)
  {
    hide Strip;
    match c {
      case Bad =>
      case One(id, name, data) =>
        assert Items(p, c)[0] == (Key(p.kind, Strip(id)), Value("", name, data));
      case Many(rows) =>
        forall i: nat | i < |rows|
          ensures Items(p, c)[i] == (Key(FirewallFile, Strip(rows[i].id)), Value(p.stem, "", rows[i].data))
        {
        }
        if exists i: nat :: i < |Items(p, c)| && Items(p, c)[i] == (k, v) {
          var i: nat :| i < |Items(p, c)| && Items(p, c)[i] == (k, v);
          assert rows[i].data == v.data;
        }
    }
  }

  /** The records that files stand for are the ones written in them, all of them and with all that they say. */
  lemma RecordsAreWritten(files: Files, r: Records, k: Key, v: Value)
    requires StandsFor(files, r)
    ensures (k in r && r[k] == v) <==> exists p :: p in files && WrittenIn(p, files[p], k, v)
  {
    hide Importable, Items, WrittenIn;
    if k in r && r[k] == v {
      var p, i: nat :| IsItem(files, p, i) && ItemAt(files, p, i).0 == k;
      assert Items(p, files[p])[i] == (k, v);
      ItemsAreWritten(p, files[p], k, v);
    }
    if p :| p in files && WrittenIn(p, files[p], k, v) {
      ItemsAreWritten(p, files[p], k, v);
      var i: nat :| i < |Items(p, files[p])| && Items(p, files[p])[i] == (k, v);
      assert IsItem(files, p, i) && ItemAt(files, p, i) == (k, v);
    }
  }

  // ------------------------------------------------- importing file by file

  function Adding(r: Records, items: seq<Item>): Records {
    if items == [] then r else Adding(r, items[..|items| - 1])[items[|items| - 1].0 := items[|items| - 1].1]
  }

  predicate DistinctItems(items: seq<Item>) {
    forall i, j :: 0 <= i < j < |items| ==> items[i].0 != items[j].0
  }

  lemma {:induction false} AddingContents(r: Records, items: seq<Item>)
    requires DistinctItems(items)
    ensures forall i ::
      0 <= i < |items| ==> items[i].0 in Adding(r, items) && Adding(r, items)[items[i].0] == items[i].1
    ensures forall k :: k in Adding(r, items) ==> k in r || exists i :: 0 <= i < |items| && items[i].0 == k
    ensures forall k :: k in r ==> k in Adding(r, items)
    ensures forall k :: k in r && (forall i :: 0 <= i < |items| ==> items[i].0 != k) ==> Adding(r, items)[k] == r[k]
  {
    if items != [] {
      AddingContents(r, items[..|items| - 1]);
    }
  }

  /** One more file whose keys and names are new. */
  lemma OneMoreFile(files: Files, r: Records, p: Path, c: Content)
    requires StandsFor(files, r) && p !in files && GoodFile(p, c) && DistinctItems(Items(p, c))
    requires forall i :: 0 <= i < |Items(p, c)| ==> Items(p, c)[i].0 !in r && LetsIn(r, Items(p, c)[i])
    ensures StandsFor(files[p := c], Adding(r, Items(p, c)))
  {
    hide Items, GoodFile, Adding, LetsIn, Clash, NamesApart;
    var more := files[p := c];
    AddingContents(r, Items(p, c));
    forall q, i: nat, s, j: nat | IsItem(more, q, i) && IsItem(more, s, j) &&
    ItemAt(more, q, i).0 == ItemAt(more, s, j).0
      ensures q == s && i == j
    {
      if q != p { assert IsItem(files, q, i) && ItemAt(files, q, i) == ItemAt(more, q, i); }
      if s != p { assert IsItem(files, s, j) && ItemAt(files, s, j) == ItemAt(more, s, j); }
    }
    MoreCollected(files, r, p, c);
    NamesStayApart(files, r, p, c);
  }

  lemma NamesStayApart(files: Files, r: Records, p: Path, c: Content)
    requires StandsFor(files, r) && p !in files && GoodFile(p, c)
    requires forall i :: 0 <= i < |Items(p, c)| ==> LetsIn(r, Items(p, c)[i])
    ensures NamesApart(files[p := c])
  {
    hide Items, GoodFile, Clash;
    var more := files[p := c];
    forall q, i: nat, s, j: nat | IsItem(more, q, i) && IsItem(more, s, j)
      ensures !Clash(ItemAt(more, q, i), ItemAt(more, s, j))
    {
      if q != p { assert IsItem(files, q, i) && ItemAt(files, q, i) == ItemAt(more, q, i); }
      if s != p { assert IsItem(files, s, j) && ItemAt(files, s, j) == ItemAt(more, s, j); }
      ClashIsMutual(ItemAt(more, q, i), ItemAt(more, s, j));
      if q == p && s == p {
        NoClashInOneFile(p, c, i, j);
      } else if q != p && s == p {
        assert LetsIn(r, Items(p, c)[j]);
      } else if q == p {
        assert LetsIn(r, Items(p, c)[i]);
      }
    }
  }

  lemma ClashIsMutual(a: Item, b: Item)
    ensures Clash(a, b) <==> Clash(b, a)
  {
  }

  lemma NoClashInOneFile(p: Path, c: Content, i: nat, j: nat)
    requires GoodFile(p, c) && i < |Items(p, c)| && j < |Items(p, c)|
    ensures !Clash(Items(p, c)[i], Items(p, c)[j])
  {
  }

  lemma MoreCollected(files: Files, r: Records, p: Path, c: Content)
    requires Collects(r, files) && p !in files && DistinctItems(Items(p, c))
    requires forall i :: 0 <= i < |Items(p, c)| ==> Items(p, c)[i].0 !in r
    ensures Collects(Adding(r, Items(p, c)), files[p := c])
  {
    hide Items, Adding;
    var more, t := files[p := c], Adding(r, Items(p, c));
    AddingContents(r, Items(p, c));
    forall q, i: nat | IsItem(more, q, i)
      ensures ItemAt(more, q, i).0 in t && t[ItemAt(more, q, i).0] == ItemAt(more, q, i).1
    {
      if q != p { assert IsItem(files, q, i) && ItemAt(files, q, i) == ItemAt(more, q, i); }
    }
    forall k | k in t ensures exists q, i: nat :: IsItem(more, q, i) && ItemAt(more, q, i).0 == k {
      if k in r {
        var q, i: nat :| IsItem(files, q, i) && ItemAt(files, q, i).0 == k;
        assert IsItem(more, q, i) && ItemAt(more, q, i).0 == k;
      } else {
        var i :| 0 <= i < |Items(p, c)| && Items(p, c)[i].0 == k;
        assert IsItem(more, p, i) && ItemAt(more, p, i).0 == k;
      }
    }
  }

  lemma NoFiles()
    ensures StandsFor(map[], map[])
  {
  }

  /** Two group files with one name cannot be imported, however good each of them is. */
  lemma TwoGroupsOfOneName()
    ensures var a, b := Path(GroupFile, "a"), Path(GroupFile, "b");
      var files := map[a := One("a", "office", 0), b := One("b", "office", 0)];
      GoodFile(a, files[a]) && GoodFile(b, files[b]) && KeysApart(files) && !Importable(files)
  {
    StripOfWord("a");
    StripOfWord("b");
    hide Strip;
    var a, b := Path(GroupFile, "a"), Path(GroupFile, "b");
    var files := map[a := One("a", "office", 0), b := One("b", "office", 0)];
    assert IsItem(files, a, 0) && IsItem(files, b, 0);
    assert Clash(ItemAt(files, a, 0), ItemAt(files, b, 0));
  }
}
