/** The `firewall_rules` table: rows by identifier, listed by (priority, owner, identifier), and
replaced owner by owner in one transaction. */
module RuleStore {
  import opened Wrappers
  import opened FirewallModel

  type Table = map<string, Rule>

  ghost predicate WellKeyed(rows: Table) {
    forall k :: k in rows ==> rows[k].id == k
  }

  // ---------------------------------------------------------------- ordering

  /** Binary text order. */
  predicate TextLess(a: string, b: string) {
    b != "" && (a == "" || a[0] < b[0] || (a[0] == b[0] && TextLess(a[1..], b[1..])))
  }

  lemma {:induction false} TextTotal(a: string, b: string)
    ensures TextLess(a, b) || a == b || TextLess(b, a)
    ensures !(TextLess(a, b) && TextLess(b, a)) && !TextLess(a, a)
  {
    if a != "" && b != "" {
      TextTotal(a[1..], b[1..]);
      TextTotal(a[1..], a[1..]);
      assert a == [a[0]] + a[1..] && b == [b[0]] + b[1..];
    } else if a != "" {
      TextTotal(a[1..], a[1..]);
    }
  }

  lemma {:induction false} TextTransitive(a: string, b: string, c: string)
    requires TextLess(a, b) && TextLess(b, c)
    ensures TextLess(a, c)
  {
    if a != "" && a[0] == b[0] && b[0] == c[0] {
      TextTransitive(a[1..], b[1..], c[1..]);
    }
  }

  predicate RowLess(a: Rule, b: Rule) {
    a.priority < b.priority || (a.priority == b.priority &&
      (TextLess(a.ownerId, b.ownerId) || (a.ownerId == b.ownerId && TextLess(a.id, b.id))))
  }

  /** Either text goes on where the other ends, or the first characters that differ decide. */
  lemma {:induction false} TextLessMeans(a: string, b: string)
    ensures TextLess(a, b) <==>
      exists k :: 0 <= k <= |a| && k < |b| && a[..k] == b[..k] && (k == |a| || a[k] < b[k])
  {
    if TextLess(a, b) {
      if a == "" || a[0] < b[0] {
        assert a[..0] == b[..0];
      } else {
        TextLessMeans(a[1..], b[1..]);
        var k :| 0 <= k <= |a[1..]| && k < |b[1..]| && a[1..][..k] == b[1..][..k] &&
          (k == |a[1..]| || a[1..][k] < b[1..][k]);
        assert a[..k + 1] == [a[0]] + a[1..][..k] && b[..k + 1] == [b[0]] + b[1..][..k];
      }
    }
    if k :| 0 <= k <= |a| && k < |b| && a[..k] == b[..k] && (k == |a| || a[k] < b[k]) {
      if k > 0 {
        assert a[..k][0] == b[..k][0];
        assert a[1..][..k - 1] == a[..k][1..] == b[..k][1..] == b[1..][..k - 1];
        TextLessMeans(a[1..], b[1..]);
      }
    }
  }

  lemma RowOrder(a: Rule, b: Rule, c: Rule)
    ensures a.id != b.id ==> RowLess(a, b) || RowLess(b, a)
    ensures !(RowLess(a, b) && RowLess(b, a)) && !RowLess(a, a)
    ensures RowLess(a, b) && RowLess(b, c) ==> RowLess(a, c)
  {
    hide TextLess;
    TextTotal(a.ownerId, b.ownerId);
    TextTotal(a.id, b.id);
    TextTotal(a.id, a.id);
    TextTotal(a.ownerId, a.ownerId);
    if TextLess(a.ownerId, b.ownerId) && TextLess(b.ownerId, c.ownerId) {
      TextTransitive(a.ownerId, b.ownerId, c.ownerId);
    }
    if TextLess(a.id, b.id) && TextLess(b.id, c.id) { TextTransitive(a.id, b.id, c.id); }
  }

  ghost predicate SortedRows(s: seq<Rule>) {
    forall i, j :: 0 <= i < j < |s| ==> RowLess(s[i], s[j])
  }

  /** `s` lists exactly the rows of the table, in order. */
  ghost predicate IsListing(s: seq<Rule>, rows: Table) {
    && SortedRows(s)
    && (forall r :: r in s ==> r.id in rows && rows[r.id] == r)
    && (forall k :: k in rows ==> rows[k] in s)
  }

  lemma HeadIsElsewhere(s: seq<Rule>, r: Rule)
    requires SortedRows(s) && s != []
    ensures r in s[1..] <==> r in s && r != s[0]
  {
    hide RowLess;
    assert s == [s[0]] + s[1..];
    if r in s[1..] {
      var k :| 0 <= k < |s[1..]| && s[1..][k] == r;
      assert RowLess(s[0], s[k + 1]);
      RowOrder(s[0], s[0], s[0]);
    }
  }

  lemma {:induction false} ListingIsUnique(a: seq<Rule>, b: seq<Rule>)
    requires SortedRows(a) && SortedRows(b) && forall r :: r in a <==> r in b
    ensures a == b
  {
    hide RowLess;
    assert |a| > 0 ==> a[0] in b;
    assert |b| > 0 ==> b[0] in a;
    if a != [] {
      var i :| 0 <= i < |b| && b[i] == a[0];
      var j :| 0 <= j < |a| && a[j] == b[0];
      RowOrder(a[0], b[0], a[0]);
      assert i == 0;
      var ra, rb := a[1..], b[1..];
      assert a == [a[0]] + ra && b == [b[0]] + rb;
      forall r ensures r in ra <==> r in rb {
        HeadIsElsewhere(a, r);
        HeadIsElsewhere(b, r);
      }
      ListingIsUnique(ra, rb);
    }
  }

  function InsertRow(r: Rule, s: seq<Rule>): seq<Rule> {
    if s == [] then [r] else if RowLess(r, s[0]) then [r] + s else [s[0]] + InsertRow(r, s[1..])
  }

  lemma {:induction false} InsertRowSorted(r: Rule, s: seq<Rule>)
    requires SortedRows(s) && forall x :: x in s ==> x.id != r.id
    ensures SortedRows(InsertRow(r, s))
    ensures forall x :: x in InsertRow(r, s) <==> x == r || x in s
  {
    hide RowLess;
    if s != [] {
      assert s[0] in s;
      RowOrder(r, s[0], r);
      var rest := s[1..];
      assert s == [s[0]] + rest;
      if RowLess(r, s[0]) {
        forall j | 0 <= j < |s| ensures RowLess(r, s[j]) {
          if j > 0 { RowOrder(r, s[0], s[j]); }
        }
      } else {
        assert forall x :: x in rest ==> x in s;
        InsertRowSorted(r, rest);
        var t := InsertRow(r, rest);
        forall j | 0 <= j < |t| ensures RowLess(s[0], t[j]) {
          assert t[j] in t;
          if t[j] != r { var k :| 0 <= k < |rest| && rest[k] == t[j]; assert RowLess(s[0], s[k + 1]); }
        }
      }
    }
  }

  /** `SELECT ... ORDER BY priority, owner_id, id` */
  method ListRows(rows: Table) returns (s: seq<Rule>)
    requires WellKeyed(rows)
    ensures s == Listing(rows)
  {
    hide SortedRows, RowLess, InsertRow;
    s := [];
    EmptySorted();
    var left := rows.Keys;
    while left != {}
      invariant left <= rows.Keys
      invariant SortedRows(s)
      invariant forall r :: r in s <==> r.id in rows.Keys - left && rows[r.id] == r
      decreases left
    {
      var k :| k in left;
      InsertRowSorted(rows[k], s);
      s := InsertRow(rows[k], s);
      left := left - {k};
    }
    ListingIsUnique(s, Listing(rows));
  }

  lemma EmptySorted()
    ensures SortedRows([])
  {
  }

  lemma {:induction false} ListingExists(rows: Table)
    requires WellKeyed(rows)
    ensures exists s :: IsListing(s, rows)
    decreases |rows|
  {
    hide SortedRows, RowLess, InsertRow;
    if rows == map[] {
      EmptySorted();
      assert IsListing([], rows);
    } else {
      var k :| k in rows;
      var fewer := rows - {k};
      assert |fewer| < |rows| by { assert fewer.Keys == rows.Keys - {k}; }
      ListingExists(fewer);
      var s :| IsListing(s, fewer);
      forall r: Rule | r in s ensures r.id != k { assert r.id in fewer; }
      InsertRowSorted(rows[k], s);
      forall j | j in rows ensures rows[j] in InsertRow(rows[k], s) {
        if j != k { assert fewer[j] in s; }
      }
      assert IsListing(InsertRow(rows[k], s), rows);
    }
  }

  ghost function Listing(rows: Table): (s: seq<Rule>)
    requires WellKeyed(rows)
    ensures IsListing(s, rows)
  {
    ListingExists(rows);
    var s :| IsListing(s, rows);
    s
  }

  /** The listing goes by priority, then by owner, then by identifier. */
  lemma ListingGoes(rows: Table, i: nat, j: nat)
    requires WellKeyed(rows) && i < j < |Listing(rows)|
    ensures var a, b := Listing(rows)[i], Listing(rows)[j];
      && a.priority <= b.priority
      && (a.priority == b.priority ==> a.ownerId == b.ownerId || TextLess(a.ownerId, b.ownerId))
      && (a.priority == b.priority && a.ownerId == b.ownerId ==> TextLess(a.id, b.id))
  {
    hide TextLess;
    assert RowLess(Listing(rows)[i], Listing(rows)[j]);
    TextTotal(Listing(rows)[i].ownerId, Listing(rows)[j].ownerId);
  }

  // ------------------------------------------------------------------ owners

  function OwnedBy(s: seq<Rule>, owner: string): seq<Rule> {
    if s == [] then []
    else OwnedBy(s[..|s| - 1], owner) + (if s[|s| - 1].ownerId == owner then [s[|s| - 1]] else [])
  }

  lemma {:induction false} OwnedByMembers(s: seq<Rule>, owner: string)
    ensures forall r :: r in OwnedBy(s, owner) <==> r in s && r.ownerId == owner
  {
    if s != [] {
      OwnedByMembers(s[..|s| - 1], owner);
      assert s == s[..|s| - 1] + [s[|s| - 1]];
    }
  }

  lemma {:induction false} OwnedBySorted(s: seq<Rule>, owner: string)
    requires SortedRows(s)
    ensures SortedRows(OwnedBy(s, owner))
  {
    hide RowLess;
    if s != [] {
      var front, last := s[..|s| - 1], s[|s| - 1];
      OwnedBySorted(front, owner);
      OwnedByMembers(front, owner);
      var o := OwnedBy(front, owner);
      forall i | 0 <= i < |o| ensures RowLess(o[i], last) {
        assert o[i] in o;
        var k :| 0 <= k < |front| && front[k] == o[i];
        assert RowLess(s[k], s[|s| - 1]);
      }
    }
  }

  predicate OwnerExists(rows: Table, owner: string) {
    exists k :: k in rows && rows[k].ownerId == owner
  }

  function WithoutOwner(rows: Table, owner: string): Table {
    map k | k in rows && rows[k].ownerId != owner :: rows[k]
  }

  function AsTable(list: seq<Rule>): Table {
    if list == [] then map[] else AsTable(list[..|list| - 1])[list[|list| - 1].id := list[|list| - 1]]
  }

  predicate DistinctIds(list: seq<Rule>) {
    forall i, j :: 0 <= i < j < |list| ==> list[i].id != list[j].id
  }

  /** `replace_firewall_owner` in one transaction: the owner's rows go, the given rows are inserted. A
  blank or already present identifier aborts the whole transaction. */
  function ReplaceOwner(rows: Table, owner: string, list: seq<Rule>): Option<Table> {
    var rest := WithoutOwner(rows, owner);
    if DistinctIds(list) && (forall r :: r in list ==> r.id != "" && r.id !in rest)
    then Some(rest + AsTable(list))
    else None
  }

  lemma {:induction false} AsTableContents(list: seq<Rule>)
    requires DistinctIds(list)
    ensures WellKeyed(AsTable(list))
    ensures forall k :: k in AsTable(list) <==> exists r :: r in list && r.id == k
    ensures forall r :: r in list ==> r.id in AsTable(list) && AsTable(list)[r.id] == r
  {
    if list != [] {
      var front, last := list[..|list| - 1], list[|list| - 1];
      assert list == front + [last];
      AsTableContents(front);
      forall r | r in front ensures r.id != last.id {
        var i :| 0 <= i < |front| && front[i] == r;
        assert list[i].id != list[|list| - 1].id;
      }
      hide DistinctIds, AsTable;
      assert AsTable(list) == AsTable(front)[last.id := last] by { LastOfTable(front, last); }
    }
  }

  lemma LastOfTable(front: seq<Rule>, last: Rule)
    ensures AsTable(front + [last]) == AsTable(front)[last.id := last]
  {
    assert (front + [last])[..|front|] == front;
  }

  ghost function OwnerRows(rows: Table, owner: string): seq<Rule>
    requires WellKeyed(rows)
  {
    OwnedBy(Listing(rows), owner)
  }

  lemma OwnerRowsAre(rows: Table, owner: string)
    requires WellKeyed(rows)
    ensures DistinctIds(OwnerRows(rows, owner))
    ensures forall r :: r in OwnerRows(rows, owner) <==> r.id in rows && rows[r.id] == r && r.ownerId == owner
  {
    hide RowLess;
    var s := Listing(rows);
    OwnedByMembers(s, owner);
    OwnedBySorted(s, owner);
    var o := OwnerRows(rows, owner);
    forall i, j | 0 <= i < j < |o| ensures o[i].id != o[j].id {
      assert o[i] in o && o[j] in o;
      RowOrder(o[i], o[j], o[i]);
      assert RowLess(o[i], o[j]);
    }
  }

  function OnlyOwner(rows: Table, owner: string): Table {
    map k | k in rows && rows[k].ownerId == owner :: rows[k]
  }

  lemma SnapshotTable(rows: Table, owner: string)
    requires WellKeyed(rows)
    ensures AsTable(OwnerRows(rows, owner)) == OnlyOwner(rows, owner)
  {
    var snap := OwnerRows(rows, owner);
    OwnerRowsAre(rows, owner);
    AsTableContents(snap);
    hide OwnerRows, DistinctIds, AsTable;
    var t, o := AsTable(snap), OnlyOwner(rows, owner);
    forall k | k in o ensures k in t && t[k] == o[k] {
      assert rows[k] in snap;
    }
    assert forall k :: k in t ==> k in o;
  }

  lemma OwnerSplit(rows: Table, owner: string)
    ensures WithoutOwner(rows, owner) + OnlyOwner(rows, owner) == rows
  {
  }

  /** Putting an owner's snapshot back restores the table, whatever the owner's rows became in the
  meantime, as long as the other owners' rows are untouched. */
  lemma SnapshotRestores(before: Table, after: Table, owner: string)
    requires WellKeyed(before) && (forall k :: k in before ==> k != "")
    requires WithoutOwner(after, owner) == WithoutOwner(before, owner)
    ensures ReplaceOwner(after, owner, OwnerRows(before, owner)) == Some(before)
  {
    hide OwnerRows, DistinctIds, AsTable, OnlyOwner;
    OwnerRowsAre(before, owner);
    SnapshotTable(before, owner);
    OwnerSplit(before, owner);
  }
}
