/** What each kind of edit to one owner's rows makes of the whole table. */
module RuleEdits {
  import opened Wrappers
  import opened FirewallModel
  import opened RuleStore

  ghost predicate OwnRows(list: seq<Rule>, owner: string) {
    forall r :: r in list ==> r.ownerId == owner
  }

  /** A list of the owner's rows, changed in any way that keeps identifiers apart, becomes the table
  that has these rows and the other owners' rows. */
  lemma ReplacedValue(rows: Table, owner: string, list: seq<Rule>, target: Table)
    requires DistinctIds(list) && forall r :: r in list ==> r.id != "" && r.id !in WithoutOwner(rows, owner)
    requires forall r :: r in list ==> r.id in target && target[r.id] == r
    requires forall k :: k in WithoutOwner(rows, owner) ==> k in target && target[k] == rows[k]
    requires forall k :: k in target ==> k in WithoutOwner(rows, owner) || exists r :: r in list && r.id == k
    ensures ReplaceOwner(rows, owner, list) == Some(target)
  {
    hide DistinctIds, AsTable;
    AsTableContents(list);
    var v := WithoutOwner(rows, owner) + AsTable(list);
    forall k ensures k in v <==> k in target { }
    assert v == target;
  }

  lemma PointUpdate(rows: Table, rid: string, own: seq<Rule>, idx: nat, r: Rule)
    requires WellKeyed(rows) && (forall k :: k in rows ==> k != "") && rid in rows && r.id == rid
    requires own == OwnerRows(rows, rows[rid].ownerId) && idx < |own| && own[idx].id == rid
    ensures ReplaceOwner(rows, rows[rid].ownerId, own[idx := r]) == Some(rows[rid := r])
    ensures forall x :: x in own[idx := r] ==> x == r || x in own
  {
    hide ReplaceOwner, OwnerRows;
    var owner, list, target := rows[rid].ownerId, own[idx := r], rows[rid := r];
    OwnerRowsAre(rows, owner);
    forall x | x in list
      ensures x.id != "" && x.id !in WithoutOwner(rows, owner) && x.id in target && target[x.id] == x
    {
      var j :| 0 <= j < |list| && list[j] == x;
      assert own[j] in own;
    }
    forall k | k in target ensures k in WithoutOwner(rows, owner) || exists x :: x in list && x.id == k {
      if rows[k].ownerId == owner {
        var j :| 0 <= j < |own| && own[j] == rows[k];
        assert list[j] in list && list[j].id == k;
      }
    }
    ReplacedValue(rows, owner, list, target);
  }

  lemma PointRemoval(rows: Table, rid: string, own: seq<Rule>, idx: nat)
    requires WellKeyed(rows) && (forall k :: k in rows ==> k != "") && rid in rows
    requires own == OwnerRows(rows, rows[rid].ownerId) && idx < |own| && own[idx].id == rid
    ensures ReplaceOwner(rows, rows[rid].ownerId, own[..idx] + own[idx + 1..]) == Some(rows - {rid})
    ensures forall x :: x in own[..idx] + own[idx + 1..] ==> x in own
  {
    hide ReplaceOwner, OwnerRows;
    var owner, list, target := rows[rid].ownerId, own[..idx] + own[idx + 1..], rows - {rid};
    OwnerRowsAre(rows, owner);
    forall j | 0 <= j < |list| ensures list[j] in own && list[j].id != rid {
      assert list[j] == if j < idx then own[j] else own[j + 1];
    }
    forall k | k in target ensures k in WithoutOwner(rows, owner) || exists x :: x in list && x.id == k {
      if rows[k].ownerId == owner {
        var j :| 0 <= j < |own| && own[j] == rows[k];
        assert list[if j < idx then j else j - 1] == own[j];
      }
    }
    ReplacedValue(rows, owner, list, target);
  }

  /** Appending rules to their owner's rows is accepted exactly when the identifiers are new, and then
  the table gains exactly those rules. */
  lemma AppendRow(rows: Table, owner: string, extra: seq<Rule>)
    requires WellKeyed(rows) && (forall k :: k in rows ==> k != "") && OwnRows(extra, owner)
    ensures ReplaceOwner(rows, owner, OwnerRows(rows, owner) + extra) ==
      if DistinctIds(extra) && forall r :: r in extra ==> r.id != "" && r.id !in rows then Some(rows + AsTable(extra))
      else None
  {
    hide OwnerRows, DistinctIds, AsTable, WithoutOwner, OnlyOwner;
    AppendIds(rows, owner, extra);
    AsTableAppend(OwnerRows(rows, owner), extra);
    SnapshotTable(rows, owner);
    OwnerSplit(rows, owner);
    PlusAssociates(WithoutOwner(rows, owner), OnlyOwner(rows, owner), AsTable(extra));
  }

  lemma AppendIds(rows: Table, owner: string, extra: seq<Rule>)
    requires WellKeyed(rows) && (forall k :: k in rows ==> k != "") && OwnRows(extra, owner)
    ensures var own, rest := OwnerRows(rows, owner), WithoutOwner(rows, owner);
      (DistinctIds(own + extra) && forall r :: r in own + extra ==> r.id != "" && r.id !in rest) <==>
      (DistinctIds(extra) && forall r :: r in extra ==> r.id != "" && r.id !in rows)
  {
    hide OwnerRows;
    var own, rest := OwnerRows(rows, owner), WithoutOwner(rows, owner);
    OwnerRowsAre(rows, owner);
    var all := own + extra;
    if DistinctIds(all) && forall r :: r in all ==> r.id != "" && r.id !in rest {
      forall i, j | 0 <= i < j < |extra| ensures extra[i].id != extra[j].id {
        assert all[|own| + i].id != all[|own| + j].id;
      }
      forall r | r in extra ensures r.id != "" && r.id !in rows {
        assert r in all;
        if r.id in rows && rows[r.id].ownerId == owner {
          OwnIdNotAgain(own, extra, rows[r.id], r);
        }
      }
    }
    if DistinctIds(extra) && forall r :: r in extra ==> r.id != "" && r.id !in rows {
      forall i, j | 0 <= i < j < |all| ensures all[i].id != all[j].id {
        if i < |own| { assert own[i] in own; }
        if j >= |own| { assert extra[j - |own|] in extra; }
      }
    }
  }

  lemma OwnIdNotAgain(own: seq<Rule>, extra: seq<Rule>, a: Rule, b: Rule)
    requires DistinctIds(own + extra) && a in own && b in extra
    ensures a.id != b.id
  {
    var i :| 0 <= i < |own| && own[i] == a;
    var j :| 0 <= j < |extra| && extra[j] == b;
    assert (own + extra)[i].id != (own + extra)[|own| + j].id;
  }

  lemma {:induction false} AsTableAppend(a: seq<Rule>, b: seq<Rule>)
    ensures AsTable(a + b) == AsTable(a) + AsTable(b)
  {
    if b == [] {
      assert a + b == a;
    } else {
      var n := |b| - 1;
      AsTableAppend(a, b[..n]);
      assert (a + b)[..|a + b| - 1] == a + b[..n];
    }
  }

  lemma PlusAssociates(a: Table, b: Table, c: Table)
    ensures a + (b + c) == a + b + c
  {
  }

  lemma SingleRow(rows: Table, r: Rule)
    ensures DistinctIds([r]) && rows + AsTable([r]) == rows[r.id := r]
    ensures forall x :: x in [r] <==> x == r
  {
    assert AsTable([r]) == map[r.id := r];
  }

  // ----------------------------------------------------------------- batches

  /** A row without an owner is stored under the owner whose rows are being replaced. */
  function Stamp(r: Rule, owner: string): Rule {
    if r.ownerId == "" then r.(ownerId := owner) else r
  }

  /** The one owner of a batch: the first that is given, and every later row must name it. */
  function BatchOwner(ps: seq<Rule>): Option<string> {
    if ps == [] then Some("")
    else match BatchOwner(ps[..|ps| - 1])
      case None => None
      case Some(o) => if o == "" || o == ps[|ps| - 1].ownerId then Some(ps[|ps| - 1].ownerId) else None
  }

  /** Once a row names an owner, all later rows name the same. */
  predicate OneOwner(ps: seq<Rule>) {
    forall i, j :: 0 <= i < j < |ps| && ps[i].ownerId != "" ==> ps[j].ownerId == ps[i].ownerId
  }

  /** A batch has one owner exactly then, and it is the last row's. */
  lemma {:induction false} BatchOwnerIs(ps: seq<Rule>)
    ensures BatchOwner(ps).Some? <==> OneOwner(ps)
    ensures ps != [] && OneOwner(ps) ==> BatchOwner(ps) == Some(ps[|ps| - 1].ownerId)
  {
    if ps != [] {
      var n := |ps| - 1;
      BatchOwnerIs(ps[..n]);
      if n > 0 {
        assert ps[..n][n - 1] == ps[n - 1];
      }
      if OneOwner(ps[..n]) {
        forall i | 0 <= i < n && ps[i].ownerId != "" ensures ps[n - 1].ownerId == ps[i].ownerId {
          assert ps[..n][i] == ps[i];
        }
      } else {
        var i, j :| 0 <= i < j < n && ps[..n][i].ownerId != "" && ps[..n][j].ownerId != ps[..n][i].ownerId;
        assert ps[i].ownerId != "" && ps[j].ownerId != ps[i].ownerId;
      }
    }
  }

  lemma {:induction false} BatchOwnerIsShared(ps: seq<Rule>)
    requires BatchOwner(ps).Some?
    ensures forall r :: r in ps ==> Stamp(r, BatchOwner(ps).value).ownerId == BatchOwner(ps).value
  {
    if ps != [] {
      BatchOwnerIsShared(ps[..|ps| - 1]);
      assert ps == ps[..|ps| - 1] + [ps[|ps| - 1]];
    }
  }

  // ----------------------------------------------------------------- reordering

  /** Last position of `id` in `order`. */
  function Rank(order: seq<string>, id: string): (k: nat)
    requires id in order
    ensures k < |order| && order[k] == id
  {
    if order[|order| - 1] == id then |order| - 1 else Rank(order[..|order| - 1], id)
  }

  /** The owner's rows named by `order`, in that order, with priorities 10, 20, ... by position;
  unknown identifiers leave a gap. */
  function Picked(own: Table, order: seq<string>): seq<Rule> {
    if order == [] then []
    else
      var id := order[|order| - 1];
      Picked(own, order[..|order| - 1]) + (if id in own then [own[id].(priority := |order| * 10)] else [])
  }

  function NotNamed(s: seq<Rule>, order: seq<string>): seq<Rule> {
    if s == [] then []
    else NotNamed(s[..|s| - 1], order) + (if s[|s| - 1].id in order then [] else [s[|s| - 1]])
  }

  predicate NoneTwice(order: seq<string>, own: Table) {
    forall i, j :: 0 <= i < j < |order| && order[i] in own ==> order[i] != order[j]
  }

  /** The whole table after an owner's rows were put in a new order. */
  function Reordered(rows: Table, owner: string, order: seq<string>): Table {
    map k | k in rows ::
      if rows[k].ownerId == owner && k in order then rows[k].(priority := (Rank(order, k) + 1) * 10) else rows[k]
  }

  /** The owner's rule at place i of an order gets priority 10 (i + 1); nothing else of any rule changes. */
  ghost predicate ByPlace(rows: Table, owner: string, order: seq<string>, after: Table) {
    && after.Keys == rows.Keys
    && (forall k :: k in rows ==> after[k].(priority := rows[k].priority) == rows[k])
    && (forall k :: k in rows && (rows[k].ownerId != owner || k !in order) ==> after[k] == rows[k])
    && forall i :: 0 <= i < |order| && order[i] in rows && rows[order[i]].ownerId == owner ==>
      after[order[i]].priority == 10 * (i + 1)
  }

  lemma ReorderedByPlace(rows: Table, owner: string, order: seq<string>)
    requires NoneTwice(order, OnlyOwner(rows, owner))
    ensures ByPlace(rows, owner, order, Reordered(rows, owner, order))
  {
    forall i | 0 <= i < |order| && order[i] in rows && rows[order[i]].ownerId == owner
      ensures Rank(order, order[i]) == i
    {
      assert order[i] in OnlyOwner(rows, owner);
      var k := Rank(order, order[i]);
      assert !(k < i) && !(i < k);
    }
  }

  lemma {:induction false} PickedMembers(own: Table, order: seq<string>)
    requires WellKeyed(own)
    ensures forall r ::
      r in Picked(own, order) ==> r.id in own && r.id in order && r == own[r.id].(priority := r.priority)
    ensures forall k :: k in own && k in order ==> own[k].(priority := (Rank(order, k) + 1) * 10) in Picked(own, order)
  {
    if order != [] {
      var front := order[..|order| - 1];
      PickedMembers(own, front);
      assert order == front + [order[|order| - 1]];
    }
  }

  lemma {:induction false} PickedDistinct(own: Table, order: seq<string>)
    requires WellKeyed(own)
    ensures DistinctIds(Picked(own, order)) <==> NoneTwice(order, own)
  {
    if order != [] {
      var front, id := order[..|order| - 1], order[|order| - 1];
      PickedDistinct(own, front);
      PickedMembers(own, front);
      assert order == front + [id];
      var p := Picked(own, front);
      hide NoneTwice, DistinctIds, WellKeyed;
      if id in own && id in front {
        PickedTwice(own, front, id);
      } else {
        NoneTwiceExtend(own, front, id);
        if id in own {
          KeyedId(own, id);
          LastIsNew(p, own[id].(priority := |order| * 10));
        } else {
          assert Picked(own, order) == p;
        }
      }
    }
  }

  lemma PickedTwice(own: Table, front: seq<string>, id: string)
    requires WellKeyed(own) && id in own && id in front
    ensures !NoneTwice(front + [id], own) && !DistinctIds(Picked(own, front + [id]))
  {
    hide WellKeyed;
    var order := front + [id];
    assert order[..|order| - 1] == front;
    PickedMembers(own, front);
    KeyedId(own, id);
    var p, r := Picked(own, front), own[id].(priority := (Rank(front, id) + 1) * 10);
    var k :| 0 <= k < |p| && p[k] == r;
    assert Picked(own, order)[k].id == Picked(own, order)[|p|].id;
    assert order[Rank(front, id)] == order[|front|];
  }

  lemma LastIsNew(p: seq<Rule>, r: Rule)
    requires forall x :: x in p ==> x.id != r.id
    ensures DistinctIds(p + [r]) <==> DistinctIds(p)
  {
    if DistinctIds(p + [r]) {
      forall i, j | 0 <= i < j < |p| ensures p[i].id != p[j].id {
        assert (p + [r])[i].id != (p + [r])[j].id;
      }
    }
  }

  lemma NoneTwiceExtend(own: Table, front: seq<string>, id: string)
    requires id !in own || id !in front
    ensures NoneTwice(front + [id], own) <==> NoneTwice(front, own)
  {
    if NoneTwice(front + [id], own) {
      forall i, j | 0 <= i < j < |front| && front[i] in own ensures front[i] != front[j] {
        assert (front + [id])[i] != (front + [id])[j];
      }
    }
  }

  lemma {:induction false} NotNamedMembers(s: seq<Rule>, order: seq<string>)
    ensures forall r :: r in NotNamed(s, order) <==> r in s && r.id !in order
    ensures DistinctIds(s) ==> DistinctIds(NotNamed(s, order))
  {
    if s != [] {
      var front := s[..|s| - 1];
      NotNamedMembers(front, order);
      assert s == front + [s[|s| - 1]];
      if DistinctIds(s) {
        forall r | r in front ensures r.id != s[|s| - 1].id {
          var i :| 0 <= i < |front| && front[i] == r;
          assert s[i].id != s[|s| - 1].id;
        }
        LastIsNew(NotNamed(front, order), s[|s| - 1]);
      }
    }
  }

  lemma JoinedDistinct(a: seq<Rule>, b: seq<Rule>)
    requires DistinctIds(b) && forall x, y :: x in a && y in b ==> x.id != y.id
    ensures DistinctIds(a + b) <==> DistinctIds(a)
  {
    if DistinctIds(a + b) {
      forall i, j | 0 <= i < j < |a| ensures a[i].id != a[j].id {
        assert (a + b)[i].id != (a + b)[j].id;
      }
    }
    if DistinctIds(a) {
      forall i, j | 0 <= i < j < |a + b| ensures (a + b)[i].id != (a + b)[j].id {
        if i < |a| <= j { assert a[i] in a && b[j - |a|] in b; }
      }
    }
  }

  /** Reordering is accepted exactly when no row is named twice, and then changes priorities only. */
  lemma ReorderedValue(rows: Table, owner: string, order: seq<string>)
    requires WellKeyed(rows) && forall k :: k in rows ==> k != ""
    ensures var list := Picked(OnlyOwner(rows, owner), order) + NotNamed(OwnerRows(rows, owner), order);
      && ReplaceOwner(rows, owner, list) ==
        (if NoneTwice(order, OnlyOwner(rows, owner)) then Some(Reordered(rows, owner, order)) else None)
      && (forall r :: r in list ==> r.id in rows && r == rows[r.id].(priority := r.priority) && r.ownerId == owner)
  {
    hide OwnerRows, Picked, NotNamed, NoneTwice, DistinctIds;
    var own, snap := OnlyOwner(rows, owner), OwnerRows(rows, owner);
    var a, b := Picked(own, order), NotNamed(snap, order);
    OwnerRowsAre(rows, owner);
    PickedMembers(own, order);
    PickedDistinct(own, order);
    NotNamedMembers(snap, order);
    JoinedDistinct(a, b);
    if NoneTwice(order, own) {
      ReorderedRows(rows, owner, order, a, b);
      ReplacedValue(rows, owner, a + b, Reordered(rows, owner, order));
    }
  }

  lemma ReorderedRows(rows: Table, owner: string, order: seq<string>, a: seq<Rule>, b: seq<Rule>)
    requires WellKeyed(rows) && DistinctIds(a)
    requires forall r :: r in a ==> r.id in OnlyOwner(rows, owner) && r.id in order
    requires forall k ::
      k in OnlyOwner(rows, owner) && k in order ==> rows[k].(priority := (Rank(order, k) + 1) * 10) in a
    requires forall r :: r in b <==> r.id in rows && rows[r.id] == r && r.ownerId == owner && r.id !in order
    ensures forall r :: r in a + b ==> r.id in Reordered(rows, owner, order) && Reordered(rows, owner, order)[r.id] == r
    ensures forall k :: k in rows && rows[k].ownerId == owner ==> exists r :: r in a + b && r.id == k
  {
    hide WellKeyed, DistinctIds, Reordered, OnlyOwner;
    forall r | r in a + b ensures r.id in Reordered(rows, owner, order) && Reordered(rows, owner, order)[r.id] == r {
      OnlyOwnerHas(rows, owner, r.id);
      ReorderedAt(rows, owner, order, r.id);
      if r in a {
        KeyedId(rows, r.id);
        SameIdSameRow(a, r, rows[r.id].(priority := (Rank(order, r.id) + 1) * 10));
      }
    }
    forall k | k in rows && rows[k].ownerId == owner ensures exists r :: r in a + b && r.id == k {
      KeyedId(rows, k);
      OnlyOwnerHas(rows, owner, k);
      if k in order {
        assert rows[k].(priority := (Rank(order, k) + 1) * 10) in a + b;
      } else {
        assert rows[k] in b;
        assert rows[k] in a + b;
      }
    }
  }

  lemma OnlyOwnerHas(rows: Table, owner: string, k: string)
    ensures k in OnlyOwner(rows, owner) <==> k in rows && rows[k].ownerId == owner
  {
  }

  lemma ReorderedAt(rows: Table, owner: string, order: seq<string>, k: string)
    requires k in rows && rows[k].ownerId == owner
    ensures k in Reordered(rows, owner, order)
    ensures k in order ==> Reordered(rows, owner, order)[k] == rows[k].(priority := (Rank(order, k) + 1) * 10)
    ensures k !in order ==> Reordered(rows, owner, order)[k] == rows[k]
  {
  }

  lemma KeyedId(rows: Table, k: string)
    requires WellKeyed(rows) && k in rows
    ensures rows[k].id == k
  {
  }

  lemma SameIdSameRow(a: seq<Rule>, x: Rule, y: Rule)
    requires DistinctIds(a) && x in a && y in a && x.id == y.id
    ensures x == y
  {
    var i :| 0 <= i < |a| && a[i] == x;
    var j :| 0 <= j < |a| && a[j] == y;
    assert i == j;
  }
}
