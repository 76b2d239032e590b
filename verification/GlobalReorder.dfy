/** The order of all rules and sites, as the firewall page drags them: priorities by place, in steps of ten;
sites are patched first, then the rows of every owner are written, then there is one refresh. */
module GlobalReorder {
  import opened Wrappers
  import opened Ipv4
  import opened Text
  import opened FirewallModel
  import opened ForwardPlan
  import opened Tags
  import opened RuleStore
  import opened RuleEdits
  import opened RuleResolution
  import opened RuleService
  import opened PeerSnapshots
  import opened PeerUpdates

  // ------------------------------------------------------------------- rules

  /** The owners whose rows are written. */
  function Owners(rows: Table): set<string> {
    set k | k in rows && rows[k].ownerId != "" :: rows[k].ownerId
  }

  /** The table once the rows of the owners in `done` were put in order. */
  function InOrder(rows: Table, done: set<string>, order: seq<string>): Table {
    map k | k in rows ::
      if rows[k].ownerId in done && k in order then rows[k].(priority := (Rank(order, k) + 1) * 10) else rows[k]
  }

  ghost function OrderedRows(rows: Table, owner: string, order: seq<string>): seq<Rule>
    requires WellKeyed(rows)
  {
    Picked(OnlyOwner(rows, owner), order) + NotNamed(OwnerRows(rows, owner), order)
  }

  lemma InOrderKeepsShape(rows: Table, done: set<string>, order: seq<string>)
    requires TableOk(rows)
    ensures TableOk(InOrder(rows, done, order))
    ensures forall o :: OwnerExists(rows, o) <==> OwnerExists(InOrder(rows, done, order), o)
    ensures forall o :: WithoutOwner(InOrder(rows, done, order), o).Keys == WithoutOwner(rows, o).Keys
  {
    hide StoredPort;
    var t := InOrder(rows, done, order);
    assert forall k :: k in rows ==> k in t && t[k].ownerId == rows[k].ownerId;
    assert forall k :: k in t ==> k in rows && t[k].ownerId == rows[k].ownerId;
  }

  /** Replacing an owner's rows looks at the other rows' identifiers only. */
  lemma ReplacedElsewhere(a: Table, b: Table, owner: string, list: seq<Rule>)
    requires WithoutOwner(a, owner).Keys == WithoutOwner(b, owner).Keys
    ensures ReplaceOwner(a, owner, list).Some? <==> ReplaceOwner(b, owner, list).Some?
    ensures ReplaceOwner(a, owner, list).Some? ==>
      var u, v := ReplaceOwner(a, owner, list).value, ReplaceOwner(b, owner, list).value;
      && u.Keys == v.Keys
      && forall k :: k in v ==> v[k] == if k in WithoutOwner(b, owner) then b[k] else u[k]
  {
    hide DistinctIds;
    if ReplaceOwner(a, owner, list).Some? {
      AsTableContents(list);
    }
  }

  /** Writing one more owner's rows is refused exactly when the order names one of them twice. */
  lemma OneMoreOwner(rows: Table, done: set<string>, owner: string, order: seq<string>)
    requires TableOk(rows) && owner !in done
    ensures ReplaceOwner(InOrder(rows, done, order), owner, OrderedRows(rows, owner, order)) ==
      if NoneTwice(order, OnlyOwner(rows, owner)) then Some(InOrder(rows, done + {owner}, order)) else None
    ensures forall r :: r in OrderedRows(rows, owner, order) ==> StoredPort(r.destPort)
  {
    hide StoredPort, ReplaceOwner, OwnerRows, Picked, NotNamed, NoneTwice, Rank, InOrder, Reordered, WithoutOwner;
    var list := OrderedRows(rows, owner, order);
    ReorderedValue(rows, owner, order);
    InOrderKeepsShape(rows, done, order);
    ReplacedElsewhere(rows, InOrder(rows, done, order), owner, list);
    if NoneTwice(order, OnlyOwner(rows, owner)) {
      InOrderStep(rows, done, owner, order, ReplaceOwner(InOrder(rows, done, order), owner, list).value);
    }
  }

  lemma InOrderStep(rows: Table, done: set<string>, owner: string, order: seq<string>, v: Table)
    requires owner !in done && v.Keys == Reordered(rows, owner, order).Keys
    requires var b := InOrder(rows, done, order);
      forall k :: k in v ==> v[k] == if k in WithoutOwner(b, owner) then b[k] else Reordered(rows, owner, order)[k]
    ensures v == InOrder(rows, done + {owner}, order)
  {
    hide Reordered, InOrder;
    forall k ensures k in v <==> k in rows {
      ReorderedHas(rows, owner, order, k);
    }
    InOrderHas(rows, done, order);
    InOrderHas(rows, done + {owner}, order);
    forall k | k in rows ensures v[k] == InOrder(rows, done + {owner}, order)[k] {
      InOrderAt(rows, done, order, k);
      InOrderAt(rows, done + {owner}, order, k);
      ReorderedHas(rows, owner, order, k);
      if rows[k].ownerId == owner { ReorderedAt(rows, owner, order, k); }
    }
  }

  lemma InOrderHas(rows: Table, done: set<string>, order: seq<string>)
    ensures InOrder(rows, done, order).Keys == rows.Keys
  {
  }

  lemma InOrderAt(rows: Table, done: set<string>, order: seq<string>, k: string)
    requires k in rows
    ensures k in InOrder(rows, done, order) && InOrder(rows, done, order)[k].ownerId == rows[k].ownerId
    ensures InOrder(rows, done, order)[k] ==
      if rows[k].ownerId in done && k in order then rows[k].(priority := (Rank(order, k) + 1) * 10) else rows[k]
  {
  }

  lemma ReorderedHas(rows: Table, owner: string, order: seq<string>, k: string)
    ensures k in Reordered(rows, owner, order) <==> k in rows
  {
  }

  /** Putting one owner's snapshot back takes its part of the order back. */
  lemma OneOwnerBack(rows: Table, done: set<string>, owner: string, order: seq<string>)
    requires TableOk(rows)
    ensures ReplaceOwner(InOrder(rows, done, order), owner, OwnerRows(rows, owner)) ==
      Some(InOrder(rows, done - {owner}, order))
  {
    hide StoredPort, ReplaceOwner, OwnerRows, Rank;
    SnapshotRestores(rows, rows, owner);
    InOrderKeepsShape(rows, done, order);
    ReplacedElsewhere(rows, InOrder(rows, done, order), owner, OwnerRows(rows, owner));
    var v := ReplaceOwner(InOrder(rows, done, order), owner, OwnerRows(rows, owner)).value;
    assert v.Keys == rows.Keys;
    assert v == InOrder(rows, done - {owner}, order);
  }

  lemma NobodyInOrder(rows: Table, order: seq<string>)
    ensures InOrder(rows, {}, order) == rows
  {
  }

  // --------------------------------------------------------- owners in turn

  /** Lines of the page: by priority, then identifier. */
  predicate LineLe(a: Rule, b: Rule) {
    a.priority < b.priority || (a.priority == b.priority && !TextLess(b.id, a.id))
  }

  function InsertByLine(s: seq<Rule>, r: Rule): seq<Rule> {
    if s == [] || LineLe(s[|s| - 1], r) then s + [r] else InsertByLine(s[..|s| - 1], r) + [s[|s| - 1]]
  }

  function SortByLine(s: seq<Rule>): seq<Rule> {
    if s == [] then [] else InsertByLine(SortByLine(s[..|s| - 1]), s[|s| - 1])
  }

  predicate ByLine(s: seq<Rule>) {
    forall i, j :: 0 <= i < j < |s| ==> LineLe(s[i], s[j])
  }

  lemma LineOrder(a: Rule, b: Rule, c: Rule)
    ensures LineLe(a, b) || LineLe(b, a)
    ensures LineLe(a, b) && LineLe(b, c) ==> LineLe(a, c)
  {
    hide TextLess;
    TextTotal(a.id, b.id);
    TextTotal(b.id, c.id);
    TextTotal(a.id, c.id);
    if TextLess(c.id, a.id) && TextLess(a.id, b.id) { TextTransitive(c.id, a.id, b.id); }
    if TextLess(b.id, c.id) && TextLess(c.id, a.id) { TextTransitive(b.id, c.id, a.id); }
  }

  lemma {:induction false} InsertedByLine(s: seq<Rule>, r: Rule)
    ensures forall x :: x in InsertByLine(s, r) <==> x in s || x == r
    ensures ByLine(s) ==> ByLine(InsertByLine(s, r))
  {
    hide LineLe;
    if s != [] {
      var front, last := s[..|s| - 1], s[|s| - 1];
      assert s == front + [last];
      if LineLe(last, r) {
        forall i | 0 <= i < |front| ensures ByLine(s) ==> LineLe(s[i], r) { LineOrder(s[i], last, r); }
      } else {
        InsertedByLine(front, r);
        LineOrder(last, r, r);
        var t := InsertByLine(front, r);
        forall i | 0 <= i < |t| ensures ByLine(s) ==> LineLe(t[i], last) {
          assert t[i] in t;
          if t[i] != r {
            var k :| 0 <= k < |front| && front[k] == t[i];
            assert s[k] == t[i];
          }
        }
      }
    }
  }

  lemma {:induction false} SortedByLine(s: seq<Rule>)
    ensures forall x :: x in SortByLine(s) <==> x in s
    ensures ByLine(SortByLine(s))
  {
    hide ByLine;
    if s == [] {
      assert ByLine([]) by { NothingToOrder(); }
    } else {
      var front, last := s[..|s| - 1], s[|s| - 1];
      assert s == front + [last];
      SortedByLine(front);
      InsertedByLine(SortByLine(front), last);
    }
  }

  lemma NothingToOrder()
    ensures ByLine([])
  {
  }

  /** Owners of the rows that the order names, then of the others in the order of the page. */
  function NamedOwners(rows: Table, order: seq<string>): seq<string> {
    if order == [] then []
    else
      var id := order[|order| - 1];
      NamedOwners(rows, order[..|order| - 1]) +
      (if id in rows && rows[id].ownerId != "" then [rows[id].ownerId] else [])
  }

  function OtherOwners(lines: seq<Rule>, order: seq<string>): seq<string> {
    if lines == [] then []
    else
      var r := lines[|lines| - 1];
      OtherOwners(lines[..|lines| - 1], order) + (if r.id !in order && r.ownerId != "" then [r.ownerId] else [])
  }

  /** The owners in the order in which their rows are written. */
  ghost function OwnersInTurn(rows: Table, order: seq<string>): seq<string>
    requires WellKeyed(rows)
  {
    FirstOnly(NamedOwners(rows, order) + OtherOwners(SortByLine(Listing(rows)), order))
  }

  function Elements(xs: seq<string>): set<string> {
    set x | x in xs
  }

  lemma {:induction false} FirstOnlyIs(xs: seq<string>)
    ensures forall x :: x in FirstOnly(xs) <==> x in xs
    ensures NoneRepeated(FirstOnly(xs))
  {
    if xs != [] {
      FirstOnlyIs(xs[..|xs| - 1]);
      assert xs == xs[..|xs| - 1] + [xs[|xs| - 1]];
    }
  }

  lemma {:induction false} NamedOwnersAre(rows: Table, order: seq<string>, o: string)
    ensures o in NamedOwners(rows, order) <==> o != "" && exists k :: k in rows && k in order && rows[k].ownerId == o
  {
    if order != [] {
      NamedOwnersAre(rows, order[..|order| - 1], o);
      assert order == order[..|order| - 1] + [order[|order| - 1]];
    }
  }

  lemma {:induction false} OtherOwnersAre(lines: seq<Rule>, order: seq<string>, o: string)
    ensures o in OtherOwners(lines, order) <==> o != "" && exists r :: r in lines && r.id !in order && r.ownerId == o
  {
    if lines != [] {
      OtherOwnersAre(lines[..|lines| - 1], order, o);
      assert lines == lines[..|lines| - 1] + [lines[|lines| - 1]];
    }
  }

  /** Each owner of a row has its turn, once. */
  lemma EveryOwnerInTurn(rows: Table, order: seq<string>)
    requires WellKeyed(rows)
    ensures Elements(OwnersInTurn(rows, order)) == Owners(rows)
    ensures NoneRepeated(OwnersInTurn(rows, order))
  {
    hide NamedOwners, OtherOwners, FirstOnly, SortByLine, NoneRepeated;
    var lines := SortByLine(Listing(rows));
    var all := NamedOwners(rows, order) + OtherOwners(lines, order);
    FirstOnlyIs(all);
    SortedByLine(Listing(rows));
    forall o ensures o in all <==> o in Owners(rows) {
      NamedOwnersAre(rows, order, o);
      OtherOwnersAre(lines, order, o);
      if k :| k in rows && rows[k].ownerId == o && o != "" {
        assert rows[k] in lines;
      }
    }
  }

  method FindTurns(rows: Table, listed: seq<Rule>, order: seq<string>) returns (owners: seq<string>)
    requires WellKeyed(rows) && listed == Listing(rows)
    ensures owners == OwnersInTurn(rows, order)
  {
    hide FirstOnly, SortByLine, NamedOwners, OtherOwners;
    owners := TurnsOfNamed(rows, order);
    owners := TurnsOfOthers(owners, NamedOwners(rows, order), SortByLine(listed), order);
  }

  method TurnsOfNamed(rows: Table, order: seq<string>) returns (owners: seq<string>)
    ensures owners == FirstOnly(NamedOwners(rows, order))
  {
    hide FirstOnly;
    NoTurns();
    owners := [];
    for i := 0 to |order|
      invariant owners == FirstOnly(NamedOwners(rows, order[..i]))
    {
      assert order[..i + 1][..i] == order[..i];
      ghost var all := NamedOwners(rows, order[..i]);
      assert all + [] == all;
      if order[i] in rows && rows[order[i]].ownerId != "" {
        owners := WithTurn(owners, all, rows[order[i]].ownerId);
      }
    }
    assert order[..|order|] == order;
  }

  method TurnsOfOthers(first: seq<string>, ghost named: seq<string>, lines: seq<Rule>, order: seq<string>)
    returns (owners: seq<string>)
    requires first == FirstOnly(named)
    ensures owners == FirstOnly(named + OtherOwners(lines, order))
  {
    hide FirstOnly;
    owners := first;
    assert named + [] == named;
    for i := 0 to |lines|
      invariant owners == FirstOnly(named + OtherOwners(lines[..i], order))
    {
      assert lines[..i + 1][..i] == lines[..i];
      ghost var others := OtherOwners(lines[..i], order);
      assert others + [] == others;
      if lines[i].id !in order && lines[i].ownerId != "" {
        assert named + (others + [lines[i].ownerId]) == (named + others) + [lines[i].ownerId];
        owners := WithTurn(owners, named + others, lines[i].ownerId);
      }
    }
    assert lines[..|lines|] == lines;
  }

  lemma NoTurns()
    ensures FirstOnly([]) == []
  {
  }

  method WithTurn(owners: seq<string>, ghost all: seq<string>, owner: string) returns (r: seq<string>)
    requires owners == FirstOnly(all)
    ensures r == FirstOnly(all + [owner])
  {
    hide FirstOnly;
    OneMoreOnly(all, owner);
    assert owners + [] == owners;
    r := if owner in owners then owners else owners + [owner];
  }

  lemma OneMoreOnly(xs: seq<string>, x: string)
    ensures FirstOnly(xs + [x]) == FirstOnly(xs) + if x in FirstOnly(xs) then [] else [x]
  {
    assert (xs + [x])[..|xs|] == xs;
    FirstOnlyIs(xs);
    assert FirstOnly(xs) + [] == FirstOnly(xs);
  }

  predicate NoneRepeated(order: seq<string>) {
    forall i, j :: 0 <= i < j < |order| ==> order[i] != order[j]
  }

  /** How many owners have their turn before the first with a row that the order names twice. */
  function CleanOwners(rows: Table, owners: seq<string>, order: seq<string>): (c: nat)
    ensures c <= |owners|
  {
    if owners == [] then 0
    else
      var c := CleanOwners(rows, owners[..|owners| - 1], order);
      if c == |owners| - 1 && NamedOnce(rows, owners[|owners| - 1], order) then |owners| else c
  }

  lemma {:induction false} CleanOwnersAre(rows: Table, owners: seq<string>, order: seq<string>)
    ensures var c := CleanOwners(rows, owners, order);
      && (forall i :: 0 <= i < c ==> NamedOnce(rows, owners[i], order))
      && (c < |owners| ==> !NamedOnce(rows, owners[c], order))
  {
    hide NamedOnce;
    if owners != [] {
      CleanOwnersAre(rows, owners[..|owners| - 1], order);
    }
  }

  /** The owners whose rows are written: those before the first with a row that the order names twice. */
  ghost function WrittenOwners(rows: Table, order: seq<string>): set<string>
    requires WellKeyed(rows)
  {
    var owners := OwnersInTurn(rows, order);
    Elements(owners[..CleanOwners(rows, owners, order)])
  }

  /** The order names no row of the owner twice; the table refuses a list that does. */
  predicate NamedOnce(rows: Table, owner: string, order: seq<string>) {
    NoneTwice(order, OnlyOwner(rows, owner))
  }

  predicate AllNamedOnce(rows: Table, owners: set<string>, order: seq<string>) {
    forall o :: o in owners ==> NamedOnce(rows, o, order)
  }

  /** All are written exactly when none has a row that is named twice. */
  lemma AllAreWritten(rows: Table, order: seq<string>)
    requires WellKeyed(rows)
    ensures WrittenOwners(rows, order) <= Owners(rows)
    ensures AllNamedOnce(rows, Owners(rows), order) <==>
      CleanOwners(rows, OwnersInTurn(rows, order), order) == |OwnersInTurn(rows, order)|
    ensures AllNamedOnce(rows, Owners(rows), order) ==> WrittenOwners(rows, order) == Owners(rows)
  {
    hide NamedOnce, OwnersInTurn, Owners;
    var owners := OwnersInTurn(rows, order);
    EveryOwnerInTurn(rows, order);
    CleanOwnersAre(rows, owners, order);
    var c := CleanOwners(rows, owners, order);
    assert forall i :: 0 <= i < |owners| ==> owners[i] in Elements(owners);
    assert owners[..|owners|] == owners;
    if c == |owners| {
      forall o | o in Owners(rows) ensures NamedOnce(rows, o, order) {
        var i :| 0 <= i < |owners| && owners[i] == o;
      }
    }
  }

  /** An order without repetitions, as the page sends it, is never refused for a rule. */
  lemma NoRepetitionNamesOnce(rows: Table, owners: set<string>, order: seq<string>)
    requires NoneRepeated(order)
    ensures AllNamedOnce(rows, owners, order)
  {
  }

  // ------------------------------------------------------------------- sites

  /** The site has a line in the page, and so an identifier in the order. */
  predicate Listed(s: StoredPeer) {
    s.id != "" && !AllBlank(s.lanCidrs)
  }

  function LineId(s: StoredPeer): string {
    CE_PEER_RULE_PREFIX + s.id
  }

  predicate Patched(s: StoredPeer, order: seq<string>, n: nat)
    requires n <= |order|
  {
    Listed(s) && LineId(s) in order[..n]
  }

  predicate Patchable(s: StoredPeer) {
    Checked(s).Some?
  }

  function WithPriority(s: StoredPeer, order: seq<string>): StoredPeer
    requires LineId(s) in order && Patchable(s)
  {
    Checked(s.(priority := (Rank(order, LineId(s)) + 1) * 10)).value
  }

  /** The site once the first `n` places of the order were gone through. */
  function PatchedSite(s: StoredPeer, order: seq<string>, n: nat): StoredPeer
    requires n <= |order|
  {
    if Patched(s, order, n) && Patchable(s) then WithPriority(s, order) else s
  }

  function PatchedSites(peers: seq<StoredPeer>, order: seq<string>, n: nat): seq<StoredPeer>
    requires n <= |order|
  {
    seq(|peers|, i requires 0 <= i < |peers| => PatchedSite(peers[i], order, n))
  }

  predicate AllPatchable(peers: seq<StoredPeer>, order: seq<string>, n: nat)
    requires n <= |order|
  {
    forall i :: 0 <= i < |peers| && Patched(peers[i], order, n) ==> Patchable(peers[i])
  }

  /** How many places of the order are gone through before the first site whose stored fields do not pass. */
  function Places(peers: seq<StoredPeer>, order: seq<string>, n: nat): (k: nat)
    requires n <= |order|
    ensures k <= n && AllPatchable(peers, order, k)
  {
    if AllPatchable(peers, order, n) then n else Places(peers, order, n - 1)
  }

  lemma {:induction false} PlacesAre(peers: seq<StoredPeer>, order: seq<string>, i: nat, n: nat)
    requires i < n <= |order| && AllPatchable(peers, order, i) && !AllPatchable(peers, order, i + 1)
    ensures Places(peers, order, n) == i
  {
    hide AllPatchable;
    LaterPlaces(peers, order, i + 1, n);
    if i + 1 < n {
      PlacesAre(peers, order, i, n - 1);
    }
  }

  predicate DistinctSites(peers: seq<StoredPeer>) {
    forall i, j :: 0 <= i < j < |peers| ==> peers[i].id != peers[j].id
  }

  lemma LineIdIs(s: StoredPeer, id: string)
    ensures LineId(s) == CE_PEER_RULE_PREFIX + id <==> s.id == id
  {
    assert LineId(s)[|CE_PEER_RULE_PREFIX|..] == s.id;
    assert (CE_PEER_RULE_PREFIX + id)[|CE_PEER_RULE_PREFIX|..] == id;
  }

  /** Going one place further patches no site. */
  lemma NothingToPatch(peers: seq<StoredPeer>, order: seq<string>, n: nat)
    requires n < |order|
    requires forall i :: 0 <= i < |peers| && Listed(peers[i]) && LineId(peers[i]) == order[n] ==> order[n] in order[..n]
    ensures PatchedSites(peers, order, n + 1) == PatchedSites(peers, order, n)
    ensures AllPatchable(peers, order, n + 1) <==> AllPatchable(peers, order, n)
  {
    hide Listed, LineId, Patchable, WithPriority;
    assert order[..n + 1] == order[..n] + [order[n]];
    forall i | 0 <= i < |peers| ensures Patched(peers[i], order, n + 1) <==> Patched(peers[i], order, n) { }
  }

  /** Going one place further patches site k. */
  lemma OneToPatch(peers: seq<StoredPeer>, order: seq<string>, n: nat, k: nat)
    requires n < |order| && k < |peers| && DistinctSites(peers)
    requires Listed(peers[k]) && LineId(peers[k]) == order[n] && order[n] !in order[..n]
    ensures PatchedSites(peers, order, n)[k] == peers[k]
    ensures Patchable(peers[k]) ==>
      PatchedSites(peers, order, n + 1) == PatchedSites(peers, order, n)[k := WithPriority(peers[k], order)]
    ensures AllPatchable(peers, order, n + 1) <==> AllPatchable(peers, order, n) && Patchable(peers[k])
  {
    hide Listed, LineId, Patchable, WithPriority;
    assert order[..n + 1] == order[..n] + [order[n]];
    forall i | 0 <= i < |peers| && i != k ensures Patched(peers[i], order, n + 1) <==> Patched(peers[i], order, n) {
      OtherLine(peers[i], peers[k]);
    }
  }

  lemma OtherLine(s: StoredPeer, t: StoredPeer)
    ensures LineId(s) == LineId(t) <==> s.id == t.id
  {
    LineIdIs(s, t.id);
  }

  lemma LaterPlaces(peers: seq<StoredPeer>, order: seq<string>, n: nat, m: nat)
    requires n <= m <= |order| && !AllPatchable(peers, order, n)
    ensures !AllPatchable(peers, order, m)
  {
    hide Listed, LineId, Patchable;
    var i :| 0 <= i < |peers| && Patched(peers[i], order, n) && !Patchable(peers[i]);
    assert order[..m][..n] == order[..n];
    assert Patched(peers[i], order, m);
  }

  lemma SameSites(peers: seq<StoredPeer>, order: seq<string>, n: nat, id: string)
    requires n <= |order|
    ensures var now := PatchedSites(peers, order, n);
      && |now| == |peers| && (forall i :: 0 <= i < |peers| ==> now[i].id == peers[i].id)
      && (HasSite(now, id) <==> HasSite(peers, id))
  {
    hide Checked, Patched;
    var now := PatchedSites(peers, order, n);
    forall i | 0 <= i < |peers| ensures now[i].id == peers[i].id {
      CheckedIs(peers[i].(priority := now[i].priority));
      PatchedId(peers[i], order, n);
    }
  }

  lemma PatchedId(s: StoredPeer, order: seq<string>, n: nat)
    requires n <= |order|
    ensures PatchedSite(s, order, n).id == s.id
  {
    hide Listed, Rank;
  }

  /** Patch the sites that the order names, each once, at its first place. */
  method PatchSites(store: PeerStore, order: seq<string>) returns (ok: bool)
    requires DistinctSites(store.peers)
    modifies store`peers
    ensures ok <==> AllPatchable(old(store.peers), order, |order|)
    ensures store.peers == PatchedSites(old(store.peers), order, Places(old(store.peers), order, |order|))
  {
    hide PatchedSites, AllPatchable, Checked, SiteIndex, Rank, Listed;
    ghost var peers := store.peers;
    NoPlaces(peers, order);
    for i := 0 to |order|
      invariant store.peers == PatchedSites(peers, order, i)
      invariant AllPatchable(peers, order, i)
    {
      ok := PatchPlace(store, order, i, peers);
      if !ok {
        LaterPlaces(peers, order, i + 1, |order|);
        PlacesAre(peers, order, i, |order|);
        return;
      }
    }
    return true;
  }

  lemma NoPlaces(peers: seq<StoredPeer>, order: seq<string>)
    ensures PatchedSites(peers, order, 0) == peers && AllPatchable(peers, order, 0)
  {
  }

  method PatchPlace(store: PeerStore, order: seq<string>, i: nat, ghost peers: seq<StoredPeer>) returns (ok: bool)
    requires i < |order| && DistinctSites(peers) && store.peers == PatchedSites(peers, order, i)
    requires AllPatchable(peers, order, i)
    modifies store`peers
    ensures ok <==> AllPatchable(peers, order, i + 1)
    ensures store.peers == PatchedSites(peers, order, if ok then i + 1 else i)
  {
    hide PatchedSites, AllPatchable, SiteIndex, Rank, Listed, Checked;
    var rid := order[i];
    if rid in order[..i] || !(CE_PEER_RULE_PREFIX <= rid) {
      NotALine(peers, rid);
      NothingToPatch(peers, order, i);
      return true;
    }
    var id := rid[|CE_PEER_RULE_PREFIX|..];
    assert rid == CE_PEER_RULE_PREFIX + id;
    SameSites(peers, order, i, id);
    LinesOf(peers, id);
    var k := store.IndexOf(id);
    if k.None? {
      NothingToPatch(peers, order, i);
      return true;
    }
    NotYetPatched(peers, order, i, k.value);
    var site := store.peers[k.value];
    if !Listed(site) {
      NothingToPatch(peers, order, i);
      return true;
    }
    OneToPatch(peers, order, i, k.value);
    PriorityDoesNotMatter(site, (Rank(order, rid) + 1) * 10);
    var checked := Checked(site.(priority := (Rank(order, rid) + 1) * 10));
    if checked.None? {
      return false;
    }
    store.peers := store.peers[k.value := checked.value];
    return true;
  }

  lemma PriorityDoesNotMatter(s: StoredPeer, priority: int)
    ensures Patchable(s) <==> Checked(s.(priority := priority)).Some?
  {
    hide Strip, Lower, NonBlanks, FirstOnly, NonBlankTexts;
  }

  lemma NotALine(peers: seq<StoredPeer>, rid: string)
    ensures !(CE_PEER_RULE_PREFIX <= rid) ==> forall i :: 0 <= i < |peers| ==> LineId(peers[i]) != rid
  {
  }

  /** Only the site of that name has the line. */
  lemma LinesOf(peers: seq<StoredPeer>, id: string)
    ensures forall i :: 0 <= i < |peers| ==> (LineId(peers[i]) == CE_PEER_RULE_PREFIX + id <==> peers[i].id == id)
  {
    forall i | 0 <= i < |peers| ensures LineId(peers[i]) == CE_PEER_RULE_PREFIX + id <==> peers[i].id == id {
      LineIdIs(peers[i], id);
    }
  }

  lemma NotYetPatched(peers: seq<StoredPeer>, order: seq<string>, n: nat, k: nat)
    requires n <= |order| && k < |peers| && LineId(peers[k]) !in order[..n]
    ensures |PatchedSites(peers, order, n)| == |peers| && PatchedSites(peers, order, n)[k] == peers[k]
  {
    hide Listed, LineId;
  }

  // ---------------------------------------------------------- the whole order

  /** Take the snapshot of every owner. */
  method BackUpAll(service: FirewallRuleService, owners: set<string>)
    requires service.Valid() && forall o :: o in owners ==> OwnerExists(service.rows, o)
    modifies service`snapshots
    ensures service.Valid() && service.snapshots.Keys == old(service.snapshots).Keys + owners
    ensures forall o :: o in owners ==> service.snapshots[o] == OwnerRows(service.rows, o)
  {
    hide OwnerRows, OwnerExists, TableOk, WellKeyed;
    KeyedTable(service.rows);
    var todo := owners;
    while todo != {}
      invariant todo <= owners && service.Valid() && WellKeyed(service.rows)
      invariant service.snapshots.Keys == old(service.snapshots).Keys + (owners - todo)
      invariant forall o :: o in owners - todo ==> service.snapshots[o] == OwnerRows(service.rows, o)
      decreases todo
    {
      var o :| o in todo;
      var existing, hadMain := service.BackUp(o);
      todo := todo - {o};
    }
  }

  lemma KeyedTable(rows: Table)
    requires TableOk(rows)
    ensures WellKeyed(rows)
  {
  }

  /** Write the rows of one owner after the other; a refusal leaves the earlier ones written. */
  method WriteOwners(service: FirewallRuleService, listed: seq<Rule>, owners: seq<string>, order: seq<string>)
    returns (ok: bool)
    requires TableOk(service.rows) && listed == Listing(service.rows) && NoneRepeated(owners)
    modifies service`rows
    ensures ok <==> CleanOwners(old(service.rows), owners, order) == |owners|
    ensures service.rows ==
      InOrder(old(service.rows), Elements(owners[..CleanOwners(old(service.rows), owners, order)]), order)
  {
    hide TableOk, InOrder, ReplaceOwner, OwnerRows, NamedOnce, Picked, NotNamed, WellKeyed, CleanOwners;
    ghost var rows := service.rows;
    KeyedTable(rows);
    NobodyInOrder(rows, order);
    assert Elements(owners[..0]) == {};
    CleanOwnersAre(rows, owners, order);
    for i := 0 to |owners|
      invariant service.rows == InOrder(rows, Elements(owners[..i]), order)
      invariant forall k :: 0 <= k < i ==> NamedOnce(rows, owners[k], order)
    {
      OnlyRowsOf(rows, listed, owners[i]);
      var list := service.PutInOrder(OwnedBy(listed, owners[i]), OnlyOwner(rows, owners[i]), order);
      NextTurn(owners, i);
      var replaced := ReplaceInOrder(service.rows, rows, Elements(owners[..i]), owners[i], order, list);
      if replaced.None? {
        return false;
      }
      service.rows := replaced.value;
    }
    return true;
  }

  lemma NextTurn(owners: seq<string>, i: nat)
    requires i < |owners| && NoneRepeated(owners)
    ensures owners[i] !in Elements(owners[..i])
    ensures Elements(owners[..i + 1]) == Elements(owners[..i]) + {owners[i]}
  {
    assert owners[..i + 1] == owners[..i] + [owners[i]];
  }

  method ReplaceInOrder(now: Table, ghost rows: Table, ghost done: set<string>, owner: string, order: seq<string>,
      list: seq<Rule>) returns (r: Option<Table>)
    requires TableOk(rows) && owner !in done && now == InOrder(rows, done, order)
    requires list == OrderedRows(rows, owner, order)
    ensures r == if NamedOnce(rows, owner, order) then Some(InOrder(rows, done + {owner}, order)) else None
  {
    hide TableOk, InOrder, ReplaceOwner, OrderedRows, NoneTwice;
    OneMoreOwner(rows, done, owner, order);
    r := ReplaceOwner(now, owner, list);
  }

  lemma OnlyRowsOf(rows: Table, listed: seq<Rule>, owner: string)
    requires WellKeyed(rows) && listed == Listing(rows)
    ensures WellKeyed(OnlyOwner(rows, owner)) && OwnedBy(listed, owner) == OwnerRows(rows, owner)
    ensures forall r ::
      r in OwnedBy(listed, owner) <==> r.id in OnlyOwner(rows, owner) && OnlyOwner(rows, owner)[r.id] == r
  {
    OwnerRowsAre(rows, owner);
  }

  /** Put every owner's snapshot back. */
  method RollBackAll(service: FirewallRuleService, owners: set<string>, ghost rows: Table, ghost order: seq<string>)
    requires TableOk(rows) && service.rows == InOrder(rows, owners, order)
    requires forall o :: o in owners ==> o in service.snapshots && service.snapshots[o] == OwnerRows(rows, o)
    modifies service`rows, service`snapshots
    ensures service.rows == rows && service.snapshots == old(service.snapshots) - owners
  {
    hide TableOk, InOrder, ReplaceOwner, OwnerRows, WellKeyed;
    KeyedTable(rows);
    var todo := owners;
    while todo != {}
      invariant todo <= owners && service.rows == InOrder(rows, todo, order)
      invariant service.snapshots == old(service.snapshots) - (owners - todo)
      decreases todo
    {
      var o :| o in todo;
      InOrderIsOk(rows, todo, order);
      OneOwnerBack(rows, todo, o, order);
      service.RollbackRows(o, true);
      todo := todo - {o};
    }
    NobodyInOrder(rows, order);
  }

  lemma InOrderIsOk(rows: Table, done: set<string>, order: seq<string>)
    requires TableOk(rows)
    ensures TableOk(InOrder(rows, done, order))
  {
    InOrderKeepsShape(rows, done, order);
  }

  /** The table that an order leaves. */
  ghost function RowsAfterOrder(rows: Table, order: seq<string>, out: Outcome): Table
    requires WellKeyed(rows)
  {
    if out.RefreshFailed? then rows else InOrder(rows, WrittenOwners(rows, order), order)
  }

  /** The rules' part: snapshots, every owner's rows, one refresh; a refused refresh takes all rows back. */
  method ReorderRules(store: PeerStore, order: seq<string>, dir: Directory) returns (out: Outcome, ghost mark: nat)
    requires store.Valid(dir)
    modifies store.rules, store.rules.iptables.ipsets, store.rules.iptables.kernel
    ensures store.Valid(dir) && WellKeyed(old(store.rules.rows))
    ensures !out.Rejected? <==> AllNamedOnce(old(store.rules.rows), Owners(old(store.rules.rows)), order)
    ensures store.rules.rows == RowsAfterOrder(old(store.rules.rows), order, out)
    ensures store.Refreshed(old(store.KernelNow()), mark, out, dir)
    ensures var rows, env := old(store.rules.rows), Env(dir, Rows(store.peers));
      FailsOnlyIfRefused(out, old(store.KernelNow()).refusals, mark, InOrder(rows, Owners(rows), order), env)
  {
    hide FollowsPolicy, Feasible, InOrder, AllNamedOnce, TableOk, OwnerExists, IdentifiersOk, Owners, OwnerRows,
      WellKeyed, OwnersInTurn, WrittenOwners;
    ghost var rows := store.rules.rows;
    KeyedTable(rows);
    mark := store.rules.iptables.kernel.refusals;
    AllAreWritten(rows, order);
    var owners := Owners(store.rules.rows);
    var written := WriteOrder(store.rules, order);
    ReorderedIdentifiers(rows, WrittenOwners(rows, order), order, dir, store.peers);
    if !written {
      return Rejected, mark;
    }
    out, mark := RefreshOrder(store, owners, rows, order, dir);
  }

  /** Refresh the written order, and put the rows back when that is refused. */
  method RefreshOrder(store: PeerStore, owners: set<string>, ghost rows: Table, ghost order: seq<string>,
      dir: Directory)
    returns (out: Outcome, ghost mark: nat)
    requires store.Valid(dir) && TableOk(rows) && store.rules.rows == InOrder(rows, owners, order)
    requires forall o :: o in owners ==> o in store.rules.snapshots && store.rules.snapshots[o] == OwnerRows(rows, o)
    requires IdentifiersOk(rows, Env(dir, Rows(store.peers)))
    modifies store.rules, store.rules.iptables.ipsets, store.rules.iptables.kernel
    ensures store.Valid(dir) && !out.Rejected?
    ensures store.rules.rows == if out.Done? then InOrder(rows, owners, order) else rows
    ensures store.Refreshed(old(store.KernelNow()), mark, out, dir)
    ensures var env := Env(dir, Rows(store.peers));
      FailsOnlyIfRefused(out, old(store.KernelNow()).refusals, mark, InOrder(rows, owners, order), env)
  {
    hide FollowsPolicy, FailsOnlyIfRefused, InOrder, TableOk, OwnerExists, IdentifiersOk, OwnerRows, WellKeyed;
    out, mark := store.Refresh(dir);
    if out.RefreshFailed? {
      TakeBack(store, owners, rows, order, dir);
    } else {
      Confirm(store, owners, dir);
    }
  }

  method TakeBack(store: PeerStore, owners: set<string>, ghost rows: Table, ghost order: seq<string>, dir: Directory)
    requires store.Valid(dir) && TableOk(rows) && store.rules.rows == InOrder(rows, owners, order)
    requires forall o :: o in owners ==> o in store.rules.snapshots && store.rules.snapshots[o] == OwnerRows(rows, o)
    requires IdentifiersOk(rows, Env(dir, Rows(store.peers)))
    modifies store.rules`rows, store.rules`snapshots
    ensures store.Valid(dir) && store.rules.rows == rows
  {
    hide InOrder, TableOk, OwnerExists, IdentifiersOk, OwnerRows, WellKeyed;
    InOrderKeepsAll(rows, owners, order);
    RollBackAll(store.rules, owners, rows, order);
  }

  method Confirm(store: PeerStore, owners: set<string>, dir: Directory)
    requires store.Valid(dir)
    modifies store.rules`snapshots
    ensures store.Valid(dir)
  {
    hide TableOk, OwnerExists, IdentifiersOk;
    store.rules.snapshots := store.rules.snapshots - owners;
  }

  /** Snapshots first, then the rows, owner by owner. */
  method WriteOrder(service: FirewallRuleService, order: seq<string>) returns (ok: bool)
    requires service.Valid()
    modifies service`rows, service`snapshots
    ensures service.Valid() && WellKeyed(old(service.rows))
    ensures ok <==> AllNamedOnce(old(service.rows), Owners(old(service.rows)), order)
    ensures service.rows == InOrder(old(service.rows), WrittenOwners(old(service.rows), order), order)
    ensures Owners(old(service.rows)) <= service.snapshots.Keys
    ensures forall o :: o in Owners(old(service.rows)) ==> service.snapshots[o] == OwnerRows(old(service.rows), o)
  {
    hide InOrder, AllNamedOnce, TableOk, OwnerExists, Owners, OwnerRows, WellKeyed, OwnersInTurn, CleanOwners;
    ghost var rows := service.rows;
    KeyedTable(rows);
    var listed := ListRows(service.rows);
    var owners := FindTurns(service.rows, listed, order);
    EveryOwnerInTurn(rows, order);
    OwnersExist(rows);
    AllAreWritten(rows, order);
    BackUpAll(service, Elements(owners));
    ok := WriteOwners(service, listed, owners, order);
    InOrderKeepsAll(rows, WrittenOwners(rows, order), order);
  }

  /** `_reorder_unified_global`. A refused refresh takes the rules' order back and leaves the sites'. A refused
  order leaves what was written up to there: the sites before the first that does not pass, or all sites and
  the rules of the owners before the first with a row named twice. */
  method ReorderAll(store: PeerStore, order: seq<string>, dir: Directory) returns (out: Outcome, ghost mark: nat)
    requires store.Valid(dir)
    modifies store`peers, store.rules, store.rules.iptables.ipsets, store.rules.iptables.kernel
    ensures store.Valid(dir) && WellKeyed(old(store.rules.rows))
    ensures AllOrdered(order, old(store.rules.rows), old(store.peers), out, store.rules.rows, store.peers)
    ensures out.Done? ==> store.rules.rows == InOrder(old(store.rules.rows), Owners(old(store.rules.rows)), order)
    ensures store.Refreshed(old(store.KernelNow()), mark, out, dir)
    ensures var rows, env := old(store.rules.rows), Env(dir, Rows(store.peers));
      FailsOnlyIfRefused(out, old(store.KernelNow()).refusals, mark, InOrder(rows, Owners(rows), order), env)
  {
    hide FollowsPolicy, Feasible, InOrder, PatchedSites, AllPatchable, AllNamedOnce, TableOk, OwnerExists,
      IdentifiersOk, Owners, Places, RowsAfterOrder, WellKeyed;
    ghost var rows, peers := store.rules.rows, store.peers;
    KeyedTable(rows);
    mark := store.rules.iptables.kernel.refusals;
    SitesApart(rows, dir, peers);
    var patched := PatchSites(store, order);
    PatchedIdentifiers(rows, dir, peers, order, Places(peers, order, |order|));
    if !patched {
      return Rejected, mark;
    }
    out, mark := ReorderRules(store, order, dir);
    if out.Done? {
      DoneIsWritten(rows, order, out);
    }
  }

  lemma DoneIsWritten(rows: Table, order: seq<string>, out: Outcome)
    requires WellKeyed(rows) && AllNamedOnce(rows, Owners(rows), order) && out.Done?
    ensures RowsAfterOrder(rows, order, out) == InOrder(rows, Owners(rows), order)
  {
    hide AllNamedOnce, Owners, InOrder, WrittenOwners;
    AllAreWritten(rows, order);
  }

  /** Which orders are refused, and what is stored after any. */
  ghost predicate AllOrdered(order: seq<string>, rows: Table, peers: seq<StoredPeer>, out: Outcome, rowsAfter: Table,
      peersAfter: seq<StoredPeer>)
    requires WellKeyed(rows)
  {
    && (!out.Rejected? <==> AllPatchable(peers, order, |order|) && AllNamedOnce(rows, Owners(rows), order))
    && rowsAfter == (if AllPatchable(peers, order, |order|) then RowsAfterOrder(rows, order, out) else rows)
    && peersAfter == PatchedSites(peers, order, Places(peers, order, |order|))
  }

  lemma SitesApart(rows: Table, dir: Directory, peers: seq<StoredPeer>)
    requires IdentifiersOk(rows, Env(dir, Rows(peers)))
    ensures DistinctSites(peers)
  {
    hide Strip, Lower;
    assert forall i :: 0 <= i < |peers| ==> Rows(peers)[i].id == peers[i].id;
  }

  lemma PatchedIdentifiers(rows: Table, dir: Directory, peers: seq<StoredPeer>, order: seq<string>, n: nat)
    requires n <= |order| && IdentifiersOk(rows, Env(dir, Rows(peers)))
    ensures IdentifiersOk(rows, Env(dir, Rows(PatchedSites(peers, order, n))))
  {
    hide IdentifiersOk, Rows, PatchedSites;
    SameSites(peers, order, n, "");
    SameIdentifiers(peers, PatchedSites(peers, order, n), rows, dir);
  }

  lemma ReorderedIdentifiers(rows: Table, done: set<string>, order: seq<string>, dir: Directory, peers: seq<StoredPeer>)
    requires IdentifiersOk(rows, Env(dir, Rows(peers)))
    ensures IdentifiersOk(InOrder(rows, done, order), Env(dir, Rows(peers)))
  {
    hide Rows;
  }

  lemma OwnersExist(rows: Table)
    ensures forall o :: o in Owners(rows) ==> OwnerExists(rows, o)
  {
  }

  lemma InOrderKeepsAll(rows: Table, done: set<string>, order: seq<string>)
    requires TableOk(rows)
    ensures TableOk(InOrder(rows, done, order))
    ensures forall o :: OwnerExists(rows, o) <==> OwnerExists(InOrder(rows, done, order), o)
  {
    InOrderKeepsShape(rows, done, order);
  }

  lemma {:induction false} RankIsPlace(order: seq<string>, i: nat)
    requires NoneRepeated(order) && i < |order|
    ensures Rank(order, order[i]) == i
  {
  }

  /** What the page asked for: in an order without repetitions, the line at place i gets priority 10 (i + 1),
  be it a rule or a site. */
  lemma PriorityByPlace(rows: Table, peers: seq<StoredPeer>, order: seq<string>, i: nat)
    requires NoneRepeated(order) && i < |order|
    ensures order[i] in rows && rows[order[i]].ownerId != "" ==>
      InOrder(rows, Owners(rows), order)[order[i]].priority == (i + 1) * 10
    ensures forall k :: 0 <= k < |peers| && Listed(peers[k]) && LineId(peers[k]) == order[i] && Patchable(peers[k]) ==>
      PatchedSites(peers, order, |order|)[k].priority == (i + 1) * 10
  {
    hide Listed, LineId, Rank;
    RankIsPlace(order, i);
    forall k | 0 <= k < |peers| && Listed(peers[k]) && LineId(peers[k]) == order[i] && Patchable(peers[k])
      ensures PatchedSites(peers, order, |order|)[k].priority == (i + 1) * 10
    {
      assert order[..|order|] == order;
      PriorityDoesNotMatter(peers[k], (i + 1) * 10);
    }
  }

  /** A refused refresh after dragging one site: the site keeps its new priority. */
  lemma RefusedOrderStays(t: Token)
    ensures var peers, order := [SiteWithLan([Ipv4Text(t)])], [CE_PEER_RULE_PREFIX + "p"];
      AllPatchable(peers, order, 1) && PatchedSites(peers, order, 1) != peers
  {
    hide Checked, Strip, NonBlankTexts;
    var lan := [Ipv4Text(t)];
    var s, order := SiteWithLan(lan), [CE_PEER_RULE_PREFIX + "p"];
    OneText(t);
    SiteIsChecked(lan);
    assert !lan[0].Blank?;
    assert order[..1] == order && order[0] == LineId(s);
    assert Patchable(s);
    assert Patched(s, order, 1);
    PriorityByPlace(map[], [s], order, 0);
    assert [s][0] == s && s.priority == 500;
  }

  // ------------------------------------------------- when nothing is changed

  predicate RowsInPlace(rows: Table, done: set<string>, order: seq<string>) {
    forall k :: k in rows && rows[k].ownerId in done && k in order ==> rows[k].priority == (Rank(order, k) + 1) * 10
  }

  /** The site has the priority of its place, and its fields are as they are stored. */
  predicate InPlace(s: StoredPeer, order: seq<string>)
    requires LineId(s) in order
  {
    s.priority == (Rank(order, LineId(s)) + 1) * 10 && Checked(s) == Some(s)
  }

  predicate SitesInPlace(peers: seq<StoredPeer>, order: seq<string>, n: nat)
    requires n <= |order|
  {
    forall i :: 0 <= i < |peers| && Patched(peers[i], order, n) ==> InPlace(peers[i], order)
  }

  lemma RowsStayExactlyWhen(rows: Table, done: set<string>, order: seq<string>)
    ensures InOrder(rows, done, order) == rows <==> RowsInPlace(rows, done, order)
  {
    hide Rank;
    InOrderHas(rows, done, order);
    if RowsInPlace(rows, done, order) {
      forall k | k in rows ensures InOrder(rows, done, order)[k] == rows[k] { }
    }
    if InOrder(rows, done, order) == rows {
      forall k | k in rows && rows[k].ownerId in done && k in order
        ensures rows[k].priority == (Rank(order, k) + 1) * 10
      {
        InOrderAt(rows, done, order, k);
      }
    }
  }

  lemma SiteStaysExactlyWhen(s: StoredPeer, order: seq<string>)
    requires LineId(s) in order && Patchable(s)
    ensures WithPriority(s, order) == s <==> InPlace(s, order)
  {
    hide Rank, Strip, Lower, NonBlanks, FirstOnly, NonBlankTexts, AllIpv4;
    PriorityDoesNotMatter(s, (Rank(order, LineId(s)) + 1) * 10);
  }

  lemma SitesStayExactlyWhen(peers: seq<StoredPeer>, order: seq<string>, n: nat)
    requires n <= |order| && AllPatchable(peers, order, n)
    ensures PatchedSites(peers, order, n) == peers <==> SitesInPlace(peers, order, n)
  {
    hide WithPriority, InPlace, Patchable, Listed, LineId;
    var now := PatchedSites(peers, order, n);
    forall i | 0 <= i < |peers|
      ensures now[i] == peers[i] <==> (Patched(peers[i], order, n) ==> InPlace(peers[i], order))
    {
      if Patched(peers[i], order, n) {
        SiteStaysExactlyWhen(peers[i], order);
      }
    }
    if now == peers {
      assert forall i :: 0 <= i < |peers| ==> now[i] == peers[i];
    }
  }

  /** A refused order changes nothing exactly when the sites up to the first that does not pass are in place
  and, if all pass, so are the rules of the owners before the first with a row named twice. */
  lemma RefusedOrderChangesNothingExactlyWhen(order: seq<string>, rows: Table, peers: seq<StoredPeer>, rowsAfter: Table,
      peersAfter: seq<StoredPeer>)
    requires WellKeyed(rows) && AllOrdered(order, rows, peers, Rejected, rowsAfter, peersAfter)
    ensures rowsAfter == rows && peersAfter == peers <==>
      && SitesInPlace(peers, order, Places(peers, order, |order|))
      && (AllPatchable(peers, order, |order|) ==> RowsInPlace(rows, WrittenOwners(rows, order), order))
  {
    hide SitesInPlace, RowsInPlace, AllPatchable, PatchedSites, InOrder, WrittenOwners, Places, AllNamedOnce,
      Owners;
    SitesStayExactlyWhen(peers, order, Places(peers, order, |order|));
    RowsStayExactlyWhen(rows, WrittenOwners(rows, order), order);
  }

  /** After a refused refresh the rules are as before, and the sites are exactly when all that the order names
  are in place already. */
  lemma RefusedRefreshChangesNothingExactlyWhen(order: seq<string>, rows: Table, peers: seq<StoredPeer>,
      rowsAfter: Table, peersAfter: seq<StoredPeer>)
    requires WellKeyed(rows) && AllOrdered(order, rows, peers, RefreshFailed, rowsAfter, peersAfter)
    ensures rowsAfter == rows
    ensures peersAfter == peers <==> SitesInPlace(peers, order, |order|)
  {
    hide SitesInPlace, AllPatchable, PatchedSites, InOrder, WrittenOwners, AllNamedOnce, Owners;
    SitesStayExactlyWhen(peers, order, |order|);
  }

  function PlainRule(id: string, owner: string): Rule {
    Rule(id, GroupOwner, owner, Center, Accept, None, [], [], None, "all", 500, true)
  }

  function TwoOwners(): Table {
    map["r" := PlainRule("r", "a"), "s" := PlainRule("s", "b")]
  }

  /** Two owners with one rule each, and an order that names the second rule twice: the order is refused, and
  the first owner's rule has got its new priority all the same. */
  lemma RefusedOrderIsPartlyStored()
    ensures var rows, order := TwoOwners(), ["r", "s", "s"];
      && WellKeyed(rows)
      && AllOrdered(order, rows, [], Rejected, rows["r" := rows["r"].(priority := 10)], [])
  {
    hide OwnersInTurn, CleanOwners, NoneTwice, InOrder, Owners;
    var rows, order := TwoOwners(), ["r", "s", "s"];
    TurnsOfTwo();
    NamedTwice();
    AllAreWritten(rows, order);
    OneIsWritten();
  }

  lemma TurnsOfTwo()
    ensures WellKeyed(TwoOwners()) && OwnersInTurn(TwoOwners(), ["r", "s", "s"]) == ["a", "b"]
  {
    hide NamedOwners, OtherOwners, FirstOnly, SortByLine;
    var rows, order := TwoOwners(), ["r", "s", "s"];
    NamesOfTwo();
    var lines := SortByLine(Listing(rows));
    SortedByLine(Listing(rows));
    forall o ensures o !in OtherOwners(lines, order) {
      OtherOwnersAre(lines, order, o);
    }
    NoMembers(OtherOwners(lines, order));
    assert ["a", "b", "b"] + [] == ["a", "b", "b"];
  }

  lemma NamesOfTwo()
    ensures NamedOwners(TwoOwners(), ["r", "s", "s"]) == ["a", "b", "b"] && FirstOnly(["a", "b", "b"]) == ["a", "b"]
  {
    var order := ["r", "s", "s"];
    assert order[..2] == ["r", "s"] && ["r", "s"][..1] == ["r"] && ["r"][..0] == [];
    assert ["a", "b", "b"][..2] == ["a", "b"] && ["a", "b"][..1] == ["a"] && ["a"][..0] == [];
  }

  lemma NoMembers(xs: seq<string>)
    requires forall x :: x !in xs
    ensures xs == []
  {
    if xs != [] {
      FirstMember(xs);
    }
  }

  lemma FirstMember(xs: seq<string>)
    requires xs != []
    ensures xs[0] in xs
  {
  }

  lemma NamedTwice()
    ensures var rows, order := TwoOwners(), ["r", "s", "s"];
      CleanOwners(rows, ["a", "b"], order) == 1 && NamedOnce(rows, "a", order) && !NamedOnce(rows, "b", order)
  {
    var rows, order := TwoOwners(), ["r", "s", "s"];
    assert "s" in OnlyOwner(rows, "b") && order[1] == order[2];
    assert ["a", "b"][..1] == ["a"] && ["a"][..0] == [];
  }

  lemma OneIsWritten()
    ensures var rows, order := TwoOwners(), ["r", "s", "s"];
      InOrder(rows, Elements(["a", "b"][..1]), order) == rows["r" := rows["r"].(priority := 10)]
  {
    var rows, order := TwoOwners(), ["r", "s", "s"];
    assert Elements(["a", "b"][..1]) == {"a"} by { assert ["a", "b"][..1] == ["a"]; }
    assert Rank(order, "r") == 0 by { assert order[..2] == ["r", "s"] && ["r", "s"][..1] == ["r"]; }
    var t := InOrder(rows, {"a"}, order);
    assert t.Keys == rows.Keys;
  }
}
