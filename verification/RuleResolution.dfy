/** From the stored rule table to the rules of a plan: tag resolution and peer forwards. */
module RuleResolution {
  import opened Wrappers
  import opened Ipv4
  import opened FirewallModel
  import opened ForwardPlan
  import opened KernelModel
  import opened IpsetTransactions
  import opened IptablesApply
  import opened RuleStore
  import opened Tags

  // --------------------------------------------------------- environment

  /** A stored peer site, as far as the centre chain is concerned. */
  datatype PeerRow = PeerRow(id: string, enabled: bool, forward: PeerForward)

  /** What a refresh reads besides the rule table. */
  datatype Env = Env(dir: Directory, peerRows: seq<PeerRow>)

  function CenterPeers(rows: seq<PeerRow>): seq<PeerForward> {
    if rows == [] then []
    else
      var r := rows[|rows| - 1];
      CenterPeers(rows[..|rows| - 1]) +
        (if r.id == "" || !r.enabled || AllBlank(r.forward.cidrs) then [] else [r.forward.(peerId := r.id)])
  }

  method CollectCenterPeers(rows: seq<PeerRow>) returns (out: seq<PeerForward>)
    ensures out == CenterPeers(rows)
  {
    hide AllBlank;
    out := [];
    for i := 0 to |rows|
      invariant out == CenterPeers(rows[..i])
    {
      assert rows[..i + 1][..i] == rows[..i];
      if rows[i].id == "" || !rows[i].enabled || AllBlank(rows[i].forward.cidrs) {
        continue;
      }
      out := out + [rows[i].forward.(peerId := rows[i].id)];
    }
    assert rows[..|rows|] == rows;
  }

  // ------------------------------------------------------ resolving tag rules

  function AsTexts(nets: seq<Prefix>): seq<AddrText> {
    seq(|nets|, i requires 0 <= i < |nets| => Ipv4Text(nets[i]))
  }

  ghost predicate KnownTag(r: Rule, dir: Directory) {
    r.enabled && r.ownerType == TagOwner ==> r.ownerId in dir.tags
  }

  /** A stored row as it enters the plan: disabled rows and rules on a tag without addresses do not. */
  ghost function ResolvedRow(r: Rule, dir: Directory): seq<Rule>
    requires KnownTag(r, dir)
  {
    if !r.enabled then []
    else if r.ownerType != TagOwner then [r]
    else if ResolvedTag(dir, r.ownerId) == [] then []
    else [r.(sourceSubnet := None, sourceIps := AsTexts(ResolvedTag(dir, r.ownerId)))]
  }

  ghost function ResolvedRows(rows: seq<Rule>, dir: Directory): seq<Rule>
    requires forall i :: 0 <= i < |rows| ==> KnownTag(rows[i], dir)
  {
    if rows == [] then []
    else ResolvedRows(rows[..|rows| - 1], dir) + ResolvedRow(rows[|rows| - 1], dir)
  }

  function InsertByPriority(s: seq<Rule>, r: Rule): seq<Rule> {
    if s == [] || s[|s| - 1].priority <= r.priority then s + [r]
    else InsertByPriority(s[..|s| - 1], r) + [s[|s| - 1]]
  }

  /** Stable sort by priority. */
  function SortByPriority(s: seq<Rule>): seq<Rule> {
    if s == [] then [] else InsertByPriority(SortByPriority(s[..|s| - 1]), s[|s| - 1])
  }

  predicate ByPriority(s: seq<Rule>) {
    forall i, j :: 0 <= i < j < |s| ==> s[i].priority <= s[j].priority
  }

  lemma {:induction false} AlreadySorted(s: seq<Rule>)
    requires ByPriority(s)
    ensures SortByPriority(s) == s
  {
    if s != [] {
      AlreadySorted(s[..|s| - 1]);
      assert s == s[..|s| - 1] + [s[|s| - 1]];
    }
  }

  lemma {:induction false} ResolvedByPriority(rows: seq<Rule>, dir: Directory)
    requires SortedRows(rows) && forall i :: 0 <= i < |rows| ==> KnownTag(rows[i], dir)
    ensures ByPriority(ResolvedRows(rows, dir))
    ensures forall r :: r in ResolvedRows(rows, dir) ==> rows != [] && r.priority <= rows[|rows| - 1].priority
  {
    hide KnownTag;
    if rows != [] {
      var n := |rows| - 1;
      ResolvedByPriority(rows[..n], dir);
      if n > 0 { assert RowLess(rows[n - 1], rows[n]); }
      hide RowLess, SortedRows;
    }
  }

  /** Resolve every enabled row, each tag once; an unknown tag is an error. */
  method ResolveTagRules(rows: seq<Rule>, dir: Directory) returns (r: Option<seq<Rule>>)
    requires SortedRows(rows)
    ensures r.Some? <==> forall i :: 0 <= i < |rows| ==> KnownTag(rows[i], dir)
    ensures r.Some? ==> r.value == ResolvedRows(rows, dir)
  {
    hide SortedRows;
    var resolved: map<string, seq<Prefix>> := map[];
    var result: seq<Rule> := [];
    for i := 0 to |rows|
      invariant forall k :: 0 <= k < i ==> KnownTag(rows[k], dir)
      invariant result == ResolvedRows(rows[..i], dir)
      invariant forall t :: t in resolved ==> t in dir.tags && resolved[t] == ResolvedTag(dir, t)
    {
      assert rows[..i + 1][..i] == rows[..i];
      var row := rows[i];
      if !row.enabled {
        continue;
      }
      if row.ownerType != TagOwner {
        result := result + [row];
        continue;
      }
      if row.ownerId !in resolved {
        var addresses := ResolveAddresses(dir, row.ownerId);
        if addresses.None? {
          return None;
        }
        resolved := resolved[row.ownerId := addresses.value];
      }
      if resolved[row.ownerId] == [] {
        continue;
      }
      result := result + [row.(sourceSubnet := None, sourceIps := AsTexts(resolved[row.ownerId]))];
    }
    assert rows[..|rows|] == rows;
    ResolvedByPriority(rows, dir);
    AlreadySorted(result);
    r := Some(SortByPriority(result));
  }

  // --------------------------------------------------- what a table means

  ghost predicate Resolvable(rows: Table, env: Env)
    requires WellKeyed(rows)
  {
    forall i :: 0 <= i < |Listing(rows)| ==> KnownTag(Listing(rows)[i], env.dir)
  }

  ghost function EffectiveRules(rows: Table, env: Env): seq<Rule>
    requires WellKeyed(rows) && Resolvable(rows, env)
  {
    ResolvedRows(Listing(rows), env.dir)
  }

  /** The kernel carries out the table. */
  ghost predicate InStep(kernel: Kernel, rows: Table, env: Env)
    reads kernel
  {
    WellKeyed(rows) && Resolvable(rows, env) && InForceOn(kernel, EffectiveRules(rows, env), CenterPeers(env.peerRows))
  }

  /** The sets that the table stands for. */
  ghost function WantedSets(rows: Table, env: Env): Sets
    requires WellKeyed(rows) && Resolvable(rows, env)
  {
    WantOf(EffectiveRules(rows, env), CenterPeers(env.peerRows))
  }

  /** The managed sets are exactly those of the table, with exactly its entries. */
  ghost predicate ManagedExactly(sets: Sets, rows: Table, env: Env) {
    && WellKeyed(rows) && Resolvable(rows, env)
    && forall n: SetName | n.Stable? :: SameAt(WantedSets(rows, env), sets, n)
  }

  /** Coming from `before`, the table's sets are complete, and any other managed set is an orphan that
  was there before, as it was. */
  ghost predicate OrphansAtMost(before: Sets, sets: Sets, rows: Table, env: Env) {
    && WellKeyed(rows) && Resolvable(rows, env)
    && Applied(WantedSets(rows, env), sets)
    && forall n: SetName | n.Stable? && n in sets && n !in WantedSets(rows, env) :: SameAt(before, sets, n)
  }

  /** Sets of other programs and stages of other transactions are untouched. */
  ghost predicate OthersKept(before: Sets, after: Sets) {
    forall n: SetName | n.Foreign? || (n.Stage? && n in before) :: SameAt(before, after, n)
  }

  lemma RefreshKeepsOthers(before: Sets, want: Sets, after: Sets)
    requires RefreshSafe(before, want, after)
    ensures OthersKept(before, after)
  {
    forall n: SetName | n.Foreign? || (n.Stage? && n in before) ensures SameAt(before, after, n) {
      assert RefreshSafeAt(before, want, after, n);
    }
  }

  lemma RefreshLeavesOrphansAtMost(before: Sets, sets: Sets, rows: Table, env: Env)
    requires WellKeyed(rows) && Resolvable(rows, env)
    requires Applied(WantedSets(rows, env), sets) && RefreshSafe(before, WantedSets(rows, env), sets)
    ensures OrphansAtMost(before, sets, rows, env)
  {
    hide WantedSets, Resolvable, Applied;
    forall n: SetName | n.Stable? && n in sets && n !in WantedSets(rows, env) ensures SameAt(before, sets, n) {
      assert RefreshSafeAt(before, WantedSets(rows, env), sets, n);
    }
  }

  /** What a refresh that went through is worth for the table. */
  lemma RefreshWentThrough(kernel: Kernel, before: Sets, rows: Table, env: Env, quiet: bool)
    requires WellKeyed(rows) && Resolvable(rows, env)
    requires InForceOn(kernel, EffectiveRules(rows, env), CenterPeers(env.peerRows))
    requires RefreshSafe(before, WantedSets(rows, env), kernel.sets)
    requires quiet && Deployable(EffectiveRules(rows, env), CenterPeers(env.peerRows)) ==>
      Converged(before, WantedSets(rows, env), kernel.sets)
    ensures InStep(kernel, rows, env) && OrphansAtMost(before, kernel.sets, rows, env)
    ensures quiet && IdentifiersOk(rows, env) ==> ManagedExactly(kernel.sets, rows, env)
  {
    hide Resolvable, Applied, RefreshSafe, Compile, ListingOk, IdentifiersOk;
    RefreshLeavesOrphansAtMost(before, kernel.sets, rows, env);
    if quiet && IdentifiersOk(rows, env) {
      StoredListingOk(rows, env);
    }
  }

  /** Identifiers that are assumed: peers have distinct ones, and stored rules keep off the prefix
  reserved for peers. */
  ghost predicate IdentifiersOk(rows: Table, env: Env) {
    && (forall i, j :: 0 <= i < j < |env.peerRows| ==> env.peerRows[i].id != env.peerRows[j].id)
    && (forall k :: k in rows ==> !(CE_PEER_RULE_PREFIX <= k))
  }

  lemma SortedRowsDistinct(rows: seq<Rule>, t: Table)
    requires WellKeyed(t) && IsListing(rows, t)
    ensures DistinctIds(rows)
  {
    hide RowLess;
    forall i, j | 0 <= i < j < |rows| ensures rows[i].id != rows[j].id {
      assert RowLess(rows[i], rows[j]) && rows[i] in rows && rows[j] in rows;
      RowOrder(rows[i], rows[j], rows[i]);
    }
  }

  lemma {:induction false} ResolvedMembers(rows: seq<Rule>, dir: Directory, r: Rule)
    requires forall i :: 0 <= i < |rows| ==> KnownTag(rows[i], dir)
    ensures r in ResolvedRows(rows, dir) <==> exists i :: 0 <= i < |rows| && r in ResolvedRow(rows[i], dir)
  {
    hide KnownTag, ResolvedRow;
    if rows != [] {
      var n := |rows| - 1;
      ResolvedMembers(rows[..n], dir, r);
      if r in ResolvedRows(rows[..n], dir) {
        var i :| 0 <= i < n && r in ResolvedRow(rows[..n][i], dir);
        assert r in ResolvedRow(rows[i], dir);
      }
      if i :| 0 <= i < |rows| && r in ResolvedRow(rows[i], dir) {
        if i < n { assert rows[..n][i] == rows[i]; }
      }
    }
  }

  lemma ResolvedRowShape(row: Rule, dir: Directory, r: Rule)
    requires KnownTag(row, dir) && r in ResolvedRow(row, dir)
    ensures r.id == row.id && r.ownerId == row.ownerId && r.ownerType == row.ownerType && r.destPort == row.destPort
    ensures r.enabled
    ensures r.ownerType == TagOwner ==>
      r.ownerId in dir.tags && r.sourceIps == AsTexts(ResolvedTag(dir, r.ownerId)) && r.sourceIps != []
  {
  }

  lemma {:induction false} ResolvedDistinct(rows: seq<Rule>, dir: Directory)
    requires DistinctIds(rows) && forall i :: 0 <= i < |rows| ==> KnownTag(rows[i], dir)
    ensures DistinctIds(ResolvedRows(rows, dir))
  {
    hide KnownTag, ResolvedRow;
    if rows != [] {
      var n := |rows| - 1;
      var front, last := ResolvedRows(rows[..n], dir), ResolvedRow(rows[n], dir);
      ResolvedDistinct(rows[..n], dir);
      assert |last| <= 1 by { OneAtMost(rows[n], dir); }
      forall i, j | 0 <= i < |front| && 0 <= j < |last| ensures front[i].id != last[j].id {
        ResolvedMembers(rows[..n], dir, front[i]);
        var k :| 0 <= k < n && front[i] in ResolvedRow(rows[..n][k], dir);
        ResolvedRowShape(rows[k], dir, front[i]);
        ResolvedRowShape(rows[n], dir, last[j]);
      }
    }
  }

  lemma OneAtMost(row: Rule, dir: Directory)
    requires KnownTag(row, dir)
    ensures |ResolvedRow(row, dir)| <= 1
  {
  }

  lemma {:induction false} JsonEntriesDistinct(rules: seq<Rule>)
    requires DistinctIds(rules)
    ensures DistinctOwners(JsonEntries(rules))
  {
    if rules != [] {
      var n := |rules| - 1;
      JsonEntriesDistinct(rules[..n]);
      var front := JsonEntries(rules[..n]);
      forall i | 0 <= i < |front| ensures OwnersDiffer(front[i], JsonEntry(rules[n])) {
        JsonEntriesMembers(rules[..n], front[i]);
        var k :| 0 <= k < n && rules[..n][k] == front[i].rule;
        assert rules[k].id != rules[n].id;
      }
    }
  }

  lemma {:induction false} CenterPeersMembers(rows: seq<PeerRow>, p: PeerForward)
    requires p in CenterPeers(rows)
    ensures exists i :: 0 <= i < |rows| && rows[i].id == p.peerId
  {
    hide AllBlank;
    var n := |rows| - 1;
    if p in CenterPeers(rows[..n]) {
      CenterPeersMembers(rows[..n], p);
      var i :| 0 <= i < n && rows[..n][i].id == p.peerId;
      assert rows[i].id == p.peerId;
    } else {
      assert rows[n].id == p.peerId;
    }
  }

  predicate DistinctPeers(ps: seq<PeerForward>) {
    forall i, j :: 0 <= i < j < |ps| ==> ps[i].peerId != ps[j].peerId
  }

  lemma {:induction false} CenterPeersDistinct(rows: seq<PeerRow>)
    requires forall i, j :: 0 <= i < j < |rows| ==> rows[i].id != rows[j].id
    ensures DistinctPeers(CenterPeers(rows))
  {
    hide AllBlank;
    if rows != [] {
      var n := |rows| - 1;
      CenterPeersDistinct(rows[..n]);
      var front := CenterPeers(rows[..n]);
      forall i | 0 <= i < |front| ensures front[i].peerId != rows[n].id {
        CenterPeersMembers(rows[..n], front[i]);
      }
    }
  }

  lemma {:induction false} PeerEntriesDistinct(ps: seq<PeerForward>)
    requires DistinctPeers(ps)
    ensures DistinctOwners(PeerEntries(ps))
  {
    hide AllBlank;
    if ps != [] {
      var n := |ps| - 1;
      PeerEntriesDistinct(ps[..n]);
      var front := PeerEntries(ps[..n]);
      forall i | 0 <= i < |front| ensures OwnersDiffer(front[i], PeerEntry(ps[n])) {
        PeerEntriesMembers(ps[..n], front[i]);
        var k :| 0 <= k < n && ps[..n][k] == front[i].peer;
        assert ps[k].peerId != ps[n].peerId;
      }
    }
  }

  /** From the stored rows on, set names never collide and every tag rule carries addresses: a rule
  on a tag without any is left out, so it never becomes a line that matches everyone. */
  lemma StoredListingOk(rows: Table, env: Env)
    requires WellKeyed(rows) && Resolvable(rows, env) && IdentifiersOk(rows, env)
    ensures ListingOk(Entries(EffectiveRules(rows, env), CenterPeers(env.peerRows)))
  {
    hide KnownTag, ResolvedRow, AllBlank, CenterPeers, ResolvedRows, JsonEntries, PeerEntries;
    var listing := Listing(rows);
    var rules, peers := EffectiveRules(rows, env), CenterPeers(env.peerRows);
    SortedRowsDistinct(listing, rows);
    ResolvedDistinct(listing, env.dir);
    JsonEntriesDistinct(rules);
    CenterPeersDistinct(env.peerRows);
    PeerEntriesDistinct(peers);
    var js, ps := JsonEntries(rules), PeerEntries(peers);
    forall i | 0 <= i < |js| ensures StoredShape(js[i], rows, env) {
      JsonEntriesMembers(rules, js[i]);
      ResolvedMembers(listing, env.dir, js[i].rule);
      var k :| 0 <= k < |listing| && js[i].rule in ResolvedRow(listing[k], env.dir);
      ResolvedRowShape(listing[k], env.dir, js[i].rule);
      assert listing[k] in listing;
    }
    forall i | 0 <= i < |ps| ensures ps[i].PeerEntry? {
      PeerEntriesMembers(peers, ps[i]);
    }
    ConcatListing(js, ps, rows, env);
  }

  ghost predicate StoredShape(e: Entry, rows: Table, env: Env) {
    && e.JsonEntry? && e.rule.id in rows
    && (e.rule.ownerType == TagOwner ==>
      e.rule.ownerId in env.dir.tags && e.rule.sourceIps == AsTexts(ResolvedTag(env.dir, e.rule.ownerId)) &&
      e.rule.sourceIps != [])
  }

  lemma ConcatListing(js: seq<Entry>, ps: seq<Entry>, rows: Table, env: Env)
    requires IdentifiersOk(rows, env)
    requires DistinctOwners(js) && DistinctOwners(ps)
    requires forall i :: 0 <= i < |js| ==> StoredShape(js[i], rows, env)
    requires forall i :: 0 <= i < |ps| ==> ps[i].PeerEntry?
    ensures ListingOk(js + ps)
  {
    var es := js + ps;
    forall i, j | 0 <= i < j < |es| ensures OwnersDiffer(es[i], es[j]) {
      if i < |js| <= j {
        assert StoredShape(js[i], rows, env);
        assert CE_PEER_RULE_PREFIX <= CE_PEER_RULE_PREFIX + es[j].peer.peerId;
      } else if |js| <= i {
        assert OwnersDiffer(ps[i - |js|], ps[j - |js|]);
      } else {
        assert OwnersDiffer(js[i], js[j]);
      }
    }
    forall i | 0 <= i < |es| && IsTagRule(es[i]) ensures es[i].rule.sourceIps != [] {
      assert StoredShape(js[i], rows, env);
    }
    forall i, j | 0 <= i < |es| && 0 <= j < |es| ensures TagsAgree(es[i], es[j]) {
      if IsTagRule(es[i]) && IsTagRule(es[j]) {
        assert StoredShape(js[i], rows, env) && StoredShape(js[j], rows, env);
      }
    }
  }

  /** The chain and the sets are those of the table. */
  ghost predicate CompiledTo(rows: Table, env: Env, chain: seq<Line>, sets: Sets)
    requires WellKeyed(rows) && Resolvable(rows, env)
  {
    var plan := Compile(EffectiveRules(rows, env), CenterPeers(env.peerRows));
    && plan.Some? && chain == plan.value.lines
    && Applied(WantOf(EffectiveRules(rows, env), CenterPeers(env.peerRows)), sets)
  }

  /** When the kernel is in step with the table, every packet gets the verdict of the resolved rules. */
  lemma InStepFollowsPolicy(chain: seq<Line>, sets: Sets, rows: Table, env: Env, pkt: Packet)
    requires WellKeyed(rows) && Resolvable(rows, env) && IdentifiersOk(rows, env)
    requires forall k :: k in rows ==> StoredPort(rows[k].destPort)
    requires CompiledTo(rows, env, chain, sets)
    ensures PolicySays(Entries(EffectiveRules(rows, env), CenterPeers(env.peerRows)), pkt, FirstMatch(chain, sets, pkt))
  {
    hide KnownTag, ResolvedRow, Compile, ListingOk, PolicySays, StoredPort, Applied, Entries, WantOf;
    StoredListingOk(rows, env);
    forall r | r in EffectiveRules(rows, env) ensures StoredPort(r.destPort) {
      ResolvedMembers(Listing(rows), env.dir, r);
      var k :| 0 <= k < |Listing(rows)| && r in ResolvedRow(Listing(rows)[k], env.dir);
      ResolvedRowShape(Listing(rows)[k], env.dir, r);
      assert Listing(rows)[k] in Listing(rows);
    }
    KernelFollowsPolicy(chain, sets, EffectiveRules(rows, env), CenterPeers(env.peerRows), pkt);
  }

  lemma TextsCover(nets: seq<Prefix>, ip: nat)
    ensures SomeCovers(AsTexts(nets), ip) <==> exists p :: p in nets && Covers(p, ip)
  {
    hide Covers;
    if p :| p in nets && Covers(p, ip) {
      var i :| 0 <= i < |nets| && nets[i] == p;
      assert AsTexts(nets)[i] == Ipv4Text(p);
    }
    if i :| 0 <= i < |AsTexts(nets)| && Covers(AsTexts(nets)[i].token, ip) {
      assert nets[i] in nets;
    }
  }

  /** Stored meaning of a row: a tag rule is about whoever is behind the tag now. */
  predicate RowAdmits(row: Rule, dir: Directory, pkt: Packet) {
    if row.ownerType == TagOwner then
      && row.ownerId in dir.tags && TagCovers(dir, dir.tags[row.ownerId], pkt.src)
      && DestAdmits(row.destIp, pkt.dst) && ServiceAdmits(row.protocol, row.destPort, pkt)
    else RuleAdmits(row, pkt)
  }

  /** Resolution fails closed: what a row contributes to the plan admits exactly the packets of the
  row as stored, and an enabled tag rule without addresses contributes nothing. */
  lemma ResolvedRowMeaning(row: Rule, dir: Directory, pkt: Packet)
    requires KnownTag(row, dir)
    ensures (exists r :: r in ResolvedRow(row, dir) && RuleAdmits(r, pkt)) <==> row.enabled && RowAdmits(row, dir, pkt)
    ensures row.enabled && row.ownerType == TagOwner ==>
      (ResolvedRow(row, dir) == [] <==> forall ip: nat :: !TagCovers(dir, dir.tags[row.ownerId], ip))
  {
    hide TagCovers, DestAdmits, ServiceAdmits, Covers, SomeCovers, ResolvedTag;
    if row.enabled && row.ownerType == TagOwner {
      var nets := ResolvedTag(dir, row.ownerId);
      ResolvedTagCovers(dir, row.ownerId, pkt.src);
      TextsCover(nets, pkt.src);
      var r := row.(sourceSubnet := None, sourceIps := AsTexts(nets));
      if nets != [] {
        assert ResolvedRow(row, dir) == [r];
        assert r in [r];
        ResolvedTagCovers(dir, row.ownerId, First(nets[0]));
        assert Covers(nets[0], First(nets[0])) by { FirstIsCovered(nets[0]); }
      } else {
        forall ip: nat ensures !TagCovers(dir, dir.tags[row.ownerId], ip) {
          ResolvedTagCovers(dir, row.ownerId, ip);
        }
      }
    } else if row.enabled {
      assert row in ResolvedRow(row, dir);
    }
  }

  lemma FirstIsCovered(t: Token)
    ensures Covers(t, First(t))
  {
  }
}
