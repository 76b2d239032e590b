/** Saving a peer site skips the kernel refresh, or the rewriting of mesh routes, when a snapshot of
the fields concerned did not change. */
module PeerSnapshots {
  import opened Wrappers
  import opened Ipv4
  import opened Text
  import opened Ports
  import opened FirewallModel
  import opened CcdBlocks
  import opened CcdMerge
  import opened RuleResolution

  /** A peer site as stored, texts as typed. */
  datatype StoredPeer = StoredPeer(
    id: string,
    enabled: bool,
    lanCidrs: seq<AddrText>,
    priority: int,
    protocol: string,
    destIp: seq<AddrText>,
    destPort: string,
    description: string,
    visibleGroups: seq<string>,
    boundUsername: string)

  function OrAll(text: string): string {
    if text == "" then "all" else text
  }

  /** The row as the rule service reads it. */
  function Row(s: StoredPeer): PeerRow {
    PeerRow(s.id, s.enabled,
      PeerForward(s.id, s.lanCidrs, s.priority, s.destIp, Strip(s.destPort), Lower(Strip(OrAll(s.protocol)))))
  }

  function Rows(ss: seq<StoredPeer>): seq<PeerRow> {
    seq(|ss|, i requires 0 <= i < |ss| => Row(ss[i]))
  }

  // -------------------------------------------------------- forward snapshot

  datatype ForwardSnapshot = ForwardSnapshot(
    lan: Option<seq<Prefix>>,
    enabled: bool,
    priority: int,
    protocol: string,
    destIp: seq<AddrText>,
    destPort: string,
    description: string)

  /** `_vpn_forward_wire_snapshot`; raises on a LAN that is no IPv4 network. */
  function ForwardOf(s: StoredPeer): ForwardSnapshot {
    ForwardSnapshot(
      NormalizeEntries(s.lanCidrs),
      s.enabled,
      s.priority,
      OrAll(Lower(Strip(OrAll(s.protocol)))),
      s.destIp,
      Strip(s.destPort),
      Strip(s.description))
  }

  /** Two entries that the policy cannot tell apart on this packet. */
  predicate Alike(a: Entry, b: Entry, pkt: Packet) {
    a.PeerEntry? == b.PeerEntry? && Priority(a) == Priority(b) && Verdict(a) == Verdict(b) &&
    (Admits(a, pkt) <==> Admits(b, pkt))
  }

  lemma HeadIsMember(s: seq<Prefix>)
    ensures s != [] ==> s[0] in s
  {
  }

  lemma BlankHasNoNetworks(xs: seq<AddrText>)
    requires AllIpv4(xs)
    ensures AllBlank(xs) <==> CanonicalNets(Tokens(xs)) == []
  {
    hide CanonicalNets, Tokens, Normalize;
    TokensMembers(xs);
    CanonicalIsSorted(Tokens(xs));
    HeadIsMember(CanonicalNets(Tokens(xs)));
    if !AllBlank(xs) {
      var i :| 0 <= i < |xs| && !xs[i].Blank?;
      assert Ipv4Text(xs[i].token) in xs;
      assert Normalize(xs[i].token) in CanonicalNets(Tokens(xs));
    }
  }

  lemma CoversByNetworks(xs: seq<AddrText>, ip: nat)
    requires AllIpv4(xs)
    ensures SomeCovers(xs, ip) <==> exists p :: p in CanonicalNets(Tokens(xs)) && Covers(p, ip)
  {
    hide CanonicalNets, Tokens, Covers;
    TokensMembers(xs);
    CanonicalCovers(Tokens(xs), ip);
    if i :| 0 <= i < |xs| && xs[i].Ipv4Text? && Covers(xs[i].token, ip) {
      assert Ipv4Text(xs[i].token) in xs;
      assert xs[i].token in Tokens(xs);
    }
    if t :| t in Tokens(xs) && Covers(t, ip) {
      assert Ipv4Text(t) in xs;
    }
  }

  lemma SameProtocol(a: string, b: string)
    requires OrAll(a) == OrAll(b)
    ensures AnyProtocol(a) <==> AnyProtocol(b)
    ensures !AnyProtocol(a) ==> a == b
  {
    assert Lower(Strip("all")) == "all" by {
      StripOfWord("all");
      assert Lower("all") == "all";
    }
  }

  /** Equal snapshots make equal contributions. */
  lemma SameForward(s: StoredPeer, t: StoredPeer, pkt: Packet)
    requires AllIpv4(s.lanCidrs) && ForwardOf(s) == ForwardOf(t)
    ensures AllBlank(s.lanCidrs) <==> AllBlank(t.lanCidrs)
    ensures Alike(PeerEntry(Row(s).forward), PeerEntry(Row(t).forward), pkt)
  {
    hide CanonicalNets, Tokens, Covers, SomeCovers, DestAdmits, AnyProtocol, Strip, Lower, DestPort, OperatorReads;
    BlankHasNoNetworks(s.lanCidrs);
    BlankHasNoNetworks(t.lanCidrs);
    CoversByNetworks(s.lanCidrs, pkt.src);
    CoversByNetworks(t.lanCidrs, pkt.src);
    SameProtocol(Row(s).forward.protocol, Row(t).forward.protocol);
    SameService(Row(s).forward, Row(t).forward, pkt);
  }

  lemma SameService(p: PeerForward, q: PeerForward, pkt: Packet)
    requires p.destPort == q.destPort && (AnyProtocol(p.protocol) <==> AnyProtocol(q.protocol))
    requires !AnyProtocol(p.protocol) ==> p.protocol == q.protocol
    ensures ServiceAdmits(p.protocol, Some(p.destPort), pkt) <==> ServiceAdmits(q.protocol, Some(q.destPort), pkt)
  {
    hide AnyProtocol, Strip, Lower, OperatorReads;
  }

  /** A snapshot was taken of both, and they agree. */
  predicate SameForwardSnapshot(s: StoredPeer, t: StoredPeer) {
    s.id == t.id && AllIpv4(s.lanCidrs) && ForwardOf(s) == ForwardOf(t)
  }

  /** The same site, saved again with the same snapshot; other sites are as they were. */
  ghost predicate SavedAlike(before: seq<StoredPeer>, after: seq<StoredPeer>) {
    |before| == |after| &&
    forall i :: 0 <= i < |before| ==> before[i] == after[i] || SameForwardSnapshot(before[i], after[i])
  }

  // ----------------------------------------------------------- mesh snapshot

  /** `_mesh_push_wire_snapshot`: networks, and visible groups irrespective of order. */
  datatype MeshSnapshot = MeshSnapshot(lan: Option<seq<Prefix>>, groups: multiset<string>)

  function MeshOf(s: StoredPeer): MeshSnapshot {
    MeshSnapshot(NormalizeEntries(s.lanCidrs), multiset(NonBlanks(s.visibleGroups)))
  }

  /** The site's LANs are routed to users of this group: it names the group, or names none. */
  predicate VisibleTo(s: StoredPeer, group: string) {
    AllUnnamed(s.visibleGroups) || (group != "" && Named(s.visibleGroups, group))
  }

  predicate Named(xs: seq<string>, x: string) {
    exists k :: 0 <= k < |xs| && Strip(xs[k]) == x
  }

  predicate AllUnnamed(xs: seq<string>) {
    forall k :: 0 <= k < |xs| ==> Strip(xs[k]) == ""
  }

  lemma {:induction false} NonBlanksAre(xs: seq<string>, x: string)
    ensures NonBlanks(xs) == [] <==> AllUnnamed(xs)
    ensures x in NonBlanks(xs) <==> x != "" && Named(xs, x)
  {
    hide Strip;
    if xs != [] {
      var n := |xs| - 1;
      NonBlanksAre(xs[..n], x);
      OneMoreName(xs, x);
    }
  }

  lemma OneMoreName(xs: seq<string>, x: string)
    requires xs != []
    ensures Named(xs, x) <==> Named(xs[..|xs| - 1], x) || Strip(xs[|xs| - 1]) == x
    ensures AllUnnamed(xs) <==> AllUnnamed(xs[..|xs| - 1]) && Strip(xs[|xs| - 1]) == ""
  {
    hide Strip;
    var n := |xs| - 1;
    if k :| 0 <= k < |xs| && Strip(xs[k]) == x {
      if k < n { assert Strip(xs[..n][k]) == x; }
    }
    if k :| 0 <= k < n && Strip(xs[..n][k]) == x {
      assert Strip(xs[k]) == x;
    }
    if AllUnnamed(xs) {
      forall k | 0 <= k < n ensures Strip(xs[..n][k]) == "" { assert xs[..n][k] == xs[k]; }
    }
    if AllUnnamed(xs[..n]) && Strip(xs[n]) == "" {
      forall k | 0 <= k < |xs| ensures Strip(xs[k]) == "" { assert k < n ==> xs[..n][k] == xs[k]; }
    }
  }

  function MeshTexts(ss: seq<StoredPeer>, group: string): seq<AddrText> {
    if ss == [] then []
    else MeshTexts(ss[..|ss| - 1], group) + (if VisibleTo(ss[|ss| - 1], group) then ss[|ss| - 1].lanCidrs else [])
  }

  /** `mesh_lan_cidrs_for_user_group` */
  method MeshLanCidrsForUserGroup(ss: seq<StoredPeer>, userGroup: string) returns (r: Option<seq<Prefix>>)
    ensures r == NormalizeEntries(MeshTexts(ss, Strip(userGroup)))
    ensures r.Some? ==> forall p :: p in r.value <==> RoutedNetwork(ss, Strip(userGroup), p)
  {
    hide Strip, NonBlanks, Named, AllUnnamed;
    var ug := Strip(userGroup);
    var acc: seq<AddrText> := [];
    for i := 0 to |ss|
      invariant acc == MeshTexts(ss[..i], ug)
    {
      assert ss[..i + 1][..i] == ss[..i];
      var lan := ss[i].lanCidrs;
      if lan == [] {
        assert acc + [] == acc;
        continue;
      }
      var visible := NonBlanks(ss[i].visibleGroups);
      NonBlanksAre(ss[i].visibleGroups, ug);
      if visible == [] {
        acc := acc + lan;
      } else if ug != "" && ug in visible {
        acc := acc + lan;
      }
    }
    assert ss[..|ss|] == ss;
    r := SortedUniqueIpv4Cidrs(acc);
    if r.Some? {
      MeshNetworks(ss, ug);
    }
  }

  /** A network of some LAN that is routed to the group. */
  ghost predicate RoutedNetwork(ss: seq<StoredPeer>, group: string, p: Prefix) {
    exists i, k :: 0 <= i < |ss| && 0 <= k < |ss[i].lanCidrs| && VisibleTo(ss[i], group) &&
      ss[i].lanCidrs[k].Ipv4Text? && Normalize(ss[i].lanCidrs[k].token) == p
  }

  lemma {:induction false} MeshTextsAre(ss: seq<StoredPeer>, group: string, t: AddrText)
    ensures t in MeshTexts(ss, group) <==>
      exists i, k :: 0 <= i < |ss| && 0 <= k < |ss[i].lanCidrs| && VisibleTo(ss[i], group) && ss[i].lanCidrs[k] == t
  {
    hide VisibleTo;
    if ss != [] {
      var n := |ss| - 1;
      MeshTextsAre(ss[..n], group, t);
      var last := ss[n].lanCidrs;
      if t in MeshTexts(ss, group) && t !in MeshTexts(ss[..n], group) {
        var k :| 0 <= k < |last| && last[k] == t;
        assert VisibleTo(ss[n], group) && ss[n].lanCidrs[k] == t;
      }
      if i, k :| 0 <= i < n && 0 <= k < |ss[..n][i].lanCidrs| && VisibleTo(ss[..n][i], group) &&
                 ss[..n][i].lanCidrs[k] == t {
        assert ss[i].lanCidrs[k] == t;
      }
      if i, k :| 0 <= i < |ss| && 0 <= k < |ss[i].lanCidrs| && VisibleTo(ss[i], group) && ss[i].lanCidrs[k] == t {
        if i < n { assert ss[..n][i].lanCidrs[k] == t; }
      }
    }
  }

  lemma MeshNetworks(ss: seq<StoredPeer>, group: string)
    requires AllIpv4(MeshTexts(ss, group))
    ensures forall p :: p in CanonicalNets(Tokens(MeshTexts(ss, group))) <==> RoutedNetwork(ss, group, p)
  {
    hide CanonicalNets, Tokens, VisibleTo, Normalize;
    var texts := MeshTexts(ss, group);
    TokensMembers(texts);
    CanonicalIsSorted(Tokens(texts));
    hide MeshTexts;
    forall p ensures p in CanonicalNets(Tokens(texts)) <==> RoutedNetwork(ss, group, p) {
      if p in CanonicalNets(Tokens(texts)) {
        var t :| t in Tokens(texts) && Normalize(t) == p;
        MeshTextsAre(ss, group, Ipv4Text(t));
      }
      if i, k :| 0 <= i < |ss| && 0 <= k < |ss[i].lanCidrs| && VisibleTo(ss[i], group) &&
                 ss[i].lanCidrs[k].Ipv4Text? && Normalize(ss[i].lanCidrs[k].token) == p {
        MeshTextsAre(ss, group, ss[i].lanCidrs[k]);
      }
    }
  }

  lemma AllIpv4Concat(a: seq<AddrText>, b: seq<AddrText>)
    ensures AllIpv4(a + b) <==> AllIpv4(a) && AllIpv4(b)
  {
    if AllIpv4(a + b) {
      forall i | 0 <= i < |a| ensures a[i].Blank? || a[i].Ipv4Text? { assert (a + b)[i] == a[i]; }
      forall i | 0 <= i < |b| ensures b[i].Blank? || b[i].Ipv4Text? { assert (a + b)[|a| + i] == b[i]; }
    }
  }

  lemma NetworksConcat(a: seq<AddrText>, b: seq<AddrText>)
    requires AllIpv4(a) && AllIpv4(b)
    ensures AllIpv4(a + b) && Networks(Tokens(a + b)) == Networks(Tokens(a)) + Networks(Tokens(b))
  {
    hide Tokens, Normalize;
    AllIpv4Concat(a, b);
    TokensMembers(a);
    TokensMembers(b);
    TokensMembers(a + b);
    assert forall t: Token :: t in Tokens(a + b) <==> t in Tokens(a) || t in Tokens(b);
  }

  predicate SameMeshSnapshot(s: StoredPeer, t: StoredPeer) {
    AllIpv4(s.lanCidrs) && MeshOf(s) == MeshOf(t)
  }

  ghost predicate SavedSameMesh(before: seq<StoredPeer>, after: seq<StoredPeer>) {
    |before| == |after| &&
    forall i :: 0 <= i < |before| ==> before[i] == after[i] || SameMeshSnapshot(before[i], after[i])
  }

  lemma SameVisibility(s: StoredPeer, t: StoredPeer, group: string)
    requires MeshOf(s) == MeshOf(t)
    ensures VisibleTo(s, group) <==> VisibleTo(t, group)
  {
    hide NonBlanks, NormalizeEntries, Named, AllUnnamed;
    NonBlanksAre(s.visibleGroups, group);
    NonBlanksAre(t.visibleGroups, group);
    var a, b := NonBlanks(s.visibleGroups), NonBlanks(t.visibleGroups);
    assert group in a <==> group in multiset(a);
    assert group in b <==> group in multiset(b);
    assert |multiset(a)| == |a| && |multiset(b)| == |b|;
  }

  lemma SameContribution(s: StoredPeer, t: StoredPeer, group: string)
    requires s == t || SameMeshSnapshot(s, t)
    ensures VisibleTo(s, group) <==> VisibleTo(t, group)
    ensures AllIpv4(s.lanCidrs) <==> AllIpv4(t.lanCidrs)
    ensures AllIpv4(s.lanCidrs) ==> Networks(Tokens(s.lanCidrs)) == Networks(Tokens(t.lanCidrs))
  {
    hide Tokens, CanonicalNets, VisibleTo, NonBlanks, Networks;
    if s != t {
      SameVisibility(s, t, group);
      CanonicalDependsOnNetworksOnly(Tokens(s.lanCidrs), Tokens(t.lanCidrs));
    }
  }

  lemma MeshTextsStep(ss: seq<StoredPeer>, group: string)
    requires ss != []
    ensures var front, last := MeshTexts(ss[..|ss| - 1], group), ss[|ss| - 1].lanCidrs;
      && (VisibleTo(ss[|ss| - 1], group) ==> (AllIpv4(MeshTexts(ss, group)) <==> AllIpv4(front) && AllIpv4(last)))
      && (VisibleTo(ss[|ss| - 1], group) && AllIpv4(front) && AllIpv4(last) ==>
          Networks(Tokens(MeshTexts(ss, group))) == Networks(Tokens(front)) + Networks(Tokens(last)))
      && (!VisibleTo(ss[|ss| - 1], group) ==> MeshTexts(ss, group) == front)
  {
    hide Tokens, Networks, VisibleTo, AllIpv4;
    var front, last := MeshTexts(ss[..|ss| - 1], group), ss[|ss| - 1].lanCidrs;
    AllIpv4Concat(front, last);
    assert front + [] == front;
    if AllIpv4(front) && AllIpv4(last) {
      NetworksConcat(front, last);
    }
  }

  lemma {:induction false} SameMeshNetworks(before: seq<StoredPeer>, after: seq<StoredPeer>, group: string)
    requires SavedSameMesh(before, after)
    ensures AllIpv4(MeshTexts(before, group)) <==> AllIpv4(MeshTexts(after, group))
    ensures AllIpv4(MeshTexts(before, group)) ==>
      Networks(Tokens(MeshTexts(before, group))) == Networks(Tokens(MeshTexts(after, group)))
  {
    hide Tokens, Networks, VisibleTo, AllIpv4, SameMeshSnapshot;
    if before != [] {
      var n := |before| - 1;
      SameMeshNetworks(before[..n], after[..n], group);
      hide MeshTexts;
      SameContribution(before[n], after[n], group);
      MeshTextsStep(before, group);
      MeshTextsStep(after, group);
    }
  }

  /** Skipping the mesh rewrite is safe: every user group gets the same routes, so the same block. */
  lemma SkippedMeshKeepsRoutes(before: seq<StoredPeer>, after: seq<StoredPeer>, group: string)
    requires SavedSameMesh(before, after)
    ensures NormalizeEntries(MeshTexts(before, group)) == NormalizeEntries(MeshTexts(after, group))
    ensures AllIpv4(MeshTexts(before, group)) <==> AllIpv4(MeshTexts(after, group))
    ensures AllIpv4(MeshTexts(before, group)) ==>
      MeshBlock(MeshTexts(before, group)) == MeshBlock(MeshTexts(after, group))
  {
    hide Tokens, CanonicalNets, MeshTexts, PushLines, MeshMarkers, SavedSameMesh, AllIpv4;
    SameMeshNetworks(before, after, group);
    if AllIpv4(MeshTexts(before, group)) {
      CanonicalDependsOnNetworksOnly(Tokens(MeshTexts(before, group)), Tokens(MeshTexts(after, group)));
    }
  }

  // --------------------------------------------------------- iroute snapshot

  /** `_ccd_iroute_wire_snapshot` */
  datatype IrouteSnapshot = IrouteSnapshot(user: string, lan: Option<seq<Prefix>>)

  function IrouteOf(s: StoredPeer): IrouteSnapshot {
    IrouteSnapshot(Strip(s.boundUsername), NormalizeEntries(s.lanCidrs))
  }

  lemma {:induction false} IrouteLinesAre(ts: seq<Token>, line: string)
    ensures line in IrouteLines(ts) <==> exists p :: p in Networks(ts) && line == IrouteLine(p)
  {
    hide IrouteLine, Normalize;
    if ts != [] {
      var front, last := ts[..|ts| - 1], ts[|ts| - 1];
      IrouteLinesAre(front, line);
      assert ts == front + [last];
      assert forall t :: t in ts <==> t in front || t == last;
      assert Normalize(last) in Networks(ts);
    }
  }

  lemma SameIroutes(a: seq<AddrText>, b: seq<AddrText>, line: string)
    requires AllIpv4(a) && AllIpv4(b) && NormalizeEntries(a) == NormalizeEntries(b)
    ensures line in IrouteLines(Tokens(a)) <==> line in IrouteLines(Tokens(b))
  {
    hide IrouteLines, IrouteLine, Tokens, Networks, CanonicalNets;
    CanonicalDependsOnNetworksOnly(Tokens(a), Tokens(b));
    IrouteLinesAre(Tokens(a), line);
    IrouteLinesAre(Tokens(b), line);
  }

  predicate NoBlanks(xs: seq<AddrText>) {
    forall i :: 0 <= i < |xs| ==> !xs[i].Blank?
  }

  lemma InsertedLines(base: seq<string>, block: seq<string>, line: string)
    requires block != []
    ensures line in InsertBeforeMesh(base, block) <==>
      line in InsertBeforeMesh(base, [block[0]]) || line in block[1..]
  {
    hide MeshAt, MeshMarkers;
    assert block == [block[0]] + block[1..];
    assert [block[0]][1..] == [];
  }

  lemma BlockLines(id: string, a: seq<AddrText>, line: string)
    requires AllIpv4(a)
    ensures IrouteBlock(id, a) != [] && IrouteBlock(id, a)[0] == PeerMarkers(id).begin
    ensures line in IrouteBlock(id, a)[1..] <==> line in IrouteLines(Tokens(a)) || line == PeerMarkers(id).end
  {
    hide IrouteLines, PeerMarkers, Tokens;
    assert IrouteBlock(id, a)[1..] == IrouteLines(Tokens(a)) + [PeerMarkers(id).end];
  }

  lemma SameMergedLines(ls: seq<string>, id: string, a: seq<AddrText>, b: seq<AddrText>, line: string)
    requires AllIpv4(a) && AllIpv4(b) && NormalizeEntries(a) == NormalizeEntries(b) && (a == [] <==> b == [])
    ensures line in MergePeer(ls, id, a) <==> line in MergePeer(ls, id, b)
  {
    hide InsertBeforeMesh, IrouteLines, IrouteBlock, PeerMarkers, WithoutBlocks, Tokens, AllIpv4, NormalizeEntries;
    if a != [] {
      var base := WithoutBlocks(ls, PeerMarkers(id));
      SameIroutes(a, b, line);
      BlockLines(id, a, line);
      BlockLines(id, b, line);
      InsertedLines(base, IrouteBlock(id, a), line);
      InsertedLines(base, IrouteBlock(id, b), line);
    }
  }

  /** Skipping the peer block is safe: the block belongs in the same user's file, and rewriting it would
  leave that file with the lines it has, whatever else is in it. Stored LANs hold no blanks. */
  lemma SkippedIrouteKeepsRoutes(s: StoredPeer, t: StoredPeer, file: seq<string>, id: string)
    requires AllIpv4(s.lanCidrs) && IrouteOf(s) == IrouteOf(t)
    ensures AllIpv4(t.lanCidrs) && Strip(s.boundUsername) == Strip(t.boundUsername)
    ensures NoBlanks(s.lanCidrs) && NoBlanks(t.lanCidrs) ==> (s.lanCidrs == [] <==> t.lanCidrs == [])
    ensures (s.lanCidrs == [] <==> t.lanCidrs == []) ==>
      forall line :: line in MergePeer(file, id, s.lanCidrs) <==> line in MergePeer(file, id, t.lanCidrs)
  {
    hide MergePeer, Strip, CanonicalNets, Tokens;
    BlankHasNoNetworks(s.lanCidrs);
    BlankHasNoNetworks(t.lanCidrs);
    if NoBlanks(s.lanCidrs) && NoBlanks(t.lanCidrs) {
      NotBlankIfAny(s.lanCidrs);
      NotBlankIfAny(t.lanCidrs);
    }
    if s.lanCidrs == [] <==> t.lanCidrs == [] {
      forall line ensures line in MergePeer(file, id, s.lanCidrs) <==> line in MergePeer(file, id, t.lanCidrs) {
        SameMergedLines(file, id, s.lanCidrs, t.lanCidrs, line);
      }
    }
  }

  lemma NotBlankIfAny(xs: seq<AddrText>)
    requires NoBlanks(xs)
    ensures AllBlank(xs) <==> xs == []
  {
    assert xs != [] ==> !xs[0].Blank?;
  }
}
