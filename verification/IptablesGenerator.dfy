/** The loops that build the forward plan, each proved to produce what `ForwardPlan` specifies. */
module IptablesGenerator {
  import opened Wrappers
  import opened Ipv4
  import opened Text
  import opened Ports
  import opened FirewallModel
  import opened ForwardPlan

  /** Merge the rules in force with the peer forwards, then order them. */
  method BuildMergedForwardEntries(rules: seq<Rule>, peers: seq<PeerForward>) returns (merged: seq<Entry>)
    ensures merged == SortEntries(Entries(rules, peers))
  {
    hide SortEntries, AllBlank;
    var listed: seq<Entry> := [];
    for i := 0 to |rules|
      invariant listed == JsonEntries(rules[..i])
    {
      assert rules[..i + 1][..i] == rules[..i];
      if rules[i].enabled && rules[i].deployment == Center {
        listed := listed + [JsonEntry(rules[i])];
      }
    }
    assert rules[..|rules|] == rules;
    for i := 0 to |peers|
      invariant listed == JsonEntries(rules) + PeerEntries(peers[..i])
    {
      assert peers[..i + 1][..i] == peers[..i];
      if !AllBlank(peers[i].cidrs) {
        listed := listed + [PeerEntry(peers[i])];
      }
    }
    assert peers[..|peers|] == peers;
    merged := SortEntries(listed);
  }

  /** Collect the networks in a dictionary, then list its keys in order. The field is refused at the
  first text that is not IPv4. */
  method NormalizeField(xs: seq<AddrText>) returns (r: Option<seq<Prefix>>)
    ensures r == NormalizeEntries(xs)
  {
    hide CanonicalNets;
    var networks: set<Prefix> := {};
    for i := 0 to |xs|
      invariant AllIpv4(xs[..i])
      invariant networks == Networks(Tokens(xs[..i]))
    {
      assert xs[..i + 1][..i] == xs[..i];
      match xs[i] {
        case Blank =>
          assert AllIpv4(xs[..i + 1]);
          assert Tokens(xs[..i + 1]) == Tokens(xs[..i]);
        case Ipv4Text(t) =>
          assert AllIpv4(xs[..i + 1]);
          assert Tokens(xs[..i + 1]) == Tokens(xs[..i]) + [t];
          networks := networks + {Normalize(t)};
        case _ =>
          return None;
      }
    }
    assert xs[..|xs|] == xs;
    var sorted := SortedKeys(networks);
    CanonicalIsSorted(Tokens(xs));
    SortedListsWithSameElements(sorted, CanonicalNets(Tokens(xs)));
    r := Some(sorted);
  }

  /** `sorted(networks)`: repeatedly insert a key that is left. */
  method SortedKeys(networks: set<Prefix>) returns (sorted: seq<Prefix>)
    ensures StrictlySorted(sorted)
    ensures forall p: Prefix :: p in sorted <==> p in networks
  {
    sorted := [];
    var left := networks;
    while left != {}
      invariant left <= networks
      invariant StrictlySorted(sorted)
      invariant forall p: Prefix :: p in sorted <==> p in networks - left
      decreases left
    {
      var p :| p in left;
      InsertNetSorted(p, sorted);
      sorted := InsertNet(p, sorted);
      left := left - {p};
    }
  }

  method NeedsSet(xs: seq<AddrText>) returns (r: Option<bool>)
    ensures r == if AllIpv4(xs) then Some(HasMultiple(xs)) else None
  {
    hide CanonicalNets;
    var nets := NormalizeField(xs);
    r := if nets.None? then None else Some(|nets.value| >= 2);
  }

  method RuleIpsets(rule: Rule, seen: set<SetName>) returns (r: Option<seq<SetSpec>>)
    ensures r == if GoodAddresses(JsonEntry(rule)) then Some(EntrySpecs(JsonEntry(rule), seen)) else None
  {
    hide HasMultiple, CanonicalNets, AllIpv4;
    var specs: seq<SetSpec> := [];
    var src := NormalizeField(rule.sourceIps);
    if src.None? { return None; }
    if rule.ownerType == TagOwner {
      var spec := SetSpec(SourceSetName(rule), src.value);
      if rule.sourceIps != [] && spec.name !in seen {
        specs := [spec];
      }
    } else {
      var many := NeedsSet(rule.sourceIps);
      if many.value {
        specs := [SetSpec(Stable(RuleSet, rule.id, Src), src.value)];
      }
    }
    assert specs == SourceSpecs(rule, seen);
    var dst := DestIpset(rule.destIp, Stable(RuleSet, rule.id, Dst));
    if dst.None? { return None; }
    r := Some(specs + dst.value);
  }

  method PeerIpsets(p: PeerForward, ghost seen: set<SetName>) returns (r: Option<seq<SetSpec>>)
    ensures r == if GoodAddresses(PeerEntry(p)) then Some(EntrySpecs(PeerEntry(p), seen)) else None
  {
    hide HasMultiple, CanonicalNets, AllIpv4;
    var lan := DestIpset(p.cidrs, Stable(PeerSet, p.peerId, Lan));
    if lan.None? { return None; }
    var dst := DestIpset(p.destIp, PeerDestName(p));
    if dst.None? { return None; }
    r := Some(lan.value + dst.value);
  }

  method DestIpset(xs: seq<AddrText>, name: SetName) returns (r: Option<seq<SetSpec>>)
    ensures r == if AllIpv4(xs) then Some(DestSpecs(xs, name)) else None
  {
    hide CanonicalNets, AllIpv4;
    var nets := NormalizeField(xs);
    if nets.None? { return None; }
    var many := NeedsSet(xs);
    r := Some(if many.value then [SetSpec(name, nets.value)] else []);
  }

  /** The complete desired set state; refused as a whole when any address is not IPv4. A tag's set is
  listed once, by the first rule on the tag. */
  method DesiredIpsets(merged: seq<Entry>) returns (r: Option<seq<SetSpec>>)
    ensures (forall i :: 0 <= i < |merged| ==> GoodAddresses(merged[i])) ==> r == Some(AllSpecs(merged))
    ensures !(forall i :: 0 <= i < |merged| ==> GoodAddresses(merged[i])) ==> r == None
  {
    hide GoodAddresses, EntrySpecs;
    var specs: seq<SetSpec> := [];
    var seen: set<SetName> := {};
    for i := 0 to |merged|
      invariant forall k :: 0 <= k < i ==> GoodAddresses(merged[k])
      invariant specs == AllSpecs(merged[..i])
      invariant SeenTags(seen, specs)
    {
      assert merged[..i + 1][..i] == merged[..i];
      var own: Option<seq<SetSpec>>;
      match merged[i] {
        case JsonEntry(rule) => own := RuleIpsets(rule, seen);
        case PeerEntry(p) => own := PeerIpsets(p, seen);
      }
      if own.None? { return None; }
      SeenIsEnough(merged[i], seen, SpecNames(specs));
      specs := specs + own.value;
      seen := set s | s in specs && IsTagName(s.name) :: s.name;
    }
    assert merged[..|merged|] == merged;
    r := Some(specs);
  }

  ghost predicate SeenTags(seen: set<SetName>, specs: seq<SetSpec>) {
    forall n :: IsTagName(n) ==> (n in seen <==> n in SpecNames(specs))
  }

  lemma SeenIsEnough(e: Entry, seen: set<SetName>, taken: set<SetName>)
    requires GoodAddresses(e)
    requires forall n :: IsTagName(n) ==> (n in seen <==> n in taken)
    ensures EntrySpecs(e, seen) == EntrySpecs(e, taken)
  {
    hide HasMultiple, CanonicalNets, AllIpv4;
    if e.JsonEntry? && e.rule.ownerType == TagOwner {
      assert IsTagName(SourceSetName(e.rule));
    }
  }

  predicate IsTagName(n: SetName) {
    n.Stable? && n.owner == TagSet
  }

  /** One line per combination of source, destination and service. */
  method ExpandCombinations(srcs: seq<AddrMatch>, dsts: seq<AddrMatch>, services: seq<Service>, target: Action)
    returns (out: seq<Line>)
    ensures out == Product(srcs, dsts, services, target)
  {
    hide Product, LinesFrom, LinesTo;
    NothingToExpand(services, target);
    out := [];
    for i := 0 to |srcs|
      invariant out == Product(srcs[..i], dsts, services, target)
    {
      ProductStep(srcs, i, dsts, services, target);
      ghost var outer := out;
      for j := 0 to |dsts|
        invariant out == outer + LinesFrom(srcs[i], dsts[..j], services, target)
      {
        LinesFromStep(srcs[i], dsts, j, services, target);
        ghost var inner := out;
        for k := 0 to |services|
          invariant out == inner + LinesTo(srcs[i], dsts[j], services[..k], target)
        {
          LinesToStep(srcs[i], dsts[j], services, k, target);
          out := out + [Line(srcs[i], dsts[j], services[k], target)];
        }
        assert services[..|services|] == services;
      }
      assert dsts[..|dsts|] == dsts;
    }
    assert srcs[..|srcs|] == srcs;
  }

  lemma NothingToExpand(services: seq<Service>, target: Action)
    ensures forall dsts :: Product([], dsts, services, target) == []
    ensures forall src :: LinesFrom(src, [], services, target) == []
    ensures forall src, dst :: LinesTo(src, dst, [], target) == []
  {
  }

  lemma ProductStep(srcs: seq<AddrMatch>, i: nat, dsts: seq<AddrMatch>, services: seq<Service>, target: Action)
    requires i < |srcs|
    ensures Product(srcs[..i + 1], dsts, services, target) ==
      Product(srcs[..i], dsts, services, target) + LinesFrom(srcs[i], dsts, services, target)
  {
    assert srcs[..i + 1][..i] == srcs[..i];
  }

  lemma LinesFromStep(src: AddrMatch, dsts: seq<AddrMatch>, j: nat, services: seq<Service>, target: Action)
    requires j < |dsts|
    ensures LinesFrom(src, dsts[..j + 1], services, target) ==
      LinesFrom(src, dsts[..j], services, target) + LinesTo(src, dsts[j], services, target)
  {
    assert dsts[..j + 1][..j] == dsts[..j];
  }

  lemma LinesToStep(src: AddrMatch, dst: AddrMatch, services: seq<Service>, k: nat, target: Action)
    requires k < |services|
    ensures LinesTo(src, dst, services[..k + 1], target) ==
      LinesTo(src, dst, services[..k], target) + [Line(src, dst, services[k], target)]
  {
  }

  method ExpandRuleLines(rule: Rule) returns (out: seq<Line>)
    requires AllIpv4(rule.sourceIps) && AllIpv4(rule.destIp)
    ensures out == RuleLines(rule)
  {
    hide Product, Services, HasMultiple;
    var srcTerms: seq<AddrMatch>;
    var manySources := NeedsSet(rule.sourceIps);
    var srcTokens := Tokens(rule.sourceIps);
    if rule.ownerType == TagOwner || manySources.value {
      srcTerms := [InSet(SourceSetName(rule))];
    } else if srcTokens != [] {
      srcTerms := InlineTerms(srcTokens);
    } else if rule.sourceSubnet.Some? {
      srcTerms := [Inline(rule.sourceSubnet.value)];
    } else {
      srcTerms := [AnyAddr];
    }
    var destTerms := ExpandDest(rule.destIp, Stable(RuleSet, rule.id, Dst));
    out := ExpandCombinations(srcTerms, destTerms, Services(rule.protocol, rule.destPort), rule.action);
  }

  method ExpandDest(destIp: seq<AddrText>, name: SetName) returns (terms: seq<AddrMatch>)
    requires AllIpv4(destIp)
    ensures terms == DestTerms(destIp, name)
  {
    hide HasMultiple;
    var many := NeedsSet(destIp);
    var tokens := Tokens(destIp);
    if many.value {
      terms := [InSet(name)];
    } else if tokens != [] {
      terms := InlineTerms(tokens);
    } else {
      terms := [AnyAddr];
    }
  }

  /** A peer without destination, port or protocol takes a short path; otherwise the peer is
  re-read as a rule, whose validation may refuse the port text. */
  method ExpandPeerLines(p: PeerForward) returns (r: Option<seq<Line>>)
    requires GoodAddresses(PeerEntry(p))
    ensures r == if GoodPort(PeerEntry(p)) then Some(PeerLines(p)) else None
  {
    hide Product, HasMultiple, ValidateText, AllBlank;
    var manyLans := NeedsSet(p.cidrs);
    var lans := if manyLans.value then [InSet(Stable(PeerSet, p.peerId, Lan))] else InlineTerms(Tokens(p.cidrs));
    var protocol := ProtocolOf(p.protocol);
    StripShape(p.destPort);
    var portText := Strip(p.destPort);
    if p.destIp == [] && portText == "" && (protocol == "all" || protocol == "") {
      ShortPath(p);
      var lines := ExpandCombinations(lans, [AnyAddr], [Service("", AnyPort)], Accept);
      return Some(lines);
    }
    var port := ValidateDestPort(Some(p.destPort));
    if port.Err? {
      return None;
    }
    var dests := ExpandDest(p.destIp, PeerDestName(p));
    var lines := ExpandCombinations(lans, dests, Services(p.protocol, port.value), Accept);
    r := Some(lines);
  }

  lemma ShortPath(p: PeerForward)
    requires p.destIp == [] && Strip(p.destPort) == ""
    requires ProtocolOf(p.protocol) == "all" || ProtocolOf(p.protocol) == ""
    ensures DestPort(Some(p.destPort)) == Ok(None)
    ensures Services(p.protocol, PeerPort(p)) == [Service("", AnyPort)]
    ensures AllIpv4(p.destIp) && !HasMultiple(p.destIp) && Tokens(p.destIp) == []
  {
  }

  method GenerateMergedRules(merged: seq<Entry>) returns (r: Option<seq<Line>>)
    requires forall i :: 0 <= i < |merged| ==> GoodAddresses(merged[i])
    ensures r == if (forall i :: 0 <= i < |merged| ==> GoodPort(merged[i])) then Some(AllLines(merged)) else None
  {
    hide RuleLines, PeerLines, AllIpv4, DestPort;
    var lines: seq<Line> := [];
    for i := 0 to |merged|
      invariant forall k :: 0 <= k < i ==> GoodPort(merged[k])
      invariant lines == AllLines(merged[..i])
    {
      assert merged[..i + 1][..i] == merged[..i];
      match merged[i] {
        case JsonEntry(rule) =>
          var out := ExpandRuleLines(rule);
          lines := lines + out;
        case PeerEntry(p) =>
          var out := ExpandPeerLines(p);
          if out.None? { return None; }
          lines := lines + out.value;
      }
    }
    assert merged[..|merged|] == merged;
    r := Some(lines);
  }
}
