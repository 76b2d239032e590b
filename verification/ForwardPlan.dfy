/** The compiler from rules in force to ipset contents and `VPN_FORWARD` lines, as functions, and
the proof that the compiled chain decides every packet as the rules do. */
module ForwardPlan {
  import opened Wrappers
  import opened Ipv4
  import opened Text
  import opened Ports
  import opened FirewallModel

  // ------------------------------------------------------ kernel vocabulary

  datatype SetOwner = RuleSet | PeerSet | TagSet

  datatype Purpose = Src | Dst | Lan

  /** Set names. A stable name is a digest of (owner, id, purpose); a stage name carries a nonce;
  `Foreign` are the sets of other programs. */
  datatype SetName =
    | Stable(owner: SetOwner, ownerId: string, purpose: Purpose)
    | Stage(nonce: nat)
    | Foreign(text: string)

  type Sets = map<SetName, set<Prefix>>

  datatype AddrMatch = AnyAddr | Inline(token: Token) | InSet(name: SetName)

  datatype PortMatch = AnyPort | Dport(text: string) | Multiport(text: string)

  /** The empty protocol means that the line has no `-p`. */
  datatype Line = Line(src: AddrMatch, dst: AddrMatch, service: Service, target: Action)

  datatype Service = Service(proto: string, ports: PortMatch)

  predicate AddrHit(m: AddrMatch, ip: nat, sets: Sets) {
    match m
    case AnyAddr => true
    case Inline(t) => Covers(t, ip)
    case InSet(n) => n in sets && exists p :: p in sets[n] && Covers(p, ip)
  }

  predicate ServiceHit(s: Service, pkt: Packet) {
    && (s.proto == "" || pkt.proto == s.proto)
    && (s.ports.AnyPort? || (pkt.dport.Some? && KernelReads(s.ports.text, pkt.dport.value)))
  }

  predicate LineHit(l: Line, sets: Sets, pkt: Packet) {
    AddrHit(l.src, pkt.src, sets) && AddrHit(l.dst, pkt.dst, sets) && ServiceHit(l.service, pkt)
  }

  /** The first line that matches decides; otherwise the packet falls through the chain. */
  function FirstMatch(chain: seq<Line>, sets: Sets, pkt: Packet): Option<Action> {
    if chain == [] then None
    else
      match FirstMatch(chain[..|chain| - 1], sets, pkt)
      case Some(a) => Some(a)
      case None => if LineHit(chain[|chain| - 1], sets, pkt) then Some(chain[|chain| - 1].target) else None
  }

  /** Sets a chain refers to. */
  function References(chain: seq<Line>): set<SetName> {
    set l, n | l in chain && n in {l.src, l.dst} && n.InSet? :: n.name
  }

  // -------------------------------------------------------------- compiler

  const CE_PEER_RULE_PREFIX := "ce-peer-"

  function HasMultiple(xs: seq<AddrText>): bool
    requires AllIpv4(xs)
  {
    |CanonicalNets(Tokens(xs))| >= 2
  }

  function EntriesOf(xs: seq<AddrText>): seq<Prefix>
    requires AllIpv4(xs)
  {
    CanonicalNets(Tokens(xs))
  }

  function InlineTerms(ts: seq<Token>): seq<AddrMatch> {
    seq(|ts|, i requires 0 <= i < |ts| => Inline(ts[i]))
  }

  function SourceSetName(r: Rule): SetName {
    if r.ownerType == TagOwner then Stable(TagSet, r.ownerId, Src) else Stable(RuleSet, r.id, Src)
  }

  predicate UsesSourceSet(r: Rule)
    requires AllIpv4(r.sourceIps)
  {
    r.ownerType == TagOwner || HasMultiple(r.sourceIps)
  }

  function SourceTerms(r: Rule): seq<AddrMatch>
    requires AllIpv4(r.sourceIps)
  {
    if UsesSourceSet(r) then [InSet(SourceSetName(r))]
    else if Tokens(r.sourceIps) != [] then InlineTerms(Tokens(r.sourceIps))
    else if r.sourceSubnet.Some? then [Inline(r.sourceSubnet.value)]
    else [AnyAddr]
  }

  function DestTerms(xs: seq<AddrText>, name: SetName): seq<AddrMatch>
    requires AllIpv4(xs)
  {
    if HasMultiple(xs) then [InSet(name)]
    else if Tokens(xs) != [] then InlineTerms(Tokens(xs))
    else [AnyAddr]
  }

  function LanTerms(p: PeerForward): seq<AddrMatch>
    requires AllIpv4(p.cidrs)
  {
    if HasMultiple(p.cidrs) then [InSet(Stable(PeerSet, p.peerId, Lan))] else InlineTerms(Tokens(p.cidrs))
  }

  /** Protocol and port combinations of a rule; a port without a protocol becomes two lines. */
  function Services(protocol: string, destPort: Option<string>): seq<Service> {
    var port := if destPort.None? then "" else Strip(destPort.value);
    var proto := ProtocolOf(protocol);
    if port == "" then
      [Service(if proto == "all" then "" else proto, AnyPort)]
    else
      var ports := if ',' in port then Multiport(Join(NonBlanks(Split(port, ',')), ',')) else Dport(port);
      if proto == "all" then [Service("tcp", ports), Service("udp", ports)] else [Service(proto, ports)]
  }

  function LinesTo(src: AddrMatch, dst: AddrMatch, services: seq<Service>, target: Action): seq<Line> {
    seq(|services|, i requires 0 <= i < |services| => Line(src, dst, services[i], target))
  }

  function LinesFrom(src: AddrMatch, dsts: seq<AddrMatch>, services: seq<Service>, target: Action): seq<Line> {
    if dsts == [] then []
    else LinesFrom(src, dsts[..|dsts| - 1], services, target) + LinesTo(src, dsts[|dsts| - 1], services, target)
  }

  /** Every combination of source, destination and service. */
  function Product(srcs: seq<AddrMatch>, dsts: seq<AddrMatch>, services: seq<Service>, target: Action): seq<Line> {
    if srcs == [] then []
    else Product(srcs[..|srcs| - 1], dsts, services, target) + LinesFrom(srcs[|srcs| - 1], dsts, services, target)
  }

  function RuleLines(r: Rule): seq<Line>
    requires AllIpv4(r.sourceIps) && AllIpv4(r.destIp)
  {
    Product(SourceTerms(r), DestTerms(r.destIp, Stable(RuleSet, r.id, Dst)),
            Services(r.protocol, r.destPort), r.action)
  }

  function PeerDestName(p: PeerForward): SetName {
    Stable(RuleSet, CE_PEER_RULE_PREFIX + p.peerId, Dst)
  }

  function PeerLines(p: PeerForward): seq<Line>
    requires AllIpv4(p.cidrs) && AllIpv4(p.destIp)
  {
    Product(LanTerms(p), DestTerms(p.destIp, PeerDestName(p)), Services(p.protocol, PeerPort(p)), Accept)
  }

  /** The address fields hold IPv4 texts only, so the normaliser does not raise. */
  predicate GoodAddresses(e: Entry) {
    match e
    case JsonEntry(r) => AllIpv4(r.sourceIps) && AllIpv4(r.destIp)
    case PeerEntry(p) => AllIpv4(p.cidrs) && AllIpv4(p.destIp)
  }

  /** A peer's port text is only checked when its lines are generated. */
  predicate GoodPort(e: Entry) {
    e.PeerEntry? ==> DestPort(Some(e.peer.destPort)).Ok?
  }

  function EntryLines(e: Entry): seq<Line>
    requires GoodAddresses(e)
  {
    match e case JsonEntry(r) => RuleLines(r) case PeerEntry(p) => PeerLines(p)
  }

  function AllLines(merged: seq<Entry>): seq<Line>
    requires forall i :: 0 <= i < |merged| ==> GoodAddresses(merged[i])
  {
    if merged == [] then [] else AllLines(merged[..|merged| - 1]) + EntryLines(merged[|merged| - 1])
  }

  datatype SetSpec = SetSpec(name: SetName, entries: seq<Prefix>)

  function SourceSpecs(r: Rule, taken: set<SetName>): seq<SetSpec>
    requires AllIpv4(r.sourceIps)
  {
    var spec := SetSpec(SourceSetName(r), EntriesOf(r.sourceIps));
    if r.ownerType == TagOwner then
      if r.sourceIps != [] && spec.name !in taken then [spec] else []
    else if HasMultiple(r.sourceIps) then [spec] else []
  }

  function DestSpecs(xs: seq<AddrText>, name: SetName): seq<SetSpec>
    requires AllIpv4(xs)
  {
    if HasMultiple(xs) then [SetSpec(name, EntriesOf(xs))] else []
  }

  function LanSpecs(p: PeerForward): seq<SetSpec>
    requires AllIpv4(p.cidrs)
  {
    if HasMultiple(p.cidrs) then [SetSpec(Stable(PeerSet, p.peerId, Lan), EntriesOf(p.cidrs))] else []
  }

  function EntrySpecs(e: Entry, taken: set<SetName>): seq<SetSpec>
    requires GoodAddresses(e)
  {
    match e
    case JsonEntry(r) => SourceSpecs(r, taken) + DestSpecs(r.destIp, Stable(RuleSet, r.id, Dst))
    case PeerEntry(p) => LanSpecs(p) + DestSpecs(p.destIp, PeerDestName(p))
  }

  function SpecNames(specs: seq<SetSpec>): set<SetName> {
    set s | s in specs :: s.name
  }

  function AllSpecs(merged: seq<Entry>): seq<SetSpec>
    requires forall i :: 0 <= i < |merged| ==> GoodAddresses(merged[i])
  {
    if merged == [] then []
    else
      var before := AllSpecs(merged[..|merged| - 1]);
      before + EntrySpecs(merged[|merged| - 1], SpecNames(before))
  }

  datatype Plan = Plan(specs: seq<SetSpec>, lines: seq<Line>)

  /** Compilation fails on an address that is not IPv4 and on a malformed peer port. */
  function Compile(rules: seq<Rule>, peers: seq<PeerForward>): Option<Plan> {
    var merged := SortEntries(Entries(rules, peers));
    if
      && (forall i :: 0 <= i < |merged| ==> GoodAddresses(merged[i]))
      && (forall i :: 0 <= i < |merged| ==> GoodPort(merged[i]))
    then Some(Plan(AllSpecs(merged), AllLines(merged)))
    else None
  }

  function SpecMap(specs: seq<SetSpec>): Sets {
    if specs == [] then map[]
    else SpecMap(specs[..|specs| - 1])[specs[|specs| - 1].name := SetOf(specs[|specs| - 1].entries)]
  }

  function SetOf(entries: seq<Prefix>): set<Prefix> {
    set p | p in entries
  }

  ghost predicate Extends(sets: Sets, base: Sets) {
    forall n :: n in base ==> n in sets && sets[n] == base[n]
  }

  // ------------------------------------------------- what one entry's lines do

  lemma {:induction false} FirstMatchAppend(a: seq<Line>, b: seq<Line>, sets: Sets, pkt: Packet)
    ensures FirstMatch(a + b, sets, pkt) ==
      var f := FirstMatch(a, sets, pkt); if f.Some? then f else FirstMatch(b, sets, pkt)
  {
    hide LineHit;
    if b == [] {
      assert a + b == a;
    } else {
      var n := |b| - 1;
      FirstMatchAppend(a, b[..n], sets, pkt);
      assert (a + b)[..|a + b| - 1] == a + b[..n];
    }
  }

  predicate SomeAddr(ms: seq<AddrMatch>, ip: nat, sets: Sets) {
    exists m :: m in ms && AddrHit(m, ip, sets)
  }

  predicate SomeService(ss: seq<Service>, pkt: Packet) {
    exists s :: s in ss && ServiceHit(s, pkt)
  }

  lemma {:induction false} LinesToHit(src: AddrMatch, dst: AddrMatch, services: seq<Service>, target: Action,
      sets: Sets, pkt: Packet)
    ensures FirstMatch(LinesTo(src, dst, services, target), sets, pkt) ==
      if AddrHit(src, pkt.src, sets) && AddrHit(dst, pkt.dst, sets) && SomeService(services, pkt) then Some(target)
      else None
  {
    hide AddrHit, ServiceHit;
    if services != [] {
      var n := |services| - 1;
      var front := services[..n];
      assert services == front + [services[n]];
      LinesToHit(src, dst, front, target, sets, pkt);
      assert LinesTo(src, dst, services, target)[..n] == LinesTo(src, dst, front, target);
    }
  }

  lemma {:induction false} LinesFromHit(src: AddrMatch, dsts: seq<AddrMatch>, services: seq<Service>,
      target: Action, sets: Sets, pkt: Packet)
    ensures FirstMatch(LinesFrom(src, dsts, services, target), sets, pkt) ==
      if AddrHit(src, pkt.src, sets) && SomeAddr(dsts, pkt.dst, sets) && SomeService(services, pkt) then Some(target)
      else None
  {
    hide AddrHit, SomeService, LinesTo;
    if dsts != [] {
      var front, d := dsts[..|dsts| - 1], dsts[|dsts| - 1];
      assert dsts == front + [d];
      LinesFromHit(src, front, services, target, sets, pkt);
      LinesToHit(src, d, services, target, sets, pkt);
      FirstMatchAppend(LinesFrom(src, front, services, target), LinesTo(src, d, services, target), sets, pkt);
    }
  }

  lemma {:induction false} ProductHit(srcs: seq<AddrMatch>, dsts: seq<AddrMatch>, services: seq<Service>,
      target: Action, sets: Sets, pkt: Packet)
    ensures FirstMatch(Product(srcs, dsts, services, target), sets, pkt) ==
      if SomeAddr(srcs, pkt.src, sets) && SomeAddr(dsts, pkt.dst, sets) && SomeService(services, pkt) then Some(target)
      else None
  {
    hide AddrHit, SomeService, LinesFrom;
    if srcs != [] {
      var front, s := srcs[..|srcs| - 1], srcs[|srcs| - 1];
      assert srcs == front + [s];
      ProductHit(front, dsts, services, target, sets, pkt);
      LinesFromHit(s, dsts, services, target, sets, pkt);
      FirstMatchAppend(Product(front, dsts, services, target), LinesFrom(s, dsts, services, target), sets, pkt);
    }
  }

  /** A set that holds the normalised entries of a field matches exactly the field's addresses. */
  lemma SetHitsField(name: SetName, xs: seq<AddrText>, ip: nat, sets: Sets)
    requires AllIpv4(xs) && name in sets && sets[name] == SetOf(EntriesOf(xs))
    ensures AddrHit(InSet(name), ip, sets) <==> SomeCovers(xs, ip)
  {
    hide Covers;
    CanonicalCovers(Tokens(xs), ip);
    SomeCoversTokens(xs, ip);
  }

  lemma SomeCoversTokens(xs: seq<AddrText>, ip: nat)
    requires AllIpv4(xs)
    ensures SomeCovers(xs, ip) <==> exists t :: t in Tokens(xs) && Covers(t, ip)
    ensures AllBlank(xs) <==> Tokens(xs) == []
  {
    hide Covers;
    TokensMembers(xs);
    if t :| t in Tokens(xs) && Covers(t, ip) {
      assert Ipv4Text(t) in xs;
    }
    if i :| 0 <= i < |xs| && xs[i].Ipv4Text? {
      assert xs[i] in xs && xs[i].token in Tokens(xs);
    }
    if Tokens(xs) != [] {
      assert Tokens(xs)[0] in Tokens(xs);
    }
  }

  lemma InlineHitsField(xs: seq<AddrText>, ip: nat, sets: Sets)
    requires AllIpv4(xs)
    ensures SomeAddr(InlineTerms(Tokens(xs)), ip, sets) <==> SomeCovers(xs, ip)
  {
    hide Covers, SomeCovers, Tokens;
    SomeCoversTokens(xs, ip);
    var ts := Tokens(xs);
    if m :| m in InlineTerms(ts) && AddrHit(m, ip, sets) {
      var i :| 0 <= i < |ts| && InlineTerms(ts)[i] == m;
      assert ts[i] in ts;
    }
    if t :| t in ts && Covers(t, ip) {
      var i :| 0 <= i < |ts| && ts[i] == t;
      assert InlineTerms(ts)[i] == Inline(t);
      assert Inline(t) in InlineTerms(ts) && AddrHit(Inline(t), ip, sets);
    }
  }

  lemma SingleTerm(m: AddrMatch, ip: nat, sets: Sets)
    ensures SomeAddr([m], ip, sets) <==> AddrHit(m, ip, sets)
  {
    hide AddrHit;
    assert m in [m];
  }

  lemma HasMultipleNotBlank(xs: seq<AddrText>)
    requires AllIpv4(xs) && HasMultiple(xs)
    ensures Tokens(xs) != []
  {
  }

  ghost predicate Holds(sets: Sets, name: SetName, xs: seq<AddrText>)
    requires AllIpv4(xs)
  {
    name in sets && sets[name] == SetOf(EntriesOf(xs))
  }

  lemma DestTermsHit(xs: seq<AddrText>, name: SetName, ip: nat, sets: Sets)
    requires AllIpv4(xs) && (HasMultiple(xs) ==> Holds(sets, name, xs))
    ensures SomeAddr(DestTerms(xs, name), ip, sets) <==> DestAdmits(xs, ip)
  {
    hide AddrHit, SomeAddr, SomeCovers, EntriesOf;
    SomeCoversTokens(xs, ip);
    if HasMultiple(xs) {
      HasMultipleNotBlank(xs);
      SetHitsField(name, xs, ip, sets);
      SingleTerm(InSet(name), ip, sets);
    } else if Tokens(xs) != [] {
      InlineHitsField(xs, ip, sets);
    } else {
      SingleTerm(AnyAddr, ip, sets);
      AnyHits(ip, sets);
    }
  }

  lemma AnyHits(ip: nat, sets: Sets)
    ensures AddrHit(AnyAddr, ip, sets)
  {
  }

  lemma SourceTermsHit(r: Rule, ip: nat, sets: Sets)
    requires AllIpv4(r.sourceIps) && (UsesSourceSet(r) ==> Holds(sets, SourceSetName(r), r.sourceIps))
    ensures SomeAddr(SourceTerms(r), ip, sets) <==> SourceAdmits(r, ip)
  {
    hide SomeAddr, SomeCovers, EntriesOf, Covers;
    SomeCoversTokens(r.sourceIps, ip);
    if UsesSourceSet(r) {
      SetHitsField(SourceSetName(r), r.sourceIps, ip, sets);
      SingleTerm(InSet(SourceSetName(r)), ip, sets);
      if r.ownerType != TagOwner { HasMultipleNotBlank(r.sourceIps); }
    } else if Tokens(r.sourceIps) != [] {
      InlineHitsField(r.sourceIps, ip, sets);
    } else if r.sourceSubnet.Some? {
      SingleTerm(Inline(r.sourceSubnet.value), ip, sets);
    } else {
      SingleTerm(AnyAddr, ip, sets);
    }
  }

  lemma LanTermsHit(p: PeerForward, ip: nat, sets: Sets)
    requires AllIpv4(p.cidrs) && (HasMultiple(p.cidrs) ==> Holds(sets, Stable(PeerSet, p.peerId, Lan), p.cidrs))
    ensures SomeAddr(LanTerms(p), ip, sets) <==> SomeCovers(p.cidrs, ip)
  {
    hide AddrHit, SomeAddr, SomeCovers, EntriesOf;
    if HasMultiple(p.cidrs) {
      SetHitsField(Stable(PeerSet, p.peerId, Lan), p.cidrs, ip, sets);
      SingleTerm(InSet(Stable(PeerSet, p.peerId, Lan)), ip, sets);
    } else {
      InlineHitsField(p.cidrs, ip, sets);
    }
  }

  // ------------------------------------------------------ protocol and port

  /** Port texts as the store holds them: the validator's own output. */
  predicate StoredPort(destPort: Option<string>) {
    destPort.Some? && destPort.value != "" ==> DestPort(destPort) == Ok(destPort)
  }

  lemma ValidatedIsStored(v: Option<string>)
    requires DestPort(v).Ok?
    ensures StoredPort(DestPort(v).value)
  {
    if v.Some? && Strip(v.value) != "" {
      StoredTextKeepsPorts(v.value, 0);
    }
  }

  lemma {:induction false} NonBlanksOfCanonical(parts: seq<string>)
    requires forall t :: t in parts ==> CanonicalToken(t)
    ensures NonBlanks(parts) == parts
  {
    if parts != [] {
      var front, last := parts[..|parts| - 1], parts[|parts| - 1];
      assert parts == front + [last];
      assert last in parts;
      assert forall t :: t in front ==> t in parts;
      NonBlanksOfCanonical(front);
      StripOfWord(last);
    }
  }

  lemma StoredPortFacts(t: string)
    requires t != "" && DestPort(Some(t)) == Ok(Some(t))
    ensures Strip(t) == t
    ensures ',' in t ==> Join(NonBlanks(Split(t, ',')), ',') == t
    ensures forall port: nat :: KernelReads(t, port) <==> OperatorReads(t, port)
  {
    hide ParseToken, NormalizeRangeToken, KernelReads, OperatorReads, ValidateToken;
    StripShape(t);
    StoredTextKeepsPorts(t, 0);
    if ',' in t {
      var pieces := Split(t, ',');
      var parts := ValidatePieces(pieces).value;
      ValidPiecesMeaning(pieces);
      SplitOfJoin(parts, ',');
      NonBlanksOfCanonical(parts);
    }
    forall port: nat ensures KernelReads(t, port) <==> OperatorReads(t, port) {
      StoredTextKeepsPorts(t, port);
    }
  }

  lemma FreeIsBlank(destPort: Option<string>)
    requires StoredPort(destPort)
    ensures PortIsFree(destPort) <==> destPort.None? || destPort.value == ""
    ensures destPort.Some? && destPort.value == "" ==> Strip(destPort.value) == ""
  {
    hide DestPort, Split;
    BlankIsFree();
    if destPort.Some? && destPort.value != "" {
      StoredPortFacts(destPort.value);
      StoredTextKeepsPorts(destPort.value, 0);
    }
  }

  lemma ServicesHit(protocol: string, destPort: Option<string>, pkt: Packet)
    requires StoredPort(destPort)
    ensures SomeService(Services(protocol, destPort), pkt) <==> ServiceAdmits(protocol, destPort, pkt)
  {
    hide KernelReads, OperatorReads, DestPort, ProtocolOf, AnyProtocol, Split, Join, NonBlanks, PortIsFree;
    ProtocolIs(protocol);
    var ss := Services(protocol, destPort);
    assert ss[0] in ss;
    FreeIsBlank(destPort);
    if !PortIsFree(destPort) {
      var t := destPort.value;
      StoredPortFacts(t);
      if ProtocolOf(protocol) == "all" {
        assert ss[1] in ss;
      }
    }
  }

  // ------------------------------------------------------------- one entry

  ghost predicate SetsPresent(e: Entry, sets: Sets)
    requires GoodAddresses(e)
  {
    match e
    case JsonEntry(r) =>
      && (UsesSourceSet(r) ==> Holds(sets, SourceSetName(r), r.sourceIps))
      && (HasMultiple(r.destIp) ==> Holds(sets, Stable(RuleSet, r.id, Dst), r.destIp))
    case PeerEntry(p) =>
      && (HasMultiple(p.cidrs) ==> Holds(sets, Stable(PeerSet, p.peerId, Lan), p.cidrs))
      && (HasMultiple(p.destIp) ==> Holds(sets, PeerDestName(p), p.destIp))
  }

  predicate StoredEntry(e: Entry) {
    e.JsonEntry? ==> StoredPort(e.rule.destPort)
  }

  lemma EntryLinesHit(e: Entry, sets: Sets, pkt: Packet)
    requires GoodAddresses(e) && GoodPort(e) && StoredEntry(e) && SetsPresent(e, sets)
    ensures FirstMatch(EntryLines(e), sets, pkt) == if Admits(e, pkt) then Some(Verdict(e)) else None
  {
    hide Product, SourceTerms, DestTerms, LanTerms, Services, SomeAddr, SomeService, SourceAdmits, DestAdmits,
      ServiceAdmits, SomeCovers, Holds, HasMultiple, FirstMatch, StoredPort, DestPort;
    match e
    case JsonEntry(r) =>
      SourceTermsHit(r, pkt.src, sets);
      DestTermsHit(r.destIp, Stable(RuleSet, r.id, Dst), pkt.dst, sets);
      ServicesHit(r.protocol, r.destPort, pkt);
      ProductHit(SourceTerms(r), DestTerms(r.destIp, Stable(RuleSet, r.id, Dst)),
                 Services(r.protocol, r.destPort), r.action, sets, pkt);
    case PeerEntry(p) =>
      LanTermsHit(p, pkt.src, sets);
      DestTermsHit(p.destIp, PeerDestName(p), pkt.dst, sets);
      ValidatedIsStored(Some(p.destPort));
      ServicesHit(p.protocol, PeerPort(p), pkt);
      ValidationKeepsService(p.protocol, Some(p.destPort), pkt);
      ProductHit(LanTerms(p), DestTerms(p.destIp, PeerDestName(p)), Services(p.protocol, PeerPort(p)), Accept, sets,
        pkt);
  }

  // ------------------------------------------------------------- the chain

  lemma {:induction false} AllLinesHit(merged: seq<Entry>, sets: Sets, pkt: Packet)
    requires forall i :: 0 <= i < |merged| ==> GoodAddresses(merged[i])
    requires forall i ::
      0 <= i < |merged| ==> GoodPort(merged[i]) && StoredEntry(merged[i]) && SetsPresent(merged[i], sets)
    ensures FirstMatch(AllLines(merged), sets, pkt) ==
      match FirstAdmitting(merged, pkt) case None => None case Some(e) => Some(Verdict(e))
  {
    hide Admits, SetsPresent, GoodAddresses, GoodPort, StoredEntry, EntryLines;
    if merged != [] {
      var front, e := merged[..|merged| - 1], merged[|merged| - 1];
      AllLinesHit(front, sets, pkt);
      EntryLinesHit(e, sets, pkt);
      FirstMatchAppend(AllLines(front), EntryLines(e), sets, pkt);
    }
  }

  // --------------------------------------------------- sets and their names

  /** What makes the digest names collision-free: identifiers identify, and no stored rule uses an
  identifier reserved for a peer's destination set. */
  ghost predicate DistinctOwners(merged: seq<Entry>) {
    forall i, j :: 0 <= i < j < |merged| ==> OwnersDiffer(merged[i], merged[j])
  }

  predicate OwnersDiffer(a: Entry, b: Entry) {
    match (a, b)
    case (JsonEntry(r), JsonEntry(q)) => r.id != q.id
    case (PeerEntry(p), PeerEntry(q)) => p.peerId != q.peerId
    case (JsonEntry(r), PeerEntry(p)) => r.id != CE_PEER_RULE_PREFIX + p.peerId
    case (PeerEntry(p), JsonEntry(r)) => r.id != CE_PEER_RULE_PREFIX + p.peerId
  }

  /** Rules on one tag carry the same resolved addresses, and carry some. */
  ghost predicate TagsResolved(merged: seq<Entry>) {
    && (forall i :: 0 <= i < |merged| && IsTagRule(merged[i]) ==> merged[i].rule.sourceIps != [])
    && (forall i, j :: 0 <= i < |merged| && 0 <= j < |merged| ==> TagsAgree(merged[i], merged[j]))
  }

  predicate TagsAgree(a: Entry, b: Entry) {
    IsTagRule(a) && IsTagRule(b) && a.rule.ownerId == b.rule.ownerId ==> a.rule.sourceIps == b.rule.sourceIps
  }

  predicate IsTagRule(e: Entry) {
    e.JsonEntry? && e.rule.ownerType == TagOwner
  }

  ghost predicate WellFormed(merged: seq<Entry>) {
    && DistinctOwners(merged)
    && TagsResolved(merged)
    && (forall i :: 0 <= i < |merged| ==> GoodAddresses(merged[i]))
  }

  predicate DistinctNames(specs: seq<SetSpec>) {
    forall i, j :: 0 <= i < j < |specs| ==> specs[i].name != specs[j].name
  }

  lemma PrefixWellFormed(merged: seq<Entry>)
    requires merged != [] && WellFormed(merged)
    ensures WellFormed(merged[..|merged| - 1])
  {
    hide OwnersDiffer, GoodAddresses;
  }

  /** Every set in the plan is one that some entry asks for. */
  ghost predicate Asked(merged: seq<Entry>, s: SetSpec)
    requires forall i :: 0 <= i < |merged| ==> GoodAddresses(merged[i])
  {
    exists i :: 0 <= i < |merged| && s in EntrySpecs(merged[i], {})
  }

  lemma {:induction false} SpecsAreAsked(merged: seq<Entry>, s: SetSpec)
    requires forall i :: 0 <= i < |merged| ==> GoodAddresses(merged[i])
    requires s in AllSpecs(merged)
    ensures Asked(merged, s)
  {
    hide GoodAddresses, HasMultiple, EntriesOf;
    var front, e := merged[..|merged| - 1], merged[|merged| - 1];
    if s in AllSpecs(front) {
      SpecsAreAsked(front, s);
      var i :| 0 <= i < |front| && s in EntrySpecs(front[i], {});
      assert merged[i] == front[i];
    } else {
      assert s in EntrySpecs(e, {});
    }
  }

  /** Two entries ask for a set of the same name only when they are rules on one tag; then they ask
  for the same contents. */
  lemma SameNameSameSet(a: Entry, b: Entry, s: SetSpec, t: SetSpec)
    requires GoodAddresses(a) && GoodAddresses(b) && OwnersDiffer(a, b)
    requires s in EntrySpecs(a, {}) && t in EntrySpecs(b, {}) && s.name == t.name
    ensures IsTagRule(a) && IsTagRule(b) && a.rule.ownerId == b.rule.ownerId
    ensures s.name == Stable(TagSet, a.rule.ownerId, Src)
    ensures s == SetSpec(s.name, EntriesOf(a.rule.sourceIps)) && t == SetSpec(t.name, EntriesOf(b.rule.sourceIps))
  {
    hide HasMultiple, EntriesOf;
    if a.PeerEntry? && b.PeerEntry? {
      PrefixInjective(a.peer.peerId, b.peer.peerId);
    }
  }

  lemma PrefixInjective(x: string, y: string)
    ensures CE_PEER_RULE_PREFIX + x == CE_PEER_RULE_PREFIX + y ==> x == y
  {
    var k := |CE_PEER_RULE_PREFIX|;
    assert (CE_PEER_RULE_PREFIX + x)[k..] == x && (CE_PEER_RULE_PREFIX + y)[k..] == y;
  }

  lemma {:induction false} AskedAreSpecs(merged: seq<Entry>, s: SetSpec)
    requires WellFormed(merged) && Asked(merged, s)
    ensures s in AllSpecs(merged)
  {
    hide OwnersDiffer, HasMultiple, EntriesOf, GoodAddresses, EntrySpecs;
    var n := |merged| - 1;
    var front, e := merged[..n], merged[n];
    PrefixWellFormed(merged);
    var i :| 0 <= i < |merged| && s in EntrySpecs(merged[i], {});
    if i < n {
      assert front[i] == merged[i];
      AskedAreSpecs(front, s);
    } else {
      var before := AllSpecs(front);
      DroppedIsTaken(e, SpecNames(before), s);
      if s !in EntrySpecs(e, SpecNames(before)) {
        var t :| t in before && t.name == s.name;
        SpecsAreAsked(front, t);
        var j :| 0 <= j < n && t in EntrySpecs(front[j], {});
        assert OwnersDiffer(merged[j], merged[n]);
        SameNameSameSet(merged[j], e, t, s);
        assert TagsAgree(merged[j], merged[n]);
      }
    }
  }

  lemma DroppedIsTaken(e: Entry, taken: set<SetName>, s: SetSpec)
    requires GoodAddresses(e) && s in EntrySpecs(e, {})
    ensures s in EntrySpecs(e, taken) || s.name in taken
  {
    hide HasMultiple, EntriesOf;
  }

  lemma {:induction false} NamesAreDistinct(merged: seq<Entry>)
    requires WellFormed(merged)
    ensures DistinctNames(AllSpecs(merged))
  {
    hide OwnersDiffer, HasMultiple, EntriesOf, GoodAddresses, EntrySpecs;
    if merged != [] {
      var n := |merged| - 1;
      var front, e := merged[..n], merged[n];
      PrefixWellFormed(merged);
      NamesAreDistinct(front);
      var before := AllSpecs(front);
      var new_ := EntrySpecs(e, SpecNames(before));
      OwnNamesDistinct(e, SpecNames(before));
      forall t, s | t in before && s in new_ ensures t.name != s.name {
        if t.name == s.name {
          SpecsAreAsked(front, t);
          var j :| 0 <= j < n && t in EntrySpecs(front[j], {});
          assert OwnersDiffer(merged[j], merged[n]);
          NewSpecsAreFresh(e, SpecNames(before), s);
          assert t.name in SpecNames(before);
          SameNameSameSet(merged[j], e, t, s);
        }
      }
    }
  }

  lemma OwnNamesDistinct(e: Entry, taken: set<SetName>)
    requires GoodAddresses(e)
    ensures DistinctNames(EntrySpecs(e, taken))
  {
    hide HasMultiple, EntriesOf;
  }

  lemma NewSpecsAreFresh(e: Entry, taken: set<SetName>, s: SetSpec)
    requires GoodAddresses(e) && s in EntrySpecs(e, taken)
    ensures s in EntrySpecs(e, {})
    ensures s.name.Stable? && (s.name.owner == TagSet ==> s.name !in taken)
  {
    hide HasMultiple, EntriesOf;
  }

  lemma {:induction false} SpecMapLookup(specs: seq<SetSpec>, s: SetSpec)
    requires DistinctNames(specs) && s in specs
    ensures s.name in SpecMap(specs) && SpecMap(specs)[s.name] == SetOf(s.entries)
  {
    hide SetOf;
    var n := |specs| - 1;
    if s != specs[n] {
      var i :| 0 <= i < |specs| && specs[i] == s;
      assert specs[..n][i] == s;
      SpecMapLookup(specs[..n], s);
    }
  }

  lemma {:induction false} SpecMapKeys(specs: seq<SetSpec>)
    ensures SpecMap(specs).Keys == SpecNames(specs)
  {
    hide SetOf;
    if specs != [] {
      var n := |specs| - 1;
      SpecMapKeys(specs[..n]);
      assert specs == specs[..n] + [specs[n]];
    }
  }

  /** The plan contains, under the right name and with the right contents, every set that a line of
  the entry refers to. */
  lemma PlanProvidesSets(merged: seq<Entry>, i: nat, sets: Sets)
    requires WellFormed(merged) && i < |merged| && Extends(sets, SpecMap(AllSpecs(merged)))
    ensures SetsPresent(merged[i], sets)
  {
    hide HasMultiple, EntriesOf, GoodAddresses, OwnersDiffer, IsTagRule;
    var specs := AllSpecs(merged);
    NamesAreDistinct(merged);
    forall s | s in EntrySpecs(merged[i], {}) ensures s.name in sets && sets[s.name] == SetOf(s.entries) {
      assert Asked(merged, s);
      AskedAreSpecs(merged, s);
      SpecMapLookup(specs, s);
    }
    NeededSets(merged[i], sets);
  }

  lemma NeededSets(e: Entry, sets: Sets)
    requires GoodAddresses(e)
    requires IsTagRule(e) ==> e.rule.sourceIps != []
    requires forall s :: s in EntrySpecs(e, {}) ==> s.name in sets && sets[s.name] == SetOf(s.entries)
    ensures SetsPresent(e, sets)
  {
    hide HasMultiple, EntriesOf, SetOf;
    match e
    case JsonEntry(r) =>
      var src, dst := SourceSpecs(r, {}), DestSpecs(r.destIp, Stable(RuleSet, r.id, Dst));
      assert forall s :: s in src || s in dst ==> s in EntrySpecs(e, {});
      if UsesSourceSet(r) { assert src[0] in src; }
      if HasMultiple(r.destIp) { assert dst[0] in dst; }
    case PeerEntry(p) =>
      var lan, dst := LanSpecs(p), DestSpecs(p.destIp, PeerDestName(p));
      assert forall s :: s in lan || s in dst ==> s in EntrySpecs(e, {});
      if HasMultiple(p.cidrs) { assert lan[0] in lan; }
      if HasMultiple(p.destIp) { assert dst[0] in dst; }
  }

  // ------------------------------------------------- every reference resolves

  lemma {:induction false} ProductTerms(srcs: seq<AddrMatch>, dsts: seq<AddrMatch>, services: seq<Service>,
      target: Action, l: Line)
    requires l in Product(srcs, dsts, services, target)
    ensures l.src in srcs && l.dst in dsts && l.target == target
  {
    var front, s := srcs[..|srcs| - 1], srcs[|srcs| - 1];
    if l in Product(front, dsts, services, target) {
      ProductTerms(front, dsts, services, target, l);
    } else {
      FromTerms(s, dsts, services, target, l);
    }
  }

  lemma {:induction false} FromTerms(src: AddrMatch, dsts: seq<AddrMatch>, services: seq<Service>,
      target: Action, l: Line)
    requires l in LinesFrom(src, dsts, services, target)
    ensures l.src == src && l.dst in dsts && l.target == target
  {
    var front, d := dsts[..|dsts| - 1], dsts[|dsts| - 1];
    if l in LinesFrom(src, front, services, target) {
      FromTerms(src, front, services, target, l);
    }
  }

  lemma EntryReferences(e: Entry, l: Line)
    requires GoodAddresses(e) && l in EntryLines(e)
    requires IsTagRule(e) ==> e.rule.sourceIps != []
    ensures l.src.InSet? ==> l.src.name in SpecNames(EntrySpecs(e, {}))
    ensures l.dst.InSet? ==> l.dst.name in SpecNames(EntrySpecs(e, {}))
  {
    hide HasMultiple, EntriesOf, Product, Services, PeerPort;
    match e
    case JsonEntry(r) =>
      var dst := Stable(RuleSet, r.id, Dst);
      ProductTerms(SourceTerms(r), DestTerms(r.destIp, dst), Services(r.protocol, r.destPort), r.action, l);
      var ss, ds := SourceSpecs(r, {}), DestSpecs(r.destIp, dst);
      assert forall s :: s in ss || s in ds ==> s in EntrySpecs(e, {});
      if l.src.InSet? { assert ss[0] in ss; }
      if l.dst.InSet? { assert ds[0] in ds; }
    case PeerEntry(p) =>
      var dst := PeerDestName(p);
      ProductTerms(LanTerms(p), DestTerms(p.destIp, dst), Services(p.protocol, PeerPort(p)), Accept, l);
      var ss, ds := LanSpecs(p), DestSpecs(p.destIp, dst);
      assert forall s :: s in ss || s in ds ==> s in EntrySpecs(e, {});
      if l.src.InSet? { assert ss[0] in ss; }
      if l.dst.InSet? { assert ds[0] in ds; }
  }

  lemma {:induction false} LineOfSomeEntry(merged: seq<Entry>, l: Line)
    requires forall i :: 0 <= i < |merged| ==> GoodAddresses(merged[i])
    requires l in AllLines(merged)
    ensures exists i :: 0 <= i < |merged| && l in EntryLines(merged[i])
  {
    hide GoodAddresses, EntryLines;
    var n := |merged| - 1;
    if l in AllLines(merged[..n]) {
      LineOfSomeEntry(merged[..n], l);
      var i :| 0 <= i < n && l in EntryLines(merged[..n][i]);
      assert l in EntryLines(merged[i]);
    } else {
      assert l in EntryLines(merged[n]);
    }
  }

  /** Every `--match-set` name in the generated lines is the name of a desired set. */
  lemma ReferencesAreDesired(merged: seq<Entry>)
    requires WellFormed(merged)
    ensures References(AllLines(merged)) <= SpecNames(AllSpecs(merged))
  {
    hide GoodAddresses, EntryLines, EntrySpecs, OwnersDiffer, IsTagRule;
    forall name | name in References(AllLines(merged)) ensures name in SpecNames(AllSpecs(merged)) {
      var l, m :| l in AllLines(merged) && m in {l.src, l.dst} && m.InSet? && m.name == name;
      LineOfSomeEntry(merged, l);
      var i :| 0 <= i < |merged| && l in EntryLines(merged[i]);
      EntryReferences(merged[i], l);
      var s :| s in EntrySpecs(merged[i], {}) && s.name == name;
      assert Asked(merged, s);
      AskedAreSpecs(merged, s);
    }
  }

  // ------------------------------------------------------- from the listing

  /** The conditions on a listing of rules and peers under which names are collision-free and tags
  are resolved. They do not depend on the order of the listing. */
  ghost predicate ListingOk(entries: seq<Entry>) {
    DistinctOwners(entries) && TagsResolved(entries)
  }

  lemma {:induction false} InsertKeepsDistinct(s: seq<Entry>, e: Entry)
    requires DistinctOwners(s) && forall x :: x in s ==> OwnersDiffer(x, e) && OwnersDiffer(e, x)
    ensures DistinctOwners(InsertEntry(s, e))
    ensures forall x :: x in InsertEntry(s, e) <==> x == e || x in s
  {
    hide OwnersDiffer, KeyLe;
    if s != [] && !KeyLe(s[|s| - 1], e) {
      var front, last := s[..|s| - 1], s[|s| - 1];
      assert s == front + [last];
      InsertKeepsDistinct(front, e);
      var u := InsertEntry(front, e);
      forall i | 0 <= i < |u| ensures OwnersDiffer(u[i], last) {
        assert u[i] in u;
        if u[i] in front { var k :| 0 <= k < |front| && front[k] == u[i]; assert s[k] == u[i]; }
      }
    }
  }

  lemma {:induction false} SortKeepsDistinct(s: seq<Entry>)
    requires DistinctOwners(s)
    ensures DistinctOwners(SortEntries(s))
    ensures forall x :: x in SortEntries(s) <==> x in s
  {
    hide InsertEntry;
    if s != [] {
      var front, last := s[..|s| - 1], s[|s| - 1];
      assert s == front + [last];
      SortKeepsDistinct(front);
      forall x | x in SortEntries(front) ensures OwnersDiffer(x, last) && OwnersDiffer(last, x) {
        var k :| 0 <= k < |front| && front[k] == x;
        assert OwnersDiffer(s[k], s[|s| - 1]);
        OwnersDifferSymmetric(x, last);
      }
      InsertKeepsDistinct(SortEntries(front), last);
    }
  }

  lemma OwnersDifferSymmetric(a: Entry, b: Entry)
    ensures OwnersDiffer(a, b) == OwnersDiffer(b, a)
  {
  }

  lemma SortKeepsListingOk(s: seq<Entry>)
    requires ListingOk(s)
    ensures ListingOk(SortEntries(s))
  {
    hide OwnersDiffer, IsTagRule, TagsAgree, SortEntries;
    SortKeepsDistinct(s);
    var t := SortEntries(s);
    forall i | 0 <= i < |t| ensures t[i] in s {
      assert t[i] in t;
    }
    forall i, j | 0 <= i < |t| && 0 <= j < |t| ensures TagsAgree(t[i], t[j]) {
      var a :| 0 <= a < |s| && s[a] == t[i];
      var b :| 0 <= b < |s| && s[b] == t[j];
    }
  }

  /** Compilation succeeds exactly on IPv4 addresses and well-formed peer ports. */
  lemma CompileSucceedsIff(rules: seq<Rule>, peers: seq<PeerForward>)
    ensures Compile(rules, peers).Some? <==>
      forall e :: e in Entries(rules, peers) ==> GoodAddresses(e) && GoodPort(e)
  {
    hide GoodAddresses, GoodPort, AllSpecs, AllLines, SortEntries;
    var es := Entries(rules, peers);
    var merged := SortEntries(es);
    SortEntriesSorted(es);
    if Compile(rules, peers).Some? {
      forall e | e in es ensures GoodAddresses(e) && GoodPort(e) {
        assert e in merged;
        var i :| 0 <= i < |merged| && merged[i] == e;
      }
    }
    if forall e :: e in es ==> GoodAddresses(e) && GoodPort(e) {
      forall i | 0 <= i < |merged| ensures GoodAddresses(merged[i]) && GoodPort(merged[i]) {
        assert merged[i] in merged;
      }
    }
  }

  /** The compiler preserves meaning: on any kernel whose sets include those of the plan, the
  generated chain gives every packet the verdict of the policy, whatever the order of the listing. */
  lemma CompilerCorrect(rules: seq<Rule>, peers: seq<PeerForward>, sets: Sets, pkt: Packet)
    requires Compile(rules, peers).Some?
    requires ListingOk(Entries(rules, peers))
    requires forall r :: r in rules ==> StoredPort(r.destPort)
    requires Extends(sets, SpecMap(Compile(rules, peers).value.specs))
    ensures PolicySays(Entries(rules, peers), pkt, FirstMatch(Compile(rules, peers).value.lines, sets, pkt))
  {
    hide GoodAddresses, GoodPort, StoredPort, OwnersDiffer, IsTagRule, Admits, SetsPresent, AllSpecs, AllLines,
      FirstMatch, SortEntries, PolicySays, TagsAgree;
    var es := Entries(rules, peers);
    var merged := SortEntries(es);
    SortKeepsListingOk(es);
    SortEntriesSorted(es);
    forall i | 0 <= i < |merged| ensures StoredEntry(merged[i]) && SetsPresent(merged[i], sets) {
      assert merged[i] in merged;
      EntriesAreStored(rules, peers, merged[i]);
      PlanProvidesSets(merged, i, sets);
    }
    AllLinesHit(merged, sets, pkt);
    FirstMatchIsPolicy(es, pkt);
  }

  lemma {:induction false} EntriesAreStored(rules: seq<Rule>, peers: seq<PeerForward>, e: Entry)
    requires e in Entries(rules, peers)
    ensures e.JsonEntry? ==> e.rule in rules && InForce(e.rule)
    ensures e.PeerEntry? ==> e.peer in peers
  {
    if e in JsonEntries(rules) {
      JsonEntriesMembers(rules, e);
    } else {
      PeerEntriesMembers(peers, e);
    }
  }

  lemma {:induction false} JsonEntriesMembers(rules: seq<Rule>, e: Entry)
    ensures e in JsonEntries(rules) <==> e.JsonEntry? && e.rule in rules && InForce(e.rule)
  {
    if rules != [] {
      JsonEntriesMembers(rules[..|rules| - 1], e);
      assert rules == rules[..|rules| - 1] + [rules[|rules| - 1]];
    }
  }

  lemma {:induction false} PeerEntriesMembers(peers: seq<PeerForward>, e: Entry)
    ensures e in PeerEntries(peers) <==> e.PeerEntry? && e.peer in peers && !AllBlank(e.peer.cidrs)
  {
    hide AllBlank;
    if peers != [] {
      PeerEntriesMembers(peers[..|peers| - 1], e);
      assert peers == peers[..|peers| - 1] + [peers[|peers| - 1]];
    }
  }

  /** Lines and sets of a plan use stable names only. */
  lemma PlanNamesAreStable(merged: seq<Entry>)
    requires forall i :: 0 <= i < |merged| ==> GoodAddresses(merged[i])
    ensures forall n :: n in References(AllLines(merged)) ==> n.Stable?
    ensures forall s :: s in AllSpecs(merged) ==> s.name.Stable?
  {
    hide GoodAddresses, EntryLines, EntrySpecs, HasMultiple, EntriesOf, Product, Services;
    forall n | n in References(AllLines(merged)) ensures n.Stable? {
      var l, m :| l in AllLines(merged) && m in {l.src, l.dst} && m.InSet? && m.name == n;
      LineOfSomeEntry(merged, l);
      var i :| 0 <= i < |merged| && l in EntryLines(merged[i]);
      LineNamesAreStable(merged[i], l);
    }
    forall s | s in AllSpecs(merged) ensures s.name.Stable? {
      SpecsAreAsked(merged, s);
      var i :| 0 <= i < |merged| && s in EntrySpecs(merged[i], {});
      OwnSpecNamesAreStable(merged[i], s);
    }
  }

  lemma LineNamesAreStable(e: Entry, l: Line)
    requires GoodAddresses(e) && l in EntryLines(e)
    ensures l.src.InSet? ==> l.src.name.Stable?
    ensures l.dst.InSet? ==> l.dst.name.Stable?
  {
    hide HasMultiple, EntriesOf, Product, Services, PeerPort;
    match e
    case JsonEntry(r) =>
      ProductTerms(SourceTerms(r), DestTerms(r.destIp, Stable(RuleSet, r.id, Dst)), Services(r.protocol, r.destPort),
        r.action, l);
    case PeerEntry(p) =>
      ProductTerms(LanTerms(p), DestTerms(p.destIp, PeerDestName(p)), Services(p.protocol, PeerPort(p)), Accept, l);
  }

  lemma OwnSpecNamesAreStable(e: Entry, s: SetSpec)
    requires GoodAddresses(e) && s in EntrySpecs(e, {})
    ensures s.name.Stable?
  {
    hide HasMultiple, EntriesOf;
  }
}
