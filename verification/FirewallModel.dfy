/** Rules, peer forwards, packets, and the meaning of each, independent of iptables. */
module FirewallModel {
  import opened Wrappers
  import opened Ipv4
  import opened Text
  import opened Ports

  datatype Action = Accept | Drop | Reject

  datatype OwnerType = GroupOwner | UserOwner | TagOwner

  datatype Deployment = Center | PeerSite

  /** A stored centre rule. Address fields are lists of comma-separated pieces. */
  datatype Rule = Rule(
    id: string,
    ownerType: OwnerType,
    ownerId: string,
    deployment: Deployment,
    action: Action,
    sourceSubnet: Option<Token>,
    sourceIps: seq<AddrText>,
    destIp: seq<AddrText>,
    destPort: Option<string>,
    protocol: string,
    priority: int,
    enabled: bool)

  /** What a peer site contributes to the centre chain: its LANs are let in. */
  datatype PeerForward = PeerForward(
    peerId: string,
    cidrs: seq<AddrText>,
    priority: int,
    destIp: seq<AddrText>,
    destPort: string,
    protocol: string)

  /** `dport` is absent for protocols without ports. */
  datatype Packet = Packet(src: nat, dst: nat, proto: string, dport: Option<nat>)

  predicate SomeCovers(xs: seq<AddrText>, ip: nat) {
    exists i :: 0 <= i < |xs| && xs[i].Ipv4Text? && Covers(xs[i].token, ip)
  }

  predicate AllBlank(xs: seq<AddrText>) {
    forall i :: 0 <= i < |xs| ==> xs[i].Blank?
  }

  /** What the lines are made from: `any` and the empty text are older spellings of `all`. */
  function ProtocolOf(text: string): string {
    var p := Lower(Strip(if text == "" then "all" else text));
    if p == "any" then "all" else p
  }

  /** The text restricts nothing: it is absent, or there is nothing between its commas. */
  predicate PortIsFree(destPort: Option<string>) {
    destPort.Some? ==> forall p :: p in Split(Strip(destPort.value), ',') ==> BlankPiece(p)
  }

  predicate AnyProtocol(text: string) {
    text == "" || Lower(Strip(text)) == "all" || Lower(Strip(text)) == "any"
  }

  /** Protocol and port part of a rule, as typed or as stored. A port restriction without a protocol means TCP
  or UDP. */
  predicate ServiceAdmits(protocol: string, destPort: Option<string>, pkt: Packet) {
    var named := Strip(protocol) == "" || pkt.proto == Lower(Strip(protocol));
    if PortIsFree(destPort) then
      AnyProtocol(protocol) || named
    else
      && (if AnyProtocol(protocol) then pkt.proto == "tcp" || pkt.proto == "udp" else named)
      && pkt.dport.Some?
      && OperatorReads(Strip(destPort.value), pkt.dport.value)
  }

  /** A tag rule admits the tag's members only; another rule admits its listed sources, else its
  subnet, else everyone. */
  predicate SourceAdmits(r: Rule, ip: nat) {
    if r.ownerType == TagOwner || !AllBlank(r.sourceIps) then SomeCovers(r.sourceIps, ip)
    else r.sourceSubnet.Some? ==> Covers(r.sourceSubnet.value, ip)
  }

  predicate DestAdmits(destIp: seq<AddrText>, ip: nat) {
    AllBlank(destIp) || SomeCovers(destIp, ip)
  }

  predicate RuleAdmits(r: Rule, pkt: Packet) {
    && SourceAdmits(r, pkt.src)
    && DestAdmits(r.destIp, pkt.dst)
    && ServiceAdmits(r.protocol, r.destPort, pkt)
  }

  /** The port text that the lines of a peer forward are made from: the validated form of what was typed. */
  function PeerPort(p: PeerForward): Option<string> {
    match DestPort(Some(p.destPort))
    case Ok(t) => t
    case Err(_) => None
  }

  predicate PeerAdmits(p: PeerForward, pkt: Packet) {
    && SomeCovers(p.cidrs, pkt.src)
    && DestAdmits(p.destIp, pkt.dst)
    && ServiceAdmits(p.protocol, Some(p.destPort), pkt)
  }

  /** Validating a port text does not change which packets it admits. */
  lemma ValidationKeepsService(protocol: string, destPort: Option<string>, pkt: Packet)
    requires DestPort(destPort).Ok?
    ensures ServiceAdmits(protocol, DestPort(destPort).value, pkt) <==> ServiceAdmits(protocol, destPort, pkt)
  {
    hide OperatorReads, AnyProtocol, ValidateText, PortIsFree, Strip, Lower;
    if destPort.Some? {
      var port := if pkt.dport.Some? then pkt.dport.value else 0;
      ValidationKeepsText(destPort.value, port);
    }
  }

  lemma ValidationKeepsText(raw: string, port: nat)
    requires DestPort(Some(raw)).Ok?
    ensures var v := DestPort(Some(raw)).value;
      && (PortIsFree(v) <==> PortIsFree(Some(raw)))
      && (!PortIsFree(v) ==> v.Some? && (OperatorReads(Strip(v.value), port) <==> OperatorReads(Strip(raw), port)))
  {
    hide OperatorReads, KernelReads, Split, ValidateText, BlankPiece;
    BlankIsFree();
    if Strip(raw) != "" {
      StoredTextKeepsPorts(raw, port);
      var t := DestPort(Some(raw)).value.value;
      assert PortIsFree(Some(raw)) <==> t == "";
      if t != "" {
        assert Strip(t) == t && DestPort(Some(t)) == Ok(Some(t));
        StoredTextKeepsPorts(t, port);
      }
    }
  }

  lemma ProtocolIs(text: string)
    ensures ProtocolOf(text) == "all" <==> AnyProtocol(text)
    ensures !AnyProtocol(text) ==> ProtocolOf(text) == Lower(Strip(text))
    ensures ProtocolOf(text) == "" ==> Strip(text) == ""
    ensures !AnyProtocol(text) && Strip(text) == "" ==> ProtocolOf(text) == ""
  {
    StripOfWord("all");
    assert Lower("all") == "all";
    hide Strip;
  }

  lemma BlankIsFree()
    ensures PortIsFree(Some("")) && Split("", ',') == [""] && Strip("") == ""
  {
    NoCommaSplit("");
    StripOfWord("");
  }

  // -------------------------------------------- the list of rules in force

  datatype Entry = JsonEntry(rule: Rule) | PeerEntry(peer: PeerForward)

  function Priority(e: Entry): int {
    match e case JsonEntry(r) => r.priority case PeerEntry(p) => p.priority
  }

  function Verdict(e: Entry): Action {
    match e case JsonEntry(r) => r.action case PeerEntry(_) => Accept
  }

  predicate Admits(e: Entry, pkt: Packet) {
    match e case JsonEntry(r) => RuleAdmits(r, pkt) case PeerEntry(p) => PeerAdmits(p, pkt)
  }

  predicate InForce(r: Rule) {
    r.enabled && r.deployment == Center
  }

  function JsonEntries(rules: seq<Rule>): seq<Entry> {
    if rules == [] then []
    else
      var r := rules[|rules| - 1];
      JsonEntries(rules[..|rules| - 1]) + (if InForce(r) then [JsonEntry(r)] else [])
  }

  function PeerEntries(peers: seq<PeerForward>): seq<Entry> {
    if peers == [] then []
    else
      var p := peers[|peers| - 1];
      PeerEntries(peers[..|peers| - 1]) + (if AllBlank(p.cidrs) then [] else [PeerEntry(p)])
  }

  /** Everything in force, in listing order: stored rules first, then peers. */
  function Entries(rules: seq<Rule>, peers: seq<PeerForward>): seq<Entry> {
    JsonEntries(rules) + PeerEntries(peers)
  }

  /** Sorting key: priority, and stored rules before peers of the same priority. */
  predicate KeyLe(a: Entry, b: Entry) {
    Priority(a) < Priority(b) || (Priority(a) == Priority(b) && (a.JsonEntry? || b.PeerEntry?))
  }

  /** Entry i decides the packet: it admits it, and every other admitting entry has a larger key,
  or the same key and a later place in the listing. */
  ghost predicate Decides(entries: seq<Entry>, i: nat, pkt: Packet) {
    && i < |entries|
    && Admits(entries[i], pkt)
    && forall j :: 0 <= j < |entries| && Admits(entries[j], pkt) ==>
         KeyLe(entries[i], entries[j]) && (KeyLe(entries[j], entries[i]) ==> i <= j)
  }

  /** What the rules as a whole say about a packet, stated without any ordering of the list. */
  ghost predicate PolicySays(entries: seq<Entry>, pkt: Packet, v: Option<Action>) {
    match v
    case None => forall j :: 0 <= j < |entries| ==> !Admits(entries[j], pkt)
    case Some(a) => exists i: nat :: Decides(entries, i, pkt) && Verdict(entries[i]) == a
  }

  // --------------------------------------------------------- stable ordering

  /** Insert after every element whose key is not larger. */
  function InsertEntry(sorted: seq<Entry>, e: Entry): seq<Entry> {
    if sorted == [] || KeyLe(sorted[|sorted| - 1], e) then sorted + [e]
    else InsertEntry(sorted[..|sorted| - 1], e) + [sorted[|sorted| - 1]]
  }

  function SortEntries(s: seq<Entry>): seq<Entry> {
    if s == [] then [] else InsertEntry(SortEntries(s[..|s| - 1]), s[|s| - 1])
  }

  /** The first admitting entry of a list. */
  function FirstAdmitting(s: seq<Entry>, pkt: Packet): Option<Entry> {
    if s == [] then None
    else
      match FirstAdmitting(s[..|s| - 1], pkt)
      case Some(e) => Some(e)
      case None => if Admits(s[|s| - 1], pkt) then Some(s[|s| - 1]) else None
  }

  predicate SortedEntries(s: seq<Entry>) {
    forall i, j :: 0 <= i < j < |s| ==> KeyLe(s[i], s[j])
  }

  lemma {:induction false} InsertEntrySorted(s: seq<Entry>, e: Entry)
    requires SortedEntries(s)
    ensures SortedEntries(InsertEntry(s, e))
    ensures forall x :: x in InsertEntry(s, e) <==> x == e || x in s
  {
    if s != [] && !KeyLe(s[|s| - 1], e) {
      var front, last := s[..|s| - 1], s[|s| - 1];
      InsertEntrySorted(front, e);
      assert s == front + [last];
      assert KeyLe(e, last);
      forall x | x in InsertEntry(front, e) ensures KeyLe(x, last) {
        if x in front { var i :| 0 <= i < |front| && front[i] == x; assert s[i] == x; }
      }
    }
  }

  lemma {:induction false} SortEntriesSorted(s: seq<Entry>)
    ensures SortedEntries(SortEntries(s))
    ensures forall x :: x in SortEntries(s) <==> x in s
  {
    if s != [] {
      SortEntriesSorted(s[..|s| - 1]);
      InsertEntrySorted(SortEntries(s[..|s| - 1]), s[|s| - 1]);
      assert s == s[..|s| - 1] + [s[|s| - 1]];
    }
  }

  lemma {:induction false} FirstAfterInsert(t: seq<Entry>, e: Entry, pkt: Packet)
    requires SortedEntries(t)
    ensures FirstAdmitting(InsertEntry(t, e), pkt) ==
      var f := FirstAdmitting(t, pkt);
      if Admits(e, pkt) && (f.None? || !KeyLe(f.value, e)) then Some(e) else f
  {
    hide Admits;
    FirstIsMember(t, pkt);
    if t == [] || KeyLe(t[|t| - 1], e) {
      assert (t + [e])[..|t|] == t;
    } else {
      var front, last := t[..|t| - 1], t[|t| - 1];
      FirstAfterInsert(front, e, pkt);
      var u := InsertEntry(front, e);
      assert (u + [last])[..|u|] == u;
    }
  }

  lemma {:induction false} FirstIsMember(t: seq<Entry>, pkt: Packet)
    ensures var f := FirstAdmitting(t, pkt); f.Some? ==> f.value in t && Admits(f.value, pkt)
  {
    hide Admits;
    if t != [] {
      FirstIsMember(t[..|t| - 1], pkt);
      assert t == t[..|t| - 1] + [t[|t| - 1]];
    }
  }

  /** Sorting and then taking the first admitting entry picks the deciding entry of the listing. */
  lemma {:induction false} FirstOfSortedDecides(s: seq<Entry>, pkt: Packet)
    ensures match FirstAdmitting(SortEntries(s), pkt)
      case None => forall j :: 0 <= j < |s| ==> !Admits(s[j], pkt)
      case Some(e) => exists i: nat :: Decides(s, i, pkt) && s[i] == e
  {
    hide Admits;
    if s != [] {
      var n := |s| - 1;
      var front, e := s[..n], s[n];
      FirstOfSortedDecides(front, pkt);
      SortEntriesSorted(front);
      FirstAfterInsert(SortEntries(front), e, pkt);
      var f := FirstAdmitting(SortEntries(front), pkt);
      if f.Some? {
        var i: nat :| Decides(front, i, pkt) && front[i] == f.value;
        if Admits(e, pkt) && !KeyLe(f.value, e) {
          NewDecides(s, i, pkt);
        } else {
          OldDecides(s, i, pkt);
        }
      } else if Admits(e, pkt) {
        assert forall j :: 0 <= j < n ==> s[j] == front[j];
        assert Decides(s, n, pkt);
      }
    }
  }

  lemma NewDecides(s: seq<Entry>, i: nat, pkt: Packet)
    requires s != [] && Decides(s[..|s| - 1], i, pkt)
    requires Admits(s[|s| - 1], pkt) && !KeyLe(s[i], s[|s| - 1])
    ensures Decides(s, |s| - 1, pkt)
  {
    hide Admits;
    var front := s[..|s| - 1];
    forall j | 0 <= j < |s| && Admits(s[j], pkt)
      ensures KeyLe(s[|s| - 1], s[j]) && (KeyLe(s[j], s[|s| - 1]) ==> |s| - 1 <= j)
    {
      if j < |front| { assert front[j] == s[j]; }
    }
  }

  lemma OldDecides(s: seq<Entry>, i: nat, pkt: Packet)
    requires s != [] && Decides(s[..|s| - 1], i, pkt)
    requires Admits(s[|s| - 1], pkt) ==> KeyLe(s[i], s[|s| - 1])
    ensures Decides(s, i, pkt)
  {
    hide Admits;
    var front := s[..|s| - 1];
    forall j | 0 <= j < |s| && Admits(s[j], pkt)
      ensures KeyLe(s[i], s[j]) && (KeyLe(s[j], s[i]) ==> i <= j)
    {
      if j < |front| { assert front[j] == s[j]; }
    }
  }

  /** First match on the ordered list is the policy of the unordered listing. */
  lemma FirstMatchIsPolicy(s: seq<Entry>, pkt: Packet)
    ensures PolicySays(s, pkt,
      match FirstAdmitting(SortEntries(s), pkt) case None => None case Some(e) => Some(Verdict(e)))
  {
    hide Admits, Decides;
    FirstOfSortedDecides(s, pkt);
  }

  /** The policy is a function of the listing: no two verdicts are possible. */
  lemma PolicyIsDeterministic(s: seq<Entry>, pkt: Packet, v: Option<Action>, w: Option<Action>)
    requires PolicySays(s, pkt, v) && PolicySays(s, pkt, w)
    ensures v == w
  {
    hide Admits;
    if v.None? || w.None? {
      assert forall i: nat :: Decides(s, i, pkt) ==> Admits(s[i], pkt);
    } else {
      var i: nat :| Decides(s, i, pkt) && Verdict(s[i]) == v.value;
      var j: nat :| Decides(s, j, pkt) && Verdict(s[j]) == w.value;
    }
  }

  /** A single comma passes validation. As typed it names no port; as stored it admits every packet of
  the protocol, with or without a port. */
  lemma CommaAdmitsEveryPort(pkt: Packet)
    requires pkt.proto == "tcp"
    ensures DestPort(Some(",")) == Ok(Some(""))
    ensures forall port :: !OperatorReads(",", port)
    ensures ServiceAdmits("tcp", DestPort(Some(",")).value, pkt)
  {
    hide DestPort, OperatorReads, AnyProtocol;
    CommaIsStoredEmpty();
    TcpIsItself();
  }

  lemma TcpIsItself()
    ensures Lower(Strip("tcp")) == "tcp" && PortIsFree(Some(""))
  {
    StripOfWord("tcp");
    BlankIsFree();
    assert Lower("tcp") == "tcp";
  }
}
