/** One-line rules (`-s ... -d ... -p ... --dport ... -j ...`): parsing and printing. */
module SimpleRules {
  import opened Wrappers
  import opened Text
  import opened Ports
  import opened FirewallModel
  import opened ForwardPlan

  datatype Simplified = Simplified(source: Option<string>, dest: Option<string>, protocol: string,
    destPort: Option<string>, action: Action)

  // ------------------------------------------------------------------ parsing

  /** The word after the first occurrence of `key` that has one. */
  function FirstAfter(ws: seq<string>, key: string, anyCase: bool): Option<string> {
    if |ws| < 2 then None
    else if (if anyCase then Lower(ws[0]) else ws[0]) == key then Some(ws[1])
    else FirstAfter(ws[1..], key, anyCase)
  }

  /** `--dport` with its argument in the next word, or behind a colon. */
  function FirstDport(ws: seq<string>): Option<string> {
    if ws == [] then None
    else if |ws| >= 2 && (Lower(ws[0]) == "--dport" || Lower(ws[0]) == "--dport:") then Some(ws[1])
    else if "--dport:" <= Lower(ws[0]) && |ws[0]| > 8 then Some(ws[0][8..])
    else FirstDport(ws[1..])
  }

  /** `<opt> multiport --dports <ports>`; the option may end a longer word. */
  function FirstMultiport(ws: seq<string>, opt: string): Option<string> {
    if |ws| < 4 then None
    else if EndsWith(Lower(ws[0]), opt) && Lower(ws[1]) == "multiport" && Lower(ws[2]) == "--dports" then Some(ws[3])
    else FirstMultiport(ws[1..], opt)
  }

  function OrElse(a: Option<string>, b: Option<string>): Option<string> {
    if a.Some? then a else b
  }

  function ParsedProtocol(p: Option<string>): string {
    var raw := if p.None? || p.value == "" then "all" else Lower(p.value);
    if raw == "any" then "all" else raw
  }

  function ParsedAction(j: Option<string>): Action {
    if j.None? then Accept
    else if Lower(j.value) == "drop" then Drop
    else if Lower(j.value) == "reject" then Reject
    else Accept
  }

  function ParseWords(ws: seq<string>): Option<Simplified> {
    var src, dst := FirstAfter(ws, "-s", false), FirstAfter(ws, "-d", false);
    if src.None? && dst.None? then None
    else
      var ports := OrElse(FirstMultiport(ws, "-m"), FirstMultiport(ws, "--match"));
      Some(Simplified(src, dst, ParsedProtocol(FirstAfter(ws, "-p", true)),
                      OrElse(ports, OrElse(FirstAfter(ws, "--dports", true), FirstDport(ws))),
                      ParsedAction(FirstAfter(ws, "-j", true))))
  }

  /** `try_parse_simplified_line` */
  function TryParse(line: string): Option<Simplified> {
    var s := Strip(line);
    if s == "" || s[0] == '#' || "-A " <= s then None else ParseWords(Words(s))
  }

  // ----------------------------------------------------------------- printing

  function TargetText(a: Action): string {
    match a case Accept => "ACCEPT" case Drop => "DROP" case Reject => "REJECT"
  }

  /** An option and its argument. */
  type Pair = (string, string)

  function AddressPairs(opt: string, addr: Option<string>): seq<Pair> {
    if addr.None? || Strip(addr.value) == "" then [] else [(opt, Strip(addr.value))]
  }

  function ProtoPairs(proto: string): seq<Pair> {
    if proto == "" then [] else [("-p", proto)]
  }

  function PortPairs(ports: PortMatch): seq<Pair> {
    match ports
    case AnyPort => []
    case Dport(t) => [("--dport", t)]
    case Multiport(t) => if t == "" then [] else [("-m", "multiport"), ("--dports", t)]
  }

  function LinePairs(spec: Simplified, s: Service): seq<Pair> {
    AddressPairs("-s", spec.source) + AddressPairs("-d", spec.dest) + ProtoPairs(s.proto) + PortPairs(s.ports) +
    [("-j", TargetText(spec.action))]
  }

  function Flat(ps: seq<Pair>): seq<string> {
    if ps == [] then [] else [ps[0].0, ps[0].1] + Flat(ps[1..])
  }

  function LineText(spec: Simplified, s: Service): string {
    Join(Flat(LinePairs(spec, s)), ' ')
  }

  /** `peer_rests_from_simplified_line`: one line for each protocol and port variant. */
  function PeerRests(spec: Simplified): seq<string> {
    var ss := Services(spec.protocol, spec.destPort);
    seq(|ss|, i requires 0 <= i < |ss| => LineText(spec, ss[i]))
  }

  lemma {:induction false} FlatConcat(a: seq<Pair>, b: seq<Pair>)
    ensures Flat(a + b) == Flat(a) + Flat(b)
  {
    if a == [] {
      assert a + b == b;
    } else {
      assert (a + b)[1..] == a[1..] + b;
      FlatConcat(a[1..], b);
    }
  }

  /** The printing loop, as it appends option by option. */
  method PeerRestsFromSimplifiedLine(spec: Simplified) returns (out: seq<string>)
    ensures out == PeerRests(spec)
  {
    hide Services, Join, Strip, Flat;
    out := [];
    var variants := Services(spec.protocol, spec.destPort);
    for i := 0 to |variants|
      invariant |out| == i && forall k :: 0 <= k < i ==> out[k] == LineText(spec, variants[k])
    {
      var pv := variants[i];
      var parts: seq<Pair> := [];
      if spec.source.Some? && Strip(spec.source.value) != "" {
        parts := parts + [("-s", Strip(spec.source.value))];
      }
      if spec.dest.Some? && Strip(spec.dest.value) != "" {
        parts := parts + [("-d", Strip(spec.dest.value))];
      }
      if pv.proto != "" {
        parts := parts + [("-p", pv.proto)];
      }
      match pv.ports {
        case AnyPort =>
        case Dport(t) => parts := parts + [("--dport", t)];
        case Multiport(t) =>
          if t != "" {
            parts := parts + [("-m", "multiport"), ("--dports", t)];
          }
      }
      parts := parts + [("-j", TargetText(spec.action))];
      assert parts == LinePairs(spec, pv);
      out := out + [Join(Flat(parts), ' ')];
    }
  }

  // ----------------------------------------------- parsing what was printed

  /** A word that cannot be taken for an option. */
  predicate Value(w: string) {
    w != "" && NoSpace(w) && w[0] != '-'
  }

  predicate OptionWord(w: string) {
    w in {"-s", "-d", "-p", "-m", "--dport", "--dports", "-j"}
  }

  predicate GoodPairs(ps: seq<Pair>) {
    forall i :: 0 <= i < |ps| ==> OptionWord(ps[i].0) && Value(ps[i].1)
  }

  function Lookup(ps: seq<Pair>, key: string): Option<string> {
    if ps == [] then None else if ps[0].0 == key then Some(ps[0].1) else Lookup(ps[1..], key)
  }

  function LookupMultiport(ps: seq<Pair>): Option<string> {
    if |ps| < 2 then None
    else if ps[0].0 == "-m" && Lower(ps[0].1) == "multiport" && ps[1].0 == "--dports" then Some(ps[1].1)
    else LookupMultiport(ps[1..])
  }

  lemma OptionFacts(o: string)
    requires OptionWord(o)
    ensures Lower(o) == o && o != "" && o[0] == '-' && NoSpace(o)
    ensures o != "--dport:" && !("--dport:" <= o) && o != "multiport"
    ensures EndsWith(o, "-m") <==> o == "-m"
    ensures !EndsWith(o, "--match")
  {
  }

  lemma ValueFacts(v: string)
    requires Value(v)
    ensures Lower(v) != "" && Lower(v)[0] != '-' && !("--dport:" <= Lower(v))
  {
    assert Lower(v)[0] == ToLower(v[0]);
  }

  lemma FlatStep(ps: seq<Pair>)
    requires ps != []
    ensures Flat(ps) == [ps[0].0, ps[0].1] + Flat(ps[1..])
    ensures Flat(ps)[1..] == [ps[0].1] + Flat(ps[1..]) && Flat(ps)[1..][1..] == Flat(ps[1..])
  {
  }

  lemma {:induction false} FirstAfterFlat(ps: seq<Pair>, key: string, anyCase: bool)
    requires GoodPairs(ps) && OptionWord(key)
    ensures FirstAfter(Flat(ps), key, anyCase) == Lookup(ps, key)
  {
    hide OptionWord, Value, Flat;
    if ps != [] {
      var rest := ps[1..];
      FlatStep(ps);
      assert OptionWord(ps[0].0) && Value(ps[0].1);
      OptionFacts(ps[0].0);
      OptionFacts(key);
      ValueFacts(ps[0].1);
      FirstAfterFlat(rest, key, anyCase);
      ValueIsNoKey(ps[0].1, key);
      assert |Flat(ps)[1..]| < 2 ==> Flat(rest) == [];
    } else {
      FlatOfNone();
    }
  }

  lemma FlatOfNone()
    ensures Flat([]) == []
  {
  }

  lemma ValueIsNoKey(v: string, key: string)
    requires Value(v) && OptionWord(key)
    ensures v != key && Lower(v) != key
  {
    ValueFacts(v);
    OptionFacts(key);
  }

  lemma {:induction false} FirstDportFlat(ps: seq<Pair>)
    requires GoodPairs(ps)
    ensures FirstDport(Flat(ps)) == Lookup(ps, "--dport")
  {
    hide OptionWord, Value, Flat;
    if ps != [] {
      FlatStep(ps);
      assert OptionWord(ps[0].0) && Value(ps[0].1);
      OptionFacts(ps[0].0);
      ValueFacts(ps[0].1);
      FirstDportFlat(ps[1..]);
    } else {
      FlatOfNone();
    }
  }

  lemma {:induction false} FirstMultiportFlat(ps: seq<Pair>, opt: string)
    requires GoodPairs(ps) && opt in {"-m", "--match"}
    ensures FirstMultiport(Flat(ps), opt) == if opt == "-m" then LookupMultiport(ps) else None
  {
    hide OptionWord, Value, Flat, EndsWith;
    if ps != [] {
      var rest := ps[1..];
      FlatStep(ps);
      assert OptionWord(ps[0].0) && Value(ps[0].1);
      OptionFacts(ps[0].0);
      ValueFacts(ps[0].1);
      FirstMultiportFlat(rest, opt);
      if rest != [] {
        FlatStep(rest);
        assert OptionWord(rest[0].0) && Value(rest[0].1);
        OptionFacts(rest[0].0);
        AfterValue(Flat(ps)[1..], opt);
      } else {
        FlatOfNone();
      }
    } else {
      FlatOfNone();
    }
  }

  /** Behind an argument comes an option, never the word `multiport`. */
  lemma AfterValue(ws: seq<string>, opt: string)
    requires |ws| >= 2 && Lower(ws[1]) != "multiport"
    ensures FirstMultiport(ws, opt) == FirstMultiport(ws[1..], opt)
  {
  }

  // ------------------------------------------------------ well-formed specs

  /** A spec with a source or a destination, arguments that are single words, and a stored port text. */
  predicate GoodSpec(spec: Simplified) {
    && (spec.source.Some? || spec.dest.Some?)
    && (spec.source.Some? ==> Value(spec.source.value))
    && (spec.dest.Some? ==> Value(spec.dest.value))
    && Value(ProtocolOf(spec.protocol))
    && StoredPort(spec.destPort)
  }

  /** What one line says: the spec with the line's own protocol and port. */
  function Variant(spec: Simplified, s: Service): Simplified {
    spec.(protocol := if s.proto == "" then "all" else s.proto,
          destPort := match s.ports case AnyPort => None case Dport(t) => Some(t) case Multiport(t) => Some(t))
  }

  predicate GoodService(s: Service) {
    && (s.proto == "" || (Value(s.proto) && Lower(s.proto) == s.proto && s.proto != "all" && s.proto != "any"))
    && (!s.ports.AnyPort? ==> s.proto != "" && Value(s.ports.text) && StoredPort(Some(s.ports.text)))
    && (!s.ports.AnyPort? ==> (s.ports.Multiport? <==> ',' in s.ports.text))
  }

  lemma StoredPortIsWord(t: string)
    requires t != "" && DestPort(Some(t)) == Ok(Some(t))
    ensures Value(t)
  {
    hide ParseToken, NormalizeRangeToken;
    StoredPortFacts(t);
    if ',' in t {
      var parts := ValidatePieces(Split(t, ',')).value;
      ValidPiecesMeaning(Split(t, ','));
      JoinHasNoSpace(parts);
      DashlessJoin(parts);
    } else {
      ValidTokenIsCanonical(t);
    }
  }

  lemma {:induction false} DashlessJoin(parts: seq<string>)
    requires forall t :: t in parts ==> '-' !in t
    ensures '-' !in Join(parts, ',')
  {
    if parts != [] {
      assert parts[0] in parts;
      assert forall t :: t in parts[1..] ==> t in parts;
      DashlessJoin(parts[1..]);
    }
  }

  lemma ProtocolIsLower(p: string)
    ensures Lower(ProtocolOf(p)) == ProtocolOf(p) && ProtocolOf(p) != "any"
  {
    hide Strip;
    var q := Lower(Strip(if p == "" then "all" else p));
    assert Lower(q) == q;
  }

  lemma ServicesAreGood(spec: Simplified)
    requires GoodSpec(spec)
    ensures forall i ::
      0 <= i < |Services(spec.protocol, spec.destPort)| ==> GoodService(Services(spec.protocol, spec.destPort)[i])
  {
    hide Strip, DestPort, Split, Join, NonBlanks, ProtocolOf;
    ProtocolIsLower(spec.protocol);
    StripOfWord("");
    if spec.destPort.Some? && spec.destPort.value != "" {
      StoredPortFacts(spec.destPort.value);
      StoredPortIsWord(spec.destPort.value);
    }
    TcpUdp();
  }

  lemma TcpUdp()
    ensures Value("tcp") && Lower("tcp") == "tcp" && Value("udp") && Lower("udp") == "udp"
  {
  }

  lemma PairsAreGood(spec: Simplified, s: Service)
    requires GoodSpec(spec) && GoodService(s)
    ensures GoodPairs(LinePairs(spec, s))
    ensures AddressPairs("-s", spec.source) == if spec.source.None? then [] else [("-s", spec.source.value)]
    ensures AddressPairs("-d", spec.dest) == if spec.dest.None? then [] else [("-d", spec.dest.value)]
  {
    hide Strip, DestPort, ProtocolOf;
    if spec.source.Some? { StripOfWord(spec.source.value); }
    if spec.dest.Some? { StripOfWord(spec.dest.value); }
  }

  // -------------------------------------------------- looking up the options

  lemma {:induction false} LookupConcat(a: seq<Pair>, b: seq<Pair>, key: string)
    ensures Lookup(a + b, key) == OrElse(Lookup(a, key), Lookup(b, key))
  {
    if a == [] {
      assert a + b == b;
    } else {
      assert (a + b)[1..] == a[1..] + b;
      LookupConcat(a[1..], b, key);
    }
  }

  lemma {:induction false} MultiportBehind(a: seq<Pair>, b: seq<Pair>)
    requires forall i :: 0 <= i < |a| ==> a[i].0 != "-m"
    ensures LookupMultiport(a + b) == LookupMultiport(b)
  {
    if a == [] {
      assert a + b == b;
    } else {
      assert (a + b)[1..] == a[1..] + b;
      MultiportBehind(a[1..], b);
    }
  }

  lemma ShortLookups(p: Pair, q: Pair, key: string)
    ensures Lookup([], key) == None
    ensures Lookup([p], key) == if p.0 == key then Some(p.1) else None
    ensures Lookup([p, q], key) == if p.0 == key then Some(p.1) else if q.0 == key then Some(q.1) else None
  {
    assert [p][1..] == [] && [q][1..] == [] && [p, q][1..] == [q];
    assert Lookup([q], key) == if q.0 == key then Some(q.1) else None;
  }

  lemma LookupAll(spec: Simplified, s: Service, key: string)
    requires GoodSpec(spec) && GoodService(s)
    ensures Lookup(LinePairs(spec, s), key) ==
      if key == "-s" then spec.source
      else if key == "-d" then spec.dest
      else if key == "-p" then (if s.proto == "" then None else Some(s.proto))
      else if key == "--dport" then (if s.ports.Dport? then Some(s.ports.text) else None)
      else if key == "-m" then (if s.ports.Multiport? then Some("multiport") else None)
      else if key == "--dports" then (if s.ports.Multiport? then Some(s.ports.text) else None)
      else if key == "-j" then Some(TargetText(spec.action))
      else None
  {
    hide Strip, DestPort, ProtocolOf, AddressPairs, Lookup, StoredPort, NoSpace;
    PairsAreGood(spec, s);
    var a, b, c := AddressPairs("-s", spec.source), AddressPairs("-d", spec.dest), ProtoPairs(s.proto);
    var d, e := PortPairs(s.ports), [("-j", TargetText(spec.action))];
    LookupConcat(a + b + c + d, e, key);
    LookupConcat(a + b + c, d, key);
    LookupConcat(a + b, c, key);
    LookupConcat(a, b, key);
    ShortLookups(("-s", if spec.source.Some? then spec.source.value else ""), ("", ""), key);
    ShortLookups(("-d", if spec.dest.Some? then spec.dest.value else ""), ("", ""), key);
    ShortLookups(("-p", s.proto), ("", ""), key);
    ShortLookups(("-j", TargetText(spec.action)), ("", ""), key);
    if !s.ports.AnyPort? {
      ShortLookups(("--dport", s.ports.text), ("", ""), key);
      ShortLookups(("-m", "multiport"), ("--dports", s.ports.text), key);
    }
  }

  lemma MultiportOf(spec: Simplified, s: Service)
    requires GoodSpec(spec) && GoodService(s)
    ensures LookupMultiport(LinePairs(spec, s)) == if s.ports.Multiport? then Some(s.ports.text) else None
  {
    hide Strip, DestPort, ProtocolOf, AddressPairs, StoredPort, NoSpace;
    PairsAreGood(spec, s);
    var a, b, c := AddressPairs("-s", spec.source), AddressPairs("-d", spec.dest), ProtoPairs(s.proto);
    var d, e := PortPairs(s.ports), [("-j", TargetText(spec.action))];
    MultiportBehind(a + b + c, d + e);
    assert a + b + c + (d + e) == LinePairs(spec, s);
    if s.ports.Multiport? {
      assert (d + e)[0] == ("-m", "multiport") && (d + e)[1] == ("--dports", s.ports.text);
      assert Lower("multiport") == "multiport";
    } else {
      MultiportBehind(d + e, []);
      assert d + e + [] == d + e;
    }
  }

  lemma TargetsParse(a: Action)
    ensures ParsedAction(Some(TargetText(a))) == a
    ensures Value(TargetText(a))
  {
    assert Lower("ACCEPT") == "accept" && Lower("DROP") == "drop" && Lower("REJECT") == "reject";
  }

  lemma WordsParseBack(spec: Simplified, s: Service)
    requires GoodSpec(spec) && GoodService(s)
    ensures ParseWords(Flat(LinePairs(spec, s))) == Some(Variant(spec, s))
  {
    hide Strip, DestPort, ProtocolOf, AddressPairs, LinePairs, Lookup, LookupMultiport, FirstAfter, FirstDport,
      FirstMultiport, Flat, StoredPort, NoSpace, GoodPairs;
    var ps := LinePairs(spec, s);
    PairsAreGood(spec, s);
    FirstAfterFlat(ps, "-s", false);
    FirstAfterFlat(ps, "-d", false);
    FirstAfterFlat(ps, "-p", true);
    FirstAfterFlat(ps, "--dports", true);
    FirstAfterFlat(ps, "-j", true);
    FirstDportFlat(ps);
    FirstMultiportFlat(ps, "-m");
    FirstMultiportFlat(ps, "--match");
    LookupAll(spec, s, "-s");
    LookupAll(spec, s, "-d");
    LookupAll(spec, s, "-p");
    LookupAll(spec, s, "--dports");
    LookupAll(spec, s, "--dport");
    LookupAll(spec, s, "-j");
    MultiportOf(spec, s);
    TargetsParse(spec.action);
  }

  // ---------------------------------------------------------- from the text

  lemma {:induction false} JoinEdges(ws: seq<string>)
    requires ws != [] && ws[0] != "" && forall w :: w in ws ==> w != "" && NoSpace(w)
    ensures var t := Join(ws, ' ');
      && t != "" && t[0] == ws[0][0] && (|ws[0]| >= 2 ==> |t| >= 2 && t[1] == ws[0][1])
      && !IsSpace(t[|t| - 1])
  {
    assert ws[0] in ws;
    if |ws| > 1 {
      assert forall w :: w in ws[1..] ==> w in ws;
      assert ws[1] in ws && ws[1..][0] == ws[1];
      JoinEdges(ws[1..]);
    }
  }

  lemma {:induction false} FlatWords(ps: seq<Pair>)
    requires GoodPairs(ps)
    ensures forall w :: w in Flat(ps) ==> w != "" && NoSpace(w)
  {
    hide OptionWord;
    if ps != [] {
      assert OptionWord(ps[0].0) && Value(ps[0].1);
      OptionFacts(ps[0].0);
      FlatWords(ps[1..]);
    }
  }

  lemma StripOfSolid(s: string)
    requires s != "" && !IsSpace(s[0]) && !IsSpace(s[|s| - 1])
    ensures Strip(s) == s
  {
    assert LStrip(s) == s;
    TrimmedIsTrimmed(s);
  }

  lemma FirstPair(spec: Simplified, s: Service)
    requires GoodSpec(spec) && GoodService(s)
    ensures LinePairs(spec, s) != [] && LinePairs(spec, s)[0].0 in {"-s", "-d"}
  {
    hide Strip, DestPort, ProtocolOf, StoredPort, AddressPairs;
    PairsAreGood(spec, s);
  }

  /** Each printed line parses back to the spec with that line's protocol and port. */
  lemma LineParsesBack(spec: Simplified, s: Service)
    requires GoodSpec(spec) && GoodService(s)
    ensures TryParse(LineText(spec, s)) == Some(Variant(spec, s))
  {
    hide Strip, DestPort, ProtocolOf, AddressPairs, LinePairs, ParseWords, StoredPort, NoSpace, GoodPairs, GoodSpec,
      GoodService, Words, Join, Variant;
    var ps := LinePairs(spec, s);
    var ws, line := Flat(ps), LineText(spec, s);
    PairsAreGood(spec, s);
    FirstPair(spec, s);
    FlatWords(ps);
    assert ws[0] == ps[0].0;
    JoinEdges(ws);
    StripOfSolid(line);
    WordsOfJoin(ws);
    WordsParseBack(spec, s);
  }

  lemma VariantPrintsAlike(spec: Simplified, s: Service)
    requires GoodSpec(spec) && GoodService(s)
    ensures GoodSpec(Variant(spec, s)) && Services(Variant(spec, s).protocol, Variant(spec, s).destPort) == [s]
    ensures PeerRests(Variant(spec, s)) == [LineText(spec, s)]
  {
    hide DestPort, Split, Join, NonBlanks, Flat, LinePairs;
    var v := Variant(spec, s);
    VariantProtocol(s);
    if !s.ports.AnyPort? {
      StoredPortFacts(s.ports.text);
    }
    SamePairs(spec, v, s);
  }

  lemma SamePairs(spec: Simplified, v: Simplified, s: Service)
    requires v.source == spec.source && v.dest == spec.dest && v.action == spec.action
    ensures LineText(v, s) == LineText(spec, s)
  {
  }

  lemma VariantProtocol(s: Service)
    requires GoodService(s)
    ensures ProtocolOf("all") == "all" && Value("all")
    ensures s.proto != "" ==> ProtocolOf(s.proto) == s.proto
  {
    hide StoredPort, Strip;
    StripOfWord("all");
    assert Lower("all") == "all";
    if s.proto != "" {
      StripOfWord(s.proto);
    }
  }

  /** The round trip of a spec: every line it prints parses back to the spec with that line's variant,
  and printing that again gives this one line. */
  lemma PrintedLinesRoundTrip(spec: Simplified, i: nat)
    requires GoodSpec(spec) && i < |PeerRests(spec)|
    ensures var s := Services(spec.protocol, spec.destPort)[i];
      TryParse(PeerRests(spec)[i]) == Some(Variant(spec, s)) && PeerRests(Variant(spec, s)) == [PeerRests(spec)[i]]
  {
    hide Services, TryParse, GoodSpec, GoodService, Variant, LineText;
    ServicesAreGood(spec);
    LineParsesBack(spec, Services(spec.protocol, spec.destPort)[i]);
    VariantPrintsAlike(spec, Services(spec.protocol, spec.destPort)[i]);
  }

  // ------------------------------------------------------------------ meaning

  /** Which packets a spec is about; `addr` says which addresses an address text stands for. */
  predicate SpecAdmits(spec: Simplified, addr: (string, nat) -> bool, pkt: Packet) {
    && (spec.source.Some? ==> addr(spec.source.value, pkt.src))
    && (spec.dest.Some? ==> addr(spec.dest.value, pkt.dst))
    && ServiceAdmits(spec.protocol, spec.destPort, pkt)
  }

  /** Together the printed lines, read back, admit exactly the packets of the spec. */
  lemma LinesCoverTheSpec(spec: Simplified, addr: (string, nat) -> bool, pkt: Packet)
    requires GoodSpec(spec)
    ensures SpecAdmits(spec, addr, pkt) <==>
      exists i ::
        0 <= i < |PeerRests(spec)| && TryParse(PeerRests(spec)[i]).Some? &&
        SpecAdmits(TryParse(PeerRests(spec)[i]).value, addr, pkt)
  {
    hide Services, TryParse, GoodService, ServiceAdmits, SomeService, ServiceHit, LineText;
    var ss := Services(spec.protocol, spec.destPort);
    ServicesAreGood(spec);
    ServicesHit(spec.protocol, spec.destPort, pkt);
    forall i | 0 <= i < |ss|
      ensures TryParse(PeerRests(spec)[i]).Some?
      ensures SpecAdmits(TryParse(PeerRests(spec)[i]).value, addr, pkt) <==> VariantAdmits(spec, ss[i], addr, pkt)
    {
      PrintedLinesRoundTrip(spec, i);
      OneVariant(spec, ss[i], addr, pkt);
    }
    SomeVariant(spec, ss, addr, pkt);
  }

  predicate VariantAdmits(spec: Simplified, s: Service, addr: (string, nat) -> bool, pkt: Packet) {
    && (spec.source.Some? ==> addr(spec.source.value, pkt.src))
    && (spec.dest.Some? ==> addr(spec.dest.value, pkt.dst))
    && ServiceHit(s, pkt)
  }

  lemma OneVariant(spec: Simplified, s: Service, addr: (string, nat) -> bool, pkt: Packet)
    requires GoodSpec(spec) && GoodService(s)
    ensures SpecAdmits(Variant(spec, s), addr, pkt) <==> VariantAdmits(spec, s, addr, pkt)
  {
    hide Services, GoodService, ServiceAdmits, ServiceHit, DestPort, ProtocolOf, LineText;
    var v := Variant(spec, s);
    VariantPrintsAlike(spec, s);
    ServicesHit(v.protocol, v.destPort, pkt);
    assert s in [s];
    assert SomeService([s], pkt) <==> ServiceHit(s, pkt);
  }

  lemma SomeVariant(spec: Simplified, ss: seq<Service>, addr: (string, nat) -> bool, pkt: Packet)
    requires SomeService(ss, pkt) <==> ServiceAdmits(spec.protocol, spec.destPort, pkt)
    ensures SpecAdmits(spec, addr, pkt) <==> exists i :: 0 <= i < |ss| && VariantAdmits(spec, ss[i], addr, pkt)
  {
    hide ServiceAdmits, ServiceHit;
  }
}
