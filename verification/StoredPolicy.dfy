/** The policy of the rule table and the peer sites as they are stored: rows in priority order, tags
read as their present members. */
module StoredPolicy {
  import opened Wrappers
  import opened Ipv4
  import opened FirewallModel
  import opened ForwardPlan
  import opened RuleStore
  import opened Tags
  import opened RuleResolution

  /** What one stored row or site has to say about a packet. Sites come after rows of equal priority. */
  datatype Voice = Voice(priority: int, site: bool, admits: bool, action: Action)

  predicate VoiceLe(a: Voice, b: Voice) {
    a.priority < b.priority || (a.priority == b.priority && (!a.site || b.site))
  }

  /** Voice i decides: it admits the packet, and every other admitting voice has a larger key, or the
  same key and a later place. */
  ghost predicate VoiceDecides(vs: seq<Voice>, i: nat) {
    && i < |vs| && vs[i].admits
    && forall j :: 0 <= j < |vs| && vs[j].admits ==> VoiceLe(vs[i], vs[j]) && (VoiceLe(vs[j], vs[i]) ==> i <= j)
  }

  ghost predicate VoicesSay(vs: seq<Voice>, v: Option<Action>) {
    match v
    case None => forall i :: 0 <= i < |vs| ==> !vs[i].admits
    case Some(a) => exists i: nat :: VoiceDecides(vs, i) && vs[i].action == a
  }

  /** A stored row speaks when it is enabled and for the centre; a tag is whoever is behind it now. */
  function RowVoice(row: Rule, dir: Directory, pkt: Packet): Voice {
    Voice(row.priority, false, row.enabled && row.deployment == Center && RowAdmits(row, dir, pkt), row.action)
  }

  /** A stored site speaks when it has an identifier, is enabled, and has a LAN. */
  function SiteVoice(row: PeerRow, pkt: Packet): Voice {
    Voice(row.forward.priority, true, row.id != "" && row.enabled && PeerAdmits(row.forward, pkt), Accept)
  }

  function RowVoices(rows: seq<Rule>, dir: Directory, pkt: Packet): seq<Voice> {
    seq(|rows|, i requires 0 <= i < |rows| => RowVoice(rows[i], dir, pkt))
  }

  function SiteVoices(rows: seq<PeerRow>, pkt: Packet): seq<Voice> {
    seq(|rows|, i requires 0 <= i < |rows| => SiteVoice(rows[i], pkt))
  }

  /** The verdict that the stored rows and sites have for a packet. */
  ghost predicate StoredPolicySays(rows: Table, env: Env, pkt: Packet, v: Option<Action>)
    requires WellKeyed(rows)
  {
    VoicesSay(RowVoices(Listing(rows), env.dir, pkt) + SiteVoices(env.peerRows, pkt), v)
  }

  // ------------------------------------------------------- a running winner

  function Winner(best: Option<Voice>, v: Voice): Option<Voice> {
    if v.admits && (best.None? || !VoiceLe(best.value, v)) then Some(v) else best
  }

  function Winners(best: Option<Voice>, vs: seq<Voice>): Option<Voice> {
    if vs == [] then best else Winner(Winners(best, vs[..|vs| - 1]), vs[|vs| - 1])
  }

  function ActionOf(best: Option<Voice>): Option<Action> {
    if best.None? then None else Some(best.value.action)
  }

  lemma {:induction false} WinnerDecides(vs: seq<Voice>)
    ensures match Winners(None, vs)
      case None => forall i :: 0 <= i < |vs| ==> !vs[i].admits
      case Some(w) => exists i: nat :: VoiceDecides(vs, i) && vs[i] == w
  {
    if vs != [] {
      var n := |vs| - 1;
      var front, last := vs[..n], vs[n];
      WinnerDecides(front);
      assert forall j :: 0 <= j < n ==> vs[j] == front[j];
      var best := Winners(None, front);
      if last.admits && (best.None? || !VoiceLe(best.value, last)) {
        if best.Some? {
          var i: nat :| VoiceDecides(front, i) && front[i] == best.value;
        }
        assert VoiceDecides(vs, n);
      } else if best.Some? {
        var i: nat :| VoiceDecides(front, i) && front[i] == best.value;
        assert VoiceDecides(vs, i);
      }
    }
  }

  lemma OneDecides(vs: seq<Voice>, i: nat, j: nat)
    requires VoiceDecides(vs, i) && VoiceDecides(vs, j)
    ensures i == j
  {
  }

  lemma VoicesSayTheWinner(vs: seq<Voice>, v: Option<Action>)
    ensures VoicesSay(vs, v) <==> v == ActionOf(Winners(None, vs))
  {
    WinnerDecides(vs);
    var w := Winners(None, vs);
    if w.Some? {
      var i: nat :| VoiceDecides(vs, i) && vs[i] == w.value;
      if v.Some? && VoicesSay(vs, v) {
        var j: nat :| VoiceDecides(vs, j) && vs[j].action == v.value;
        OneDecides(vs, i, j);
      }
    }
  }

  lemma {:induction false} WinnersConcat(best: Option<Voice>, a: seq<Voice>, b: seq<Voice>)
    ensures Winners(best, a + b) == Winners(Winners(best, a), b)
  {
    if b == [] {
      assert a + b == a;
    } else {
      assert (a + b)[..|a + b| - 1] == a + b[..|b| - 1];
      WinnersConcat(best, a, b[..|b| - 1]);
    }
  }

  // -------------------------------------------- the entries of a plan speak

  function EntryVoice(e: Entry, pkt: Packet): Voice {
    Voice(Priority(e), e.PeerEntry?, Admits(e, pkt), Verdict(e))
  }

  function EntryVoices(es: seq<Entry>, pkt: Packet): seq<Voice> {
    seq(|es|, i requires 0 <= i < |es| => EntryVoice(es[i], pkt))
  }

  lemma SameDecider(es: seq<Entry>, pkt: Packet, i: nat)
    ensures Decides(es, i, pkt) <==> VoiceDecides(EntryVoices(es, pkt), i)
    ensures Decides(es, i, pkt) ==> i < |es| && Verdict(es[i]) == EntryVoices(es, pkt)[i].action
  {
    hide Admits;
    var vs := EntryVoices(es, pkt);
    assert forall j :: 0 <= j < |es| ==> vs[j] == EntryVoice(es[j], pkt);
  }

  lemma PolicyIsVoices(es: seq<Entry>, pkt: Packet, v: Option<Action>)
    ensures PolicySays(es, pkt, v) <==> VoicesSay(EntryVoices(es, pkt), v)
  {
    hide Admits;
    var vs := EntryVoices(es, pkt);
    assert forall j :: 0 <= j < |es| ==> vs[j].admits == Admits(es[j], pkt);
    if v.Some? {
      if i: nat :| Decides(es, i, pkt) && Verdict(es[i]) == v.value {
        SameDecider(es, pkt, i);
        assert VoiceDecides(vs, i) && vs[i].action == v.value;
      }
      if i: nat :| VoiceDecides(vs, i) && vs[i].action == v.value {
        SameDecider(es, pkt, i);
        assert Decides(es, i, pkt) && Verdict(es[i]) == v.value;
      }
    }
  }

  /** Resolving rows and leaving out silent ones does not change the winner. */
  lemma {:induction false} RowsSpeakAlike(rows: seq<Rule>, dir: Directory, pkt: Packet)
    requires forall i :: 0 <= i < |rows| ==> KnownTag(rows[i], dir)
    ensures Winners(None, EntryVoices(JsonEntries(ResolvedRows(rows, dir)), pkt)) ==
      Winners(None, RowVoices(rows, dir, pkt))
  {
    hide KnownTag, ResolvedRow, RowAdmits, RuleAdmits;
    if rows != [] {
      var n := |rows| - 1;
      RowsSpeakAlike(rows[..n], dir, pkt);
      var front, last := ResolvedRows(rows[..n], dir), ResolvedRow(rows[n], dir);
      JsonConcat(front, last);
      VoicesConcat(JsonEntries(front), JsonEntries(last), pkt);
      WinnersConcat(None, EntryVoices(JsonEntries(front), pkt), EntryVoices(JsonEntries(last), pkt));
      assert RowVoices(rows, dir, pkt)[..n] == RowVoices(rows[..n], dir, pkt);
      LastSpeaks(Winners(None, RowVoices(rows[..n], dir, pkt)), rows[n], dir, pkt);
    }
  }

  lemma {:induction false} JsonConcat(a: seq<Rule>, b: seq<Rule>)
    ensures JsonEntries(a + b) == JsonEntries(a) + JsonEntries(b)
  {
    if b == [] {
      assert a + b == a;
    } else {
      assert (a + b)[..|a + b| - 1] == a + b[..|b| - 1];
      JsonConcat(a, b[..|b| - 1]);
    }
  }

  lemma VoicesConcat(a: seq<Entry>, b: seq<Entry>, pkt: Packet)
    ensures EntryVoices(a + b, pkt) == EntryVoices(a, pkt) + EntryVoices(b, pkt)
  {
    hide EntryVoice;
  }

  lemma LastSpeaks(best: Option<Voice>, row: Rule, dir: Directory, pkt: Packet)
    requires KnownTag(row, dir)
    ensures Winners(best, EntryVoices(JsonEntries(ResolvedRow(row, dir)), pkt)) == Winner(best, RowVoice(row, dir, pkt))
  {
    hide KnownTag, ResolvedRow, RowAdmits, RuleAdmits;
    OneAtMost(row, dir);
    ResolvedRowMeaning(row, dir, pkt);
    var rs := ResolvedRow(row, dir);
    if rs == [] {
      NoVoice(best, pkt);
    } else {
      var r := rs[0];
      assert rs == [r] && r in rs;
      SameHeader(row, dir, r);
      OneVoice(best, r, pkt);
    }
  }

  lemma SameHeader(row: Rule, dir: Directory, r: Rule)
    requires KnownTag(row, dir) && r in ResolvedRow(row, dir)
    ensures r.priority == row.priority && r.action == row.action && r.deployment == row.deployment && r.enabled
    ensures row.enabled
  {
  }

  lemma NoVoice(best: Option<Voice>, pkt: Packet)
    ensures Winners(best, EntryVoices(JsonEntries([]), pkt)) == best
  {
  }

  lemma OneVoice(best: Option<Voice>, r: Rule, pkt: Packet)
    ensures Winners(best, EntryVoices(JsonEntries([r]), pkt)) ==
      if InForce(r) then Winner(best, EntryVoice(JsonEntry(r), pkt)) else best
  {
    hide Admits;
    assert [r][..0] == [] && JsonEntries([r][..0]) == [];
    var es := JsonEntries([r]);
    if InForce(r) {
      assert es == [JsonEntry(r)];
      var vs := EntryVoices(es, pkt);
      assert vs[..0] == [];
    } else {
      assert es == [];
    }
  }

  /** So do peer sites. */
  lemma {:induction false} SitesSpeakAlike(best: Option<Voice>, rows: seq<PeerRow>, pkt: Packet)
    ensures Winners(best, EntryVoices(PeerEntries(CenterPeers(rows)), pkt)) == Winners(best, SiteVoices(rows, pkt))
  {
    hide AllBlank, PeerAdmits, EntryVoice, SiteVoice, CenterPeers, PeerEntries;
    if rows == [] {
      NoSites(best, pkt);
    } else {
      var n := |rows| - 1;
      SitesSpeakAlike(best, rows[..n], pkt);
      assert SiteVoices(rows, pkt)[..n] == SiteVoices(rows[..n], pkt);
      hide EntryVoices, SiteVoices;
      var es, last := PeerEntries(CenterPeers(rows[..n])), SiteEntries(rows[n]);
      SitesConcat(rows);
      VoicesConcat(es, last, pkt);
      WinnersConcat(best, EntryVoices(es, pkt), EntryVoices(last, pkt));
      LastSiteSpeaks(Winners(best, EntryVoices(es, pkt)), rows[n], pkt);
      LastVoice(rows, pkt);
    }
  }

  lemma LastVoice(rows: seq<PeerRow>, pkt: Packet)
    requires rows != []
    ensures |SiteVoices(rows, pkt)| == |rows| && SiteVoices(rows, pkt)[|rows| - 1] == SiteVoice(rows[|rows| - 1], pkt)
  {
  }

  lemma NoSites(best: Option<Voice>, pkt: Packet)
    ensures Winners(best, EntryVoices(PeerEntries(CenterPeers([])), pkt)) == best == Winners(best, SiteVoices([], pkt))
  {
  }

  /** The entry of one site, if it has one. */
  function SiteEntries(row: PeerRow): seq<Entry> {
    if row.id == "" || !row.enabled || AllBlank(row.forward.cidrs) then []
    else [PeerEntry(row.forward.(peerId := row.id))]
  }

  lemma SitesConcat(rows: seq<PeerRow>)
    requires rows != []
    ensures PeerEntries(CenterPeers(rows)) ==
      PeerEntries(CenterPeers(rows[..|rows| - 1])) + SiteEntries(rows[|rows| - 1])
  {
    hide AllBlank;
    var front, row := CenterPeers(rows[..|rows| - 1]), rows[|rows| - 1];
    if SiteEntries(row) == [] {
      assert front + [] == front;
    } else {
      assert (front + [row.forward.(peerId := row.id)])[..|front|] == front;
    }
  }

  lemma LastSiteSpeaks(best: Option<Voice>, row: PeerRow, pkt: Packet)
    ensures Winners(best, EntryVoices(SiteEntries(row), pkt)) == Winner(best, SiteVoice(row, pkt))
  {
    hide AllBlank, PeerAdmits;
    BlankSiteIsSilent(row.forward, pkt);
    var es := SiteEntries(row);
    var vs := EntryVoices(es, pkt);
    if es != [] {
      SameSite(row, es[0].peer, pkt);
      assert vs[..0] == [];
    }
  }

  lemma BlankSiteIsSilent(p: PeerForward, pkt: Packet)
    ensures AllBlank(p.cidrs) ==> !PeerAdmits(p, pkt)
  {
    hide Covers, DestAdmits, ServiceAdmits;
  }

  lemma SameSite(row: PeerRow, p: PeerForward, pkt: Packet)
    requires p == row.forward.(peerId := row.id)
    ensures PeerAdmits(p, pkt) <==> PeerAdmits(row.forward, pkt)
    ensures EntryVoice(PeerEntry(p), pkt) == Voice(p.priority, true, PeerAdmits(p, pkt), Accept)
  {
    hide Covers, DestAdmits, ServiceAdmits, SomeCovers;
  }

  /** The policy of the resolved rules and collected peers is the policy of what is stored. */
  lemma ResolvedPolicyIsStored(rows: Table, env: Env, pkt: Packet, v: Option<Action>)
    requires WellKeyed(rows) && Resolvable(rows, env)
    ensures PolicySays(Entries(EffectiveRules(rows, env), CenterPeers(env.peerRows)), pkt, v) <==>
      StoredPolicySays(rows, env, pkt, v)
  {
    hide KnownTag, EntryVoice, RowVoice, SiteVoice, CenterPeers, ResolvedRows, JsonEntries, PeerEntries, Winners,
      PolicySays, VoicesSay;
    var rules, peers := EffectiveRules(rows, env), CenterPeers(env.peerRows);
    var js, ps := JsonEntries(rules), PeerEntries(peers);
    var stored := RowVoices(Listing(rows), env.dir, pkt);
    PolicyIsVoices(js + ps, pkt, v);
    VoicesSayTheWinner(EntryVoices(js + ps, pkt), v);
    VoicesConcat(js, ps, pkt);
    WinnersConcat(None, EntryVoices(js, pkt), EntryVoices(ps, pkt));
    RowsSpeakAlike(Listing(rows), env.dir, pkt);
    SitesSpeakAlike(Winners(None, stored), env.peerRows, pkt);
    WinnersConcat(None, stored, SiteVoices(env.peerRows, pkt));
    VoicesSayTheWinner(stored + SiteVoices(env.peerRows, pkt), v);
  }

  /** When the kernel is in step with the table, every packet gets the verdict of what is stored. */
  lemma InStepFollowsStoredPolicy(chain: seq<Line>, sets: Sets, rows: Table, env: Env, pkt: Packet)
    requires WellKeyed(rows) && Resolvable(rows, env) && IdentifiersOk(rows, env)
    requires forall k :: k in rows ==> StoredPort(rows[k].destPort)
    requires CompiledTo(rows, env, chain, sets)
    ensures StoredPolicySays(rows, env, pkt, FirstMatch(chain, sets, pkt))
  {
    hide CompiledTo, PolicySays, StoredPort, Entries, StoredPolicySays, FirstMatch, IdentifiersOk, Resolvable;
    InStepFollowsPolicy(chain, sets, rows, env, pkt);
    ResolvedPolicyIsStored(rows, env, pkt, FirstMatch(chain, sets, pkt));
  }
}
