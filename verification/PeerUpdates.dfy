/** Editing peer sites: stored first, then the kernel is refreshed if it has to be. Nothing takes the
stored site back when the refresh is refused. */
module PeerUpdates {
  import opened Wrappers
  import opened Ipv4
  import opened Text
  import opened Ports
  import opened FirewallModel
  import opened ForwardPlan
  import opened Tags
  import opened RuleStore
  import opened RuleResolution
  import opened RuleService
  import opened RuleRuns
  import opened StoredPolicy
  import opened PeerSnapshots
  import opened CcdMerge

  /** Every packet gets the verdict of the rules and sites as stored. */
  ghost predicate FollowsPolicy(sets: Sets, chain: seq<Line>, rows: Table, dir: Directory, peers: seq<StoredPeer>) {
    WellKeyed(rows) &&
    forall pkt: Packet :: StoredPolicySays(rows, Env(dir, Rows(peers)), pkt, FirstMatch(chain, sets, pkt))
  }

  /** The refresh looks at more than the row that was edited only if these differ. */
  predicate NeedsForward(cur: StoredPeer, saved: StoredPeer) {
    ForwardOf(cur) != ForwardOf(saved)
  }

  function NonBlankTexts(xs: seq<AddrText>): seq<AddrText> {
    if xs == [] then []
    else NonBlankTexts(xs[..|xs| - 1]) + (if xs[|xs| - 1].Blank? then [] else [xs[|xs| - 1]])
  }

  function FirstOnly(xs: seq<string>): seq<string> {
    if xs == [] then []
    else FirstOnly(xs[..|xs| - 1]) + (if xs[|xs| - 1] in xs[..|xs| - 1] then [] else [xs[|xs| - 1]])
  }

  /** What the fields of a site become when it is saved; a LAN that is no IPv4 network or a blank user
  name is refused. */
  function Checked(s: StoredPeer): Option<StoredPeer> {
    if !AllIpv4(s.lanCidrs) || Strip(s.boundUsername) == "" then None
    else Some(s.(
      lanCidrs := NonBlankTexts(s.lanCidrs),
      protocol := OrAll(Lower(Strip(s.protocol))),
      destPort := Strip(s.destPort),
      description := Strip(s.description),
      visibleGroups := FirstOnly(NonBlanks(s.visibleGroups)),
      boundUsername := Strip(s.boundUsername)))
  }

  /** What a site, as typed or as stored, lets into the centre: packets from its LAN to the given destinations,
  of the given protocol and port. A blank protocol means any. */
  predicate SiteAdmits(s: StoredPeer, pkt: Packet) {
    && s.enabled && SomeCovers(s.lanCidrs, pkt.src) && DestAdmits(s.destIp, pkt.dst)
    && ServiceAdmits(Sent(s.protocol), Some(s.destPort), pkt)
  }

  /** The stored site does what the form says, whatever was tidied up in its fields. */
  ghost predicate AsForm(stored: StoredPeer, form: StoredPeer) {
    && stored.id == form.id && stored.priority == form.priority && stored.enabled == form.enabled
    && (forall pkt: Packet :: SiteAdmits(stored, pkt) <==> SiteAdmits(form, pkt))
    && (forall ip: nat :: SomeCovers(stored.lanCidrs, ip) <==> SomeCovers(form.lanCidrs, ip))
    && (forall t: Token :: Ipv4Text(t) in stored.lanCidrs <==> Ipv4Text(t) in form.lanCidrs)
    && (forall group :: VisibleTo(stored, group) <==> VisibleTo(form, group))
    && stored.boundUsername == Strip(form.boundUsername) && stored.description == Strip(form.description)
  }

  /** Nothing but IPv4 networks and blanks. */
  predicate NoForeignText(xs: seq<AddrText>) {
    forall x :: x in xs ==> x.Blank? || x.Ipv4Text?
  }

  /** The form is accepted: its LAN is readable, and it names a user. */
  predicate Passes(form: StoredPeer) {
    NoForeignText(form.lanCidrs) && Strip(form.boundUsername) != ""
  }

  lemma PassesIs(form: StoredPeer)
    ensures Checked(form).Some? <==> Passes(form)
    ensures AllIpv4(form.lanCidrs) <==> NoForeignText(form.lanCidrs)
  {
    hide Strip, Lower;
  }

  /** All sites but one, in order. */
  function Except(peers: seq<StoredPeer>, id: string): seq<StoredPeer> {
    if peers == [] then [] else (if peers[0].id == id then [] else [peers[0]]) + Except(peers[1..], id)
  }

  lemma {:induction false} ExceptConcat(a: seq<StoredPeer>, b: seq<StoredPeer>, id: string)
    ensures Except(a + b, id) == Except(a, id) + Except(b, id)
  {
    if a == [] {
      assert a + b == b;
    } else {
      assert (a + b)[1..] == a[1..] + b;
      ExceptConcat(a[1..], b, id);
    }
  }

  lemma {:induction false} ExceptNone(peers: seq<StoredPeer>, id: string)
    requires forall k :: 0 <= k < |peers| ==> peers[k].id != id
    ensures Except(peers, id) == peers
  {
    if peers != [] {
      ExceptNone(peers[1..], id);
    }
  }

  lemma ExceptOne(a: seq<StoredPeer>, s: StoredPeer, b: seq<StoredPeer>)
    ensures Except(a + [s] + b, s.id) == Except(a, s.id) + Except(b, s.id) == Except(a + b, s.id)
  {
    ExceptConcat(a + [s], b, s.id);
    ExceptConcat(a, [s], s.id);
    ExceptConcat(a, b, s.id);
    assert [s][1..] == [];
  }

  /** Replacing or removing a site leaves all others as and where they are. */
  lemma OtherSitesStay(peers: seq<StoredPeer>, k: nat, s: StoredPeer)
    requires k < |peers| && peers[k].id == s.id
    ensures Except(peers[k := s], s.id) == Except(peers, s.id) == Except(peers[..k] + peers[k + 1..], s.id)
  {
    assert peers == peers[..k] + [peers[k]] + peers[k + 1..];
    assert peers[k := s] == peers[..k] + [s] + peers[k + 1..];
    ExceptOne(peers[..k], peers[k], peers[k + 1..]);
    ExceptOne(peers[..k], s, peers[k + 1..]);
  }

  lemma RemovedIsExcept(peers: seq<StoredPeer>, id: string, rows: Table, dir: Directory)
    requires HasSite(peers, id) && IdentifiersOk(rows, Env(dir, Rows(peers)))
    ensures peers[..SiteIndex(peers, id)] + peers[SiteIndex(peers, id) + 1..] == Except(peers, id)
  {
    hide Strip, Lower, Except, OrAll;
    var k := SiteIndex(peers, id);
    forall i, j | 0 <= i < j < |peers| ensures peers[i].id != peers[j].id {
      assert Rows(peers)[i].id != Rows(peers)[j].id;
    }
    hide Rows, IdentifiersOk, SiteIndex;
    OtherSitesStay(peers, k, peers[k]);
    ExceptNone(peers[..k] + peers[k + 1..], id);
  }

  predicate HasSite(peers: seq<StoredPeer>, id: string) {
    exists k :: 0 <= k < |peers| && peers[k].id == id
  }

  function SiteIndex(peers: seq<StoredPeer>, id: string): (k: nat)
    requires HasSite(peers, id)
    ensures k < |peers| && peers[k].id == id
  {
    if peers[0].id == id then 0 else
      assert exists k :: 0 <= k < |peers[1..]| && peers[1..][k].id == id by {
        var k :| 0 <= k < |peers| && peers[k].id == id;
        assert peers[1..][k - 1].id == id;
      }
      1 + SiteIndex(peers[1..], id)
  }

  function SiteNamed(peers: seq<StoredPeer>, id: string): (s: StoredPeer)
    requires HasSite(peers, id)
    ensures s.id == id
  {
    peers[SiteIndex(peers, id)]
  }

  /** Another site is bound to the user. */
  predicate UserTaken(peers: seq<StoredPeer>, id: string, user: string) {
    exists k :: 0 <= k < |peers| && peers[k].id != id && peers[k].boundUsername == user
  }

  /** The site is stored when it exists, its fields pass, its user is free, and the snapshot of the row
  it replaces can be taken. */
  predicate Savable(peers: seq<StoredPeer>, saved: StoredPeer) {
    && HasSite(peers, saved.id) && Passes(saved)
    && (forall k :: 0 <= k < |peers| && peers[k].boundUsername == Strip(saved.boundUsername) ==>
        peers[k].id == saved.id)
    && NoForeignText(SiteNamed(peers, saved.id).lanCidrs)
  }

  /** The form passes, and no site is bound to its user. */
  predicate Creatable(peers: seq<StoredPeer>, form: StoredPeer) {
    Passes(form) && forall k :: 0 <= k < |peers| ==> peers[k].boundUsername != Strip(form.boundUsername)
  }

  /** Afterwards there is a site that does what the form says, and all others are as they were. */
  ghost predicate OneSiteAsForm(before: seq<StoredPeer>, form: StoredPeer, after: seq<StoredPeer>) {
    && HasSite(after, form.id) && AsForm(SiteNamed(after, form.id), form)
    && Except(after, form.id) == Except(before, form.id)
  }

  function Stored(peers: seq<StoredPeer>, saved: StoredPeer): seq<StoredPeer>
    requires HasSite(peers, saved.id) && Checked(saved).Some?
  {
    peers[SiteIndex(peers, saved.id) := Checked(saved).value]
  }

  function Added(peers: seq<StoredPeer>, site: StoredPeer): seq<StoredPeer>
    requires Checked(site).Some?
  {
    if HasSite(peers, site.id) then Stored(peers, site) else peers + [Checked(site).value]
  }

  lemma AddedOthers(peers: seq<StoredPeer>, site: StoredPeer)
    requires Checked(site).Some?
    ensures Except(Added(peers, site), site.id) == Except(peers, site.id)
  {
    hide Checked;
    CheckedIs(site);
    if HasSite(peers, site.id) {
      OtherSitesStay(peers, SiteIndex(peers, site.id), Checked(site).value);
    } else {
      ExceptOne(peers, Checked(site).value, []);
      assert peers + [] == peers && peers + [Checked(site).value] + [] == peers + [Checked(site).value];
    }
  }

  /** Some site is bound to the user. */
  predicate UserBound(peers: seq<StoredPeer>, user: string) {
    exists k :: 0 <= k < |peers| && peers[k].boundUsername == user
  }

  /** The row changes as far as the centre chain is concerned. */
  predicate Needed(peers: seq<StoredPeer>, saved: StoredPeer)
    requires HasSite(peers, saved.id) && Checked(saved).Some?
  {
    NeedsForward(SiteNamed(peers, saved.id), Checked(saved).value)
  }

  datatype KernelState = KernelState(sets: Sets, chain: seq<Line>, refusals: nat)

  /** The save edits CCD files: those of the bound user, or those of everyone who gets the routes. */
  predicate EditsFiles(cur: StoredPeer, saved: StoredPeer) {
    IrouteOf(cur) != IrouteOf(saved) || MeshOf(cur) != MeshOf(saved)
  }

  /** The row that clearing a site's LAN saves. */
  function Cleared(peers: seq<StoredPeer>, id: string): (s: StoredPeer)
    requires HasSite(peers, id)
    ensures s.id == id && s.lanCidrs == []
  {
    SiteNamed(peers, id).(lanCidrs := [])
  }

  class PeerStore {
    var peers: seq<StoredPeer>  // in order of creation
    const rules: FirewallRuleService

    constructor (rules: FirewallRuleService)
      ensures this.rules == rules && peers == []
    {
      this.rules, peers := rules, [];
    }

    ghost predicate Valid(dir: Directory)
      reads this, rules, rules.iptables, rules.iptables.ipsets, rules.iptables.kernel
    {
      rules.Valid() && IdentifiersOk(rules.rows, Env(dir, Rows(peers)))
    }

    ghost predicate Follows(dir: Directory)
      reads this, rules, rules.iptables, rules.iptables.kernel
    {
      FollowsPolicy(rules.iptables.kernel.sets, rules.iptables.kernel.chain, rules.rows, dir, peers)
    }

    ghost function KernelNow(): KernelState
      reads rules, rules.iptables, rules.iptables.kernel
    {
      KernelState(rules.iptables.kernel.sets, rules.iptables.kernel.chain, rules.iptables.kernel.refusals)
    }

    /** How an edit that comes with a refresh leaves the kernel, which was `before`: following what is stored,
    with the sets that a refresh promises; or, unless undoing was refused too, as it was. */
    ghost predicate Refreshed(before: KernelState, mark: nat, out: Outcome, dir: Directory)
      reads this, rules, rules.iptables, rules.iptables.kernel
    {
      && before.refusals <= KernelNow().refusals
      && OthersKept(before.sets, KernelNow().sets)
      && (out.Rejected? ==> KernelNow() == before)
      && (out.Done? ==> Follows(dir) && rules.CarriedOut(before.sets, before.refusals, Env(dir, Rows(peers))))
      && (out.RefreshFailed? ==> UndoBegins(before.refusals, mark, KernelNow().refusals))
      && (out.RefreshFailed? && KernelNow().refusals == mark ==> rules.KernelAsBefore(before.sets, before.chain))
    }

    method IndexOf(id: string) returns (k: Option<nat>)
      ensures k == if HasSite(peers, id) then Some(SiteIndex(peers, id)) else None
    {
      for i := 0 to |peers|
        invariant forall j :: 0 <= j < i ==> peers[j].id != id
      {
        if peers[i].id == id {
          FirstIsIndex(peers, id, i);
          return Some(i);
        }
      }
      return None;
    }

    /** `update`: a refused refresh leaves the site stored, so the same save repeated finds nothing to
    do: whether the kernel follows the policy is then what it was. */
    method Save(saved: StoredPeer, refreshCenter: bool, dir: Directory) returns (out: Outcome, ghost mark: nat)
      requires Valid(dir)
      modifies this`peers, rules.iptables.ipsets, rules.iptables.kernel
      ensures Valid(dir)
      ensures out.Rejected? <==> !Savable(old(peers), saved)
      ensures peers == if out.Rejected? then old(peers) else Stored(old(peers), saved)
      ensures !out.Rejected? ==> OneSiteAsForm(old(peers), saved, peers)
      ensures !out.Rejected? && !(refreshCenter && Needed(old(peers), saved)) ==>
        out.Done? && KernelNow() == old(KernelNow())
      ensures out.Rejected? || (refreshCenter && Needed(old(peers), saved)) ==>
        Refreshed(old(KernelNow()), mark, out, dir)
      ensures FailsOnlyIfRefused(out, old(KernelNow()).refusals, mark, rules.rows, Env(dir, Rows(peers)))
      ensures out.Rejected? || !Needed(old(peers), saved) ==> (Follows(dir) <==> old(Follows(dir)))
    {
      hide FollowsPolicy, AsForm, InStep, Feasible, StoredPort, ForwardOf, Row, AllIpv4, Checked, SiteIndex,
        HasSite, OwnerExists;
      mark := rules.iptables.kernel.refusals;
      PassesIs(saved);
      var k := IndexOf(saved.id);
      if k.None? || Checked(saved).None? || UserTaken(peers, saved.id, Strip(saved.boundUsername)) {
        return Rejected, mark;
      }
      var cur, checked := peers[k.value], Checked(saved).value;
      PassesIs(cur);
      if !AllIpv4(cur.lanCidrs) {
        return Rejected, mark;
      }
      ghost var before := peers;
      StoredAsForm(before, saved);
      CheckedIs(saved);
      OtherSitesStay(before, k.value, checked);
      SameIdentifiers(before, before[k.value := checked], rules.rows, dir);
      peers := peers[k.value := checked];
      if !NeedsForward(cur, checked) {
        SkipKeepsPolicy(rules.iptables.kernel.sets, rules.iptables.kernel.chain, rules.rows, dir, before, k.value,
          checked);
        return Done, mark;
      }
      if refreshCenter {
        out, mark := Refresh(dir);
      } else {
        out := Done;
      }
    }

    /** The refresh behind every edit of a site. */
    method Refresh(dir: Directory) returns (out: Outcome, ghost mark: nat)
      requires Valid(dir)
      modifies rules.iptables.ipsets, rules.iptables.kernel
      ensures Valid(dir) && !out.Rejected?
      ensures Refreshed(old(KernelNow()), mark, out, dir)
      ensures FailsOnlyIfRefused(out, old(KernelNow()).refusals, mark, rules.rows, Env(dir, Rows(peers)))
    {
      hide FollowsPolicy, InStep, Feasible, OwnerExists, ManagedExactly, OrphansAtMost, OthersKept, IdentifiersOk,
        Rows;
      var raised;
      raised, mark := rules.RefreshKernel(Env(dir, Rows(peers)));
      if raised {
        return RefreshFailed, mark;
      }
      InStepIs(rules.iptables.kernel, rules.rows, Env(dir, Rows(peers)));
      InStepSaysPolicy(rules.iptables.kernel.sets, rules.iptables.kernel.chain, rules.rows, dir, peers);
      return Done, mark;
    }

    /** `create`: a site is stored, then the kernel refreshed; a refused refresh leaves it stored. */
    method Create(site: StoredPeer, dir: Directory) returns (out: Outcome, ghost mark: nat)
      requires Valid(dir)
      modifies this`peers, rules.iptables.ipsets, rules.iptables.kernel
      ensures Valid(dir)
      ensures !out.Rejected? <==> Creatable(old(peers), site)
      ensures peers == if out.Rejected? then old(peers) else Added(old(peers), site)
      ensures !out.Rejected? ==> OneSiteAsForm(old(peers), site, peers)
      ensures Refreshed(old(KernelNow()), mark, out, dir)
      ensures FailsOnlyIfRefused(out, old(KernelNow()).refusals, mark, rules.rows, Env(dir, Rows(peers)))
    {
      hide FollowsPolicy, AsForm, Feasible, StoredPort, Row, Checked, SiteIndex, HasSite, TableOk, OwnerExists,
        IdentifiersOk;
      mark := rules.iptables.kernel.refusals;
      PassesIs(site);
      if Checked(site).None? || UserBound(peers, Strip(site.boundUsername)) {
        return Rejected, mark;
      }
      AddedIdentifiers(peers, site, rules.rows, dir);
      var k := IndexOf(site.id);
      AddedAsForm(peers, site);
      var checked := Checked(site).value;
      AddedOthers(peers, site);
      peers := if k.Some? then peers[k.value := checked] else peers + [checked];
      out, mark := Refresh(dir);
    }

    /** `delete`: the site's block comes out of its user's file first, which may raise. */
    method Delete(id: string, filesOk: bool, dir: Directory) returns (out: Outcome, ghost mark: nat)
      requires Valid(dir)
      modifies this`peers, rules.iptables.ipsets, rules.iptables.kernel
      ensures Valid(dir)
      ensures out.Rejected? <==> !HasSite(old(peers), id) || !filesOk
      ensures peers == if out.Rejected? then old(peers) else Except(old(peers), id)
      ensures Refreshed(old(KernelNow()), mark, out, dir)
      ensures FailsOnlyIfRefused(out, old(KernelNow()).refusals, mark, rules.rows, Env(dir, Rows(peers)))
    {
      hide FollowsPolicy, Feasible, StoredPort, Row, SiteIndex, HasSite, TableOk, OwnerExists, IdentifiersOk,
        OthersKept;
      mark := rules.iptables.kernel.refusals;
      KeptItself(rules.iptables.kernel.sets);
      var k := IndexOf(id);
      if k.None? || !filesOk {
        return Rejected, mark;
      }
      RemovedIdentifiers(peers, k.value, rules.rows, dir);
      RemovedIsExcept(peers, id, rules.rows, dir);
      peers := peers[..k.value] + peers[k.value + 1..];
      out, mark := Refresh(dir);
    }

    /** Switching a site's rule on or off in the centre. */
    method Toggle(id: string, on: bool, dir: Directory) returns (out: Outcome, ghost mark: nat)
      requires Valid(dir)
      modifies this`peers, rules.iptables.ipsets, rules.iptables.kernel
      ensures Valid(dir)
      ensures out.Rejected? <==> !(HasSite(old(peers), id) && Passes(SiteNamed(old(peers), id)))
      ensures peers ==
        if out.Rejected? then old(peers) else Stored(old(peers), SiteNamed(old(peers), id).(enabled := on))
      ensures !out.Rejected? ==> OneSiteAsForm(old(peers), SiteNamed(old(peers), id).(enabled := on), peers)
      ensures Refreshed(old(KernelNow()), mark, out, dir)
      ensures FailsOnlyIfRefused(out, old(KernelNow()).refusals, mark, rules.rows, Env(dir, Rows(peers)))
    {
      hide FollowsPolicy, AsForm, Feasible, StoredPort, Row, Checked, SiteIndex, HasSite, TableOk, OwnerExists;
      mark := rules.iptables.kernel.refusals;
      var k := IndexOf(id);
      if k.None? {
        return Rejected, mark;
      }
      PassesIs(peers[k.value].(enabled := on));
      var checked := Checked(peers[k.value].(enabled := on));
      if checked.None? {
        return Rejected, mark;
      }
      StoredAsForm(peers, peers[k.value].(enabled := on));
      CheckedIs(peers[k.value].(enabled := on));
      OtherSitesStay(peers, k.value, checked.value);
      SameIdentifiers(peers, peers[k.value := checked.value], rules.rows, dir);
      peers := peers[k.value := checked.value];
      out, mark := Refresh(dir);
    }

    /** Deleting a site's rule in the centre: its LAN is cleared, the CCD files follow, then the kernel is
    refreshed. The LAN stays cleared when the files cannot be edited, and then there is no refresh at all, and
    when the refresh is refused. */
    method ClearLan(id: string, filesOk: bool, dir: Directory) returns (out: Outcome, ghost mark: nat)
      requires Valid(dir)
      modifies this`peers, rules.iptables.ipsets, rules.iptables.kernel
      ensures Valid(dir)
      ensures out.Rejected? <==> !(HasSite(old(peers), id) && Savable(old(peers), Cleared(old(peers), id)))
      ensures peers == if out.Rejected? then old(peers) else Stored(old(peers), Cleared(old(peers), id))
      ensures !out.Rejected? ==> OneSiteAsForm(old(peers), Cleared(old(peers), id), peers)
      ensures Refreshed(old(KernelNow()), mark, out, dir)
      ensures filesOk ==> FailsOnlyIfRefused(out, old(KernelNow()).refusals, mark, rules.rows, Env(dir, Rows(peers)))
      ensures !out.Rejected? && !filesOk ==>
        EditsFiles(SiteNamed(old(peers), id), Checked(Cleared(old(peers), id)).value) ==>
          out.RefreshFailed? && KernelNow() == old(KernelNow())
    {
      hide FollowsPolicy, AsForm, StoredPort, Row, Checked, SiteIndex, HasSite, TableOk, OwnerExists, Stored, Rows,
        IdentifiersOk, OthersKept, EditsFiles, CarriedOutBy, ManagedExactly, OrphansAtMost, Needed, UserTaken,
        AllIpv4, WellKeyed, NeedsForward, InStep, UndoBegins;
      mark := rules.iptables.kernel.refusals;
      KeptItself(rules.iptables.kernel.sets);
      var k := IndexOf(id);
      if k.None? {
        return Rejected, mark;
      }
      var cleared := peers[k.value].(lanCidrs := []);
      PassesIs(cleared);
      var edits := Checked(cleared).Some? && EditsFiles(peers[k.value], Checked(cleared).value);
      out, mark := Save(cleared, false, dir);
      if !out.Rejected? {
        out, mark := RefreshAfterFiles(filesOk || !edits, dir);
      }
    }

    /** Files come before the refresh; when they cannot be edited there is no refresh. */
    method RefreshAfterFiles(filesOk: bool, dir: Directory) returns (out: Outcome, ghost mark: nat)
      requires Valid(dir)
      modifies rules.iptables.ipsets, rules.iptables.kernel
      ensures Valid(dir) && !out.Rejected?
      ensures Refreshed(old(KernelNow()), mark, out, dir)
      ensures filesOk ==> FailsOnlyIfRefused(out, old(KernelNow()).refusals, mark, rules.rows, Env(dir, Rows(peers)))
      ensures !filesOk ==> out.RefreshFailed? && KernelNow() == old(KernelNow())
    {
      hide FollowsPolicy, FailsOnlyIfRefused, OthersKept, IdentifiersOk, TableOk, OwnerExists, Rows;
      if !filesOk {
        KeptItself(rules.iptables.kernel.sets);
        return RefreshFailed, rules.iptables.kernel.refusals;
      }
      out, mark := Refresh(dir);
    }

    /** The same form sent twice; `between` is the kernel after the first save. When the first refresh is
    refused, the second save raises nothing and does nothing: the kernel is the one that the first save left,
    for the sites of after. */
    method SaveAgain(saved: StoredPeer, dir: Directory)
      returns (first: Outcome, second: Outcome, ghost mark: nat, ghost between: KernelState)
      requires Valid(dir)
      modifies this`peers, rules.iptables.ipsets, rules.iptables.kernel
      ensures Valid(dir)
      ensures first.Rejected? <==> !Savable(old(peers), saved)
      ensures second == if first.Rejected? then Rejected else Done
      ensures peers == if first.Rejected? then old(peers) else Stored(old(peers), saved)
      ensures between == KernelNow()
      ensures old(KernelNow()).refusals <= between.refusals
      ensures first.RefreshFailed? ==> UndoBegins(old(KernelNow()).refusals, mark, between.refusals)
      ensures FailsOnlyIfRefused(first, old(KernelNow()).refusals, mark, rules.rows, Env(dir, Rows(peers)))
      ensures first.Rejected? ==> between == old(KernelNow())
      ensures first.RefreshFailed? && between.refusals == mark ==>
        between.sets == old(KernelNow()).sets && between.chain == old(KernelNow()).chain
      ensures first.Done? && Needed(old(peers), saved) ==> Follows(dir)
      ensures first.Rejected? || !Needed(old(peers), saved) ==> (Follows(dir) <==> old(Follows(dir)))
    {
      hide FollowsPolicy, AsForm, IdentifiersOk, Rows, TableOk, OwnerExists, Savable, Stored, Needed;
      if Savable(peers, saved) {
        SavedAgain(peers, saved);
      }
      first, mark := Save(saved, true, dir);
      between := KernelNow();
      ghost var again;
      second, again := Save(saved, true, dir);
    }
  }

  lemma {:induction false} FirstIsIndex(peers: seq<StoredPeer>, id: string, i: nat)
    requires i < |peers| && peers[i].id == id && forall j :: 0 <= j < i ==> peers[j].id != id
    ensures HasSite(peers, id) && SiteIndex(peers, id) == i
  {
    if i > 0 {
      FirstIsIndex(peers[1..], id, i - 1);
    }
  }

  lemma {:induction false} NonBlankTextsAre(xs: seq<AddrText>, t: Token)
    ensures Ipv4Text(t) in NonBlankTexts(xs) <==> Ipv4Text(t) in xs
  {
    if xs != [] {
      var n := |xs| - 1;
      NonBlankTextsAre(xs[..n], t);
      assert xs == xs[..n] + [xs[n]];
    }
  }

  lemma {:induction false} FirstOnlyHas(xs: seq<string>, x: string)
    ensures x in FirstOnly(xs) <==> x in xs
    ensures FirstOnly(xs) == [] <==> xs == []
  {
    if xs != [] {
      var n := |xs| - 1;
      FirstOnlyHas(xs[..n], x);
      assert xs == xs[..n] + [xs[n]];
      if n > 0 { assert xs[0] in xs[..n]; }
    }
  }

  lemma CoveredByTokens(xs: seq<AddrText>, ip: nat)
    ensures SomeCovers(xs, ip) <==> exists t: Token :: Ipv4Text(t) in xs && Covers(t, ip)
  {
    hide Covers;
    if i :| 0 <= i < |xs| && xs[i].Ipv4Text? && Covers(xs[i].token, ip) {
      assert xs[i] in xs && xs[i] == Ipv4Text(xs[i].token);
    }
  }

  lemma {:induction false} StrippedAlready(xs: seq<string>)
    ensures forall x :: x in NonBlanks(xs) ==> x != "" && Strip(x) == x
  {
    hide Strip;
    if xs != [] {
      StrippedAlready(xs[..|xs| - 1]);
      StripShape(xs[|xs| - 1]);
    }
  }

  lemma KeptVisible(xs: seq<string>, group: string)
    ensures var ys := FirstOnly(NonBlanks(xs));
      (AllUnnamed(ys) <==> AllUnnamed(xs)) && (group != "" ==> (Named(ys, group) <==> Named(xs, group)))
  {
    hide Strip;
    var ns := NonBlanks(xs);
    var ys := FirstOnly(ns);
    StrippedAlready(xs);
    NonBlanksAre(xs, group);
    FirstOnlyHas(ns, group);
    forall y | y in ys ensures y in ns { FirstOnlyHas(ns, y); }
    if ys != [] {
      assert ys[0] in ys && Strip(ys[0]) != "";
    }
    if group != "" {
      if Named(ys, group) {
        var k :| 0 <= k < |ys| && Strip(ys[k]) == group;
        assert ys[k] in ys;
      }
      if group in ys {
        var k :| 0 <= k < |ys| && ys[k] == group;
        assert Strip(ys[k]) == group;
      }
    }
  }

  lemma SameService(a: string, b: string, d: string, e: string, pkt: Packet)
    requires (AnyProtocol(a) <==> AnyProtocol(b)) && Lower(Strip(a)) == Lower(Strip(b)) && Strip(d) == Strip(e)
    ensures ServiceAdmits(a, Some(d), pkt) <==> ServiceAdmits(b, Some(e), pkt)
  {
    hide OperatorReads, Split, Strip, AnyProtocol;
    assert |Lower(Strip(a))| == |Strip(a)| && |Lower(Strip(b))| == |Strip(b)|;
    hide Lower;
  }

  /** A protocol text as it is read: blank means any. */
  function Sent(protocol: string): string {
    if Strip(protocol) == "" then "all" else protocol
  }

  lemma SentIs(protocol: string)
    ensures var p := OrAll(Lower(Strip(protocol)));
      (AnyProtocol(Sent(p)) <==> AnyProtocol(Sent(protocol))) &&
      Lower(Strip(Sent(p))) == Lower(Strip(Sent(protocol)))
    ensures var p := Lower(Strip(OrAll(protocol)));
      (AnyProtocol(p) <==> AnyProtocol(Sent(protocol))) && (AnyProtocol(p) || Lower(Strip(p)) == Lower(Strip(protocol)))
  {
    StripShape(protocol);
    LowerOfStripped(protocol);
    AllIsAll();
    hide Strip, Lower;
  }

  lemma AllIsAll()
    ensures Lower(Strip("all")) == "all" && Lower("all") == "all" && Strip("all") == "all" && Strip("") == ""
  {
    StripOfWord("all");
    StripOfWord("");
    assert Lower("all") == "all";
  }

  lemma SameServiceStored(protocol: string, destPort: string, pkt: Packet)
    ensures ServiceAdmits(Sent(OrAll(Lower(Strip(protocol)))), Some(Strip(destPort)), pkt) <==>
      ServiceAdmits(Sent(protocol), Some(destPort), pkt)
  {
    hide ServiceAdmits, AnyProtocol, Sent, Lower, OrAll, Strip;
    StripShape(destPort);
    SentIs(protocol);
    SameService(Sent(OrAll(Lower(Strip(protocol)))), Sent(protocol), Strip(destPort), destPort, pkt);
  }

  lemma LowerOfStripped(text: string)
    ensures Strip(Lower(Strip(text))) == Lower(Strip(text)) && Lower(Lower(Strip(text))) == Lower(Strip(text))
    ensures Lower(Strip(text)) == "" <==> Strip(text) == ""
  {
    StripShape(text);
    var w := Strip(text);
    hide Strip;
    assert forall c :: IsSpace(ToLower(c)) <==> IsSpace(c);
    assert Lower(Lower(w)) == Lower(w);
    if w != "" {
      Trimmed(Lower(w));
    } else {
      Trimmed("");
    }
  }

  lemma Trimmed(s: string)
    ensures s == "" || (!IsSpace(s[0]) && !IsSpace(s[|s| - 1])) ==> Strip(s) == s
  {
  }

  /** Whenever a form passes, the site made of it does what the form says. */
  lemma CheckedAsForm(form: StoredPeer)
    requires Checked(form).Some?
    ensures AsForm(Checked(form).value, form)
  {
    hide Strip, Lower, SomeCovers, DestAdmits, ServiceAdmits, NonBlankTexts, FirstOnly, NonBlanks, Named,
      AllUnnamed;
    var s := Checked(form).value;
    forall t: Token ensures Ipv4Text(t) in s.lanCidrs <==> Ipv4Text(t) in form.lanCidrs {
      NonBlankTextsAre(form.lanCidrs, t);
    }
    forall ip: nat ensures SomeCovers(s.lanCidrs, ip) <==> SomeCovers(form.lanCidrs, ip) {
      CoveredByTokens(s.lanCidrs, ip);
      CoveredByTokens(form.lanCidrs, ip);
    }
    forall pkt: Packet ensures SiteAdmits(s, pkt) <==> SiteAdmits(form, pkt) {
      SameServiceStored(form.protocol, form.destPort, pkt);
    }
    forall group ensures VisibleTo(s, group) <==> VisibleTo(form, group) {
      KeptVisible(form.visibleGroups, group);
    }
  }

  lemma StoredAsForm(peers: seq<StoredPeer>, form: StoredPeer)
    requires HasSite(peers, form.id) && Checked(form).Some?
    ensures HasSite(Stored(peers, form), form.id) && AsForm(SiteNamed(Stored(peers, form), form.id), form)
  {
    hide Checked, AsForm;
    CheckedAsForm(form);
    CheckedIs(form);
    IndexAfterStoring(peers, SiteIndex(peers, form.id), Checked(form).value);
  }

  lemma AddedAsForm(peers: seq<StoredPeer>, form: StoredPeer)
    requires Checked(form).Some?
    ensures HasSite(Added(peers, form), form.id) && AsForm(SiteNamed(Added(peers, form), form.id), form)
  {
    hide Checked, AsForm, SiteIndex;
    if HasSite(peers, form.id) {
      StoredAsForm(peers, form);
    } else {
      CheckedAsForm(form);
      CheckedIs(form);
      var after := peers + [Checked(form).value];
      assert after[|peers|].id == form.id;
      FirstIsIndex(after, form.id, |peers|);
    }
  }

  /** What a stored site has to say is what it lets in. */
  lemma VoiceIsSite(s: StoredPeer, pkt: Packet)
    ensures SiteVoice(Row(s), pkt).admits <==> s.id != "" && SiteAdmits(s, pkt)
    ensures SiteVoice(Row(s), pkt).priority == s.priority
  {
    hide ServiceAdmits, SomeCovers, DestAdmits, AnyProtocol, Strip, Lower, Sent;
    StripShape(s.destPort);
    RowService(s, pkt);
  }

  lemma RowService(s: StoredPeer, pkt: Packet)
    ensures ServiceAdmits(Row(s).forward.protocol, Some(Row(s).forward.destPort), pkt) <==>
      ServiceAdmits(Sent(s.protocol), Some(s.destPort), pkt)
  {
    hide OperatorReads, Split, AnyProtocol, PortIsFree;
    StripShape(s.destPort);
    StripShape(s.protocol);
    AllIsAll();
    LowerOfStripped(s.protocol);
    SentIs(s.protocol);
    PortStripped(s.destPort);
    AnyAll();
    hide Strip, Lower;
  }

  lemma AnyAll()
    ensures AnyProtocol("") && AnyProtocol("all")
  {
    AllIsAll();
  }

  lemma PortStripped(text: string)
    ensures PortIsFree(Some(Strip(text))) <==> PortIsFree(Some(text))
  {
    StripShape(text);
    hide Strip, Split;
  }

  lemma CheckedIs(s: StoredPeer)
    ensures Checked(s).Some? ==> Checked(s).value.id == s.id
  {
  }

  lemma SameIdentifiers(before: seq<StoredPeer>, after: seq<StoredPeer>, rows: Table, dir: Directory)
    requires |before| == |after| && forall i :: 0 <= i < |before| ==> before[i].id == after[i].id
    requires IdentifiersOk(rows, Env(dir, Rows(before)))
    ensures IdentifiersOk(rows, Env(dir, Rows(after)))
  {
    hide Strip, Lower;
    var b, a := Rows(before), Rows(after);
    assert forall i :: 0 <= i < |b| ==> b[i].id == a[i].id;
  }

  lemma AddedIdentifiers(peers: seq<StoredPeer>, site: StoredPeer, rows: Table, dir: Directory)
    requires IdentifiersOk(rows, Env(dir, Rows(peers))) && Checked(site).Some?
    ensures IdentifiersOk(rows, Env(dir, Rows(Added(peers, site))))
  {
    hide Strip, Lower, Checked, SiteIndex;
    CheckedIs(site);
    var b, a := Rows(peers), Rows(Added(peers, site));
    assert forall i :: 0 <= i < |b| ==> b[i].id == peers[i].id;
    assert forall i :: 0 <= i < |a| ==> a[i].id == Added(peers, site)[i].id;
    if !HasSite(peers, site.id) {
      assert forall i :: 0 <= i < |peers| ==> peers[i].id != site.id;
    }
  }

  lemma RemovedIdentifiers(peers: seq<StoredPeer>, k: nat, rows: Table, dir: Directory)
    requires IdentifiersOk(rows, Env(dir, Rows(peers))) && k < |peers|
    ensures IdentifiersOk(rows, Env(dir, Rows(peers[..k] + peers[k + 1..])))
  {
    hide Strip, Lower;
    var after := peers[..k] + peers[k + 1..];
    var b, a := Rows(peers), Rows(after);
    assert forall i :: 0 <= i < |a| ==> a[i].id == b[if i < k then i else i + 1].id;
  }

  lemma InStepSaysPolicy(sets: Sets, chain: seq<Line>, rows: Table, dir: Directory, peers: seq<StoredPeer>)
    requires TableOk(rows) && IdentifiersOk(rows, Env(dir, Rows(peers)))
    requires CarriedOutBy(sets, chain, rows, Env(dir, Rows(peers)))
    ensures FollowsPolicy(sets, chain, rows, dir, peers)
  {
    hide Resolvable, StoredPort, CompiledTo, StoredPolicySays, IdentifiersOk, Rows, FirstMatch;
    var env := Env(dir, Rows(peers));
    forall pkt: Packet ensures StoredPolicySays(rows, env, pkt, FirstMatch(chain, sets, pkt)) {
      InStepFollowsStoredPolicy(chain, sets, rows, env, pkt);
    }
  }

  lemma SameSiteVoice(s: StoredPeer, t: StoredPeer, pkt: Packet)
    requires s == t || SameForwardSnapshot(s, t)
    ensures SiteVoice(Row(s), pkt) == SiteVoice(Row(t), pkt)
  {
    hide PeerAdmits, NormalizeEntries, Strip, Lower;
    if s != t {
      SameForward(s, t, pkt);
    }
  }

  /** Whatever is stored, saves that leave the snapshot as it was leave the policy as it was. */
  lemma SkippedSavesKeepStoredPolicy(rows: Table, dir: Directory, before: seq<StoredPeer>, after: seq<StoredPeer>,
      pkt: Packet, v: Option<Action>)
    requires WellKeyed(rows) && SavedAlike(before, after)
    ensures StoredPolicySays(rows, Env(dir, Rows(before)), pkt, v) <==>
      StoredPolicySays(rows, Env(dir, Rows(after)), pkt, v)
  {
    hide VoicesSay, RowVoices, SiteVoice, Row, SameForwardSnapshot;
    var b, a := SiteVoices(Rows(before), pkt), SiteVoices(Rows(after), pkt);
    forall i | 0 <= i < |before| ensures b[i] == a[i] {
      SameSiteVoice(before[i], after[i], pkt);
    }
    assert a == b;
  }

  /** So a skipped refresh would have changed no verdict: a chain that follows what was stored before such
  saves, and any that follows what is stored after them, decide every packet alike. */
  lemma SkippedRefreshKeepsVerdicts(rows: Table, dir: Directory, before: seq<StoredPeer>, after: seq<StoredPeer>,
      kept: KernelState, renewed: KernelState, pkt: Packet)
    requires SavedAlike(before, after)
    requires FollowsPolicy(kept.sets, kept.chain, rows, dir, before)
    requires FollowsPolicy(renewed.sets, renewed.chain, rows, dir, after)
    ensures FirstMatch(kept.chain, kept.sets, pkt) == FirstMatch(renewed.chain, renewed.sets, pkt)
  {
    hide VoicesSay, RowVoices, SiteVoices, Rows, SavedAlike, FirstMatch;
    var v, w := FirstMatch(kept.chain, kept.sets, pkt), FirstMatch(renewed.chain, renewed.sets, pkt);
    assert StoredPolicySays(rows, Env(dir, Rows(before)), pkt, v);
    assert StoredPolicySays(rows, Env(dir, Rows(after)), pkt, w);
    SkippedSavesKeepStoredPolicy(rows, dir, before, after, pkt, v);
    var voices := RowVoices(Listing(rows), dir, pkt) + SiteVoices(Rows(after), pkt);
    VoicesSayTheWinner(voices, v);
    VoicesSayTheWinner(voices, w);
  }

  lemma SkipKeepsPolicy(sets: Sets, chain: seq<Line>, rows: Table, dir: Directory, before: seq<StoredPeer>,
      k: nat, saved: StoredPeer)
    requires k < |before| && WellKeyed(rows)
    requires saved.id == before[k].id && AllIpv4(before[k].lanCidrs) && ForwardOf(before[k]) == ForwardOf(saved)
    ensures FollowsPolicy(sets, chain, rows, dir, before) <==> FollowsPolicy(sets, chain, rows, dir, before[k := saved])
  {
    hide StoredPolicySays, Rows, FirstMatch, ForwardOf, AllIpv4;
    var after := before[k := saved];
    assert SavedAlike(before, after);
    forall pkt: Packet
      ensures StoredPolicySays(rows, Env(dir, Rows(before)), pkt, FirstMatch(chain, sets, pkt)) <==>
        StoredPolicySays(rows, Env(dir, Rows(after)), pkt, FirstMatch(chain, sets, pkt))
    {
      SkippedSavesKeepStoredPolicy(rows, dir, before, after, pkt, FirstMatch(chain, sets, pkt));
    }
  }

  lemma {:induction false} IndexAfterStoring(peers: seq<StoredPeer>, k: nat, s: StoredPeer)
    requires HasSite(peers, s.id) && k == SiteIndex(peers, s.id)
    ensures HasSite(peers[k := s], s.id) && SiteIndex(peers[k := s], s.id) == k
  {
    assert peers[k := s][k].id == s.id;
    if peers[0].id != s.id {
      assert peers[k := s][1..] == peers[1..][k - 1 := s];
      assert HasSite(peers[1..], s.id) by { assert peers[1..][k - 1].id == s.id; }
      IndexAfterStoring(peers[1..], k - 1, s);
    }
  }

  lemma {:induction false} NonBlankStaysIpv4(xs: seq<AddrText>)
    requires AllIpv4(xs)
    ensures AllIpv4(NonBlankTexts(xs))
  {
    if xs != [] {
      NonBlankStaysIpv4(xs[..|xs| - 1]);
    }
  }

  /** A stored form can be stored again, to no effect. */
  lemma SavedAgain(peers: seq<StoredPeer>, saved: StoredPeer)
    requires Savable(peers, saved)
    ensures Savable(Stored(peers, saved), saved) && Stored(Stored(peers, saved), saved) == Stored(peers, saved)
    ensures HasSite(Stored(peers, saved), saved.id) && !Needed(Stored(peers, saved), saved)
  {
    hide SiteIndex, ForwardOf, AllIpv4, NonBlanks, Strip, Lower, NonBlankTexts, FirstOnly;
    PassesIs(saved);
    var s := Checked(saved).value;
    PassesIs(s);
    var k := SiteIndex(peers, saved.id);
    IndexAfterStoring(peers, k, s);
    NonBlankStaysIpv4(saved.lanCidrs);
    assert Stored(peers, saved)[k := s] == Stored(peers, saved);
  }

  function SiteWithLan(cidrs: seq<AddrText>): StoredPeer {
    StoredPeer("p", true, cidrs, 500, "", [], "", "", [], "u")
  }

  lemma SiteIsChecked(cidrs: seq<AddrText>)
    requires AllIpv4(cidrs)
    ensures Checked(SiteWithLan(cidrs)).Some?
    ensures var s := Checked(SiteWithLan(cidrs)).value;
      && s.id == "p" && s.enabled && s.lanCidrs == NonBlankTexts(cidrs) && s.destIp == [] && Strip(s.destPort) == ""
  {
    assert Strip("u") == "u";
    assert Strip("") == "";
  }

  lemma LanIsNeeded(s: StoredPeer, t: StoredPeer)
    requires AllIpv4(s.lanCidrs) && AllIpv4(t.lanCidrs) && AllBlank(s.lanCidrs) && !AllBlank(t.lanCidrs)
    ensures NeedsForward(s, t)
  {
    hide CanonicalNets, Tokens, AllBlank, Strip, Lower, AllIpv4;
    BlankHasNoNetworks(s.lanCidrs);
    BlankHasNoNetworks(t.lanCidrs);
  }

  /** A site as stored admits what its LAN sends under its own protocol. */
  lemma LanIsAdmitted(s: StoredPeer, t: Token)
    requires s.id != "" && s.enabled && s.lanCidrs == [Ipv4Text(t)] && s.destIp == [] && Strip(s.destPort) == ""
    ensures var pkt := Packet(First(t), 0, Lower(Strip(Row(s).forward.protocol)), None); SiteVoice(Row(s), pkt).admits
  {
    hide AnyProtocol, Covers;
    BlankIsFree();
    FirstIsCovered(t);
    assert Strip("") == "";
    assert s.lanCidrs[0] == Ipv4Text(t);
  }

  predicate Silent(peers: seq<StoredPeer>, pkt: Packet) {
    forall i :: 0 <= i < |peers| ==> !SiteVoice(Row(peers[i]), pkt).admits
  }

  /** With an empty table and chain, the policy is followed exactly when no site speaks. */
  lemma EmptyKernelFollows(dir: Directory, peers: seq<StoredPeer>)
    ensures FollowsPolicy(map[], [], map[], dir, peers) <==> forall pkt: Packet :: Silent(peers, pkt)
  {
    hide SiteVoice, Row, Listing, FirstMatch;
    NoRows();
    assert forall pkt: Packet :: FirstMatch([], map[], pkt) == None by { NoLineMatches(); }
    forall pkt: Packet
      ensures StoredPolicySays(map[], Env(dir, Rows(peers)), pkt, FirstMatch([], map[], pkt)) <==> Silent(peers, pkt)
    {
      var vs := SiteVoices(Rows(peers), pkt);
      assert RowVoices(Listing(map[]), dir, pkt) + vs == vs;
      assert forall i :: 0 <= i < |peers| ==> vs[i] == SiteVoice(Row(peers[i]), pkt);
    }
  }

  lemma NoLineMatches()
    ensures forall pkt: Packet :: FirstMatch([], map[], pkt) == None
  {
  }

  lemma NoRows()
    ensures WellKeyed(map[]) && Listing(map[]) == []
  {
    if Listing(map[]) != [] {
      RuleService.HeadIsMember(Listing(map[]));
    }
  }

  /** An empty kernel follows `cur` but not `saved`, and storing `saved` a second time needs no refresh. */
  ghost predicate PartsThenSkips(dir: Directory, cur: StoredPeer, saved: StoredPeer) {
    && FollowsPolicy(map[], [], map[], dir, [cur])
    && Savable([cur], saved) && Needed([cur], saved)
    && !FollowsPolicy(map[], [], map[], dir, Stored([cur], saved))
    && HasSite(Stored([cur], saved), saved.id) && !Needed(Stored([cur], saved), saved)
  }

  /** The kernel of a new installation follows a site without a LAN. Give the site one; if that refresh
  is refused, the kernel does not follow, and saving again refreshes nothing. */
  lemma RefusedThenRepeated(dir: Directory)
    ensures PartsThenSkips(dir, SiteWithLan([]), SiteWithLan([Ipv4Text(Net(1, 32))]))
  {
    hide FollowsPolicy, Checked, NeedsForward, Savable, UserTaken, SiteIndex, HasSite, Strip;
    var t: Token := Net(1, 32);
    var cur, saved := SiteWithLan([]), SiteWithLan([Ipv4Text(t)]);
    SiteIsChecked([]);
    OneText(t);
    SiteIsChecked(saved.lanCidrs);
    var s := Checked(saved).value;
    OnlySite(cur, saved);
    LanIsNeeded(cur, s);
    SavedAgain([cur], saved);
    FollowsUntilLan(dir, cur, s, t);
  }

  lemma OnlySite(cur: StoredPeer, saved: StoredPeer)
    requires cur.id == saved.id && AllIpv4(cur.lanCidrs) && Checked(saved).Some?
    ensures HasSite([cur], saved.id) && SiteNamed([cur], saved.id) == cur && Savable([cur], saved)
    ensures Stored([cur], saved) == [Checked(saved).value]
  {
    PassesIs(saved);
    PassesIs(cur);
    hide Checked, AllIpv4, Strip;
    assert [cur][0].id == saved.id;
  }

  lemma FollowsUntilLan(dir: Directory, cur: StoredPeer, s: StoredPeer, t: Token)
    requires cur.lanCidrs == [] && s.lanCidrs == [Ipv4Text(t)]
    requires s.id != "" && s.enabled && s.destIp == [] && Strip(s.destPort) == ""
    ensures FollowsPolicy(map[], [], map[], dir, [cur]) && !FollowsPolicy(map[], [], map[], dir, [s])
  {
    hide FollowsPolicy, SiteVoice, Row, Strip;
    EmptyKernelFollows(dir, [cur]);
    EmptyKernelFollows(dir, [s]);
    SiteWithoutLan(cur);
    LanIsAdmitted(s, t);
    var pkt := Packet(First(t), 0, Lower(Strip(Row(s).forward.protocol)), None);
    assert SiteVoice(Row([s][0]), pkt).admits;
    assert !Silent([s], pkt);
  }

  /** No kernel follows the policy both with a site that has something to say and with a silent one. */
  lemma NotBoth(sets: Sets, chain: seq<Line>, dir: Directory, s: StoredPeer, silent: StoredPeer, pkt: Packet)
    requires SiteVoice(Row(s), pkt).admits && !SiteVoice(Row(silent), pkt).admits
    ensures !(FollowsPolicy(sets, chain, map[], dir, [s]) && FollowsPolicy(sets, chain, map[], dir, [silent]))
  {
    hide SiteVoice, Row, FirstMatch;
    NoRows();
    assert [SiteVoice(Row(s), pkt)][0].admits;
    if FollowsPolicy(sets, chain, map[], dir, [s]) && FollowsPolicy(sets, chain, map[], dir, [silent]) {
      var v := FirstMatch(chain, sets, pkt);
      assert StoredPolicySays(map[], Env(dir, Rows([s])), pkt, v);
      assert StoredPolicySays(map[], Env(dir, Rows([silent])), pkt, v);
      OneSiteSpeaks(dir, s, pkt);
      OneSiteSpeaks(dir, silent, pkt);
    }
  }

  lemma OneSiteSpeaks(dir: Directory, s: StoredPeer, pkt: Packet)
    ensures RowVoices([], dir, pkt) + SiteVoices(Rows([s]), pkt) == [SiteVoice(Row(s), pkt)]
  {
    hide SiteVoice, Row;
  }

  /** Whatever kernel follows the policy with the site as stored, it does not once the site is switched off, or
  its LAN cleared, and the refresh is refused. */
  lemma RefusedSilencing(s: StoredPeer, t: Token, sets: Sets, chain: seq<Line>, dir: Directory)
    requires s.id != "" && s.enabled && s.lanCidrs == [Ipv4Text(t)] && s.destIp == [] && Strip(s.destPort) == ""
    requires Strip(s.boundUsername) != "" && FollowsPolicy(sets, chain, map[], dir, [s])
    ensures HasSite([s], s.id) && SiteNamed([s], s.id) == s && Checked(s.(enabled := false)).Some?
    ensures !FollowsPolicy(sets, chain, map[], dir, Stored([s], s.(enabled := false)))
    ensures Savable([s], Cleared([s], s.id))
    ensures !FollowsPolicy(sets, chain, map[], dir, Stored([s], Cleared([s], s.id)))
  {
    hide FollowsPolicy, SiteVoice, Strip, Lower, SiteIndex, HasSite;
    var off, bare := s.(enabled := false), s.(lanCidrs := []);
    var pkt := Packet(First(t), 0, Lower(Strip(Row(s).forward.protocol)), None);
    LanIsAdmitted(s, t);
    OneText(t);
    OnlySite(s, off);
    OnlySite(s, bare);
    SwitchedOff(Checked(off).value, pkt);
    NotBoth(sets, chain, dir, s, Checked(off).value, pkt);
    SiteWithoutLan(Checked(bare).value);
    NotBoth(sets, chain, dir, s, Checked(bare).value, pkt);
  }

  lemma SwitchedOff(s: StoredPeer, pkt: Packet)
    requires !s.enabled
    ensures !SiteVoice(Row(s), pkt).admits
  {
    hide PeerAdmits, Strip, Lower;
  }

  lemma OneText(t: Token)
    ensures AllIpv4([Ipv4Text(t)]) && NonBlankTexts([Ipv4Text(t)]) == [Ipv4Text(t)]
  {
    assert [Ipv4Text(t)][..0] == [];
  }

  lemma SiteWithoutLan(s: StoredPeer)
    requires s.lanCidrs == []
    ensures forall pkt :: !SiteVoice(Row(s), pkt).admits
  {
    hide DestAdmits, ServiceAdmits, Strip, Lower;
  }

  lemma {:induction false} NonBlankTextsHaveNone(xs: seq<AddrText>)
    ensures NoBlanks(NonBlankTexts(xs))
  {
    if xs != [] {
      NonBlankTextsHaveNone(xs[..|xs| - 1]);
    }
  }

  /** For sites as they are stored: when the snapshot of user and LAN is unchanged, the block of the site is
  in the right user's file, and that file would keep exactly the lines it has. */
  lemma SkippedBlockIsThere(a: StoredPeer, b: StoredPeer, file: seq<string>)
    requires Checked(a).Some? && Checked(b).Some? && IrouteOf(Checked(a).value) == IrouteOf(Checked(b).value)
    ensures AllIpv4(Checked(a).value.lanCidrs) && AllIpv4(Checked(b).value.lanCidrs)
    ensures Strip(a.boundUsername) == Strip(b.boundUsername)
    ensures forall line ::
      line in MergePeer(file, a.id, Checked(a).value.lanCidrs) <==>
        line in MergePeer(file, a.id, Checked(b).value.lanCidrs)
  {
    hide NonBlankTexts, MergePeer, IrouteOf, NoBlanks, FirstOnly, NonBlanks, Strip, Lower;
    NonBlankTextsHaveNone(a.lanCidrs);
    NonBlankTextsHaveNone(b.lanCidrs);
    NonBlankStaysIpv4(a.lanCidrs);
    NonBlankStaysIpv4(b.lanCidrs);
    SkippedIrouteKeepsRoutes(Checked(a).value, Checked(b).value, file, a.id);
    StripShape(a.boundUsername);
    StripShape(b.boundUsername);
  }
}
