/** Runs of requests about centre rules and peer sites together: when the kernel is known to follow the
policy, and when it is not. */
module CentreRuns {
  import opened Text
  import opened ForwardPlan
  import opened RuleStore
  import opened Tags
  import opened RuleResolution
  import opened RuleService
  import opened RuleRuns
  import opened PeerSnapshots
  import opened PeerUpdates
  import opened GlobalReorder

  /** `filesOk` says whether the CCD files that the request edits before the refresh can be edited. */
  datatype CentreRequest =
    | OnRules(request: Request, filesOk: bool)
    | SaveSite(saved: StoredPeer, refreshCenter: bool)
    | CreateSite(site: StoredPeer)
    | DeleteSite(id: string, filesOk: bool)

  /** No new rule under an identifier reserved for sites. */
  predicate Admissible(r: CentreRequest) {
    r.OnRules? ==> forall k :: k in NewIds(r.request) ==> !(CE_PEER_RULE_PREFIX <= k)
  }

  /** What is stored and what the kernel holds, between two requests. */
  datatype State = State(rows: Table, peers: seq<StoredPeer>, kernel: KernelState)

  ghost function StateOf(store: PeerStore): State
    reads store, store.rules, store.rules.iptables, store.rules.iptables.kernel
  {
    State(store.rules.rows, store.peers, store.KernelNow())
  }

  ghost predicate FollowsAt(s: State, dir: Directory) {
    FollowsPolicy(s.kernel.sets, s.kernel.chain, s.rows, dir, s.peers)
  }

  /** How one request went; `mark` counts the refusals when undoing began. */
  datatype Step = Step(request: CentreRequest, before: State, out: Outcome, mark: nat, after: State)

  /** The kernel refused nothing from the moment undoing began. */
  predicate CleanlyUndone(s: Step) {
    s.after.kernel.refusals == s.mark
  }

  predicate StoredChanged(s: Step) {
    s.after.rows != s.before.rows || s.after.peers != s.before.peers
  }

  // ------------------------------------------------------------------ effects

  /** What a request did to the tie between what is stored and what the kernel does. */
  datatype Effect = Refreshed | Kept | Parted

  /** A failed edit of a site has stored the site; a failed edit of rules has taken the rows back,
  unless the undo was refused or the rule moved to another owner. */
  function RulesEffect(out: Outcome, undone: bool, moved: bool): Effect {
    match out
    case Done => Refreshed
    case Rejected => Kept
    case RefreshFailed => if undone && !moved then Kept else Parted
  }

  function SiteEffect(out: Outcome, needed: bool, asked: bool): Effect {
    match out
    case Rejected => Kept
    case Done => if !needed then Kept else if asked then Refreshed else Parted
    case RefreshFailed => Parted
  }

  /** A failed order of everything has taken the rules' order back, but not the sites'. */
  function OrderEffect(out: Outcome, undone: bool, changed: bool): Effect {
    match out
    case Done => Refreshed
    case Rejected => if changed then Parted else Kept
    case RefreshFailed => if undone && !changed then Kept else Parted
  }

  /** A reorder without an owner is about all rules and sites. */
  predicate OrdersAll(r: Request) {
    r.ReorderRules? && Strip(r.owner) == ""
  }

  /** Rules under the prefix of sites stand for the site. */
  predicate StandsForSite(r: Request) {
    (r.DeleteRule? || r.EnableRule?) && CE_PEER_RULE_PREFIX <= r.rid
  }

  predicate Wired(peers: seq<StoredPeer>, saved: StoredPeer) {
    Savable(peers, saved) && Needed(peers, saved)
  }

  ghost function EffectOf(s: Step): Effect {
    match s.request
    case SaveSite(saved, refreshCenter) => SiteEffect(s.out, Wired(s.before.peers, saved), refreshCenter)
    case CreateSite(_) => SiteEffect(s.out, true, true)
    case DeleteSite(_, _) => SiteEffect(s.out, true, true)
    case OnRules(request, _) =>
      if StandsForSite(request) then SiteEffect(s.out, true, true)
      else if OrdersAll(request) then OrderEffect(s.out, CleanlyUndone(s), StoredChanged(s))
      else RulesEffect(s.out, CleanlyUndone(s), Moving(s.before.rows, request))
  }

  // ------------------------------------------------------------ what is stored

  /** Which edits of sites are refused, and the sites after any. */
  ghost predicate SiteEdited(r: CentreRequest, peers: seq<StoredPeer>, out: Outcome, after: seq<StoredPeer>)
    requires !r.OnRules?
  {
    match r
    case SaveSite(saved, _) =>
      && (out.Rejected? <==> !Savable(peers, saved))
      && after == (if out.Rejected? then peers else Stored(peers, saved))
      && (!out.Rejected? ==> OneSiteAsForm(peers, saved, after))
    case CreateSite(site) =>
      && (out.Rejected? <==> !Creatable(peers, site))
      && after == (if out.Rejected? then peers else Added(peers, site))
      && (!out.Rejected? ==> OneSiteAsForm(peers, site, after))
    case DeleteSite(id, filesOk) =>
      && (out.Rejected? <==> !HasSite(peers, id) || !filesOk)
      && after == if out.Rejected? then peers else Except(peers, id)
  }

  function SiteOf(r: Request): string
    requires StandsForSite(r)
  {
    r.rid[|CE_PEER_RULE_PREFIX|..]
  }

  function EditedSite(r: Request, peers: seq<StoredPeer>): StoredPeer
    requires StandsForSite(r) && HasSite(peers, SiteOf(r))
  {
    if r.DeleteRule? then Cleared(peers, SiteOf(r)) else SiteNamed(peers, SiteOf(r)).(enabled := r.on)
  }

  /** Deleting a site's rule is a save, and so checks the user as well. */
  ghost predicate Editable(r: Request, peers: seq<StoredPeer>)
    requires StandsForSite(r)
  {
    && HasSite(peers, SiteOf(r))
    && Passes(EditedSite(r, peers))
    && (r.DeleteRule? ==> Savable(peers, EditedSite(r, peers)))
  }

  /** Files that have to be edited and cannot be end the deletion of a site's rule before its refresh. */
  ghost predicate SiteRuleEdited(r: Request, filesOk: bool, peers: seq<StoredPeer>, out: Outcome,
      after: seq<StoredPeer>)
    requires StandsForSite(r)
  {
    && (!out.Rejected? <==> Editable(r, peers))
    && after == (if out.Rejected? then peers else Stored(peers, EditedSite(r, peers)))
    && (!out.Rejected? ==> OneSiteAsForm(peers, EditedSite(r, peers), after))
    && (!out.Rejected? && r.DeleteRule? && !filesOk ==>
        EditsFiles(SiteNamed(peers, SiteOf(r)), Checked(EditedSite(r, peers)).value) ==> out.RefreshFailed?)
  }

  /** What a request did to what is stored, however it ended. */
  ghost predicate Performed(s: Step)
    requires WellKeyed(s.before.rows)
  {
    var peers, now := s.before.peers, s.after.peers;
    match s.request
    case OnRules(r, filesOk) =>
      if StandsForSite(r) then s.after.rows == s.before.rows && SiteRuleEdited(r, filesOk, peers, s.out, now)
      else if OrdersAll(r) then AllOrdered(r.order, s.before.rows, peers, s.out, s.after.rows, now)
      else now == peers && Served(r, s.before.rows, s.out, s.after.rows)
    case _ => s.after.rows == s.before.rows && SiteEdited(s.request, peers, s.out, now)
  }

  // ------------------------------------------------------------ what the kernel holds

  /** The kernel carries out what is stored; besides the sets of the plan at most orphans that were there
  before the request, and none when nothing was refused. */
  ghost predicate CarriedOutSince(s: Step, dir: Directory) {
    var kernel, rows, env := s.after.kernel, s.after.rows, Env(dir, Rows(s.after.peers));
    && CarriedOutBy(kernel.sets, kernel.chain, rows, env)
    && OrphansAtMost(s.before.kernel.sets, kernel.sets, rows, env)
    && (kernel.refusals == s.before.kernel.refusals ==> ManagedExactly(kernel.sets, rows, env))
  }

  /** How a request left the kernel, however it ended. */
  ghost predicate KernelOk(s: Step, dir: Directory) {
    var before, after := s.before.kernel, s.after.kernel;
    && before.refusals <= after.refusals && OthersKept(before.sets, after.sets)
    && (s.out.Rejected? || (s.out.Done? && !EffectOf(s).Refreshed?) ==> after == before)
    && (s.out.RefreshFailed? ==> UndoBegins(before.refusals, s.mark, after.refusals))
    && (s.out.RefreshFailed? && CleanlyUndone(s) ==> after.sets == before.sets && after.chain == before.chain)
    && (EffectOf(s).Refreshed? ==> CarriedOutSince(s, dir))
  }

  /** The deletion of a site's rule stopped at the CCD files, before its refresh. */
  predicate AtFiles(s: Step) {
    s.request.OnRules? && !s.request.filesOk && StandsForSite(s.request.request) && s.request.request.DeleteRule?
  }

  /** The rules that the request asks the kernel to carry out. */
  ghost function WantedRows(s: Step): Table {
    match s.request
    case OnRules(r, _) =>
      if StandsForSite(r) then s.before.rows
      else if OrdersAll(r) then InOrder(s.before.rows, Owners(s.before.rows), r.order)
      else if Accepts(r, s.before.rows) then Target(r, s.before.rows)
      else s.before.rows
    case _ => s.before.rows
  }

  /** A refresh fails only at a refused command, unless it was for something the kernel cannot carry out. */
  ghost predicate FailsForAReason(s: Step, dir: Directory) {
    AtFiles(s) ||
    FailsOnlyIfRefused(s.out, s.before.kernel.refusals, s.mark, WantedRows(s), Env(dir, Rows(s.after.peers)))
  }

  ghost predicate KeepsTie(e: Effect, before: bool, after: bool) {
    && (e.Refreshed? ==> after)
    && (e.Kept? ==> after == before)
  }

  /** All that one request does. */
  ghost predicate StepOk(s: Step, dir: Directory) {
    && WellKeyed(s.before.rows) && Performed(s) && KernelOk(s, dir) && FailsForAReason(s, dir)
    && KeepsTie(EffectOf(s), FollowsAt(s.before, dir), FollowsAt(s.after, dir))
  }

  // ------------------------------------------------------------------ serving

  method Serve(store: PeerStore, r: CentreRequest, dir: Directory) returns (out: Outcome, ghost mark: nat)
    requires store.Valid(dir) && Admissible(r)
    modifies store`peers, store.rules, store.rules.iptables.ipsets, store.rules.iptables.kernel
    ensures store.Valid(dir)
    ensures StepOk(Step(r, old(StateOf(store)), out, mark, StateOf(store)), dir)
  {
    hide StepOk;
    match r {
      case OnRules(request, filesOk) =>
        if StandsForSite(request) {
          out, mark := ServeSiteRule(store, request, filesOk, dir);
        } else if OrdersAll(request) {
          out, mark := ServeOrder(store, request, filesOk, dir);
        } else {
          out, mark := ServeRules(store, request, filesOk, dir);
        }
      case _ =>
        out, mark := ServeSite(store, r, dir);
    }
  }

  /** A refresh after an edit, as a step. */
  lemma RefreshedStep(s: Step, store: PeerStore, dir: Directory)
    requires store.Valid(dir) && s.after == StateOf(store)
    requires store.Refreshed(s.before.kernel, s.mark, s.out, dir)
    requires EffectOf(s).Refreshed? ==> s.out.Done?
    requires s.out.Done? ==> EffectOf(s).Refreshed?
    ensures KernelOk(s, dir) && (s.out.Done? ==> FollowsAt(s.after, dir))
  {
    hide FollowsPolicy, OthersKept, OrphansAtMost, ManagedExactly, CarriedOutBy, InStep, IdentifiersOk, EffectOf,
      TableOk, OwnerExists, Rows;
    InStepIs(store.rules.iptables.kernel, store.rules.rows, Env(dir, Rows(store.peers)));
  }

  method ServeSite(store: PeerStore, r: CentreRequest, dir: Directory) returns (out: Outcome, ghost mark: nat)
    requires store.Valid(dir) && !r.OnRules?
    modifies store`peers, store.rules.iptables.ipsets, store.rules.iptables.kernel
    ensures store.Valid(dir)
    ensures StepOk(Step(r, old(StateOf(store)), out, mark, StateOf(store)), dir)
  {
    hide FollowsPolicy, IdentifiersOk, TableOk, OwnerExists, Savable, Needed, Stored, Checked, Except, Added,
      HasSite, KernelOk, OthersKept, CarriedOutBy, OrphansAtMost, ManagedExactly;
    KeyedTable(store.rules.rows);
    match r {
      case SaveSite(saved, refreshCenter) =>
        out, mark := ServeSave(store, saved, refreshCenter, dir);
      case CreateSite(site) =>
        ghost var before := StateOf(store);
        out, mark := store.Create(site, dir);
        RefreshedStep(Step(r, before, out, mark, StateOf(store)), store, dir);
      case DeleteSite(id, filesOk) =>
        ghost var before := StateOf(store);
        out, mark := store.Delete(id, filesOk, dir);
        RefreshedStep(Step(r, before, out, mark, StateOf(store)), store, dir);
    }
  }

  method ServeSave(store: PeerStore, saved: StoredPeer, asked: bool, dir: Directory)
    returns (out: Outcome, ghost mark: nat)
    requires store.Valid(dir)
    modifies store`peers, store.rules.iptables.ipsets, store.rules.iptables.kernel
    ensures store.Valid(dir)
    ensures StepOk(Step(SaveSite(saved, asked), old(StateOf(store)), out, mark, StateOf(store)), dir)
  {
    hide FollowsPolicy, IdentifiersOk, TableOk, OwnerExists, Savable, Needed, Stored, Checked, HasSite, KernelOk,
      OthersKept, CarriedOutBy, OrphansAtMost, ManagedExactly;
    KeyedTable(store.rules.rows);
    ghost var before := StateOf(store);
    out, mark := store.Save(saved, asked, dir);
    ghost var s := Step(SaveSite(saved, asked), before, out, mark, StateOf(store));
    if out.Done? && !EffectOf(s).Refreshed? {
      UntouchedStep(s, dir);
    } else {
      RefreshedStep(s, store, dir);
    }
  }

  lemma UntouchedStep(s: Step, dir: Directory)
    requires s.after.kernel == s.before.kernel && !s.out.RefreshFailed? && !EffectOf(s).Refreshed?
    ensures KernelOk(s, dir)
  {
    hide OthersKept, CarriedOutSince, EffectOf;
    KeptItself(s.before.kernel.sets);
  }

  method ServeSiteRule(store: PeerStore, r: Request, filesOk: bool, dir: Directory)
    returns (out: Outcome, ghost mark: nat)
    requires store.Valid(dir) && StandsForSite(r)
    modifies store`peers, store.rules.iptables.ipsets, store.rules.iptables.kernel
    ensures store.Valid(dir)
    ensures StepOk(Step(OnRules(r, filesOk), old(StateOf(store)), out, mark, StateOf(store)), dir)
  {
    hide FollowsPolicy, IdentifiersOk, TableOk, OwnerExists, KernelOk, SiteRuleEdited, OthersKept, StepOk, Feasible,
      EffectOf;
    ghost var before := StateOf(store);
    KeyedTable(store.rules.rows);
    out, mark := EditSiteRule(store, r, filesOk, dir);
    ghost var s := Step(OnRules(r, filesOk), before, out, mark, StateOf(store));
    SiteRuleEffect(s, r, filesOk);
    RefreshedStep(s, store, dir);
    SiteRuleStep(s, r, filesOk, dir);
  }

  lemma SiteRuleEffect(s: Step, r: Request, filesOk: bool)
    requires s.request == OnRules(r, filesOk) && StandsForSite(r)
    ensures EffectOf(s) == SiteEffect(s.out, true, true)
  {
  }

  /** An edit of a site's rule, as a step. */
  lemma SiteRuleStep(s: Step, r: Request, filesOk: bool, dir: Directory)
    requires s.request == OnRules(r, filesOk) && StandsForSite(r)
    requires WellKeyed(s.before.rows) && s.after.rows == s.before.rows
    requires SiteRuleEdited(r, filesOk, s.before.peers, s.out, s.after.peers)
    requires KernelOk(s, dir) && (s.out.Done? ==> FollowsAt(s.after, dir))
    requires filesOk || !r.DeleteRule? ==>
      FailsOnlyIfRefused(s.out, s.before.kernel.refusals, s.mark, s.before.rows, Env(dir, Rows(s.after.peers)))
    requires s.out.Rejected? ==> s.after.kernel == s.before.kernel
    ensures StepOk(s, dir)
  {
    hide FollowsPolicy, KernelOk, Editable, EditedSite, EditsFiles, FailsOnlyIfRefused, WellKeyed, Rows;
  }

  method EditSiteRule(store: PeerStore, r: Request, filesOk: bool, dir: Directory)
    returns (out: Outcome, ghost mark: nat)
    requires store.Valid(dir) && StandsForSite(r)
    modifies store`peers, store.rules.iptables.ipsets, store.rules.iptables.kernel
    ensures store.Valid(dir)
    ensures SiteRuleEdited(r, filesOk, old(store.peers), out, store.peers)
    ensures store.Refreshed(old(store.KernelNow()), mark, out, dir)
    ensures filesOk || !r.DeleteRule? ==>
      FailsOnlyIfRefused(out, old(store.KernelNow()).refusals, mark, store.rules.rows, Env(dir, Rows(store.peers)))
  {
    hide FollowsPolicy, IdentifiersOk, TableOk, OwnerExists, Stored, Checked, HasSite, SiteIndex, UserTaken,
      OthersKept, CarriedOutBy, OrphansAtMost, ManagedExactly, EditsFiles;
    if r.DeleteRule? {
      out, mark := store.ClearLan(SiteOf(r), filesOk, dir);
    } else {
      out, mark := store.Toggle(SiteOf(r), r.on, dir);
    }
  }

  method ServeOrder(store: PeerStore, r: Request, filesOk: bool, dir: Directory)
    returns (out: Outcome, ghost mark: nat)
    requires store.Valid(dir) && OrdersAll(r)
    modifies store`peers, store.rules, store.rules.iptables.ipsets, store.rules.iptables.kernel
    ensures store.Valid(dir)
    ensures StepOk(Step(OnRules(r, filesOk), old(StateOf(store)), out, mark, StateOf(store)), dir)
  {
    hide FollowsPolicy, IdentifiersOk, TableOk, OwnerExists, AllOrdered, InOrder, Owners, KernelOk, OthersKept,
      CarriedOutBy, OrphansAtMost, ManagedExactly, WellKeyed;
    ghost var before := StateOf(store);
    out, mark := ReorderAll(store, r.order, dir);
    RefreshedStep(Step(OnRules(r, filesOk), before, out, mark, StateOf(store)), store, dir);
  }

  method ServeRules(store: PeerStore, r: Request, filesOk: bool, dir: Directory)
    returns (out: Outcome, ghost mark: nat)
    requires store.Valid(dir) && AboutStoredRules(r) && Admissible(OnRules(r, filesOk))
    modifies store.rules, store.rules.iptables.ipsets, store.rules.iptables.kernel
    ensures store.Valid(dir)
    ensures StepOk(Step(OnRules(r, filesOk), old(StateOf(store)), out, mark, StateOf(store)), dir)
  {
    hide FollowsPolicy, Moving, CarriedOutBy, OthersKept, OrphansAtMost, ManagedExactly, NewIds, Rows, StoredPort,
      OwnerExists, EventOk, StepOk;
    ghost var before := StateOf(store);
    KeyedTable(store.rules.rows);
    out, mark := RuleRuns.Serve(store.rules, r, Env(dir, Rows(store.peers)));
    assert IdentifiersOk(store.rules.rows, Env(dir, Rows(store.peers)));
    ghost var s := Step(OnRules(r, filesOk), before, out, mark, StateOf(store));
    EventSays(EventOf(s, r), Env(dir, Rows(store.peers)));
    if out.Done? {
      InStepSaysPolicy(store.rules.iptables.kernel.sets, store.rules.iptables.kernel.chain, store.rules.rows, dir,
        store.peers);
    }
    RulesStep(s, r, filesOk, dir);
  }

  ghost function PointIn(s: State): Point {
    Point(s.rows, s.kernel.sets, s.kernel.chain, s.kernel.refusals)
  }

  ghost function EventOf(s: Step, r: Request): Event {
    Event(r, PointIn(s.before), s.out, s.mark, PointIn(s.after))
  }

  lemma EventSays(e: Event, env: Env)
    requires EventOk(e, env)
    ensures e.out.Done? ==> CarriedOutBy(e.after.sets, e.after.chain, e.after.rows, env)
  {
    hide CarriedOutBy, Served, OthersKept, OrphansAtMost, ManagedExactly, IdentifiersOk;
  }

  /** A request about rules alone, as a step. */
  lemma RulesStep(s: Step, r: Request, filesOk: bool, dir: Directory)
    requires s.request == OnRules(r, filesOk) && AboutStoredRules(r)
    requires WellKeyed(s.before.rows) && s.after.peers == s.before.peers
    requires EventOk(EventOf(s, r), Env(dir, Rows(s.after.peers)))
    requires IdentifiersOk(s.after.rows, Env(dir, Rows(s.after.peers)))
    requires s.out.Done? ==> FollowsAt(s.after, dir)
    ensures StepOk(s, dir)
  {
    hide FollowsPolicy, CarriedOutBy, OthersKept, OrphansAtMost, ManagedExactly, IdentifiersOk, WellKeyed, Rows,
      Moving, Accepts, Target, Written, Strip;
  }
  // --------------------------------------------------------------------- runs

  /** A run that goes from one state to another, each step doing what its request asks for. */
  ghost predicate RunsTo(a: State, h: seq<Step>, b: State, dir: Directory)
    decreases |h|
  {
    if h == [] then a == b
    else
      var last := h[|h| - 1];
      last.after == b && StepOk(last, dir) && RunsTo(a, h[..|h| - 1], last.before, dir)
  }

  lemma OneMoreStep(a: State, h: seq<Step>, s: Step, dir: Directory)
    requires RunsTo(a, h, s.before, dir) && StepOk(s, dir)
    ensures RunsTo(a, h + [s], s.after, dir)
  {
    hide StepOk;
    assert (h + [s])[..|h|] == h;
  }

  lemma NoStepYet(a: State, dir: Directory)
    ensures RunsTo(a, [], a, dir)
  {
  }

  ghost function Effects(h: seq<Step>): seq<Effect> {
    seq(|h|, i requires 0 <= i < |h| => EffectOf(h[i]))
  }

  /** The kernel is known to follow the policy at the end. */
  predicate InTune(h: seq<Effect>, start: bool) {
    if h == [] then start
    else
      match h[|h| - 1]
      case Refreshed => true
      case Kept => InTune(h[..|h| - 1], start)
      case Parted => false
  }

  /** It is known exactly when the last request that did not keep the tie refreshed it, or when every
  request kept it and it held at the start. */
  lemma {:induction false} InTuneIs(h: seq<Effect>, start: bool)
    ensures InTune(h, start) <==>
      || (start && forall i :: 0 <= i < |h| ==> h[i].Kept?)
      || (exists d :: 0 <= d < |h| && h[d].Refreshed? && forall i :: d < i < |h| ==> h[i].Kept?)
  {
    if h != [] {
      var n := |h| - 1;
      InTuneIs(h[..n], start);
      if h[n].Kept? {
        if d :| 0 <= d < |h| && h[d].Refreshed? && forall i :: d < i < |h| ==> h[i].Kept? {
          assert h[..n][d].Refreshed?;
        }
        if d :| 0 <= d < n && h[..n][d].Refreshed? && forall i :: d < i < n ==> h[..n][i].Kept? {
          assert h[d].Refreshed?;
        }
      }
    }
  }

  /** Step d refreshed the kernel, and all that came after it kept the tie. */
  ghost predicate LastRefreshed(h: seq<Step>, d: nat) {
    d < |h| && EffectOf(h[d]).Refreshed? && forall i :: d < i < |h| ==> EffectOf(h[i]).Kept?
  }

  predicate SameForwarding(a: KernelState, b: KernelState) {
    a.sets == b.sets && a.chain == b.chain
  }

  /** What a run is worth. The kernel gives every packet the verdict of what is stored whenever that is known
  from how the requests ended. Since the last step that refreshed, it holds what that step left: a chain and
  sets that carry out what was stored then. Sets of other programs are as they were. */
  ghost predicate RunWorth(a: State, h: seq<Step>, b: State, dir: Directory) {
    && (InTune(Effects(h), FollowsAt(a, dir)) ==> FollowsAt(b, dir))
    && (forall d: nat :: LastRefreshed(h, d) ==>
        CarriedOutSince(h[d], dir) && SameForwarding(h[d].after.kernel, b.kernel) && FollowsAt(b, dir))
    && OthersKept(a.kernel.sets, b.kernel.sets) && a.kernel.refusals <= b.kernel.refusals
  }

  /** Whatever is asked of rules and sites, and whatever the kernel refuses on the way: what is stored and what
  the kernel holds go from step to step, each of which did what its request asks for, and the run is worth
  what it should be. */
  method ServeAll(store: PeerStore, requests: seq<CentreRequest>, dir: Directory) returns (ghost steps: seq<Step>)
    requires store.Valid(dir) && forall i :: 0 <= i < |requests| ==> Admissible(requests[i])
    modifies store`peers, store.rules, store.rules.iptables.ipsets, store.rules.iptables.kernel
    ensures store.Valid(dir)
    ensures |steps| == |requests| && forall i :: 0 <= i < |steps| ==> steps[i].request == requests[i]
    ensures RunsTo(old(StateOf(store)), steps, StateOf(store), dir)
    ensures RunWorth(old(StateOf(store)), steps, StateOf(store), dir)
  {
    hide Admissible, IdentifiersOk, TableOk, OwnerExists, StepOk, RunsTo, RunWorth;
    ghost var start := StateOf(store);
    steps := [];
    NoStepYet(start, dir);
    for i := 0 to |requests|
      invariant store.Valid(dir) && |steps| == i
      invariant forall k :: 0 <= k < i ==> steps[k].request == requests[k]
      invariant RunsTo(start, steps, StateOf(store), dir)
    {
      ghost var before := StateOf(store);
      var out;
      ghost var mark;
      out, mark := Serve(store, requests[i], dir);
      ghost var s := Step(requests[i], before, out, mark, StateOf(store));
      OneMoreStep(start, steps, s, dir);
      steps := steps + [s];
    }
    RunIsWorth(start, steps, StateOf(store), dir);
  }

  lemma RunIsWorth(a: State, h: seq<Step>, b: State, dir: Directory)
    requires RunsTo(a, h, b, dir)
    ensures RunWorth(a, h, b, dir)
  {
    hide RunsTo, InTune, EffectOf, CarriedOutSince, FollowsAt, OthersKept;
    if InTune(Effects(h), FollowsAt(a, dir)) {
      InTuneFollows(a, h, b, dir);
    }
    forall d: nat | LastRefreshed(h, d)
      ensures CarriedOutSince(h[d], dir) && SameForwarding(h[d].after.kernel, b.kernel) && FollowsAt(b, dir)
    {
      SinceLastRefreshed(a, h, b, d, dir);
    }
    OthersStayThrough(a, h, b, dir);
  }

  lemma StepSays(s: Step, dir: Directory)
    requires StepOk(s, dir)
    ensures s.before.kernel.refusals <= s.after.kernel.refusals
    ensures OthersKept(s.before.kernel.sets, s.after.kernel.sets)
    ensures EffectOf(s).Refreshed? ==> CarriedOutSince(s, dir) && FollowsAt(s.after, dir)
    ensures EffectOf(s).Kept? ==> (FollowsAt(s.after, dir) <==> FollowsAt(s.before, dir))
    ensures EffectOf(s).Kept? ==> SameForwarding(s.before.kernel, s.after.kernel)
    ensures s.out.RefreshFailed? ==>
      FailsForAReason(s, dir) && UndoBegins(s.before.kernel.refusals, s.mark, s.after.kernel.refusals)
  {
    hide Performed, OthersKept, CarriedOutSince, FollowsAt, Moving, Wired, WellKeyed, Strip;
  }

  lemma FrontEffects(h: seq<Step>)
    requires h != []
    ensures Effects(h) != [] && Effects(h)[|h| - 1] == EffectOf(h[|h| - 1])
    ensures Effects(h)[..|Effects(h)| - 1] == Effects(h[..|h| - 1])
    ensures forall start :: InTune(Effects(h), start) ==>
      || EffectOf(h[|h| - 1]).Refreshed?
      || (EffectOf(h[|h| - 1]).Kept? && InTune(Effects(h[..|h| - 1]), start))
  {
    hide EffectOf;
    assert Effects(h)[..|Effects(h)| - 1] == Effects(h[..|h| - 1]);
  }

  lemma {:induction false} InTuneFollows(a: State, h: seq<Step>, b: State, dir: Directory)
    requires RunsTo(a, h, b, dir) && InTune(Effects(h), FollowsAt(a, dir))
    ensures FollowsAt(b, dir)
    decreases |h|
  {
    hide StepOk, EffectOf, FollowsAt, CarriedOutSince, OthersKept, Effects, InTune;
    if h == [] {
      NoEffects(FollowsAt(a, dir));
    } else {
      FrontEffects(h);
      StepSays(h[|h| - 1], dir);
      if EffectOf(h[|h| - 1]).Kept? {
        InTuneFollows(a, h[..|h| - 1], h[|h| - 1].before, dir);
      }
    }
  }

  lemma NoEffects(start: bool)
    ensures InTune(Effects([]), start) ==> start
  {
  }

  /** Where step d began, or where the run ended. */
  function StateAt(h: seq<Step>, b: State, d: nat): State
    requires d <= |h|
  {
    if d == |h| then b else h[d].before
  }

  /** While every request keeps the tie the answer stays what it was, and so does the kernel: one that a
  refused edit has left off the policy stays off it until some request refreshes. */
  lemma {:induction false} KeptSince(a: State, h: seq<Step>, b: State, d: nat, dir: Directory)
    requires RunsTo(a, h, b, dir) && d <= |h|
    requires forall i :: d <= i < |h| ==> EffectOf(h[i]).Kept?
    ensures FollowsAt(b, dir) <==> FollowsAt(StateAt(h, b, d), dir)
    ensures SameForwarding(StateAt(h, b, d).kernel, b.kernel)
    decreases |h|
  {
    hide StepOk, EffectOf, FollowsAt, CarriedOutSince, OthersKept;
    if d < |h| {
      var n := |h| - 1;
      StepSays(h[n], dir);
      KeptSince(a, h[..n], h[n].before, d, dir);
    }
  }

  lemma {:induction false} StepIsOk(a: State, h: seq<Step>, b: State, d: nat, dir: Directory)
    requires RunsTo(a, h, b, dir) && d < |h|
    ensures StepOk(h[d], dir) && StateAt(h, b, d + 1) == h[d].after
    decreases |h|
  {
    hide StepOk;
    if d < |h| - 1 {
      StepIsOk(a, h[..|h| - 1], h[|h| - 1].before, d, dir);
    }
  }

  lemma SinceLastRefreshed(a: State, h: seq<Step>, b: State, d: nat, dir: Directory)
    requires RunsTo(a, h, b, dir) && LastRefreshed(h, d)
    ensures CarriedOutSince(h[d], dir) && SameForwarding(h[d].after.kernel, b.kernel) && FollowsAt(b, dir)
  {
    hide RunsTo, StepOk, EffectOf, FollowsAt, CarriedOutSince, OthersKept;
    StepIsOk(a, h, b, d, dir);
    StepSays(h[d], dir);
    KeptSince(a, h, b, d + 1, dir);
  }

  lemma {:induction false} OthersStayThrough(a: State, h: seq<Step>, b: State, dir: Directory)
    requires RunsTo(a, h, b, dir)
    ensures OthersKept(a.kernel.sets, b.kernel.sets) && a.kernel.refusals <= b.kernel.refusals
    decreases |h|
  {
    hide StepOk, OthersKept, EffectOf, FollowsAt, CarriedOutSince;
    if h == [] {
      KeptItself(a.kernel.sets);
    } else {
      var last := h[|h| - 1];
      StepSays(last, dir);
      OthersStayThrough(a, h[..|h| - 1], last.before, dir);
      KeptThrough(a.kernel.sets, last.before.kernel.sets, b.kernel.sets);
    }
  }

  /** A request about stored rules alone, other than an update that moves its rule. */
  predicate StaysPut(s: Step) {
    && s.request.OnRules? && AboutStoredRules(s.request.request)
    && !Moving(s.before.rows, s.request.request)
  }

  /** In a run in which the kernel refused nothing, it refused nothing at any step; so a step that refreshed
  left exactly the sets of what was stored, and one fails only at CCD files or for something that the kernel
  cannot carry out. */
  lemma {:induction false} QuietSteps(a: State, h: seq<Step>, b: State, i: nat, dir: Directory)
    requires RunsTo(a, h, b, dir) && a.kernel.refusals == b.kernel.refusals && i < |h|
    ensures h[i].after.kernel.refusals == h[i].before.kernel.refusals
    ensures EffectOf(h[i]).Refreshed? ==>
      ManagedExactly(h[i].after.kernel.sets, h[i].after.rows, Env(dir, Rows(h[i].after.peers)))
    ensures h[i].out.RefreshFailed? && !AtFiles(h[i]) ==>
      !Feasible(WantedRows(h[i]), Env(dir, Rows(h[i].after.peers)))
    decreases |h|
  {
    hide StepOk, WantedRows, Feasible, AtFiles, OthersKept, EffectOf, ManagedExactly, OrphansAtMost, CarriedOutBy;
    var last := h[|h| - 1];
    StepSays(last, dir);
    OthersStayThrough(a, h[..|h| - 1], last.before, dir);
    if i < |h| - 1 {
      QuietSteps(a, h[..|h| - 1], last.before, i, dir);
    }
  }

  /** Nor does any request about rules then part kernel and policy, whatever tags and addresses are unknown,
  unless it is an update that moves its rule. */
  lemma QuietRunKeepsTie(a: State, h: seq<Step>, b: State, i: nat, dir: Directory)
    requires RunsTo(a, h, b, dir) && a.kernel.refusals == b.kernel.refusals
    requires i < |h| && StaysPut(h[i])
    ensures !EffectOf(h[i]).Parted?
  {
    hide StepOk, EffectOf, StaysPut;
    QuietSteps(a, h, b, i, dir);
    StepIsOk(a, h, b, i, dir);
    QuietStep(h[i], dir);
  }

  lemma QuietStep(s: Step, dir: Directory)
    requires StepOk(s, dir) && s.after.kernel.refusals == s.before.kernel.refusals && StaysPut(s)
    ensures !EffectOf(s).Parted?
  {
    hide Performed, OthersKept, CarriedOutSince, FollowsAt, Moving, Wired, WellKeyed;
  }
}
