/** Runs of requests against one service: the kernel keeps carrying out the stored rules. */
module RuleRuns {
  import opened Wrappers
  import opened Text
  import opened FirewallModel
  import opened ForwardPlan
  import opened KernelModel
  import opened IpsetTransactions
  import opened IptablesApply
  import opened RuleStore
  import opened RuleEdits
  import opened RuleResolution
  import opened RuleService

  datatype Request =
    | CreateRule(payload: Rule)
    | CreateRules(payloads: seq<Rule>)
    | UpdateRule(payload: Rule)
    | ReorderRules(owner: string, order: seq<string>)
    | DeleteRule(rid: string)
    | EnableRule(rid: string, on: bool)

  /** Requests about stored centre rules; a blank owner and the peer prefix lead elsewhere. */
  predicate AboutStoredRules(r: Request) {
    && (r.ReorderRules? ==> Strip(r.owner) != "")
    && (r.DeleteRule? || r.EnableRule? ==> !(CE_PEER_RULE_PREFIX <= r.rid))
  }

  /** Identifiers that a request can add to the table. */
  function NewIds(r: Request): set<string> {
    match r
    case CreateRule(payload) => {payload.id}
    case CreateRules(payloads) => set i | 0 <= i < |payloads| :: payloads[i].id
    case _ => {}
  }

  /** What is stored and what the kernel holds, between two requests. */
  datatype Point = Point(rows: Table, sets: Sets, chain: seq<Line>, refusals: nat)

  ghost function PointOf(service: FirewallRuleService): Point
    reads service, service.iptables, service.iptables.kernel
  {
    var kernel := service.iptables.kernel;
    Point(service.rows, kernel.sets, kernel.chain, kernel.refusals)
  }

  /** How one request went; `mark` counts the refusals when undoing began. */
  datatype Event = Event(request: Request, before: Point, out: Outcome, mark: nat, after: Point)

  /** The kernel refused nothing while the request was served. */
  predicate Quiet(e: Event) {
    e.after.refusals == e.before.refusals
  }

  /** The kernel refused nothing from the moment undoing began. */
  predicate Undone(e: Event) {
    e.after.refusals == e.mark
  }

  /** An update that gives the rule to another owner. */
  predicate Moving(rows: Table, r: Request) {
    r.UpdateRule? && r.payload.id in rows && Moves(rows, r.payload)
  }

  predicate Harmless(e: Event) {
    e.out.RefreshFailed? ==> Undone(e) && !Moving(e.before.rows, e.request)
  }

  predicate AllHarmless(h: seq<Event>) {
    forall i :: 0 <= i < |h| ==> Harmless(h[i])
  }

  /** Request d was carried out, and all that came after it ended harmlessly without being carried out. */
  predicate LastDone(h: seq<Event>, d: nat) {
    d < |h| && h[d].out.Done? && forall i :: d < i < |h| ==> !h[i].out.Done? && Harmless(h[i])
  }

  /** What being in step says of the sets and the chain alone. */
  ghost predicate CarriedOutBy(sets: Sets, chain: seq<Line>, rows: Table, env: Env) {
    WellKeyed(rows) && Resolvable(rows, env) && CompiledTo(rows, env, chain, sets)
  }

  lemma InStepIs(kernel: Kernel, rows: Table, env: Env)
    ensures InStep(kernel, rows, env) <==> CarriedOutBy(kernel.sets, kernel.chain, rows, env)
  {
    hide Resolvable, Compile, Applied, WantOf;
  }

  ghost predicate InStepAt(p: Point, env: Env) {
    CarriedOutBy(p.sets, p.chain, p.rows, env)
  }

  /** In step; besides the table's sets at most orphans that were there before request e; none at all
  when the kernel refused nothing while it served e. */
  ghost predicate InStepSince(e: Event, p: Point, env: Env) {
    && InStepAt(p, env)
    && OrphansAtMost(e.before.sets, p.sets, p.rows, env)
    && (Quiet(e) && IdentifiersOk(p.rows, env) ==> ManagedExactly(p.sets, p.rows, env))
  }

  lemma KeptThrough(a: Sets, b: Sets, c: Sets)
    requires OthersKept(a, b) && OthersKept(b, c)
    ensures OthersKept(a, c)
  {
    forall n: SetName | n.Foreign? || (n.Stage? && n in a) ensures SameAt(a, c, n) {
      assert SameAt(a, b, n) && SameAt(b, c, n);
    }
  }

  lemma BatchIds(ps: seq<Rule>)
    requires BatchOk(ps) && DistinctIds(ps)
    ensures AsTable(AcceptedAll(ps)).Keys <= NewIds(CreateRules(ps))
  {
    hide BatchOk, PayloadOk;
    assert forall i :: 0 <= i < |ps| ==> AcceptedAll(ps)[i].id == ps[i].id;
    AsTableContents(AcceptedAll(ps));
    forall k | k in AsTable(AcceptedAll(ps)) ensures k in NewIds(CreateRules(ps)) {
      var r := AsTable(AcceptedAll(ps))[k];
      var i :| 0 <= i < |ps| && AcceptedAll(ps)[i] == r;
      assert ps[i].id == k;
    }
  }

  lemma ReorderKeepsIds(rows: Table, owner: string, order: seq<string>)
    ensures Reordered(rows, owner, order).Keys <= rows.Keys
  {
  }

  /** Which requests are refused, and the table after the request: as asked for, or as it was, except that a
  failed update that moves the rule stays. */
  ghost predicate Served(r: Request, rows: Table, out: Outcome, after: Table) {
    && (out.Rejected? <==> !Accepts(r, rows))
    && (out.Rejected? ==> after == rows)
    && (out.Done? ==> Accepts(r, rows) && after == Target(r, rows))
    && (out.RefreshFailed? ==> Accepts(r, rows) && after == if Moving(rows, r) then Written(r, rows) else rows)
  }

  ghost predicate Accepts(r: Request, rows: Table) {
    match r
    case CreateRule(p) => PayloadOk(p) && !PriorityTaken(rows, p.priority, None) && p.id != "" && p.id !in rows
    case CreateRules(ps) => BatchOk(ps) && NewRows(rows, ps)
    case UpdateRule(p) => p.id in rows && PayloadOk(p) && !PriorityTaken(rows, p.priority, Some(p.id))
    case ReorderRules(owner, order) => NoneTwice(order, OnlyOwner(rows, owner))
    case DeleteRule(rid) => rid in rows
    case EnableRule(rid, on) => rid in rows
  }

  /** The table that the request asks for. */
  ghost function Target(r: Request, rows: Table): Table
    requires Accepts(r, rows)
  {
    match r
    case CreateRule(p) => rows[p.id := Validated(p)]
    case CreateRules(ps) => rows + AsTable(AcceptedAll(ps))
    case UpdateRule(p) => rows[p.id := Accepted(p, rows[p.id].ownerId)]
    case ReorderRules(owner, order) => Reordered(rows, owner, order)
    case DeleteRule(rid) => rows - {rid}
    case EnableRule(rid, on) => rows[rid := rows[rid].(enabled := on)]
  }

  /** The row of a moving update, as it was written. */
  ghost function Written(r: Request, rows: Table): Table
    requires Moving(rows, r) && Accepts(r, rows)
  {
    rows[r.payload.id := Validated(r.payload)]
  }

  /** All that one request does to table and kernel. */
  ghost predicate EventOk(e: Event, env: Env) {
    && Served(e.request, e.before.rows, e.out, e.after.rows)
    && e.before.refusals <= e.after.refusals
    && OthersKept(e.before.sets, e.after.sets)
    && (e.out.Done? ==> InStepSince(e, e.after, env))
    && (e.out.RefreshFailed? ==> UndoBegins(e.before.refusals, e.mark, e.after.refusals))
    && (Accepts(e.request, e.before.rows) ==>
        FailsOnlyIfRefused(e.out, e.before.refusals, e.mark, Target(e.request, e.before.rows), env))
    && (e.out.Rejected? ==> e.after == e.before)
    && (e.out.RefreshFailed? && Undone(e) ==> e.after.sets == e.before.sets && e.after.chain == e.before.chain)
  }

  method Serve(service: FirewallRuleService, r: Request, env: Env) returns (out: Outcome, ghost mark: nat)
    requires service.Valid() && AboutStoredRules(r)
    modifies service, service.iptables.ipsets, service.iptables.kernel
    ensures service.Valid()
    ensures EventOk(Event(r, old(PointOf(service)), out, mark, PointOf(service)), env)
    ensures service.rows.Keys <= old(service.rows).Keys + NewIds(r)
  {
    hide Served, NewIds, OthersKept, InStepSince, FailsOnlyIfRefused, Accepts, Target;
    if r.CreateRule? || r.CreateRules? {
      out, mark := ServeNew(service, r, env);
    } else {
      out, mark := ServeStored(service, r, env);
    }
    ServedKeys(r, old(service.rows), out, service.rows);
  }

  method ServeNew(service: FirewallRuleService, r: Request, env: Env) returns (out: Outcome, ghost mark: nat)
    requires service.Valid() && AboutStoredRules(r) && (r.CreateRule? || r.CreateRules?)
    modifies service, service.iptables.ipsets, service.iptables.kernel
    ensures service.Valid()
    ensures EventOk(Event(r, old(PointOf(service)), out, mark, PointOf(service)), env)
  {
    hide InStep, Feasible, CarriedOutBy, ManagedExactly, OrphansAtMost, OthersKept, IdentifiersOk, PayloadOk,
      BatchOk, NewRows, PriorityTaken, NoneTwice, OnlyOwner, Reordered, Validated, Accepted, AsTable, StoredPort,
      OwnerExists, FailsOnlyIfRefused, UndoBegins, Moves, NewIds, AsSent, AllAsSent;
    KeptItself(service.iptables.kernel.sets);
    match r {
      case CreateRule(payload) => out, mark := service.Create(payload, true, env);
      case CreateRules(payloads) => out, mark := service.CreateMany(payloads, env);
    }
    InStepIs(service.iptables.kernel, service.rows, env);
  }

  method ServeStored(service: FirewallRuleService, r: Request, env: Env) returns (out: Outcome, ghost mark: nat)
    requires service.Valid() && AboutStoredRules(r) && !(r.CreateRule? || r.CreateRules?)
    modifies service, service.iptables.ipsets, service.iptables.kernel
    ensures service.Valid()
    ensures EventOk(Event(r, old(PointOf(service)), out, mark, PointOf(service)), env)
  {
    hide InStep, Feasible, CarriedOutBy, ManagedExactly, OrphansAtMost, OthersKept, IdentifiersOk, PayloadOk,
      BatchOk, NewRows, PriorityTaken, NoneTwice, OnlyOwner, Reordered, Validated, Accepted, AsTable, StoredPort,
      OwnerExists, FailsOnlyIfRefused, UndoBegins, Moves, NewIds, AsSent, AllAsSent;
    KeptItself(service.iptables.kernel.sets);
    match r {
      case UpdateRule(payload) => out, mark := service.UpdateById(payload.id, payload, env);
      case ReorderRules(owner, order) => out, mark := service.Reorder(owner, order, env);
      case DeleteRule(rid) => out, mark := service.Delete(rid, env);
      case EnableRule(rid, on) => out, mark := service.SetEnabled(rid, on, env);
    }
    InStepIs(service.iptables.kernel, service.rows, env);
  }

  lemma ServedKeys(r: Request, rows: Table, out: Outcome, after: Table)
    ensures Served(r, rows, out, after) ==> after.Keys <= rows.Keys + NewIds(r)
  {
    hide PayloadOk, BatchOk, NoneTwice, OnlyOwner, Reordered, PriorityTaken, Validated, Accepted;
    if Accepts(r, rows) {
      match r {
        case CreateRules(ps) => BatchIds(ps);
        case ReorderRules(owner, order) => ReorderKeepsIds(rows, owner, order);
        case _ =>
      }
    }
  }

  // --------------------------------------------------------------------- runs

  /** A history that leads from one point to another, one request after the other. */
  ghost predicate Leads(a: Point, h: seq<Event>, b: Point, env: Env)
    decreases |h|
  {
    if h == [] then a == b
    else
      var last := h[|h| - 1];
      last.after == b && EventOk(last, env) && Leads(a, h[..|h| - 1], last.before, env)
  }

  lemma OneMoreEvent(a: Point, h: seq<Event>, e: Event, env: Env)
    requires Leads(a, h, e.before, env) && EventOk(e, env)
    ensures Leads(a, h + [e], e.after, env)
  {
    hide EventOk;
    assert (h + [e])[..|h|] == h;
  }

  /** What a run is worth. A kernel in step at the start stays in step if all events are harmless; wherever
  the run started, since the last request that was carried out the kernel carries out the table, with exactly
  its sets if nothing was refused then and at most the orphans of before otherwise; sets of other programs are
  as they were. */
  ghost predicate Worth(a: Point, h: seq<Event>, b: Point, env: Env) {
    && (InStepAt(a, env) && AllHarmless(h) ==> InStepAt(b, env))
    && (forall d: nat :: LastDone(h, d) ==> InStepSince(h[d], b, env))
    && OthersKept(a.sets, b.sets)
  }

  /** Whatever requests are served, and whatever the kernel refuses on the way: table and kernel go from
  event to event, each of which did what its request asks for, and the run is worth what it should be. */
  method ServeAll(service: FirewallRuleService, requests: seq<Request>, env: Env) returns (ghost history: seq<Event>)
    requires service.Valid() && forall i :: 0 <= i < |requests| ==> AboutStoredRules(requests[i])
    modifies service, service.iptables.ipsets, service.iptables.kernel
    ensures service.Valid()
    ensures |history| == |requests| && forall i :: 0 <= i < |requests| ==> history[i].request == requests[i]
    ensures Leads(old(PointOf(service)), history, PointOf(service), env)
    ensures Worth(old(PointOf(service)), history, PointOf(service), env)
  {
    hide EventOk, Leads, Worth;
    ghost var start := PointOf(service);
    history := [];
    assert Leads(start, history, start, env) by { NoEventYet(start, env); }
    for i := 0 to |requests|
      invariant service.Valid() && |history| == i
      invariant forall k :: 0 <= k < i ==> history[k].request == requests[k]
      invariant Leads(start, history, PointOf(service), env)
    {
      ghost var before := PointOf(service);
      var out;
      ghost var mark;
      out, mark := Serve(service, requests[i], env);
      ghost var e := Event(requests[i], before, out, mark, PointOf(service));
      OneMoreEvent(start, history, e, env);
      history := history + [e];
    }
    RunIsWorth(start, history, PointOf(service), env);
  }

  lemma RunIsWorth(a: Point, h: seq<Event>, b: Point, env: Env)
    requires Leads(a, h, b, env)
    ensures Worth(a, h, b, env)
  {
    hide Leads, InStepAt, InStepSince, AllHarmless, OthersKept;
    if InStepAt(a, env) && AllHarmless(h) {
      StaysInStep(a, h, b, env);
    }
    forall d: nat | LastDone(h, d) ensures InStepSince(h[d], b, env) {
      InStepSinceLastDone(a, h, b, d, env);
    }
    OthersStay(a, h, b, env);
  }

  lemma NoEventYet(p: Point, env: Env)
    ensures Leads(p, [], p, env)
  {
  }

  // -------------------------------------------------- what every run promises

  lemma FrontIsHarmless(h: seq<Event>)
    requires h != []
    ensures AllHarmless(h) <==> AllHarmless(h[..|h| - 1]) && Harmless(h[|h| - 1])
  {
    hide Harmless;
  }

  /** A kernel in step stays in step as long as every event is harmless: no undo was itself refused, and no
  failed update moved a rule. */
  lemma {:induction false} StaysInStep(a: Point, h: seq<Event>, b: Point, env: Env)
    requires Leads(a, h, b, env) && InStepAt(a, env) && AllHarmless(h)
    ensures InStepAt(b, env)
    decreases |h|
  {
    hide InStepAt, Served, OthersKept, OrphansAtMost, ManagedExactly, IdentifiersOk;
    if h != [] {
      FrontIsHarmless(h);
      StaysInStep(a, h[..|h| - 1], h[|h| - 1].before, env);
      HarmlessKeeps(h[|h| - 1], env);
    }
  }

  /** A harmless event that was not carried out changed nothing. */
  lemma HarmlessKeeps(e: Event, env: Env)
    requires EventOk(e, env) && Harmless(e)
    ensures e.out.Done? ==> InStepSince(e, e.after, env) && InStepAt(e.after, env)
    ensures !e.out.Done? ==>
      e.after.rows == e.before.rows && e.after.sets == e.before.sets && e.after.chain == e.before.chain
    ensures !e.out.Done? && InStepAt(e.before, env) ==> InStepAt(e.after, env)
  {
    hide CarriedOutBy, OthersKept, OrphansAtMost, ManagedExactly, IdentifiersOk, Accepts;
  }

  /** Wherever the run started: since the last request that was carried out the kernel carries out the table,
  with at most the orphans of before, and with exactly the table's sets if nothing was refused then. */
  lemma {:induction false} InStepSinceLastDone(a: Point, h: seq<Event>, b: Point, d: nat, env: Env)
    requires Leads(a, h, b, env) && LastDone(h, d)
    ensures InStepSince(h[d], b, env)
    decreases |h|
  {
    hide InStepSince, EventOk, Leads, Harmless, LastDone;
    var n := |h| - 1;
    HarmlessOrDone(h, d);
    LastEvent(a, h, b, env);
    HarmlessKeeps(h[n], env);
    if d < n {
      InStepSinceLastDone(a, h[..n], h[n].before, d, env);
      SameInStep(h[d], h[n].before, b, env);
    }
  }

  lemma HarmlessOrDone(h: seq<Event>, d: nat)
    requires LastDone(h, d)
    ensures d < |h| && Harmless(h[|h| - 1])
    ensures d < |h| - 1 ==> !h[|h| - 1].out.Done? && LastDone(h[..|h| - 1], d)
    ensures d == |h| - 1 ==> h[d].out.Done?
  {
    hide Undone, Moving;
  }

  lemma LastEvent(a: Point, h: seq<Event>, b: Point, env: Env)
    requires Leads(a, h, b, env) && h != []
    ensures h[|h| - 1].after == b && EventOk(h[|h| - 1], env) && Leads(a, h[..|h| - 1], h[|h| - 1].before, env)
  {
    hide EventOk;
  }

  lemma SameInStep(e: Event, p: Point, q: Point, env: Env)
    requires InStepSince(e, p, env) && p.rows == q.rows && p.sets == q.sets && p.chain == q.chain
    ensures InStepSince(e, q, env)
  {
    hide CarriedOutBy, OrphansAtMost, ManagedExactly, IdentifiersOk;
  }

  /** Sets of other programs are untouched by any run. */
  lemma {:induction false} OthersStay(a: Point, h: seq<Event>, b: Point, env: Env)
    requires Leads(a, h, b, env)
    ensures OthersKept(a.sets, b.sets) && a.refusals <= b.refusals
    decreases |h|
  {
    hide OthersKept, Served, InStepSince;
    if h == [] {
      KeptItself(a.sets);
    } else {
      OthersStay(a, h[..|h| - 1], h[|h| - 1].before, env);
      KeptThrough(a.sets, h[|h| - 1].before.sets, b.sets);
    }
  }

  /** In a run in which nothing was refused, every event is quiet and every failure undone; so all are
  harmless unless an update that moves a rule failed. And a request fails only for a table that the kernel
  cannot carry out, be it for a tag or an address that is not known. */
  lemma {:induction false} QuietRun(a: Point, h: seq<Event>, b: Point, env: Env)
    requires Leads(a, h, b, env) && a.refusals == b.refusals
    ensures forall i :: 0 <= i < |h| ==> Quiet(h[i])
    ensures forall i :: 0 <= i < |h| ==>
      (Harmless(h[i]) <==> !(h[i].out.RefreshFailed? && Moving(h[i].before.rows, h[i].request)))
    ensures forall i :: 0 <= i < |h| && h[i].out.RefreshFailed? ==>
      Accepts(h[i].request, h[i].before.rows) && !Feasible(Target(h[i].request, h[i].before.rows), env)
    decreases |h|
  {
    hide OthersKept, InStepSince, Moving, Accepts, Target, Written, Feasible;
    if h != [] {
      OthersStay(a, h[..|h| - 1], h[|h| - 1].before, env);
      QuietRun(a, h[..|h| - 1], h[|h| - 1].before, env);
    }
  }
}
