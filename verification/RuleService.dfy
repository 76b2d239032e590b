/** Centre rule management: the rule table and the kernel change together or not at all. */
module RuleService {
  import opened Wrappers
  import opened Ipv4
  import opened Text
  import opened Ports
  import opened FirewallModel
  import opened ForwardPlan
  import opened IpsetTransactions
  import opened IptablesApply
  import opened RuleStore
  import opened RuleEdits
  import opened RuleResolution

  /** How an operation ends: carried out; refused before anything was written; or written, and the refresh
  raised. Rows are taken back then, and sites are not. */
  datatype Outcome = Done | Rejected | RefreshFailed

  predicate NoMalformed(xs: seq<AddrText>) {
    forall i :: 0 <= i < |xs| ==> !xs[i].Malformed?
  }

  /** The field checks made before a rule is stored. Host names pass; they fail at the refresh. */
  predicate PayloadOk(r: Rule) {
    DestPort(r.destPort).Ok? && NoMalformed(r.destIp) && NoMalformed(r.sourceIps)
  }

  function Validated(r: Rule): Rule
    requires PayloadOk(r)
  {
    r.(destPort := DestPort(r.destPort).value)
  }

  /** The row that an accepted payload becomes among the owner's rows. */
  function Accepted(r: Rule, owner: string): Rule
    requires PayloadOk(r)
  {
    Stamp(Validated(r), owner)
  }

  /** The stored rule is the one sent: only the port text may be written otherwise, and then it admits the same
  packets; a blank owner is filled in. */
  ghost predicate AsSent(stored: Rule, sent: Rule) {
    && stored.(destPort := sent.destPort, ownerId := sent.ownerId) == sent
    && (sent.ownerId != "" ==> stored.ownerId == sent.ownerId)
    && forall pkt: Packet ::
        ServiceAdmits(stored.protocol, stored.destPort, pkt) <==> ServiceAdmits(sent.protocol, sent.destPort, pkt)
  }

  lemma AcceptedAsSent(p: Rule, owner: string)
    requires PayloadOk(p)
    ensures AsSent(Validated(p), p) && AsSent(Accepted(p, owner), p)
  {
    hide ServiceAdmits, DestPort;
    forall pkt: Packet
      ensures ServiceAdmits(p.protocol, DestPort(p.destPort).value, pkt) <==> ServiceAdmits(p.protocol, p.destPort, pkt)
    {
      ValidationKeepsService(p.protocol, p.destPort, pkt);
    }
  }

  predicate PriorityTaken(rows: Table, priority: int, except: Option<string>) {
    exists k :: k in rows && rows[k].priority == priority && Some(k) != except
  }

  /** The port text is readable, and no address text is malformed. */
  ghost predicate MayBeStored(p: Rule) {
    && (p.destPort.Some? ==> ReadableText(p.destPort.value))
    && forall x: AddrText :: x in p.destIp || x in p.sourceIps ==> !x.Malformed?
  }

  /** No rule but the excepted one has the priority. */
  ghost predicate PriorityFree(rows: Table, priority: int, except: Option<string>) {
    forall k :: k in rows && rows[k].priority == priority ==> Some(k) == except
  }

  lemma PayloadIs(p: Rule)
    ensures PayloadOk(p) <==> MayBeStored(p)
  {
    hide DestPort, ReadableText;
    if p.destPort.Some? {
      AcceptedTexts(p.destPort.value);
    } else {
      NoTextIsOk();
    }
    if NoMalformed(p.destIp) && NoMalformed(p.sourceIps) {
      forall x: AddrText | x in p.destIp || x in p.sourceIps ensures !x.Malformed? { }
    }
  }

  lemma NoTextIsOk()
    ensures DestPort(None).Ok?
  {
  }

  lemma PriorityIs(rows: Table, priority: int, except: Option<string>)
    ensures PriorityTaken(rows, priority, except) <==> !PriorityFree(rows, priority, except)
  {
  }

  predicate AllPayloadsOk(ps: seq<Rule>) {
    forall i :: 0 <= i < |ps| ==> PayloadOk(ps[i])
  }

  predicate DistinctPriorities(ps: seq<Rule>) {
    forall i, j :: 0 <= i < j < |ps| ==> ps[i].priority != ps[j].priority
  }

  predicate BatchOk(ps: seq<Rule>) {
    ps != [] && AllPayloadsOk(ps) && BatchOwner(ps).Some? && DistinctPriorities(ps)
  }

  function ValidatedAll(ps: seq<Rule>): seq<Rule>
    requires AllPayloadsOk(ps)
  {
    seq(|ps|, i requires 0 <= i < |ps| => Validated(ps[i]))
  }

  function StampAll(rules: seq<Rule>, owner: string): seq<Rule> {
    seq(|rules|, i requires 0 <= i < |rules| => Stamp(rules[i], owner))
  }

  function AcceptedAll(ps: seq<Rule>): seq<Rule>
    requires BatchOk(ps)
  {
    seq(|ps|, i requires 0 <= i < |ps| => Accepted(ps[i], BatchOwner(ps).value))
  }

  /** A batch is stored: it is not empty, each rule may be stored, with one owner for all, and identifiers and
  priorities are unused and differ. */
  ghost predicate BatchMayBeStored(rows: Table, ps: seq<Rule>) {
    && ps != [] && OneOwner(ps)
    && (forall i :: 0 <= i < |ps| ==>
        MayBeStored(ps[i]) && PriorityFree(rows, ps[i].priority, None) && ps[i].id != "" && ps[i].id !in rows)
    && forall i, j :: 0 <= i < j < |ps| ==> ps[i].id != ps[j].id && ps[i].priority != ps[j].priority
  }

  lemma BatchIs(rows: Table, ps: seq<Rule>)
    ensures BatchOk(ps) && NewRows(rows, ps) <==> BatchMayBeStored(rows, ps)
  {
    hide PayloadOk, MayBeStored, PriorityTaken, PriorityFree, BatchOwner, OneOwner;
    BatchOwnerIs(ps);
    forall i | 0 <= i < |ps|
      ensures PayloadOk(ps[i]) <==> MayBeStored(ps[i])
      ensures PriorityTaken(rows, ps[i].priority, None) <==> !PriorityFree(rows, ps[i].priority, None)
    {
      PayloadIs(ps[i]);
      PriorityIs(rows, ps[i].priority, None);
    }
  }

  /** Identifiers and priorities of a batch are unused. */
  predicate NewRows(rows: Table, ps: seq<Rule>) {
    && DistinctIds(ps)
    && (forall i :: 0 <= i < |ps| ==> ps[i].id != "" && ps[i].id !in rows && !PriorityTaken(rows, ps[i].priority, None))
  }

  predicate PrioritiesFree(rows: Table, ps: seq<Rule>) {
    forall i :: 0 <= i < |ps| ==> !PriorityTaken(rows, ps[i].priority, None)
  }

  /** The kernel began to undo when `mark` commands had been refused: one or two after `before`, the count
  at the start, or none when no command was to blame. */
  ghost predicate UndoBegins(before: nat, mark: nat, now: nat) {
    before <= mark <= before + 2 && mark <= now
  }

  /** A table that the kernel can carry out fails to be carried out only at a refused command. */
  ghost predicate FailsOnlyIfRefused(out: Outcome, before: nat, mark: nat, target: Table, env: Env) {
    out.RefreshFailed? && Feasible(target, env) ==> before < mark
  }

  ghost predicate TableOk(rows: Table) {
    WellKeyed(rows) && forall k :: k in rows ==> k != "" && StoredPort(rows[k].destPort)
  }

  class FirewallRuleService {
    var rows: Table  // the firewall_rules table
    var snapshots: map<string, seq<Rule>>  // owners' rows before a write that is not confirmed yet
    const iptables: IptablesManager

    constructor (iptables: IptablesManager)
      requires iptables.Valid()
      ensures this.iptables == iptables && rows == map[] && Valid()
    {
      this.iptables, rows, snapshots := iptables, map[], map[];
    }

    /** A leftover snapshot (from a request that was refused after the snapshot was taken) can only
    belong to an owner that still has rows, so it is always overwritten before it could be used. */
    ghost predicate Valid()
      reads this, iptables, iptables.ipsets, iptables.kernel
    {
      && iptables.Valid()
      && TableOk(rows)
      && (forall o :: o in snapshots ==> OwnerExists(rows, o))
    }

    ghost predicate KernelAsBefore(sets: Sets, chain: seq<Line>)
      reads iptables, iptables.kernel
    {
      iptables.kernel.sets == sets && iptables.kernel.chain == chain
    }

    /** A refresh went through: the kernel is in step with the table; besides its sets there are at most
    orphans; and when nothing was refused the managed sets are exactly the table's. */
    ghost predicate CarriedOut(before: Sets, refusals: nat, env: Env)
      reads this`rows, iptables, iptables.kernel
    {
      && InStep(iptables.kernel, rows, env)
      && OrphansAtMost(before, iptables.kernel.sets, rows, env)
      && (iptables.kernel.refusals == refusals && IdentifiersOk(rows, env) ==>
          ManagedExactly(iptables.kernel.sets, rows, env))
    }

    /** Resolve tags, collect peers, and rewrite the centre chain; raises when any of it fails. */
    method RefreshKernel(env: Env) returns (raised: bool, ghost mark: nat)
      requires iptables.Valid() && TableOk(rows)
      modifies iptables.ipsets, iptables.kernel
      ensures iptables.Valid()
      ensures !raised ==> CarriedOut(old(iptables.kernel.sets), old(iptables.kernel.refusals), env)
      ensures OthersKept(old(iptables.kernel.sets), iptables.kernel.sets)
      ensures old(iptables.kernel.refusals) <= iptables.kernel.refusals
      ensures raised ==> UndoBegins(old(iptables.kernel.refusals), mark, iptables.kernel.refusals)
      ensures raised && iptables.kernel.refusals == mark ==>
        KernelAsBefore(old(iptables.kernel.sets), old(iptables.kernel.chain))
      ensures raised && Feasible(rows, env) ==> old(iptables.kernel.refusals) < mark
      ensures raised ==> BackExceptFor(old(iptables.kernel.sets), iptables.kernel.sets,
                           iptables.kernel.refusals - mark -
                           Missed(iptables.kernel.chain == old(iptables.kernel.chain)))
    {
      hide InForceOn, RefreshSafe, RefreshSafeSince, Converged, Deployable, KnownTag, StoredPort, Compile, WantOf,
        InStep, OrphansAtMost, ManagedExactly, OthersKept, IdentifiersOk, BackExceptFor;
      BackExceptForNone(iptables.kernel.sets, iptables.kernel.sets);
      ghost var before, refusals := iptables.kernel.sets, iptables.kernel.refusals;
      var listed := ListRows(rows);
      var rules := ResolveTagRules(listed, env.dir);
      if rules.None? {
        assert OthersKept(before, before) by { KeptItself(before); }
        return true, iptables.kernel.refusals;
      }
      var peers := CollectCenterPeers(env.peerRows);
      if Feasible(rows, env) {
        FeasibleIsDeployable(rows, env);
      }
      var ok;
      ok, mark := iptables.RefreshVpnForwardOnly(rules.value, peers);
      RefreshKeepsOthers(before, WantedSets(rows, env), iptables.kernel.sets);
      if ok {
        RefreshWentThrough(iptables.kernel, before, rows, env, iptables.kernel.refusals == refusals);
      }
      return !ok, mark;
    }

    /** Restore the owner's rows from its snapshot; the store refuses when another owner holds one of
    the identifiers by now. */
    method RollbackRows(owner: string, hadMain: bool)
      requires TableOk(rows)
      modifies this`rows, this`snapshots
      ensures var snap :=
        if owner in old(snapshots) then old(snapshots)[owner] else if !hadMain then [] else OwnerRows(old(rows), owner);
        rows == match ReplaceOwner(old(rows), owner, snap) case Some(t) => t case None => old(rows)
      ensures snapshots == old(snapshots) - {owner}
    {
      var snap: seq<Rule>;
      if owner in snapshots {
        snap := snapshots[owner];
      } else if !hadMain {
        snap := [];
      } else {
        snap := LoadRules(owner);
      }
      snapshots := snapshots - {owner};
      var replaced := ReplaceOwner(rows, owner, snap);
      if replaced.Some? {
        rows := replaced.value;
      }
    }

    /** The common tail of every operation: write the owner's rows, refresh the kernel, and put the
    rows back when the refresh raises. The caller took the snapshot of an owner that exists. */
    method SaveAndRefresh(owner: string, list: seq<Rule>, hadMain: bool,
        env: Env) returns (out: Outcome, ghost mark: nat)
      requires iptables.Valid() && TableOk(rows)
      requires forall r :: r in list ==> StoredPort(r.destPort)
      requires hadMain == OwnerExists(rows, owner)
      requires hadMain ==> owner in snapshots && snapshots[owner] == OwnerRows(rows, owner)
      requires forall o :: o in snapshots ==> OwnerExists(rows, o)
      modifies this`rows, this`snapshots, iptables.ipsets, iptables.kernel
      ensures iptables.Valid() && TableOk(rows)
      ensures out.Rejected? <==> ReplaceOwner(old(rows), owner, list).None?
      ensures out.Rejected? ==> rows == old(rows) && snapshots == old(snapshots)
      ensures out.Rejected? ==> unchanged(iptables.kernel)
      ensures out.Done? ==> Some(rows) == ReplaceOwner(old(rows), owner, list)
      ensures out.Done? ==> CarriedOut(old(iptables.kernel.sets), old(iptables.kernel.refusals), env)
      ensures OthersKept(old(iptables.kernel.sets), iptables.kernel.sets)
      ensures out.RefreshFailed? ==>
        rows == if OwnRows(list, owner) then old(rows) else AfterFailedRestore(old(rows), owner, list)
      ensures old(iptables.kernel.refusals) <= iptables.kernel.refusals
      ensures out.RefreshFailed? ==> UndoBegins(old(iptables.kernel.refusals), mark, iptables.kernel.refusals)
      ensures out.RefreshFailed? && iptables.kernel.refusals == mark ==>
        KernelAsBefore(old(iptables.kernel.sets), old(iptables.kernel.chain))
      ensures out.RefreshFailed? && FeasibleAfter(old(rows), owner, list, env) ==> old(iptables.kernel.refusals) < mark
      ensures forall o :: o in snapshots ==> o in old(snapshots) && OwnerExists(rows, o)
    {
      hide StoredPort, CarriedOut, InStep, Feasible, DistinctIds;
      mark := iptables.kernel.refusals;
      var replaced := ReplaceOwner(rows, owner, list);
      if replaced.None? {
        return Rejected, mark;
      }
      ReplacedTableOk(rows, owner, list);
      rows := replaced.value;
      var raised;
      raised, mark := RefreshKernel(env);
      if raised {
        if OwnRows(list, owner) {
          RestoredAfter(old(rows), owner, list);
        }
        RestoredTableOk(old(rows), owner, list);
        RollbackRows(owner, hadMain);
        RestoreKeepsOthers(old(rows), owner, list);
        OthersRemain(old(rows), rows, owner);
        return RefreshFailed, mark;
      }
      if hadMain {
        snapshots := snapshots - {owner};
      }
      ReplaceKeepsOthers(old(rows), owner, list);
      OthersRemain(old(rows), rows, owner);
      return Done, mark;
    }

    /** The owner's rows, in listing order. */
    method LoadRules(owner: string) returns (own: seq<Rule>)
      requires TableOk(rows)
      ensures own == OwnerRows(rows, owner)
    {
      var listed := ListRows(rows);
      own := OwnedBy(listed, owner);
    }

    /** Take the owner's snapshot when it has rows. */
    method BackUp(owner: string) returns (existing: seq<Rule>, hadMain: bool)
      requires TableOk(rows)
      modifies this`snapshots
      ensures existing == OwnerRows(rows, owner) && hadMain == OwnerExists(rows, owner)
      ensures snapshots == if hadMain then old(snapshots)[owner := existing] else old(snapshots)
    {
      existing := LoadRules(owner);
      hadMain := OwnerExists(rows, owner);
      if hadMain {
        snapshots := snapshots[owner := existing];
      }
    }

    /** Write the owner's rows and leave the kernel alone. */
    method StoreOnly(owner: string, list: seq<Rule>) returns (out: Outcome)
      requires TableOk(rows) && forall r :: r in list ==> StoredPort(r.destPort)
      modifies this`rows
      ensures TableOk(rows) && !out.RefreshFailed?
      ensures out.Rejected? <==> ReplaceOwner(old(rows), owner, list).None?
      ensures out.Rejected? ==> rows == old(rows)
      ensures out.Done? ==> Some(rows) == ReplaceOwner(old(rows), owner, list)
    {
      hide StoredPort, DistinctIds, AsTable;
      var replaced := ReplaceOwner(rows, owner, list);
      if replaced.None? {
        return Rejected;
      }
      ReplacedTableOk(rows, owner, list);
      rows := replaced.value;
      return Done;
    }

    /** Create one rule. The snapshot is taken before the priority check, so a rule refused for its
    priority leaves the snapshot behind. The setup wizard stores without refreshing; that, too, leaves
    the snapshot behind. */
    method Create(payload: Rule, refreshKernel: bool, env: Env) returns (out: Outcome, ghost mark: nat)
      requires Valid()
      modifies this, iptables.ipsets, iptables.kernel
      ensures Valid()
      ensures !out.Rejected? <==>
        PayloadOk(payload) && !PriorityTaken(old(rows), payload.priority, None) && payload.id != "" &&
        payload.id !in old(rows)
      ensures !out.Rejected? <==>
        MayBeStored(payload) && PriorityFree(old(rows), payload.priority, None) && payload.id != "" &&
        payload.id !in old(rows)
      ensures out.Done? ==> rows == old(rows)[payload.id := Validated(payload)]
      ensures out.Done? ==> AsSent(rows[payload.id], payload)
      ensures !out.Rejected? ==>
        var target := old(rows)[payload.id := Validated(payload)];
          FailsOnlyIfRefused(out, old(iptables.kernel.refusals), mark, target, env)
      ensures refreshKernel ==>
        Transactional(out, mark, old(rows), old(iptables.kernel.sets), old(iptables.kernel.chain),
          old(iptables.kernel.refusals), env)
      ensures !refreshKernel ==>
        !out.RefreshFailed? && unchanged(iptables.kernel) && (out.Rejected? ==> rows == old(rows))
    {
      hide StoredPort, CarriedOut, InStep, Feasible, OwnerRows, NoMalformed, AsTable, ReplaceOwner, OwnerExists,
        PriorityTaken, AsSent, MayBeStored, PriorityFree;
      PayloadIs(payload);
      PriorityIs(rows, payload.priority, None);
      mark := iptables.kernel.refusals;
      var port := ValidateDestPort(payload.destPort);
      if port.Err? || !NoMalformed(payload.destIp) || !NoMalformed(payload.sourceIps) {
        return Rejected, mark;
      }
      var rule := payload.(destPort := port.value);
      ValidatedIsStored(payload.destPort);
      AcceptedAsSent(payload, "");
      var existing, hadMain := BackUp(rule.ownerId);
      if PriorityTaken(rows, rule.priority, None) {
        return Rejected, mark;
      }
      OwnerRowsStored(rows, rule.ownerId);
      AppendRow(rows, rule.ownerId, [rule]);
      SingleRow(rows, rule);
      if !refreshKernel {
        out := StoreOnly(rule.ownerId, existing + [rule]);
        if out.Done? {
          RowStays(old(rows), rule);
        }
        return out, mark;
      }
      out, mark := SaveAndRefresh(rule.ownerId, existing + [rule], hadMain, env);
    }

    /** The checks of a batch that look at the batch alone, payload by payload. */
    method CheckBatch(payloads: seq<Rule>) returns (r: Option<(string, seq<Rule>)>)
      ensures r.Some? <==> BatchOk(payloads)
      ensures r.Some? ==> r.value == (BatchOwner(payloads).value, ValidatedAll(payloads))
    {
      hide BatchSoFar, BatchOk, BatchOwner, PayloadOk, AllPayloadsOk;
      NoBatchYet(payloads);
      var owner, rules: seq<Rule>, priorities: set<int> := "", [], {};
      for i := 0 to |payloads|
        invariant BatchSoFar(payloads, i, owner, rules, priorities)
      {
        var p := payloads[i];
        var port := ValidateDestPort(p.destPort);
        if port.Err? || !NoMalformed(p.destIp) || !NoMalformed(p.sourceIps) {
          BadPayload(payloads, i, port);
          return None;
        }
        if owner != "" && owner != p.ownerId {
          MixedOwners(payloads, i, owner, rules, priorities);
          return None;
        }
        if owner == "" {
          owner := p.ownerId;
        }
        if p.priority in priorities {
          SamePriority(payloads, i, owner, rules, priorities);
          return None;
        }
        OneMorePayload(payloads, i, owner, rules, priorities, port);
        priorities := priorities + {p.priority};
        rules := rules + [p.(destPort := port.value)];
      }
      BatchDone(payloads, owner, rules, priorities);
      r := if payloads == [] then None else Some((owner, rules));
    }

    /** The checks of a batch against the owner's identifiers and everyone's priorities. */
    method ClashesWithTable(ghost payloads: seq<Rule>, owner: string, rules: seq<Rule>) returns (clash: bool)
      requires TableOk(rows) && AllPayloadsOk(payloads) && rules == ValidatedAll(payloads)
      ensures clash ==> !NewRows(rows, payloads)
      ensures !clash ==> PrioritiesFree(rows, payloads)
    {
      hide StoredPort, OwnerRows, DistinctIds, PriorityTaken, PayloadOk;
      var own := LoadRules(owner);
      OwnerRowsAre(rows, owner);
      if exists i, j :: 0 <= i < |own| && 0 <= j < |rules| && own[i].id == rules[j].id {
        KnownIdentifier(rows, payloads, own, rules);
        return true;
      }
      if exists i :: 0 <= i < |rules| && PriorityTaken(rows, rules[i].priority, None) {
        UsedPriority(rows, payloads, rules);
        return true;
      }
      assert forall i :: 0 <= i < |rules| ==> rules[i].priority == payloads[i].priority;
      return false;
    }

    /** Create rules of one owner with a single refresh. */
    method CreateMany(payloads: seq<Rule>, env: Env) returns (out: Outcome, ghost mark: nat)
      requires Valid()
      modifies this, iptables.ipsets, iptables.kernel
      ensures Valid()
      ensures !out.Rejected? <==> BatchOk(payloads) && NewRows(old(rows), payloads)
      ensures !out.Rejected? <==> BatchMayBeStored(old(rows), payloads)
      ensures out.Done? ==> rows == old(rows) + AsTable(AcceptedAll(payloads))
      ensures out.Done? ==> AllAsSent(rows, payloads)
      ensures !out.Rejected? ==>
        var target := old(rows) + AsTable(AcceptedAll(payloads));
          FailsOnlyIfRefused(out, old(iptables.kernel.refusals), mark, target, env)
      ensures Transactional(out, mark, old(rows), old(iptables.kernel.sets), old(iptables.kernel.chain),
        old(iptables.kernel.refusals), env)
    {
      hide StoredPort, CarriedOut, InStep, Feasible, OwnerRows, AsTable, ReplaceOwner, AfterFailedRestore,
        PayloadOk, BatchOk, NewRows, DistinctIds, OwnerExists, ValidatedAll, StampAll, AcceptedAll, UndoBegins,
        AllAsSent, BatchMayBeStored;
      BatchIs(rows, payloads);
      mark := iptables.kernel.refusals;
      var checked := CheckBatch(payloads);
      if checked.None? {
        return Rejected, mark;
      }
      assert AllPayloadsOk(payloads) by { BatchIsChecked(payloads); }
      var (owner, rules) := checked.value;
      var clash := ClashesWithTable(payloads, owner, rules);
      if clash {
        return Rejected, mark;
      }
      var added := StampAll(rules, owner);
      StampedBatch(payloads);
      var existing, hadMain := BackUp(owner);
      AcceptedRows(payloads);
      OwnerRowsStored(rows, owner);
      AppendRow(rows, owner, added);
      if NewRows(rows, payloads) {
        BatchAsSent(rows, payloads);
      }
      BatchAccepted(rows, payloads);
      out, mark := SaveAndRefresh(owner, existing + added, hadMain, env);
    }

    /** Give an owner's rules the priorities 10, 20, ... in the given order. */
    method Reorder(owner: string, order: seq<string>, env: Env) returns (out: Outcome, ghost mark: nat)
      requires Valid() && Strip(owner) != ""
      modifies this, iptables.ipsets, iptables.kernel
      ensures Valid()
      ensures out.Rejected? <==> !NoneTwice(order, OnlyOwner(old(rows), owner))
      ensures out.Done? ==> rows == Reordered(old(rows), owner, order)
      ensures out.Done? ==> ByPlace(old(rows), owner, order, rows)
      ensures !out.Rejected? ==>
        var target := Reordered(old(rows), owner, order);
          FailsOnlyIfRefused(out, old(iptables.kernel.refusals), mark, target, env)
      ensures Transactional(out, mark, old(rows), old(iptables.kernel.sets), old(iptables.kernel.chain),
        old(iptables.kernel.refusals), env)
    {
      hide StoredPort, CarriedOut, InStep, Feasible, OwnerRows, ReplaceOwner, AfterFailedRestore, DistinctIds,
        Reordered, NoneTwice, ByPlace;
      mark := iptables.kernel.refusals;
      if NoneTwice(order, OnlyOwner(rows, owner)) {
        ReorderedByPlace(rows, owner, order);
      }
      var own := LoadRules(owner);
      OwnerRowsAre(rows, owner);
      var reordered := PutInOrder(own, OnlyOwner(rows, owner), order);
      var existing, hadMain := BackUp(owner);
      ReorderedValue(rows, owner, order);
      out, mark := SaveAndRefresh(owner, reordered, hadMain, env);
    }

    /** The loops of a reorder. A row named twice is listed twice, and the table then refuses it. */
    method PutInOrder(own: seq<Rule>, ghost table: Table, order: seq<string>) returns (reordered: seq<Rule>)
      requires WellKeyed(table) && forall r :: r in own <==> r.id in table && table[r.id] == r
      ensures reordered == Picked(table, order) + NotNamed(own, order)
    {
      hide NotNamed;
      reordered := PickInOrder(own, table, order);
      var others := NotInOrder(own, order);
      reordered := reordered + others;
    }

    method PickInOrder(own: seq<Rule>, ghost table: Table, order: seq<string>) returns (reordered: seq<Rule>)
      requires WellKeyed(table) && forall r :: r in own <==> r.id in table && table[r.id] == r
      ensures reordered == Picked(table, order)
    {
      var ruleMap := MapById(own, table);
      hide WellKeyed;
      reordered := [];
      for i := 0 to |order|
        invariant reordered == Picked(table, order[..i])
        invariant ruleMap.Keys == table.Keys
        invariant forall k :: k in table ==> ruleMap[k] == table[k].(priority := ruleMap[k].priority)
      {
        assert order[..i + 1][..i] == order[..i];
        if order[i] in ruleMap {
          var rule := ruleMap[order[i]].(priority := (i + 1) * 10);
          ruleMap := ruleMap[order[i] := rule];
          reordered := reordered + [rule];
        }
      }
      assert order[..|order|] == order;
    }

    method MapById(own: seq<Rule>, ghost table: Table) returns (ruleMap: Table)
      requires WellKeyed(table) && forall r :: r in own <==> r.id in table && table[r.id] == r
      ensures ruleMap == table
    {
      ruleMap := map[];
      for i := 0 to |own|
        invariant forall k :: k in ruleMap ==> k in table && ruleMap[k] == table[k]
        invariant forall j :: 0 <= j < i ==> own[j].id in ruleMap
      {
        assert own[i] in own;
        ruleMap := ruleMap[own[i].id := own[i]];
      }
      forall k | k in table ensures k in ruleMap { assert table[k] in own; }
    }

    method NotInOrder(own: seq<Rule>, order: seq<string>) returns (others: seq<Rule>)
      ensures others == NotNamed(own, order)
    {
      others := [];
      for i := 0 to |own|
        invariant others == NotNamed(own[..i], order)
      {
        assert own[..i + 1][..i] == own[..i];
        if own[i].id !in order {
          others := others + [own[i]];
        }
      }
      assert own[..|own|] == own;
    }

    /** Index of a rule in its owner's rows. */
    method FindRow(own: seq<Rule>, rid: string) returns (idx: nat)
      requires exists r :: r in own && r.id == rid
      ensures idx < |own| && own[idx].id == rid
    {
      idx := 0;
      while idx < |own| && own[idx].id != rid
        invariant idx <= |own| && forall k :: 0 <= k < idx ==> own[k].id != rid
      {
        idx := idx + 1;
      }
    }

    /** Update a rule in place. When the update moves the rule to another owner and the refresh then
    fails, the old owner's snapshot cannot be put back: the moved row holds its identifier, so the
    update stays in the table although the kernel never carried it out. */
    method UpdateById(rid: string, payload: Rule, env: Env) returns (out: Outcome, ghost mark: nat)
      requires Valid() && payload.id == rid
      modifies this, iptables.ipsets, iptables.kernel
      ensures Valid()
      ensures !out.Rejected? <==>
        rid in old(rows) && PayloadOk(payload) && !PriorityTaken(old(rows), payload.priority, Some(rid))
      ensures !out.Rejected? <==>
        rid in old(rows) && MayBeStored(payload) && PriorityFree(old(rows), payload.priority, Some(rid))
      ensures out.Done? ==> rows == old(rows)[rid := Accepted(payload, old(rows)[rid].ownerId)]
      ensures out.Done? ==> AsSent(rows[rid], payload)
      ensures out.Done? && payload.ownerId == "" ==> rows[rid].ownerId == old(rows)[rid].ownerId
      ensures !out.Rejected? && !Moves(old(rows), payload) ==>
        Transactional(out, mark, old(rows), old(iptables.kernel.sets), old(iptables.kernel.chain),
          old(iptables.kernel.refusals), env)
      ensures !out.Rejected? && Moves(old(rows), payload) ==>
        && (out.Done? ==> CarriedOut(old(iptables.kernel.sets), old(iptables.kernel.refusals), env))
        && OthersKept(old(iptables.kernel.sets), iptables.kernel.sets)
        && (out.RefreshFailed? ==> rows == old(rows)[rid := Validated(payload)] != old(rows))
      ensures old(iptables.kernel.refusals) <= iptables.kernel.refusals
      ensures out.RefreshFailed? ==> UndoBegins(old(iptables.kernel.refusals), mark, iptables.kernel.refusals)
      ensures out.RefreshFailed? && iptables.kernel.refusals == mark ==>
        KernelAsBefore(old(iptables.kernel.sets), old(iptables.kernel.chain))
      ensures out.Rejected? ==> rows == old(rows) && iptables.kernel.refusals == old(iptables.kernel.refusals)
      ensures out.Rejected? ==> KernelAsBefore(old(iptables.kernel.sets), old(iptables.kernel.chain))
      ensures !out.Rejected? ==>
        var target := old(rows)[rid := Accepted(payload, old(rows)[rid].ownerId)];
          FailsOnlyIfRefused(out, old(iptables.kernel.refusals), mark, target, env)
    {
      hide StoredPort, CarriedOut, InStep, Feasible, OwnerRows, NoMalformed, AsTable, ReplaceOwner,
        AfterFailedRestore, DistinctIds, AsSent, MayBeStored, PriorityFree, PriorityTaken;
      PayloadIs(payload);
      PriorityIs(rows, payload.priority, Some(rid));
      mark := iptables.kernel.refusals;
      if rid !in rows {
        return Rejected, mark;
      }
      var owner := rows[rid].ownerId;
      var own := LoadRules(owner);
      OwnerRowsAre(rows, owner);
      assert rows[rid] in own;
      var idx := FindRow(own, rid);
      var port := ValidateDestPort(payload.destPort);
      if port.Err? || !NoMalformed(payload.destIp) || !NoMalformed(payload.sourceIps) {
        return Rejected, mark;
      }
      var rule := Stamp(payload.(destPort := port.value), owner);
      ValidatedIsStored(payload.destPort);
      if PriorityTaken(rows, rule.priority, Some(rid)) {
        return Rejected, mark;
      }
      AcceptedAsSent(payload, owner);
      var existing, hadMain := BackUp(owner);
      OwnerRowsStored(rows, owner);
      PointUpdate(rows, rid, own, idx, rule);
      out, mark := SaveAndRefresh(owner, own[idx := rule], hadMain, env);
      if rule.ownerId != owner {
        assert own[idx := rule][idx] == rule;
        MovedRowBlocksRestore(old(rows), own[idx := rule], rule);
      }
    }

    method SetEnabled(rid: string, enabled: bool, env: Env) returns (out: Outcome, ghost mark: nat)
      requires Valid() && !(CE_PEER_RULE_PREFIX <= rid)
      modifies this, iptables.ipsets, iptables.kernel
      ensures Valid()
      ensures out.Rejected? <==> rid !in old(rows)
      ensures out.Done? ==> rows == old(rows)[rid := old(rows)[rid].(enabled := enabled)]
      ensures !out.Rejected? ==>
        var target := old(rows)[rid := old(rows)[rid].(enabled := enabled)];
          FailsOnlyIfRefused(out, old(iptables.kernel.refusals), mark, target, env)
      ensures Transactional(out, mark, old(rows), old(iptables.kernel.sets), old(iptables.kernel.chain),
        old(iptables.kernel.refusals), env)
    {
      hide StoredPort, CarriedOut, InStep, Feasible, OwnerRows, AsTable, ReplaceOwner, AfterFailedRestore,
        DistinctIds;
      mark := iptables.kernel.refusals;
      if rid !in rows {
        return Rejected, mark;
      }
      var owner := rows[rid].ownerId;
      OwnerRowsAre(rows, owner);
      var own := LoadRules(owner);
      assert rows[rid] in own;
      var idx := FindRow(own, rid);
      OwnerRowsStored(rows, owner);
      assert own[idx] in own;
      var rule := own[idx].(enabled := enabled);
      var existing, hadMain := BackUp(owner);
      PointUpdate(rows, rid, own, idx, rule);
      out, mark := SaveAndRefresh(owner, own[idx := rule], hadMain, env);
    }

    method Delete(rid: string, env: Env) returns (out: Outcome, ghost mark: nat)
      requires Valid() && !(CE_PEER_RULE_PREFIX <= rid)
      modifies this, iptables.ipsets, iptables.kernel
      ensures Valid()
      ensures out.Rejected? <==> rid !in old(rows)
      ensures out.Done? ==> rows == old(rows) - {rid}
      ensures !out.Rejected? ==>
        FailsOnlyIfRefused(out, old(iptables.kernel.refusals), mark, old(rows) - {rid}, env)
      ensures Transactional(out, mark, old(rows), old(iptables.kernel.sets), old(iptables.kernel.chain),
        old(iptables.kernel.refusals), env)
    {
      hide StoredPort, CarriedOut, InStep, Feasible, OwnerRows, AsTable, ReplaceOwner, AfterFailedRestore,
        DistinctIds;
      mark := iptables.kernel.refusals;
      if rid !in rows {
        return Rejected, mark;
      }
      var owner := rows[rid].ownerId;
      OwnerRowsAre(rows, owner);
      var own := LoadRules(owner);
      assert rows[rid] in own;
      var idx := FindRow(own, rid);
      OwnerRowsStored(rows, owner);
      var existing, hadMain := BackUp(owner);
      PointRemoval(rows, rid, own, idx);
      out, mark := SaveAndRefresh(owner, own[..idx] + own[idx + 1..], hadMain, env);
    }

    /** Database and kernel end in step or end where they were. `mark` is the number of refusals when
    the kernel began to undo. */
    ghost predicate Transactional(out: Outcome, mark: nat, rows0: Table, sets0: Sets, chain0: seq<Line>,
        refusals0: nat, env: Env)
      reads this, iptables, iptables.kernel
    {
      && (out.Done? ==> CarriedOut(sets0, refusals0, env))
      && OthersKept(sets0, iptables.kernel.sets)
      && (!out.Done? ==> rows == rows0)
      && (out.Rejected? ==> KernelAsBefore(sets0, chain0) && iptables.kernel.refusals == refusals0)
      && refusals0 <= iptables.kernel.refusals
      && (out.RefreshFailed? ==> UndoBegins(refusals0, mark, iptables.kernel.refusals))
      && (out.RefreshFailed? && iptables.kernel.refusals == mark ==> KernelAsBefore(sets0, chain0))
    }
  }

  ghost predicate AllAsSent(rows: Table, ps: seq<Rule>) {
    forall i :: 0 <= i < |ps| ==>
      ps[i].id in rows && AsSent(rows[ps[i].id], ps[i]) && rows[ps[i].id].ownerId == ps[|ps| - 1].ownerId
  }

  lemma BatchAsSent(rows: Table, ps: seq<Rule>)
    requires BatchOk(ps) && NewRows(rows, ps)
    ensures AllAsSent(rows + AsTable(AcceptedAll(ps)), ps)
  {
    hide AsSent, PayloadOk, PriorityTaken, Accepted, BatchOwner, OneOwner;
    var all := AcceptedAll(ps);
    forall i | 0 <= i < |ps|
      ensures all[i].id == ps[i].id && AsSent(all[i], ps[i]) && all[i].ownerId == ps[|ps| - 1].ownerId
    {
      RowAsSent(ps, i);
    }
    AsTableContents(all);
    forall i | 0 <= i < |ps| ensures ps[i].id in AsTable(all) && AsTable(all)[ps[i].id] == all[i] {
      assert all[i] in all;
    }
  }

  lemma RowAsSent(ps: seq<Rule>, i: nat)
    requires BatchOk(ps) && i < |ps|
    ensures var r := AcceptedAll(ps)[i];
      r.id == ps[i].id && AsSent(r, ps[i]) && r.ownerId == ps[|ps| - 1].ownerId
  {
    hide AsSent, PayloadOk, BatchOwner, OneOwner, DistinctPriorities;
    BatchOwnerIs(ps);
    BatchOwnerIsShared(ps);
    AcceptedAsSent(ps[i], BatchOwner(ps).value);
    assert ps[i] in ps;
  }

  lemma StampedBatch(ps: seq<Rule>)
    requires BatchOk(ps)
    ensures AllPayloadsOk(ps) && BatchOwner(ps).Some?
    ensures StampAll(ValidatedAll(ps), BatchOwner(ps).value) == AcceptedAll(ps)
  {
    hide PayloadOk, Stamp, Validated, BatchOk;
    BatchIsChecked(ps);
    var owner := BatchOwner(ps).value;
    assert forall i :: 0 <= i < |ps| ==> StampAll(ValidatedAll(ps), owner)[i] == AcceptedAll(ps)[i];
  }

  /** The table after the rollback was attempted; it stays as written when the snapshot is refused. */
  ghost function AfterFailedRestore(before: Table, owner: string, list: seq<Rule>): Table
    requires WellKeyed(before) && ReplaceOwner(before, owner, list).Some?
  {
    var written := ReplaceOwner(before, owner, list).value;
    var snap := if OwnerExists(before, owner) then OwnerRows(before, owner) else [];
    match ReplaceOwner(written, owner, snap) case Some(t) => t case None => written
  }

  lemma RowStays(rows: Table, r: Rule)
    requires r.id !in rows || rows[r.id].ownerId == r.ownerId
    ensures forall o :: OwnerExists(rows, o) ==> OwnerExists(rows[r.id := r], o)
  {
    forall o | OwnerExists(rows, o) ensures OwnerExists(rows[r.id := r], o) {
      var k :| k in rows && rows[k].ownerId == o;
      assert k in rows[r.id := r] && rows[r.id := r][k].ownerId == o;
    }
  }

  lemma KeptItself(sets: Sets)
    ensures OthersKept(sets, sets)
  {
  }

  /** A refresh of this table can succeed: tags known, addresses IPv4, peer ports well-formed. */
  ghost predicate Feasible(rows: Table, env: Env) {
    && WellKeyed(rows) && Resolvable(rows, env) && IdentifiersOk(rows, env)
    && Compile(EffectiveRules(rows, env), CenterPeers(env.peerRows)).Some?
  }

  ghost predicate FeasibleAfter(rows: Table, owner: string, list: seq<Rule>, env: Env) {
    ReplaceOwner(rows, owner, list).Some? && Feasible(ReplaceOwner(rows, owner, list).value, env)
  }

  lemma FeasibleIsDeployable(rows: Table, env: Env)
    requires Feasible(rows, env)
    ensures Deployable(EffectiveRules(rows, env), CenterPeers(env.peerRows))
  {
    hide Compile, ListingOk;
    StoredListingOk(rows, env);
  }

  lemma ReplacedTableOk(rows: Table, owner: string, list: seq<Rule>)
    requires TableOk(rows) && ReplaceOwner(rows, owner, list).Some?
    requires forall r :: r in list ==> StoredPort(r.destPort)
    ensures TableOk(ReplaceOwner(rows, owner, list).value)
  {
    hide StoredPort, DistinctIds;
    AsTableContents(list);
  }

  lemma HeadIsMember(s: seq<Rule>)
    requires s != []
    ensures s[0] in s
  {
  }

  lemma EmptyOwner(rows: Table, owner: string)
    requires WellKeyed(rows) && !OwnerExists(rows, owner)
    ensures OwnerRows(rows, owner) == []
  {
    hide OwnerRows;
    OwnerRowsAre(rows, owner);
    if OwnerRows(rows, owner) != [] {
      HeadIsMember(OwnerRows(rows, owner));
    }
  }

  lemma RestoredAfter(before: Table, owner: string, list: seq<Rule>)
    requires TableOk(before) && ReplaceOwner(before, owner, list).Some? && OwnRows(list, owner)
    ensures AfterFailedRestore(before, owner, list) == before
  {
    hide StoredPort, OwnerRows, DistinctIds;
    var written := ReplaceOwner(before, owner, list).value;
    AsTableContents(list);
    assert WithoutOwner(written, owner) == WithoutOwner(before, owner);
    SnapshotRestores(before, written, owner);
    if !OwnerExists(before, owner) {
      EmptyOwner(before, owner);
    }
  }

  lemma RestoredTableOk(before: Table, owner: string, list: seq<Rule>)
    requires TableOk(before) && ReplaceOwner(before, owner, list).Some?
    requires forall r :: r in list ==> StoredPort(r.destPort)
    ensures TableOk(AfterFailedRestore(before, owner, list))
  {
    hide StoredPort, DistinctIds;
    ReplacedTableOk(before, owner, list);
    OwnerRowsAre(before, owner);
    var written := ReplaceOwner(before, owner, list).value;
    var snap := if OwnerExists(before, owner) then OwnerRows(before, owner) else [];
    if ReplaceOwner(written, owner, snap).Some? {
      forall r | r in snap ensures StoredPort(r.destPort) { assert r.id in before; }
      ReplacedTableOk(written, owner, snap);
    }
  }

  lemma OwnerRowsStored(rows: Table, owner: string)
    requires TableOk(rows)
    ensures forall r :: r in OwnerRows(rows, owner) ==> StoredPort(r.destPort) && r.ownerId == owner
  {
    hide StoredPort, OwnerRows;
    OwnerRowsAre(rows, owner);
    forall r | r in OwnerRows(rows, owner) ensures StoredPort(r.destPort) && r.ownerId == owner { assert r.id in rows; }
  }

  lemma ReplaceKeepsOthers(rows: Table, owner: string, list: seq<Rule>)
    requires WellKeyed(rows) && ReplaceOwner(rows, owner, list).Some?
    ensures forall k :: k in WithoutOwner(rows, owner) ==>
      k in ReplaceOwner(rows, owner, list).value && ReplaceOwner(rows, owner, list).value[k] == rows[k]
  {
    AsTableContents(list);
  }

  lemma RestoreKeepsOthers(rows: Table, owner: string, list: seq<Rule>)
    requires WellKeyed(rows) && ReplaceOwner(rows, owner, list).Some?
    requires WellKeyed(ReplaceOwner(rows, owner, list).value)
    ensures forall k :: k in WithoutOwner(rows, owner) ==>
      k in AfterFailedRestore(rows, owner, list) && AfterFailedRestore(rows, owner, list)[k] == rows[k]
  {
    hide ReplaceOwner;
    ReplaceKeepsOthers(rows, owner, list);
    var written := ReplaceOwner(rows, owner, list).value;
    var snap := if OwnerExists(rows, owner) then OwnerRows(rows, owner) else [];
    if ReplaceOwner(written, owner, snap).Some? {
      ReplaceKeepsOthers(written, owner, snap);
    }
  }

  lemma OthersRemain(before: Table, after: Table, owner: string)
    requires forall k :: k in WithoutOwner(before, owner) ==> k in after && after[k] == before[k]
    ensures forall o :: o != owner && OwnerExists(before, o) ==> OwnerExists(after, o)
  {
    forall o | o != owner && OwnerExists(before, o) ensures OwnerExists(after, o) {
      var k :| k in before && before[k].ownerId == o;
      assert k in WithoutOwner(before, owner);
    }
  }

  /** The payload names another owner than the one the rule has. */
  predicate Moves(rows: Table, payload: Rule)
    requires payload.id in rows
  {
    payload.ownerId != "" && payload.ownerId != rows[payload.id].ownerId
  }

  lemma MovedRowBlocksRestore(rows: Table, list: seq<Rule>, r: Rule)
    requires TableOk(rows) && r.id in rows && r.ownerId != rows[r.id].ownerId && r in list
    requires ReplaceOwner(rows, rows[r.id].ownerId, list) == Some(rows[r.id := r])
    ensures !OwnRows(list, rows[r.id].ownerId)
    ensures AfterFailedRestore(rows, rows[r.id].ownerId, list) == rows[r.id := r] != rows
  {
    hide StoredPort, OwnerRows, DistinctIds, AsTable;
    var owner, rid := rows[r.id].ownerId, r.id;
    OwnerRowsAre(rows, owner);
    assert rows[rid] in OwnerRows(rows, owner);
    assert rid in WithoutOwner(rows[rid := r], owner);
    assert rows[rid := r][rid] != rows[rid];
  }

  // ------------------------------------------------------------------ batches

  lemma BadPayload(ps: seq<Rule>, i: nat, port: Result<Option<string>, PortError>)
    requires i < |ps| && port == DestPort(ps[i].destPort)
    requires port.Err? || !NoMalformed(ps[i].destIp) || !NoMalformed(ps[i].sourceIps)
    ensures !BatchOk(ps)
  {
    hide NoMalformed;
    assert !PayloadOk(ps[i]);
  }

  /** The first `i` payloads passed; the owner may already be that of the next one. */
  ghost predicate BatchSoFar(ps: seq<Rule>, i: nat, owner: string, rules: seq<Rule>, priorities: set<int>) {
    && i <= |ps| && BatchOwner(ps[..i]) == Some(owner)
    && AllPayloadsOk(ps[..i]) && rules == ValidatedAll(ps[..i])
    && (forall x :: x in priorities <==> exists k :: 0 <= k < i && ps[k].priority == x)
    && DistinctPriorities(ps[..i])
  }

  lemma NoBatchYet(ps: seq<Rule>)
    ensures BatchSoFar(ps, 0, "", [], {})
  {
  }

  lemma MixedOwners(ps: seq<Rule>, i: nat, owner: string, rules: seq<Rule>, priorities: set<int>)
    requires BatchSoFar(ps, i, owner, rules, priorities) && i < |ps| && owner != "" && owner != ps[i].ownerId
    ensures !BatchOk(ps)
  {
    hide AllPayloadsOk, DistinctPriorities;
    assert ps[..i + 1][..i] == ps[..i];
    NoOwnerSoFar(ps, i + 1);
  }

  lemma SamePriority(ps: seq<Rule>, i: nat, owner: string, rules: seq<Rule>, priorities: set<int>)
    requires i < |ps| && ps[i].priority in priorities
    requires exists before :: BatchSoFar(ps, i, before, rules, priorities)
    ensures !BatchOk(ps)
  {
    hide AllPayloadsOk, BatchOwner;
    var before :| BatchSoFar(ps, i, before, rules, priorities);
    var k :| 0 <= k < i && ps[k].priority == ps[i].priority;
    assert !DistinctPriorities(ps);
  }

  lemma OneMorePayload(ps: seq<Rule>, i: nat, owner: string, rules: seq<Rule>, priorities: set<int>,
      port: Result<Option<string>, PortError>)
    requires i < |ps| && ps[i].priority !in priorities
    requires exists before :: BatchSoFar(ps, i, before, rules, priorities) && (before == "" || before == ps[i].ownerId)
    requires port == DestPort(ps[i].destPort) && port.Ok? && NoMalformed(ps[i].destIp)
    requires NoMalformed(ps[i].sourceIps) && owner == ps[i].ownerId
    ensures BatchSoFar(ps, i + 1, owner, rules + [ps[i].(destPort := port.value)], priorities + {ps[i].priority})
  {
    hide NoMalformed, DestPort;
    var before :| BatchSoFar(ps, i, before, rules, priorities) && (before == "" || before == ps[i].ownerId);
    var upTo := ps[..i + 1];
    assert upTo[..i] == ps[..i] && upTo[i] == ps[i];
    assert PayloadOk(ps[i]) && Validated(ps[i]) == ps[i].(destPort := port.value);
    hide PayloadOk, Validated;
    assert rules + [ps[i].(destPort := port.value)] == ValidatedAll(upTo);
  }

  lemma BatchDone(ps: seq<Rule>, owner: string, rules: seq<Rule>, priorities: set<int>)
    requires BatchSoFar(ps, |ps|, owner, rules, priorities)
    ensures BatchOk(ps) <==> ps != []
    ensures AllPayloadsOk(ps) && BatchOwner(ps) == Some(owner) && rules == ValidatedAll(ps)
  {
    assert ps[..|ps|] == ps;
  }

  /** Once the owners of a prefix disagree, no longer batch is accepted. */
  lemma {:induction false} NoOwnerSoFar(ps: seq<Rule>, i: nat)
    requires i <= |ps| && BatchOwner(ps[..i]).None?
    ensures BatchOwner(ps).None?
    decreases |ps| - i
  {
    if i < |ps| {
      assert ps[..i + 1][..i] == ps[..i];
      NoOwnerSoFar(ps, i + 1);
    } else {
      assert ps[..i] == ps;
    }
  }

  lemma KnownIdentifier(rows: Table, ps: seq<Rule>, own: seq<Rule>, rules: seq<Rule>)
    requires AllPayloadsOk(ps) && rules == ValidatedAll(ps)
    requires forall r :: r in own ==> r.id in rows
    requires exists i, j :: 0 <= i < |own| && 0 <= j < |rules| && own[i].id == rules[j].id
    ensures !NewRows(rows, ps)
  {
    hide PayloadOk, PriorityTaken;
    var i, j :| 0 <= i < |own| && 0 <= j < |rules| && own[i].id == rules[j].id;
    assert own[i] in own && rules[j].id == ps[j].id;
  }

  lemma UsedPriority(rows: Table, ps: seq<Rule>, rules: seq<Rule>)
    requires AllPayloadsOk(ps) && rules == ValidatedAll(ps)
    requires exists i :: 0 <= i < |rules| && PriorityTaken(rows, rules[i].priority, None)
    ensures !NewRows(rows, ps)
  {
    hide PayloadOk, PriorityTaken;
    var i :| 0 <= i < |rules| && PriorityTaken(rows, rules[i].priority, None);
    assert rules[i].priority == ps[i].priority;
  }

  lemma AcceptedRows(ps: seq<Rule>)
    requires BatchOk(ps)
    ensures OwnRows(AcceptedAll(ps), BatchOwner(ps).value)
    ensures forall r :: r in AcceptedAll(ps) ==> StoredPort(r.destPort)
  {
    hide StoredPort;
    BatchOwnerIsShared(ps);
    var a := AcceptedAll(ps);
    forall i | 0 <= i < |a| ensures a[i].ownerId == BatchOwner(ps).value && StoredPort(a[i].destPort) {
      assert ps[i] in ps;
      ValidatedIsStored(ps[i].destPort);
    }
  }

  lemma BatchIsChecked(ps: seq<Rule>)
    requires BatchOk(ps)
    ensures AllPayloadsOk(ps) && BatchOwner(ps).Some?
  {
  }

  /** Given free priorities, what the table still has to refuse are identifiers. */
  lemma BatchAccepted(rows: Table, ps: seq<Rule>)
    requires BatchOk(ps) && PrioritiesFree(rows, ps)
    ensures NewRows(rows, ps) <==>
      DistinctIds(AcceptedAll(ps)) && forall r :: r in AcceptedAll(ps) ==> r.id != "" && r.id !in rows
  {
    hide PayloadOk, PriorityTaken;
    var a := AcceptedAll(ps);
    assert forall i :: 0 <= i < |ps| ==> a[i].id == ps[i].id;
    assert DistinctIds(a) <==> DistinctIds(ps);
    if forall r :: r in a ==> r.id != "" && r.id !in rows {
      forall i | 0 <= i < |ps| ensures ps[i].id != "" && ps[i].id !in rows { assert a[i] in a; }
    }
  }
}
