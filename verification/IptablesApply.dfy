/** Applying a forward plan: ipsets and `VPN_FORWARD` change together or not at all. */
module IptablesApply {
  import opened Wrappers
  import opened Ipv4
  import Text
  import opened FirewallModel
  import opened ForwardPlan
  import opened IptablesGenerator
  import opened KernelModel
  import opened IpsetTransactions

  /** What every intermediate state of a refresh owes: other programs' sets are untouched; a desired
  set that existed is there with its complete old or complete new contents; a set that is not desired
  is as it was, or gone. */
  ghost predicate RefreshSafeAt(base: Sets, want: Sets, s: Sets, n: SetName) {
    match n
    case Foreign(_) => SameAt(base, s, n)
    case Stage(_) => n in base ==> SameAt(base, s, n)
    case Stable(_, _, _) => if n in want then SafeAt(base, want, s, n) else n !in s || SameAt(base, s, n)
  }

  ghost predicate RefreshSafe(base: Sets, want: Sets, s: Sets) {
    forall n :: RefreshSafeAt(base, want, s, n)
  }

  ghost predicate RefreshSafeSince(history: seq<Sets>, from: nat, base: Sets, want: Sets) {
    forall i :: from <= i < |history| ==> RefreshSafe(base, want, history[i])
  }

  ghost function Merged(rules: seq<Rule>, peers: seq<PeerForward>): seq<Entry> {
    SortEntries(Entries(rules, peers))
  }

  ghost predicate AllGood(merged: seq<Entry>) {
    forall i :: 0 <= i < |merged| ==> GoodAddresses(merged[i])
  }

  /** The sets a refresh tries to install. */
  ghost function WantOf(rules: seq<Rule>, peers: seq<PeerForward>): Sets {
    var merged := Merged(rules, peers);
    if AllGood(merged) then SpecMap(AllSpecs(merged)) else map[]
  }

  /** A plan the kernel can accept: it compiles, and its set names are collision-free. */
  ghost predicate Deployable(rules: seq<Rule>, peers: seq<PeerForward>) {
    Compile(rules, peers).Some? && ListingOk(Entries(rules, peers))
  }

  /** The kernel carries out the plan. */
  ghost predicate InForceOn(kernel: Kernel, rules: seq<Rule>, peers: seq<PeerForward>)
    reads kernel
  {
    && Compile(rules, peers).Some?
    && kernel.chain == Compile(rules, peers).value.lines
    && Applied(WantOf(rules, peers), kernel.sets)
  }

  /** The first saved lines are back, up to one that was refused; behind the old ones when the flush was refused. */
  ghost predicate PartlyRestored(before: seq<Line>, saved: seq<Line>, after: seq<Line>, refused: int) {
    exists k :: 0 <= k <= |saved| && (after == saved[..k] || (refused > 0 && after == before + saved[..k]))
  }

  /** A restore that did not take effect was refused, and that refusal is not to blame for anything else. */
  ghost function Missed(restored: bool): nat {
    if restored then 0 else 1
  }

  /** Up to so many refused commands the sets are back, except that created ones in use may stay. */
  ghost predicate BackButFor(base: Sets, s: Sets, inUse: set<SetName>, refused: int) {
    |StableOff(base, s) - (inUse - base.Keys)| <= refused && |OthersOff(base, s)| <= refused
  }

  /** What a refresh that went through has left behind: a refused command for every stage and every orphan out
  of use, or one for the listing of orphans and one for every stage. */
  ghost predicate TidiedUp(before: Sets, want: Sets, s: Sets, refs: set<SetName>, refused: int) {
    || |OthersOff(before, s)| + |Orphans(s, want.Keys, refs)| <= refused
    || (|OthersOff(before, s)| < refused && Orphans(s, want.Keys, refs) == Orphans(before, want.Keys, refs))
  }

  /** The hooks lead into the chain, and the lines of others are as they were. */
  ghost predicate Hooked(before: seq<FilterRule>, tunWanted: bool, after: seq<FilterRule>) {
    ForwardHooked(after) && (tunWanted ==> FromTun in after) && Strangers(after) == Strangers(before)
  }

  class IptablesManager {
    const kernel: Kernel
    const ipsets: IpsetManager

    constructor (ipsets: IpsetManager)
      ensures this.ipsets == ipsets && kernel == ipsets.kernel
    {
      this.ipsets, this.kernel := ipsets, ipsets.kernel;
    }

    ghost predicate Valid()
      reads this, ipsets, kernel
    {
      kernel == ipsets.kernel && ipsets.Valid() && !ipsets.lockHeld
    }

    /** Flush, then append the saved lines again; the outcome of the flush is not looked at. */
    method RestoreChain(saved: seq<Line>) returns (ok: bool)
      requires kernel.Valid()
      modifies kernel
      ensures kernel.Valid() && kernel.sets == old(kernel.sets) && kernel.otherRules == old(kernel.otherRules)
      ensures kernel.history == old(kernel.history) && old(kernel.refusals) <= kernel.refusals
      ensures kernel.refusals == old(kernel.refusals) && References(saved) <= kernel.sets.Keys ==>
        ok && kernel.chain == saved
      ensures forall l :: l in kernel.chain ==> l in old(kernel.chain) || l in saved
      ensures ok ==> kernel.chain == saved || (kernel.refusals > old(kernel.refusals) &&
                                              kernel.chain == old(kernel.chain) + saved)
      ensures PartlyRestored(old(kernel.chain), saved, kernel.chain, kernel.refusals - old(kernel.refusals))
    {
      var _ := kernel.Flush();
      ghost var start, refused := kernel.chain, kernel.refusals - old(kernel.refusals);
      for i := 0 to |saved|
        invariant kernel.chain == start + saved[..i] && kernel.refusals - old(kernel.refusals) == refused
        invariant kernel.Valid() && kernel.sets == old(kernel.sets) && kernel.otherRules == old(kernel.otherRules)
        invariant kernel.history == old(kernel.history) && old(kernel.refusals) <= kernel.refusals
        invariant kernel.refusals == old(kernel.refusals) ==> kernel.chain == saved[..i]
        invariant forall l :: l in kernel.chain ==> l in old(kernel.chain) || l in saved
      {
        ok := kernel.Append(saved[i]);
        assert References([saved[i]]) <= References(saved);
        if !ok {
          return false;
        }
      }
      assert saved[..|saved|] == saved;
      return true;
    }

    /** Undo a refresh: ipsets first, then the chain. */
    method UndoRefresh(txn: Transaction?, saved: seq<Line>, ghost base: Sets)
      requires ipsets.Valid() && kernel == ipsets.kernel
      requires References(saved) <= base.Keys && References(kernel.chain) <= base.Keys
      requires forall n :: n in References(saved) ==> !n.Stage?
      requires txn == null ==> !ipsets.lockHeld && References(saved) <= kernel.sets.Keys
      requires txn != null ==> txn.Valid() && txn.Open() && txn.base == base
      requires txn != null ==> SwapsOk(base, txn.want, txn.swaps) && Staged(base, txn.want, kernel.sets, txn.swaps)
      requires txn != null ==> StepSafe(base, txn.want, kernel.sets)
      modifies ipsets`lockHeld, kernel, txn
      ensures Valid()
      ensures old(kernel.refusals) <= kernel.refusals && old(kernel.history) <= kernel.history
      ensures kernel.otherRules == old(kernel.otherRules)
      ensures kernel.refusals == old(kernel.refusals) && txn == null && kernel.sets == base ==> kernel.chain == saved
      ensures kernel.refusals == old(kernel.refusals) && txn != null ==> kernel.sets == base && kernel.chain == saved
      ensures txn != null ==>
        BackExceptFor(base, kernel.sets, kernel.refusals - old(kernel.refusals) - Missed(kernel.chain == saved))
      ensures kernel.chain == saved || old(kernel.refusals) < kernel.refusals
      ensures PartlyRestored(old(kernel.chain), saved, kernel.chain, kernel.refusals - old(kernel.refusals))
      ensures txn == null ==> kernel.sets == old(kernel.sets) && kernel.history == old(kernel.history)
      ensures txn != null ==> StepSafe(base, txn.want, kernel.sets)
      ensures txn != null ==> SafeSince(kernel.history, |old(kernel.history)|, base, txn.want)
    {
      hide StepSafe, SwapsOk, Staged, PartlyRestored, BackExceptFor;
      ghost var r := kernel.refusals;
      if txn != null {
        UndoSets(txn, base);
        StepKeepsSets(base, txn.want, kernel.sets, References(saved));
      }
      ghost var lines, undone := kernel.chain, kernel.refusals;
      var _ := RestoreChain(saved);
      MoreRefused(lines, saved, kernel.chain, undone - r, kernel.refusals - undone);
      if txn != null {
        BackExceptForMore(base, kernel.sets, undone - r, kernel.refusals - r - Missed(kernel.chain == saved));
      }
      assert References(kernel.chain) <= References(lines) + References(saved);
    }

    method UndoSets(txn: Transaction, ghost base: Sets)
      requires ipsets.Valid() && kernel == ipsets.kernel && References(kernel.chain) <= base.Keys
      requires txn.Valid() && txn.Open() && txn.base == base
      requires SwapsOk(base, txn.want, txn.swaps) && Staged(base, txn.want, kernel.sets, txn.swaps)
      requires StepSafe(base, txn.want, kernel.sets)
      modifies ipsets`lockHeld, kernel, txn
      ensures Valid() && kernel.chain == old(kernel.chain) && kernel.otherRules == old(kernel.otherRules)
      ensures old(kernel.refusals) <= kernel.refusals && old(kernel.history) <= kernel.history
      ensures BackExceptFor(base, kernel.sets, kernel.refusals - old(kernel.refusals))
      ensures kernel.refusals == old(kernel.refusals) ==> kernel.sets == base
      ensures StepSafe(base, txn.want, kernel.sets)
      ensures SafeSince(kernel.history, |old(kernel.history)|, base, txn.want)
    {
      hide StepSafe, SwapsOk, Staged, Undone, SameOutside, BackExceptFor, Left, Touched, Loaded, SafeSince;
      ghost var before, r := kernel.sets, kernel.refusals;
      StagedParts(base, txn.want, kernel.sets, txn.swaps);
      var ok := ipsets.Rollback(txn);
      StagedLeaves(base, txn.want, before, kernel.sets, txn.swaps, References(kernel.chain), kernel.refusals - r);
      if kernel.refusals == r {
        BackExceptForNone(base, kernel.sets);
      }
    }

    /** Rewrite `VPN_FORWARD` and the managed ipsets from the rules and peers. `mark` is the number of
    refusals when undoing began. */
    method RefreshVpnForwardOnly(rules: seq<Rule>, peers: seq<PeerForward>) returns (ok: bool, ghost mark: nat)
      requires Valid()
      modifies ipsets, kernel
      ensures Valid() && kernel.otherRules == old(kernel.otherRules)
      ensures old(kernel.refusals) <= kernel.refusals && old(kernel.history) <= kernel.history
      ensures ok ==> InForceOn(kernel, rules, peers)
      ensures RefreshSafe(old(kernel.sets), WantOf(rules, peers), kernel.sets)
      ensures ok && kernel.refusals == old(kernel.refusals) && Deployable(rules, peers) ==>
        Converged(old(kernel.sets), WantOf(rules, peers), kernel.sets)
      ensures !ok ==> old(kernel.refusals) <= mark <= old(kernel.refusals) + 2 && mark <= kernel.refusals
      ensures !ok && kernel.refusals == mark ==> kernel.sets == old(kernel.sets) && kernel.chain == old(kernel.chain)
      ensures !ok ==> BackExceptFor(old(kernel.sets), kernel.sets,
                        kernel.refusals - mark - Missed(kernel.chain == old(kernel.chain)))
      ensures !ok ==> PartlyRestored(old(kernel.chain), old(kernel.chain), kernel.chain, kernel.refusals - mark)
      ensures ok ==> TidiedUp(old(kernel.sets), WantOf(rules, peers), kernel.sets, References(kernel.chain),
                       kernel.refusals - old(kernel.refusals))
      ensures !ok && Deployable(rules, peers) ==> old(kernel.refusals) < mark
      ensures kernel.refusals == old(kernel.refusals) && Deployable(rules, peers) ==> ok
      ensures RefreshSafeSince(kernel.history, |old(kernel.history)|, old(kernel.sets), WantOf(rules, peers))
    {
      hide Compile, SortEntries, Entries, StepSafe, SwapsOk, Staged, CommitSafe, Converged, Applied, ListingOk,
        SameOutside, RefreshSafe, SafeSince, References, SpecMap, Loaded, AllSpecs, AllLines, GoodAddresses,
        GoodPort, WantOf, SpecNames, DistinctNames, AllStable, RefreshSafeSince, BackExceptFor, PartlyRestored,
        TidiedUp, Off;
      ghost var base, h0, r0, want := kernel.sets, kernel.history, kernel.refusals, WantOf(rules, peers);
      NothingChangedIsSafe(base, want, h0);
      BackExceptForNone(base, base);
      AllThere(kernel.chain);
      var saved := kernel.SaveChain();
      if saved.None? {
        return false, kernel.refusals;
      }
      var merged := BuildMergedForwardEntries(rules, peers);
      CompileIs(rules, peers);
      var desired := DesiredIpsets(merged);
      if desired.None? {
        mark := kernel.refusals;
        UndoRefresh(null, saved.value, base);
        BackExceptForMore(base, kernel.sets, 0, kernel.refusals - mark - Missed(kernel.chain == saved.value));
        return false, mark;
      }
      PlanFacts(rules, peers);
      var txn := ipsets.Reconcile(desired.value);
      StepsAreRefreshSafe(base, want, kernel.sets, h0, kernel.history);
      if txn == null {
        mark := if kernel.refusals == r0 then r0 else r0 + 1;
        ghost var refused := kernel.refusals - mark;
        UndoRefresh(null, saved.value, base);
        MoreRefused(saved.value, saved.value, kernel.chain, refused, kernel.refusals - mark - refused);
        BackExceptForMore(base, kernel.sets, refused,
          kernel.refusals - mark - Missed(kernel.chain == saved.value));
        return false, mark;
      }
      ghost var h1 := kernel.history;
      ok, mark := InstallChain(txn, merged, desired.value, saved.value, rules, peers, base);
      SafeHistoryGrows(base, want, h0, h1, kernel.history);
    }

    /** Write the temporary rules file, flush the chain and load the file in one step. */
    method WriteChain(lines: seq<Line>) returns (ok: bool)
      requires kernel.Valid()
      modifies kernel
      ensures kernel.Valid() && kernel.sets == old(kernel.sets) && kernel.otherRules == old(kernel.otherRules)
      ensures kernel.history == old(kernel.history)
      ensures old(kernel.refusals) <= kernel.refusals <= old(kernel.refusals) + 2
      ensures ok ==> kernel.chain == lines && kernel.refusals <= old(kernel.refusals) + 1
      ensures !ok ==> References(kernel.chain) <= References(old(kernel.chain))
      ensures !ok ==> kernel.chain == old(kernel.chain) || kernel.chain == []
      ensures kernel.refusals == old(kernel.refusals) && References(lines) <= kernel.sets.Keys ==> ok
    {
      hide References;
      ok := kernel.Attempt();
      if ok {
        var _ := kernel.Flush();
        EmptyChainReferences();
        ok := kernel.ReplaceChain(lines);
      }
    }

    /** Second half of a refresh: write the chain, then commit; or undo everything. */
    method InstallChain(txn: Transaction, merged: seq<Entry>, specs: seq<SetSpec>, saved: seq<Line>,
      ghost rules: seq<Rule>, ghost peers: seq<PeerForward>, ghost base: Sets)
      returns (ok: bool, ghost mark: nat)
      requires kernel == ipsets.kernel && ipsets.Valid() && ipsets.lockHeld && txn.Valid() && txn.Open()
      requires merged == Merged(rules, peers) && AllGood(merged) && specs == AllSpecs(merged)
      requires Reconciled(txn, specs, base, kernel.sets) && StepSafe(base, SpecMap(specs), kernel.sets)
      requires kernel.chain == saved && References(saved) <= base.Keys
      modifies ipsets`lockHeld, kernel, txn
      ensures Valid() && kernel.otherRules == old(kernel.otherRules)
      ensures old(kernel.refusals) <= kernel.refusals && old(kernel.history) <= kernel.history
      ensures ok ==> InForceOn(kernel, rules, peers)
      ensures RefreshSafe(base, WantOf(rules, peers), kernel.sets)
      ensures ok && kernel.refusals == old(kernel.refusals) && Deployable(rules, peers) ==>
        Converged(base, WantOf(rules, peers), kernel.sets)
      ensures !ok ==> old(kernel.refusals) <= mark <= old(kernel.refusals) + 2 && mark <= kernel.refusals
      ensures !ok && kernel.refusals == mark ==> kernel.sets == base && kernel.chain == saved
      ensures !ok ==> BackExceptFor(base, kernel.sets, kernel.refusals - mark - Missed(kernel.chain == saved))
      ensures !ok ==> PartlyRestored(saved, saved, kernel.chain, kernel.refusals - mark)
      ensures ok ==> TidiedUp(base, WantOf(rules, peers), kernel.sets, References(kernel.chain),
                       kernel.refusals - old(kernel.refusals))
      ensures !ok && Deployable(rules, peers) ==> old(kernel.refusals) < mark
      ensures kernel.refusals == old(kernel.refusals) && Deployable(rules, peers) ==> ok
      ensures RefreshSafeSince(kernel.history, |old(kernel.history)|, base, WantOf(rules, peers))
    {
      hide Compile, SortEntries, Entries, StepSafe, SwapsOk, Staged, CommitSafe, Converged, Applied, ListingOk,
        SameOutside, RefreshSafe, SafeSince, References, SpecMap, Loaded, AllSpecs, AllLines, GoodAddresses,
        GoodPort, WantOf, SpecNames, DistinctNames, AllStable, RefreshSafeSince, BackExceptFor, PartlyRestored,
        TidiedUp, CleanedUp, Off;
      ghost var h1, want := kernel.history, WantOf(rules, peers);
      CompileIs(rules, peers);
      PlanFacts(rules, peers);
      ReconciledIsApplied(txn, specs, base, kernel.sets);
      AppliedSetsExist(txn.want, kernel.sets);
      var lines := GenerateMergedRules(merged);
      var written := false;
      if lines.Some? {
        written := WriteChain(lines.value);
      }
      if !written {
        mark := kernel.refusals;
        ghost var lines := kernel.chain;
        UndoRefresh(txn, saved, base);
        FromEmptyOrSaved(lines, saved, kernel.chain, kernel.refusals - mark);
        StepsAreRefreshSafe(base, want, kernel.sets, h1, kernel.history);
        return false, mark;
      }
      ghost var staged, r1 := kernel.sets, kernel.refusals;
      var _ := ipsets.Commit(txn);
      CommitTidiesUp(base, specs, staged, kernel.sets, txn, References(kernel.chain), kernel.refusals - r1,
        kernel.refusals - old(kernel.refusals));
      CommitIsRefreshSafe(base, want, kernel.sets, h1, kernel.history, txn.swaps);
      CommitKeepsApplied(base, specs, kernel.sets, Stages(txn.swaps));
      return true, kernel.refusals;
    }

    // ------------------------------------------------------- full rebuild

    /** Undo a rebuild: ipsets first, then the whole filter table. When the new chain was already
    loaded it still refers to sets created here, so those stay behind, empty. */
    method UndoRebuild(txn: Transaction, saved: (seq<Line>, seq<FilterRule>), ghost base: Sets)
      requires ipsets.Valid() && kernel == ipsets.kernel
      requires References(saved.0) <= base.Keys && forall n :: n in References(saved.0) ==> !n.Stage?
      requires txn.Valid() && txn.Open() && txn.base == base
      requires SwapsOk(base, txn.want, txn.swaps) && Staged(base, txn.want, kernel.sets, txn.swaps)
      requires StepSafe(base, txn.want, kernel.sets)
      modifies ipsets`lockHeld, kernel, txn
      ensures Valid()
      ensures old(kernel.refusals) <= kernel.refusals && old(kernel.history) <= kernel.history
      ensures kernel.refusals == old(kernel.refusals) ==> kernel.chain == saved.0 && kernel.otherRules == saved.1
      ensures kernel.chain == saved.0 || kernel.chain == old(kernel.chain)
      ensures kernel.otherRules == saved.1 || kernel.otherRules == old(kernel.otherRules)
      ensures kernel.refusals == old(kernel.refusals) ==> LeftoversOnly(base, txn.want, kernel.sets)
      ensures kernel.refusals == old(kernel.refusals) ==>
        kernel.sets == WithLeftovers(base, References(old(kernel.chain)))
      ensures BackButFor(base, kernel.sets, References(old(kernel.chain)), kernel.refusals - old(kernel.refusals) -
                Missed(kernel.chain == saved.0 && kernel.otherRules == saved.1))
      ensures StepSafe(base, txn.want, kernel.sets)
      ensures SafeSince(kernel.history, |old(kernel.history)|, base, txn.want)
    {
      hide StepSafe, SwapsOk, Staged, Undone, SameOutside, LeftoversOnly, References, BackButFor, Left, Off,
        Touched, Loaded, WithLeftovers;
      ghost var before, refs := kernel.sets, References(kernel.chain);
      assert Loaded(base, txn.want, kernel.sets, txn.swaps) by { StagedParts(base, txn.want, kernel.sets, txn.swaps); }
      var ok := ipsets.Rollback(txn);
      ghost var after, r := kernel.sets, kernel.refusals - old(kernel.refusals);
      StagedLeaves(base, txn.want, before, after, txn.swaps, refs, r);
      if kernel.refusals == old(kernel.refusals) {
        RollbackLeavesLittle(base, txn.want, before, after, txn.swaps, ok, refs);
        RollbackLeaves(base, txn.want, before, after, txn.swaps, ok, refs);
      }
      StepKeepsSets(base, txn.want, kernel.sets, References(saved.0));
      var _ := kernel.RestoreFilter(saved);
      SparedMore(base, after, refs, r, kernel.refusals - old(kernel.refusals) -
        Missed(kernel.chain == saved.0 && kernel.otherRules == saved.1));
    }

    /** Rewrite `VPN_FORWARD` and the ipsets, and repair the hooks on the other chains. The filter
    table and the sets that existed come back on failure. `loaded`: the new chain had been loaded when
    a step failed; then the sets that it refers to and that did not exist stay behind, empty. */
    method RebuildRules(rules: seq<Rule>, peers: seq<PeerForward>, tunWanted: bool)
      returns (ok: bool, ghost mark: nat, ghost loaded: bool)
      requires Valid()
      modifies ipsets, kernel
      ensures Valid()
      ensures old(kernel.refusals) <= kernel.refusals && old(kernel.history) <= kernel.history
      ensures ok ==> InForceOn(kernel, rules, peers)
      ensures ok ==> Hooked(old(kernel.otherRules), tunWanted, kernel.otherRules)
      ensures Strangers(kernel.otherRules) == Strangers(old(kernel.otherRules))
      ensures RefreshSafe(old(kernel.sets), WantOf(rules, peers), kernel.sets)
      ensures !ok ==> old(kernel.refusals) <= mark <= old(kernel.refusals) + 2 && mark <= kernel.refusals
      ensures !ok && kernel.refusals == mark ==>
        kernel.chain == old(kernel.chain) && kernel.otherRules == old(kernel.otherRules)
      ensures !ok && kernel.refusals == mark ==> LeftoversOnly(old(kernel.sets), WantOf(rules, peers), kernel.sets)
      ensures !ok && kernel.refusals == mark ==>
        kernel.sets == WithLeftovers(old(kernel.sets), if loaded then PlanReferences(rules, peers) else {})
      ensures !ok ==>
        kernel.chain == old(kernel.chain) || ChainIn(old(kernel.chain), rules, peers, kernel.chain, loaded)
      ensures !ok ==> BackButFor(old(kernel.sets), kernel.sets, if loaded then PlanReferences(rules, peers) else {},
                        kernel.refusals - mark -
                        Missed(kernel.chain == old(kernel.chain) && kernel.otherRules == old(kernel.otherRules)))
      ensures ok ==> TidiedUp(old(kernel.sets), WantOf(rules, peers), kernel.sets, References(kernel.chain),
                       kernel.refusals - old(kernel.refusals))
      ensures !ok && Deployable(rules, peers) ==> old(kernel.refusals) < mark
      ensures kernel.refusals == old(kernel.refusals) && Deployable(rules, peers) ==> ok
      ensures RefreshSafeSince(kernel.history, |old(kernel.history)|, old(kernel.sets), WantOf(rules, peers))
    {
      hide Compile, SortEntries, Entries, StepSafe, SwapsOk, Staged, CommitSafe, Converged, Applied, ListingOk,
        SameOutside, RefreshSafe, SafeSince, References, SpecMap, Loaded, AllSpecs, AllLines, GoodAddresses,
        GoodPort, WantOf, SpecNames, DistinctNames, AllStable, RefreshSafeSince, LeftoversOnly, PlanReferences,
        BackExceptFor, BackButFor, TidiedUp, Off;
      ghost var base, h0, r0, want := kernel.sets, kernel.history, kernel.refusals, WantOf(rules, peers);
      NothingChangedIsSafe(base, want, h0);
      NothingLeft(base, want);
      NoLeftovers(base, {});
      BackExceptForNone(base, base);
      NothingSpared(base, base, 0);
      loaded := false;
      var saved := kernel.SaveFilter();
      if saved.None? {
        return false, kernel.refusals, false;
      }
      var merged := BuildMergedForwardEntries(rules, peers);
      CompileIs(rules, peers);
      var desired := DesiredIpsets(merged);
      if desired.None? {
        mark := kernel.refusals;
        var _ := kernel.RestoreFilter(saved.value);
        SparedMore(base, kernel.sets, {}, 0, kernel.refusals - mark -
          Missed(kernel.chain == saved.value.0 && kernel.otherRules == saved.value.1));
        return false, mark, false;
      }
      PlanFacts(rules, peers);
      var txn := ipsets.Reconcile(desired.value);
      StepsAreRefreshSafe(base, want, kernel.sets, h0, kernel.history);
      if txn == null {
        mark := if kernel.refusals == r0 then r0 else r0 + 1;
        ghost var refused := kernel.refusals - mark;
        NothingSpared(base, kernel.sets, refused);
        var _ := kernel.RestoreFilter(saved.value);
        SparedMore(base, kernel.sets, {}, refused, kernel.refusals - mark -
          Missed(kernel.chain == saved.value.0 && kernel.otherRules == saved.value.1));
        return false, mark, false;
      }
      ghost var h1 := kernel.history;
      ok, mark, loaded := InstallFilter(txn, merged, desired.value, saved.value, rules, peers, tunWanted, base);
      SafeHistoryGrows(base, want, h0, h1, kernel.history);
    }

    /** Load the generated chain, then repair the hooks on FORWARD and INPUT. */
    method LoadAndRepair(merged: seq<Entry>, ghost rules: seq<Rule>, ghost peers: seq<PeerForward>, tunWanted: bool,
      ghost base: Sets)
      returns (ok: bool, loaded: bool)
      requires kernel == ipsets.kernel && ipsets.Valid() && merged == Merged(rules, peers) && AllGood(merged)
      requires References(kernel.chain) <= base.Keys
      modifies kernel
      ensures ipsets.Valid() && kernel.sets == old(kernel.sets) && kernel.history == old(kernel.history)
      ensures old(kernel.refusals) <= kernel.refusals <= old(kernel.refusals) + 2
      ensures ok ==> loaded && Compile(rules, peers).Some? && kernel.chain == Compile(rules, peers).value.lines
      ensures ok ==> kernel.refusals <= old(kernel.refusals) + 1
      ensures ok ==> Hooked(old(kernel.otherRules), tunWanted, kernel.otherRules)
      ensures Strangers(kernel.otherRules) == Strangers(old(kernel.otherRules))
      ensures loaded ==> References(kernel.chain) == PlanReferences(rules, peers)
      ensures ChainIn(old(kernel.chain), rules, peers, kernel.chain, loaded)
      ensures !loaded ==> References(kernel.chain) <= base.Keys
      ensures kernel.refusals == old(kernel.refusals) && Compile(rules, peers).Some? ==>
        PlanReferences(rules, peers) <= kernel.sets.Keys ==> ok
    {
      hide Compile, References, GoodPort, AllLines, AllSpecs, SortEntries, Entries;
      CompileIs(rules, peers);
      var lines := GenerateMergedRules(merged);
      ok := false;
      if lines.Some? {
        ok := WriteChain(lines.value);
      }
      loaded := ok;
      if ok {
        StrangersStay(kernel.otherRules, false);
        ok := kernel.RepairForward();
        StrangersStay(kernel.otherRules, false);
      }
      if ok {
        InputKeepsForward(kernel.otherRules);
        StrangersStay(kernel.otherRules, true);
        ok := kernel.RepairInput(tunWanted);
        InputKeepsForward(kernel.otherRules);
        StrangersStay(kernel.otherRules, true);
      }
      forall n | n in References(kernel.chain) ensures !n.Stage? {
        if loaded {
          PlanReferencesAreStable(rules, peers, n);
        } else {
          assert n in old(References(kernel.chain));
        }
      }
    }

    method InstallFilter(txn: Transaction, merged: seq<Entry>, specs: seq<SetSpec>, saved: (seq<Line>, seq<FilterRule>),
      ghost rules: seq<Rule>, ghost peers: seq<PeerForward>, tunWanted: bool, ghost base: Sets)
      returns (ok: bool, ghost mark: nat, ghost loaded: bool)
      requires kernel == ipsets.kernel && ipsets.Valid() && ipsets.lockHeld && txn.Valid() && txn.Open()
      requires merged == Merged(rules, peers) && AllGood(merged) && specs == AllSpecs(merged)
      requires Reconciled(txn, specs, base, kernel.sets) && StepSafe(base, SpecMap(specs), kernel.sets)
      requires kernel.chain == saved.0 && References(saved.0) <= base.Keys && kernel.otherRules == saved.1
      modifies ipsets`lockHeld, kernel, txn
      ensures Valid()
      ensures old(kernel.refusals) <= kernel.refusals && old(kernel.history) <= kernel.history
      ensures ok ==> InForceOn(kernel, rules, peers)
      ensures ok ==> Hooked(saved.1, tunWanted, kernel.otherRules)
      ensures Strangers(kernel.otherRules) == Strangers(saved.1)
      ensures RefreshSafe(base, WantOf(rules, peers), kernel.sets)
      ensures !ok ==> old(kernel.refusals) <= mark <= old(kernel.refusals) + 2 && mark <= kernel.refusals
      ensures !ok && kernel.refusals == mark ==> kernel.chain == saved.0 && kernel.otherRules == saved.1
      ensures !ok && kernel.refusals == mark ==> LeftoversOnly(base, WantOf(rules, peers), kernel.sets)
      ensures !ok && kernel.refusals == mark ==>
        kernel.sets == WithLeftovers(base, if loaded then PlanReferences(rules, peers) else {})
      ensures !ok ==> kernel.chain == saved.0 || ChainIn(saved.0, rules, peers, kernel.chain, loaded)
      ensures !ok ==> BackButFor(base, kernel.sets, if loaded then PlanReferences(rules, peers) else {},
                        kernel.refusals - mark -
                        Missed(kernel.chain == saved.0 && kernel.otherRules == saved.1))
      ensures ok ==> TidiedUp(base, WantOf(rules, peers), kernel.sets, References(kernel.chain),
                       kernel.refusals - old(kernel.refusals))
      ensures !ok && Deployable(rules, peers) ==> old(kernel.refusals) < mark
      ensures kernel.refusals == old(kernel.refusals) && Deployable(rules, peers) ==> ok
      ensures RefreshSafeSince(kernel.history, |old(kernel.history)|, base, WantOf(rules, peers))
    {
      hide Compile, PlanReferences, AllGood, Merged, SortEntries, Entries, StepSafe, SwapsOk, Staged, CommitSafe,
        Converged, Applied, ListingOk, SameOutside, RefreshSafe, SafeSince, References, SpecMap, Loaded, AllSpecs,
        AllLines, GoodAddresses, GoodPort, WantOf, SpecNames, DistinctNames, AllStable, RefreshSafeSince,
        LeftoversOnly, WithLeftovers, BackButFor, TidiedUp, CleanedUp, Off;
      ghost var h1, want := kernel.history, WantOf(rules, peers);
      CompileIs(rules, peers);
      PlanFacts(rules, peers);
      ReconciledIsApplied(txn, specs, base, kernel.sets);
      AppliedSetsExist(txn.want, kernel.sets);
      if Deployable(rules, peers) {
        PlanIsInstalled(rules, peers, kernel.sets);
      }
      ok, loaded := LoadAndRepair(merged, rules, peers, tunWanted, base);
      if !ok {
        mark := kernel.refusals;
        if !loaded {
          NoLeftovers(base, References(kernel.chain));
          NoLeftovers(base, {});
        }
        ghost var refs := References(kernel.chain);
        UndoRebuild(txn, saved, base);
        if !loaded {
          NoneInUse(base, kernel.sets, refs, kernel.refusals - mark -
            Missed(kernel.chain == saved.0 && kernel.otherRules == saved.1));
        }
        StepsAreRefreshSafe(base, want, kernel.sets, h1, kernel.history);
        return false, mark, loaded;
      }
      ghost var staged, r1 := kernel.sets, kernel.refusals;
      var _ := ipsets.Commit(txn);
      CommitTidiesUp(base, specs, staged, kernel.sets, txn, References(kernel.chain), kernel.refusals - r1,
        kernel.refusals - old(kernel.refusals));
      CommitIsRefreshSafe(base, want, kernel.sets, h1, kernel.history, txn.swaps);
      CommitKeepsApplied(base, specs, kernel.sets, Stages(txn.swaps));
      return true, kernel.refusals, loaded;
    }
  }

  /** Everything is as at the start, except for desired sets that did not exist and are now empty. */
  ghost predicate LeftoversOnly(base: Sets, want: Sets, s: Sets) {
    forall n :: SameAt(base, s, n) || (n in want && n !in base && n in s && s[n] == {})
  }

  /** The sets after a rebuild was undone while a chain with these references was loaded. */
  ghost function WithLeftovers(base: Sets, refs: set<SetName>): Sets {
    base + (map n | n in refs && n !in base && n.Stable? :: {})
  }

  /** The set names in the lines of a plan. */
  ghost function PlanReferences(rules: seq<Rule>, peers: seq<PeerForward>): set<SetName> {
    var plan := Compile(rules, peers);
    if plan.Some? then References(plan.value.lines) else {}
  }

  lemma NoLeftovers(base: Sets, refs: set<SetName>)
    requires refs <= base.Keys
    ensures WithLeftovers(base, refs) == base
  {
  }

  lemma PlanIsInstalled(rules: seq<Rule>, peers: seq<PeerForward>, sets: Sets)
    requires Deployable(rules, peers) && AllGood(Merged(rules, peers)) && WantOf(rules, peers).Keys <= sets.Keys
    ensures PlanReferences(rules, peers) <= sets.Keys
  {
    hide Compile, References, GoodPort, AllLines, AllSpecs, ListingOk, SpecMap, WantOf, AllGood, Merged, SpecNames,
      DistinctNames, AllStable;
    CompileIs(rules, peers);
    PlanFacts(rules, peers);
  }

  /** A rebuild that failed after the load is all or nothing exactly when the plan refers to no new set. */
  lemma AllOrNothingExactlyWhen(base: Sets, rules: seq<Rule>, peers: seq<PeerForward>)
    ensures WithLeftovers(base, PlanReferences(rules, peers)) == base <==> PlanReferences(rules, peers) <= base.Keys
  {
    hide Compile, References;
    forall n | n in PlanReferences(rules, peers) ensures n.Stable? {
      PlanReferencesAreStable(rules, peers, n);
    }
    if WithLeftovers(base, PlanReferences(rules, peers)) == base {
      assert forall n :: n in PlanReferences(rules, peers) ==> n in WithLeftovers(base, PlanReferences(rules, peers));
    }
  }

  lemma PlanReferencesAreStable(rules: seq<Rule>, peers: seq<PeerForward>, n: SetName)
    requires n in PlanReferences(rules, peers)
    ensures n.Stable?
  {
    hide References, AllLines, AllSpecs, GoodAddresses, GoodPort, SortEntries, Entries;
    PlanNamesAreStable(SortEntries(Entries(rules, peers)));
  }

  /** One rule with two sources, on a machine without sets: a hook that cannot be repaired leaves the
  rule's set behind. */
  lemma RebuildCanLeaveASet()
    ensures var pair := [Ipv4Text(Net(0, 32)), Ipv4Text(Net(1, 32))];
      var r := Rule("r", GroupOwner, "g", Center, Accept, None, pair, [], None, "all", 10, true);
      && Compile([r], []).Some?
      && WithLeftovers(map[], PlanReferences([r], [])) == map[Stable(RuleSet, "r", Src) := {}]
  {
    assert Pow2(32) > 1 by { Pow2Monotone(0, 32); }
    var pair := [Ipv4Text(Net(0, 32)), Ipv4Text(Net(1, 32))];
    var r := Rule("r", GroupOwner, "g", Center, Accept, None, pair, [], None, "all", 10, true);
    var name := Stable(RuleSet, "r", Src);
    assert AllIpv4(pair);
    TwoHosts(pair);
    OneEntry(r);
    OneRuleLines(r, name);
  }

  lemma TwoHosts(pair: seq<AddrText>)
    requires pair == [Ipv4Text(Net(0, 32)), Ipv4Text(Net(1, 32))] && AllIpv4(pair)
    ensures HasMultiple(pair)
  {
    var a, b: Token := Net(0, 32), Net(1, 32);
    var nets := CanonicalNets(Tokens(pair));
    assert pair[0] == Ipv4Text(a) && pair[1] == Ipv4Text(b);
    TokensMembers(pair);
    CanonicalIsSorted(Tokens(pair));
    assert Normalize(a) == a && Normalize(b) == b;
    assert a in Tokens(pair) && b in Tokens(pair);
    hide CanonicalNets, Tokens, Normalize;
    TwoMembers(nets, a, b);
  }

  lemma TwoMembers(s: seq<Prefix>, a: Prefix, b: Prefix)
    requires a in s && b in s && a != b
    ensures |s| >= 2
  {
  }

  lemma OneEntry(r: Rule)
    requires InForce(r)
    ensures Merged([r], []) == [JsonEntry(r)]
  {
    var es := JsonEntries([r]);
    assert [r][..0] == [];
    assert JsonEntries([r][..0]) == [];
    assert es == [JsonEntry(r)];
    assert Entries([r], []) == es + [] == es;
    assert es[..0] == [];
    assert SortEntries(es) == InsertEntry(SortEntries(es[..0]), es[0]);
  }

  lemma OneRuleLines(r: Rule, name: SetName)
    requires InForce(r) && AllIpv4(r.sourceIps) && r.destIp == [] && r.destPort == None && r.protocol == "all"
    requires SourceTerms(r) == [InSet(name)]
    ensures Compile([r], []).Some? && PlanReferences([r], []) == {name}
  {
    var merged, service := [JsonEntry(r)], Service("", AnyPort);
    var line := Line(InSet(name), AnyAddr, service, r.action);
    OneEntry(r);
    assert Services("all", None) == [service] by { AllServices(); }
    hide Services, SourceTerms, Merged, SortEntries, Entries;
    assert DestTerms([], Stable(RuleSet, r.id, Dst)) == [AnyAddr] by { NoDestinations(Stable(RuleSet, r.id, Dst)); }
    hide DestTerms;
    OneCombination(InSet(name), AnyAddr, service, r.action);
    hide Product;
    assert RuleLines(r) == [line];
    assert AllLines(merged) == [line] by { assert merged[..0] == []; }
    assert Merged([r], []) == merged;
    CompileIs([r], []);
    assert References([line]) == {name} by { OneReference(line, name); }
    hide References, AllLines, AllSpecs;
  }

  lemma AllServices()
    ensures Services("all", None) == [Service("", AnyPort)]
  {
    Text.StripOfWord("all");
    assert Text.Lower("all") == "all";
  }

  lemma NoDestinations(name: SetName)
    ensures DestTerms([], name) == [AnyAddr]
  {
    assert Tokens([]) == [];
  }

  lemma OneCombination(src: AddrMatch, dst: AddrMatch, service: Service, target: Action)
    ensures Product([src], [dst], [service], target) == [Line(src, dst, service, target)]
  {
    assert [src][..0] == [] && [dst][..0] == [];
    assert LinesTo(src, dst, [service], target) == [Line(src, dst, service, target)];
    assert LinesFrom(src, [], [service], target) == [];
    assert LinesFrom(src, [dst], [service], target) == [Line(src, dst, service, target)];
  }

  lemma OneReference(line: Line, name: SetName)
    requires line.src == InSet(name) && line.dst == AnyAddr
    ensures References([line]) == {name}
  {
    assert line in [line] && line.src in {line.src, line.dst};
  }

  lemma NothingLeft(base: Sets, want: Sets)
    ensures LeftoversOnly(base, want, base)
  {
  }

  lemma RollbackLeavesLittle(base: Sets, want: Sets, before: Sets, after: Sets, swaps: seq<IpsetSwap>, ok: bool,
      refs: set<SetName>)
    requires SwapsOk(base, want, swaps) && Staged(base, want, before, swaps)
    requires RollbackOutcome(base, want, before, after, swaps, ok, true, refs)
    ensures LeftoversOnly(base, want, after) && base.Keys <= after.Keys
  {
    hide SafeAt, StepSafe;
    forall n ensures SameAt(base, after, n) || (n in want && n !in base && n in after && after[n] == {}) {
      if w :| w in swaps && (n == w.stable || n == w.stage) {
        var k :| 0 <= k < |swaps| && swaps[k] == w;
        assert UndoneAt(base, want, after, swaps[k], ok, true, refs) && SwapOk(base, want, swaps[k]);
      } else {
        assert n !in Touched(swaps);
        assert SameAt(base, before, n) && SameAt(before, after, n);
      }
    }
    forall n | n in base ensures n in after {
      assert SameAt(base, after, n) || n !in base;
    }
  }

  lemma EmptyChainReferences()
    ensures References([]) == {}
  {
  }

  lemma NothingChangedIsSafe(base: Sets, want: Sets, h: seq<Sets>)
    ensures RefreshSafe(base, want, base) && RefreshSafeSince(h, |h|, base, want)
  {
  }

  lemma CompileIs(rules: seq<Rule>, peers: seq<PeerForward>)
    ensures var merged := Merged(rules, peers);
      && (Compile(rules, peers).Some? <==> AllGood(merged) && forall i :: 0 <= i < |merged| ==> GoodPort(merged[i]))
      && (Compile(rules, peers).Some? ==> Compile(rules, peers).value == Plan(AllSpecs(merged), AllLines(merged)))
  {
    hide GoodAddresses, GoodPort, SortEntries, AllSpecs, AllLines;
  }

  lemma PlanFacts(rules: seq<Rule>, peers: seq<PeerForward>)
    requires AllGood(Merged(rules, peers))
    ensures WantOf(rules, peers) == SpecMap(AllSpecs(Merged(rules, peers)))
    ensures WantOf(rules, peers).Keys == SpecNames(AllSpecs(Merged(rules, peers)))
    ensures AllStable(AllSpecs(Merged(rules, peers)))
    ensures ListingOk(Entries(rules, peers)) ==>
      && DistinctNames(AllSpecs(Merged(rules, peers)))
      && References(AllLines(Merged(rules, peers))) <= SpecNames(AllSpecs(Merged(rules, peers)))
    ensures forall n :: n in References(AllLines(Merged(rules, peers))) ==> n.Stable?
  {
    hide GoodAddresses, SortEntries, AllLines, References, DistinctOwners, TagsResolved, EntrySpecs, DistinctNames,
      AllSpecs;
    var merged := Merged(rules, peers);
    SpecMapKeys(AllSpecs(merged));
    PlanNamesAreStable(merged);
    if ListingOk(Entries(rules, peers)) {
      SortKeepsListingOk(Entries(rules, peers));
      NamesAreDistinct(merged);
      ReferencesAreDesired(merged);
    }
  }

  lemma StepsAreRefreshSafe(base: Sets, want: Sets, now: Sets, h: seq<Sets>, h': seq<Sets>)
    requires StepSafe(base, want, now) && h <= h' && SafeSince(h', |h|, base, want)
    ensures RefreshSafe(base, want, now) && RefreshSafeSince(h', |h|, base, want)
  {
    hide SafeAt, SameAt;
    forall t | StepSafe(base, want, t) ensures RefreshSafe(base, want, t) {
      StepIsRefreshSafe(base, want, t);
    }
  }

  lemma StepIsRefreshSafe(base: Sets, want: Sets, t: Sets)
    requires StepSafe(base, want, t)
    ensures RefreshSafe(base, want, t)
  {
    forall n ensures RefreshSafeAt(base, want, t, n) {
      assert SafeAt(base, want, t, n);
    }
  }

  lemma CommitIsRefreshSafe(base: Sets, want: Sets, now: Sets, h: seq<Sets>, h': seq<Sets>, swaps: seq<IpsetSwap>)
    requires SwapsOk(base, want, swaps) && h <= h' && CommitSafe(base, want, now, Stages(swaps))
    requires forall i :: |h| <= i < |h'| ==> CommitSafe(base, want, h'[i], Stages(swaps))
    ensures RefreshSafe(base, want, now) && RefreshSafeSince(h', |h|, base, want)
  {
    hide SafeAt, SameAt, CommitSafe, RefreshSafe;
    SwapsHaveStages(base, want, swaps);
    forall t | CommitSafe(base, want, t, Stages(swaps)) ensures RefreshSafe(base, want, t) {
      CommitStateIsRefreshSafe(base, want, t, Stages(swaps));
    }
  }

  lemma CommitStateIsRefreshSafe(base: Sets, want: Sets, t: Sets, stages: set<SetName>)
    requires CommitSafe(base, want, t, stages) && forall n :: n in stages ==> n !in base
    ensures RefreshSafe(base, want, t)
  {
    forall n ensures RefreshSafeAt(base, want, t, n) {
      assert CommitSafeAt(base, want, t, stages, n);
    }
  }

  lemma AppliedSetsExist(want: Sets, s: Sets)
    requires Applied(want, s)
    ensures want.Keys <= s.Keys
  {
  }

  lemma CommitKeepsApplied(base: Sets, specs: seq<SetSpec>, s: Sets, stages: set<SetName>)
    requires CommitSafe(base, SpecMap(specs), s, stages) && AllStable(specs)
    ensures Applied(SpecMap(specs), s)
  {
    hide SpecMap;
    SpecMapKeys(specs);
    forall n | n in SpecMap(specs) ensures n in s && s[n] == SpecMap(specs)[n] {
      assert CommitSafeAt(base, SpecMap(specs), s, stages, n);
    }
  }

  lemma SafeHistoryGrows(base: Sets, want: Sets, h: seq<Sets>, h1: seq<Sets>, h2: seq<Sets>)
    requires h <= h1 <= h2
    requires RefreshSafeSince(h1, |h|, base, want) && RefreshSafeSince(h2, |h1|, base, want)
    ensures RefreshSafeSince(h2, |h|, base, want)
  {
    hide RefreshSafe;
    forall i | |h| <= i < |h2| ensures RefreshSafe(base, want, h2[i]) {
      if i < |h1| { assert h1[i] == h2[i]; }
    }
  }

  lemma ReconciledIsApplied(txn: Transaction, specs: seq<SetSpec>, base: Sets, now: Sets)
    requires Reconciled(txn, specs, base, now)
    ensures SameOutside(base, now, Touched(txn.swaps)) && Applied(txn.want, now)
    ensures txn.desiredNames == txn.want.Keys
  {
    hide SwapsOk, SetOf;
    SpecMapKeys(specs);
    forall n | n in txn.want ensures n in now && now[n] == txn.want[n] {
      var s :| s in specs && s.name == n;
      var k :| 0 <= k < |specs| && specs[k] == s;
      assert LoadedAt(base, txn.want, now, txn.swaps[k]);
    }
  }

  lemma StagedParts(base: Sets, want: Sets, s: Sets, swaps: seq<IpsetSwap>)
    requires Staged(base, want, s, swaps)
    ensures Loaded(base, want, s, swaps) && SameOutside(base, s, Touched(swaps))
  {
  }

  lemma StagedLeaves(base: Sets, want: Sets, before: Sets, after: Sets, swaps: seq<IpsetSwap>, refs: set<SetName>,
      refused: nat)
    requires SwapsOk(base, want, swaps) && Staged(base, want, before, swaps)
    requires SameOutside(before, after, Touched(swaps)) && Left(base, want, after, swaps, refs) <= refused
    ensures BackButFor(base, after, refs, refused)
    ensures refs <= base.Keys ==> BackExceptFor(base, after, refused)
  {
    hide SwapsOk, SameOutside, Left, Touched, Loaded, Off;
    StagedParts(base, want, before, swaps);
    NothingOff(base, before, Touched(swaps));
    RolledBackUpTo(base, want, before, after, swaps, refs, refused);
    if refs <= base.Keys {
      NoneSpared(base, after, refs);
    }
  }

  lemma MoreRefused(before: seq<Line>, saved: seq<Line>, after: seq<Line>, few: int, more: int)
    requires PartlyRestored(before, saved, after, more) && 0 <= few && 0 <= more
    ensures PartlyRestored(before, saved, after, few + more)
  {
  }

  /** No step takes away a set that existed. */
  lemma StepKeepsSets(base: Sets, want: Sets, s: Sets, refs: set<SetName>)
    requires StepSafe(base, want, s) && refs <= base.Keys && forall n :: n in refs ==> !n.Stage?
    ensures refs <= s.Keys
  {
    forall n | n in refs ensures n in s {
      assert SafeAt(base, want, s, n);
    }
  }

  lemma FromEmptyOrSaved(before: seq<Line>, saved: seq<Line>, after: seq<Line>, refused: int)
    requires PartlyRestored(before, saved, after, refused) && (before == saved || before == [])
    ensures PartlyRestored(saved, saved, after, refused)
  {
    var k :| 0 <= k <= |saved| && (after == saved[..k] || (refused > 0 && after == before + saved[..k]));
    if before == [] {
      assert before + saved[..k] == saved[..k];
    }
  }

  lemma AllThere(saved: seq<Line>)
    ensures PartlyRestored(saved, saved, saved, 0)
  {
    assert saved[..|saved|] == saved;
  }

  /** The chain while a rebuild is under way: the new one once it was loaded, the old one or none before. */
  ghost predicate ChainIn(before: seq<Line>, rules: seq<Rule>, peers: seq<PeerForward>, chain: seq<Line>,
      loaded: bool)
  {
    if loaded then Compile(rules, peers).Some? && chain == Compile(rules, peers).value.lines
    else chain == before || chain == []
  }

  lemma NothingSpared(base: Sets, s: Sets, refused: int)
    requires BackExceptFor(base, s, refused)
    ensures BackButFor(base, s, {}, refused)
  {
    hide Off;
    assert StableOff(base, s) - ({} - base.Keys) == StableOff(base, s);
  }

  lemma SparedMore(base: Sets, s: Sets, inUse: set<SetName>, few: int, more: int)
    requires BackButFor(base, s, inUse, few) && few <= more
    ensures BackButFor(base, s, inUse, more)
  {
    hide Off;
  }

  lemma NoneInUse(base: Sets, s: Sets, refs: set<SetName>, refused: int)
    requires BackButFor(base, s, refs, refused) && refs <= base.Keys
    ensures BackButFor(base, s, {}, refused)
  {
    hide Off;
    NoneSpared(base, s, refs);
    NoneSpared(base, s, {});
  }

  lemma BackExceptForMore(base: Sets, sets: Sets, few: int, more: int)
    requires BackExceptFor(base, sets, few) && few <= more
    ensures BackExceptFor(base, sets, more)
  {
  }

  lemma CommitTidiesUp(base: Sets, specs: seq<SetSpec>, staged: Sets, s: Sets, txn: Transaction, refs: set<SetName>,
      refused: nat, more: nat)
    requires Reconciled(txn, specs, base, staged) && refused <= more
    requires CleanedUp(staged, s, txn.desiredNames, Stages(txn.swaps), refs, refused)
    requires CommitSafe(base, txn.want, s, Stages(txn.swaps))
    ensures TidiedUp(base, txn.want, s, refs, more)
  {
    hide SwapsOk, Staged, SpecMap, SpecNames, CommitSafe, OthersOff, Orphans, Stages;
    SpecMapKeys(specs);
    StagesOnly(base, txn.want, s, txn.swaps);
    SameOrphans(base, txn.want, staged, txn.swaps, refs);
  }

  lemma StagesOnly(base: Sets, want: Sets, s: Sets, swaps: seq<IpsetSwap>)
    requires SwapsOk(base, want, swaps) && CommitSafe(base, want, s, Stages(swaps))
    ensures |OthersOff(base, s)| <= |Stages(swaps) * s.Keys|
  {
    SwapsHaveStages(base, want, swaps);
    forall w | w in swaps ensures w.stage in Stages(swaps) { }
    hide SwapsOk, CommitSafe;
    forall n | n in OthersOff(base, s) ensures n in Stages(swaps) && n in s.Keys {
      assert CommitSafeAt(base, want, s, Stages(swaps), n) by { SafeHere(base, want, s, Stages(swaps), n); }
    }
    FewerMembers(OthersOff(base, s), Stages(swaps) * s.Keys);
  }

  lemma SafeHere(base: Sets, want: Sets, s: Sets, stages: set<SetName>, n: SetName)
    requires CommitSafe(base, want, s, stages)
    ensures CommitSafeAt(base, want, s, stages, n)
  {
    hide CommitSafeAt;
  }

  lemma SameOrphans(base: Sets, want: Sets, staged: Sets, swaps: seq<IpsetSwap>, refs: set<SetName>)
    requires SwapsOk(base, want, swaps) && Staged(base, want, staged, swaps)
    ensures Orphans(staged, want.Keys, refs) == Orphans(base, want.Keys, refs)
  {
    SwapsHaveStages(base, want, swaps);
    StagedParts(base, want, staged, swaps);
    hide SwapsOk, Staged, Loaded;
    forall n: SetName | n.Stable? && n !in want ensures SameAt(base, staged, n) {
      assert n !in Touched(swaps);
    }
  }

  lemma NothingOff(base: Sets, s: Sets, names: set<SetName>)
    requires SameOutside(base, s, names)
    ensures Off(base, s) - names == {}
  {
  }

  /** What a rollback leaves, exactly. */
  lemma RollbackLeaves(base: Sets, want: Sets, before: Sets, after: Sets, swaps: seq<IpsetSwap>, ok: bool,
      refs: set<SetName>)
    requires SwapsOk(base, want, swaps) && Staged(base, want, before, swaps) && refs <= before.Keys
    requires RollbackOutcome(base, want, before, after, swaps, ok, true, refs)
    ensures after == WithLeftovers(base, refs)
  {
    hide SafeAt, StepSafe;
    var left := WithLeftovers(base, refs);
    forall n ensures SameAt(left, after, n) {
      if w :| w in swaps && (n == w.stable || n == w.stage) {
        var k :| 0 <= k < |swaps| && swaps[k] == w;
        assert UndoneAt(base, want, after, swaps[k], ok, true, refs) && SwapOk(base, want, swaps[k]);
      } else {
        assert n !in Touched(swaps);
        assert SameAt(base, before, n) && SameAt(before, after, n);
      }
    }
    SameEverywhere(left, after);
  }

  /** A kernel that carries out the plan decides every packet as the policy of the stored rules and
  peers says. */
  lemma KernelFollowsPolicy(chain: seq<Line>, sets: Sets, rules: seq<Rule>, peers: seq<PeerForward>, pkt: Packet)
    requires Deployable(rules, peers) && forall r :: r in rules ==> StoredPort(r.destPort)
    requires chain == Compile(rules, peers).value.lines && Applied(WantOf(rules, peers), sets)
    ensures PolicySays(Entries(rules, peers), pkt, FirstMatch(chain, sets, pkt))
  {
    hide Compile, ListingOk, PolicySays, FirstMatch, StoredPort, Entries, SpecMap, AllSpecs, AllLines, SortEntries,
      GoodAddresses;
    CompileIs(rules, peers);
    PlanFacts(rules, peers);
    CompilerCorrect(rules, peers, sets, pkt);
  }
}
