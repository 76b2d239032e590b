/** Declarative ipset lifecycle: stage, swap, then commit or roll back, with garbage collection of
orphaned managed sets. */
module IpsetTransactions {
  import opened Wrappers
  import opened Ipv4
  import opened ForwardPlan
  import opened KernelModel

  /** One stable/stage exchange, as recorded for commit and rollback. */
  datatype IpsetSwap = IpsetSwap(stable: SetName, stage: SetName, created: bool)

  // -------------------------------------------------- comparing ipset states

  ghost predicate SameAt(a: Sets, b: Sets, n: SetName) {
    (n in a <==> n in b) && (n in a ==> a[n] == b[n])
  }

  ghost function OldOf(base: Sets, n: SetName): set<Prefix> {
    if n in base then base[n] else {}
  }

  /** What an intermediate state owes to the state `base` at the start, when `want` is being applied:
  other programs' sets, other transactions' stages and stable sets not being changed are as they
  were; a set being changed exists if it did, and holds its complete old or complete new contents
  (a set that did not exist may also be there empty). */
  ghost predicate SafeAt(base: Sets, want: Sets, s: Sets, n: SetName) {
    match n
    case Foreign(_) => SameAt(base, s, n)
    case Stage(_) => n in base ==> SameAt(base, s, n)
    case Stable(_, _, _) =>
      if n !in want then SameAt(base, s, n)
      else
        && (n in base ==> n in s)
        && (n in s ==> s[n] == want[n] || s[n] == OldOf(base, n))
  }

  ghost predicate StepSafe(base: Sets, want: Sets, s: Sets) {
    forall n :: SafeAt(base, want, s, n)
  }

  ghost predicate SafeSince(history: seq<Sets>, from: nat, base: Sets, want: Sets) {
    forall i :: from <= i < |history| ==> StepSafe(base, want, history[i])
  }

  ghost predicate SwapsOk(base: Sets, want: Sets, swaps: seq<IpsetSwap>) {
    && (forall k :: 0 <= k < |swaps| ==> SwapOk(base, want, swaps[k]))
    && (forall j, k :: 0 <= j < k < |swaps| ==> swaps[j].stable != swaps[k].stable && swaps[j].stage != swaps[k].stage)
  }

  ghost predicate SwapOk(base: Sets, want: Sets, w: IpsetSwap) {
    && w.stable.Stable? && w.stable in want
    && w.stage.Stage? && w.stage !in base
    && (w.created <==> w.stable !in base)
  }

  ghost function Touched(swaps: seq<IpsetSwap>): set<SetName> {
    (set w | w in swaps :: w.stable) + (set w | w in swaps :: w.stage)
  }

  /** The exchange took place: new contents under the stable name, old contents under the stage. */
  ghost predicate LoadedAt(base: Sets, want: Sets, s: Sets, w: IpsetSwap) {
    && w.stable in s && w.stable in want && s[w.stable] == want[w.stable]
    && w.stage in s && s[w.stage] == OldOf(base, w.stable)
  }

  /** The exchange was undone. */
  ghost predicate RestoredAt(base: Sets, s: Sets, w: IpsetSwap) {
    w.stage !in s && SameAt(base, s, w.stable)
  }

  ghost predicate Loaded(base: Sets, want: Sets, s: Sets, swaps: seq<IpsetSwap>) {
    forall k :: 0 <= k < |swaps| ==> LoadedAt(base, want, s, swaps[k])
  }

  ghost predicate SameOutside(a: Sets, b: Sets, names: set<SetName>) {
    forall n :: n !in names ==> SameAt(a, b, n)
  }

  /** The state a successful reconcile leaves: everything exchanged, nothing else changed. */
  ghost predicate Staged(base: Sets, want: Sets, s: Sets, swaps: seq<IpsetSwap>) {
    Loaded(base, want, s, swaps) && SameOutside(base, s, Touched(swaps))
  }

  lemma SameEverywhere(a: Sets, b: Sets)
    requires forall n :: SameAt(a, b, n)
    ensures a == b
  {
    assert forall n :: n in a.Keys <==> n in b.Keys by {
      forall n ensures n in a.Keys <==> n in b.Keys { assert SameAt(a, b, n); }
    }
    forall n | n in a ensures a[n] == b[n] { assert SameAt(a, b, n); }
  }

  /** The names at which two states differ. */
  ghost function Off(a: Sets, b: Sets): set<SetName> {
    set n | n in a.Keys + b.Keys && !SameAt(a, b, n)
  }

  ghost function StableOff(a: Sets, b: Sets): set<SetName> {
    set n | n in Off(a, b) && n.Stable?
  }

  ghost function OthersOff(a: Sets, b: Sets): set<SetName> {
    set n | n in Off(a, b) && !n.Stable?
  }

  /** Up to so many refused commands, b is a again: no more stable sets differ, and no more other sets. */
  ghost predicate BackExceptFor(a: Sets, b: Sets, refused: int) {
    |StableOff(a, b)| <= refused && |OthersOff(a, b)| <= refused
  }

  lemma BackExceptForNone(a: Sets, b: Sets)
    ensures BackExceptFor(a, b, 0) <==> a == b
  {
    if BackExceptFor(a, b, 0) {
      forall n ensures SameAt(a, b, n) {
        assert n !in StableOff(a, b) && n !in OthersOff(a, b);
      }
      SameEverywhere(a, b);
    }
  }

  lemma FewerMembers(a: set<SetName>, b: set<SetName>)
    requires a <= b
    ensures |a| <= |b|
  {
    assert a + (b - a) == b;
  }

  lemma UntouchedIsSafe(base: Sets, want: Sets)
    ensures StepSafe(base, want, base)
  {
  }

  class Transaction {
    ghost const base: Sets  // the ipsets when the transaction began
    ghost const want: Sets  // the desired sets
    const desiredNames: set<SetName>
    var swaps: seq<IpsetSwap>
    var committed: bool
    var rolledBack: bool
    var holdsLock: bool

    constructor (ghost base: Sets, ghost want: Sets, desiredNames: set<SetName>)
      ensures this.base == base && this.want == want && this.desiredNames == desiredNames
      ensures swaps == [] && !committed && !rolledBack && holdsLock
    {
      this.base, this.want, this.desiredNames := base, want, desiredNames;
      swaps, committed, rolledBack, holdsLock := [], false, false, true;
    }

    /** The lock is held from reconcile to commit or rollback. */
    ghost predicate Valid()
      reads this
    {
      holdsLock <==> !committed && !rolledBack
    }

    ghost predicate Open()
      reads this
    {
      !committed && !rolledBack
    }
  }

  lemma NoEntries()
    ensures SetOf([]) == {}
  {
  }

  lemma OneMoreEntry(entries: seq<Prefix>, j: nat)
    requires j < |entries|
    ensures SetOf(entries[..j + 1]) == SetOf(entries[..j]) + {entries[j]}
  {
  }

  lemma OnlyStageChanged(sets: Sets, stage: SetName, entries: set<Prefix>)
    ensures SameOutside(sets, sets[stage := entries], {stage})
  {
  }

  class IpsetManager {
    const kernel: Kernel
    var nonce: nat  // stage names are made from it and never reused
    var lockHeld: bool  // the machine-wide reconcile lock

    constructor (kernel: Kernel, nonce: nat)
      ensures this.kernel == kernel && this.nonce == nonce && !lockHeld
    {
      this.kernel, this.nonce, lockHeld := kernel, nonce, false;
    }

    ghost predicate Valid()
      reads this, kernel
    {
      && kernel.Valid()
      && (forall n :: n in kernel.sets && n.Stage? ==> n.nonce < nonce)
      && (forall n :: n in References(kernel.chain) ==> !n.Stage?)
    }

    // ------------------------------------------------------------ undo one

    /** Undo one exchange: swap back, drop a stable set that did not exist before, drop the stage. */
    method UndoOne(w: IpsetSwap) returns (ok: bool)
      requires Valid()
      requires w.stable.Stable? && w.stage.Stage? && w.stable in kernel.sets && w.stage in kernel.sets
      modifies kernel
      ensures Valid() && kernel.chain == old(kernel.chain) && kernel.otherRules == old(kernel.otherRules)
      ensures old(kernel.refusals) <= kernel.refusals
      ensures ok ==> kernel.sets == SwappedBack(old(kernel.sets), w, w.created)
      ensures ok ==> kernel.refusals == old(kernel.refusals)
      ensures !ok && kernel.refusals == old(kernel.refusals) ==>
        w.created && w.stable in References(kernel.chain) && kernel.sets == SwappedBack(old(kernel.sets), w, false)
      ensures kernel.refusals == old(kernel.refusals) ==> (ok <==> !(w.created && w.stable in References(kernel.chain)))
      ensures UndoStep(old(kernel.sets), kernel.sets, w)
      ensures UndoEnd(old(kernel.sets), kernel.sets, w)
      ensures CommandsLeft(old(kernel.sets), kernel.sets, w, References(kernel.chain)) <=
        kernel.refusals - old(kernel.refusals)
      ensures old(kernel.history) <= kernel.history
      ensures forall i ::
        |old(kernel.history)| <= i < |kernel.history| ==> UndoStep(old(kernel.sets), kernel.history[i], w)
    {
      ok := kernel.Swap(w.stage, w.stable);
      if !ok {
        return;
      }
      if w.created {
        var gone := kernel.Destroy(w.stable);
        ok := ok && gone;
      }
      var gone := kernel.Destroy(w.stage);
      ok := ok && gone;
    }

    /** Undo every exchange, latest first. A refused exchange is skipped, the others are undone all the same:
    what is left of the transaction is no more than the refused commands account for. Contents that could
    not be put back stay in the stage for an operator. */
    method Rollback(txn: Transaction) returns (ok: bool)
      requires Valid() && txn.Valid()
      requires txn.Open() ==>
        SwapsOk(txn.base, txn.want, txn.swaps) && Loaded(txn.base, txn.want, kernel.sets, txn.swaps)
      requires txn.Open() ==> StepSafe(txn.base, txn.want, kernel.sets)
      modifies this`lockHeld, kernel, txn
      ensures Valid() && kernel.chain == old(kernel.chain) && kernel.otherRules == old(kernel.otherRules)
      ensures txn.Valid() && txn.swaps == old(txn.swaps) && txn.committed == old(txn.committed)
      ensures lockHeld == (old(lockHeld) && !old(txn.Open()))
      ensures txn.rolledBack == (old(txn.rolledBack) || !old(txn.committed))
      ensures old(txn.rolledBack) ==> ok && unchanged(kernel)
      ensures !old(txn.rolledBack) && old(txn.committed) ==> !ok && unchanged(kernel)
      ensures old(txn.Open()) ==> RollbackOutcome(txn.base, txn.want, old(kernel.sets), kernel.sets, txn.swaps, ok,
                                    kernel.refusals == old(kernel.refusals), References(kernel.chain))
      ensures old(kernel.refusals) <= kernel.refusals
      ensures old(txn.Open()) ==>
        Left(txn.base, txn.want, kernel.sets, txn.swaps, References(kernel.chain)) <=
        kernel.refusals - old(kernel.refusals)
      ensures old(kernel.history) <= kernel.history
      ensures old(txn.Open()) ==> SafeSince(kernel.history, |old(kernel.history)|, txn.base, txn.want)
    {
      hide SwapsOk, Loaded, StepSafe, SafeSince, SameOutside, Undone, Left, Touched;
      if txn.rolledBack {
        return true;
      }
      if txn.committed {
        return false;
      }
      ok := true;
      ghost var s0, h0, r0, refs := kernel.sets, kernel.history, kernel.refusals, References(kernel.chain);
      NothingUndoneYet(txn.base, txn.want, s0, h0, txn.swaps, refs);
      var i := |txn.swaps|;
      while i > 0
        invariant 0 <= i <= |txn.swaps|
        invariant Valid() && kernel.chain == old(kernel.chain) && kernel.otherRules == old(kernel.otherRules)
        invariant unchanged(txn)
        invariant Loaded(txn.base, txn.want, kernel.sets, txn.swaps[..i])
        invariant SameOutside(s0, kernel.sets, Touched(txn.swaps))
        invariant Undone(txn.base, txn.want, kernel.sets, txn.swaps[i..], ok, kernel.refusals == r0, refs)
        invariant r0 <= kernel.refusals
        invariant Left(txn.base, txn.want, kernel.sets, txn.swaps[i..], refs) <= kernel.refusals - r0
        invariant h0 <= kernel.history && SafeSince(kernel.history, |h0|, txn.base, txn.want)
        invariant StepSafe(txn.base, txn.want, kernel.sets)
      {
        i := i - 1;
        ok := UndoNext(txn, i, ok, s0, h0, r0);
      }
      assert txn.swaps[0..] == txn.swaps;
      txn.holdsLock := false;
      lockHeld := false;
      txn.rolledBack := true;
    }

    method UndoNext(txn: Transaction, i: nat, ok: bool, ghost s0: Sets, ghost h0: seq<Sets>, ghost r0: nat)
      returns (r: bool)
      requires Valid() && i < |txn.swaps| && SwapsOk(txn.base, txn.want, txn.swaps)
      requires Loaded(txn.base, txn.want, kernel.sets, txn.swaps[..i + 1])
      requires SameOutside(s0, kernel.sets, Touched(txn.swaps))
      requires r0 <= kernel.refusals && h0 <= kernel.history
      requires Undone(txn.base, txn.want, kernel.sets, txn.swaps[i + 1..], ok, kernel.refusals == r0,
        References(kernel.chain))
      requires Left(txn.base, txn.want, kernel.sets, txn.swaps[i + 1..], References(kernel.chain)) <=
        kernel.refusals - r0
      requires SafeSince(kernel.history, |h0|, txn.base, txn.want) && StepSafe(txn.base, txn.want, kernel.sets)
      modifies kernel
      ensures Valid() && kernel.chain == old(kernel.chain) && kernel.otherRules == old(kernel.otherRules)
      ensures Loaded(txn.base, txn.want, kernel.sets, txn.swaps[..i])
      ensures SameOutside(s0, kernel.sets, Touched(txn.swaps))
      ensures r0 <= kernel.refusals && h0 <= kernel.history
      ensures Undone(txn.base, txn.want, kernel.sets, txn.swaps[i..], r, kernel.refusals == r0,
        References(kernel.chain))
      ensures Left(txn.base, txn.want, kernel.sets, txn.swaps[i..], References(kernel.chain)) <= kernel.refusals - r0
      ensures SafeSince(kernel.history, |h0|, txn.base, txn.want) && StepSafe(txn.base, txn.want, kernel.sets)
    {
      hide SwapsOk, SameOutside, StepSafe, Touched, Left, LeftAt, KeptAt, UndoEnd, CommandsLeft;
      ghost var s, h, refs, clean := kernel.sets, kernel.history, References(kernel.chain), kernel.refusals == r0;
      ghost var base, want, swaps := txn.base, txn.want, txn.swaps;
      var w := txn.swaps[i];
      assert swaps[..i + 1][i] == w && LoadedAt(base, want, s, swaps[..i + 1][i]);
      SwapAt(base, want, swaps, i);
      var undone := UndoOne(w);
      forall j | |h| <= j < |kernel.history| ensures StepSafe(base, want, kernel.history[j]) {
        UndoStepIsSafe(base, want, s, kernel.history[j], w);
      }
      UndoStepIsSafe(base, want, s, kernel.sets, w);
      UndoStepElsewhere(base, want, s, kernel.sets, swaps, i);
      UndoStepOutside(s0, s, kernel.sets, w, swaps);
      assert swaps[i..] == [w] + swaps[i + 1..];
      LeftElsewhere(base, want, s, kernel.sets, swaps, i, refs);
      EndLeavesLittle(base, want, s, kernel.sets, w, refs);
      OneMoreLeft(base, want, kernel.sets, w, swaps[i + 1..], refs);
      OneMoreUndone(base, want, s, kernel.sets, swaps, i, ok, undone, refs, clean, kernel.refusals == r0);
      r := ok && undone;
    }

    // ----------------------------------------------------------- reconcile

    /** Add the entries of a new set to an empty stage, until one is refused. */
    method Fill(stage: SetName, entries: seq<Prefix>) returns (ok: bool)
      requires Valid() && stage in kernel.sets && kernel.sets[stage] == {}
      modifies kernel
      ensures Valid() && kernel.chain == old(kernel.chain) && kernel.otherRules == old(kernel.otherRules)
      ensures stage in kernel.sets && kernel.sets == old(kernel.sets)[stage := kernel.sets[stage]]
      ensures ok ==> kernel.sets[stage] == SetOf(entries)
      ensures kernel.refusals == if ok then old(kernel.refusals) else old(kernel.refusals) + 1
      ensures old(kernel.history) <= kernel.history
      ensures forall i :: |old(kernel.history)| <= i < |kernel.history| ==>
        SameOutside(old(kernel.sets), kernel.history[i], {stage})
    {
      hide SetOf, SameOutside;
      ok := true;
      var j := 0;
      assert SetOf(entries[..0]) == {} by { NoEntries(); }
      while j < |entries| && ok
        decreases |entries| - j, ok
        invariant 0 <= j <= |entries|
        invariant Valid() && kernel.chain == old(kernel.chain) && kernel.otherRules == old(kernel.otherRules)
        invariant kernel.sets == old(kernel.sets)[stage := SetOf(entries[..j])]
        invariant kernel.refusals == if ok then old(kernel.refusals) else old(kernel.refusals) + 1
        invariant old(kernel.history) <= kernel.history
        invariant forall i :: |old(kernel.history)| <= i < |kernel.history| ==>
          SameOutside(old(kernel.sets), kernel.history[i], {stage})
      {
        ok := kernel.Add(stage, entries[j]);
        if ok {
          OneMoreEntry(entries, j);
          OnlyStageChanged(old(kernel.sets), stage, SetOf(entries[..j + 1]));
          j := j + 1;
        }
      }
      assert entries[..|entries|] == entries;
    }

    /** Build the new contents in a fresh stage, then exchange it with the stable set, which is
    created first when it does not exist. On failure the stage goes, and so does a stable set created
    here. */
    method StageOne(spec: SetSpec, existed: bool) returns (swap: Option<IpsetSwap>)
      requires Valid() && spec.name.Stable?
      requires existed <==> spec.name in kernel.sets
      modifies this`nonce, kernel
      ensures Valid() && kernel.chain == old(kernel.chain) && kernel.otherRules == old(kernel.otherRules)
      ensures old(nonce) < nonce
      ensures old(kernel.refusals) <= kernel.refusals
      ensures swap.Some? ==> swap.value == IpsetSwap(spec.name, Stage(old(nonce)), !existed)
      ensures swap.Some? ==> kernel.sets == Exchanged(old(kernel.sets), spec, Stage(old(nonce)))
      ensures swap.Some? ==> kernel.refusals == old(kernel.refusals)
      ensures swap.None? ==> old(kernel.refusals) < kernel.refusals
      ensures swap.None? && kernel.refusals == old(kernel.refusals) + 1 ==> kernel.sets == old(kernel.sets)
      ensures swap.None? ==> |Off(old(kernel.sets), kernel.sets)| <= kernel.refusals - old(kernel.refusals) - 1
      ensures StageStep(old(kernel.sets), kernel.sets, spec, Stage(old(nonce)))
      ensures old(kernel.history) <= kernel.history
      ensures forall i :: |old(kernel.history)| <= i < |kernel.history| ==>
        StageStep(old(kernel.sets), kernel.history[i], spec, Stage(old(nonce)))
    {
      hide SameOutside, SetOf;
      var stage := Stage(nonce);
      ghost var s0 := kernel.sets;
      nonce := nonce + 1;
      var ok := kernel.Create(stage, false);
      if !ok {
        StageStepReflexive(s0, spec, stage);
        return None;
      }
      ghost var h := kernel.history;
      ok := FillAndExchange(stage, spec, existed);
      forall t | StageStep(s0[stage := {}], t, spec, stage) ensures StageStep(s0, t, spec, stage) {
        StageStepIgnoresStage(s0, t, spec, stage);
      }
      StageStepReflexive(s0[stage := {}], spec, stage);
      if ok {
        return Some(IpsetSwap(spec.name, stage, !existed));
      }
      Discard(stage, spec, existed, s0);
      return None;
    }

    /** Clean up after a failed exchange. */
    method Discard(stage: SetName, spec: SetSpec, existed: bool, ghost s0: Sets)
      requires Valid() && spec.name.Stable? && stage.Stage? && stage !in s0
      requires existed <==> spec.name in s0
      requires References(kernel.chain) <= s0.Keys
      requires StageStep(s0, kernel.sets, spec, stage) && (existed ==> SameAt(s0, kernel.sets, spec.name))
      modifies kernel
      ensures Valid() && kernel.chain == old(kernel.chain) && kernel.otherRules == old(kernel.otherRules)
      ensures old(kernel.refusals) <= kernel.refusals
      ensures kernel.refusals == old(kernel.refusals) ==> kernel.sets == s0
      ensures |Off(s0, kernel.sets)| <= kernel.refusals - old(kernel.refusals)
      ensures StageStep(s0, kernel.sets, spec, stage)
      ensures old(kernel.history) <= kernel.history
      ensures forall i :: |old(kernel.history)| <= i < |kernel.history| ==>
        StageStep(s0, kernel.history[i], spec, stage)
    {
      hide Off;
      ghost var failed := kernel.sets;
      var _ := kernel.Destroy(stage);
      if !existed {
        var _ := kernel.Destroy(spec.name);
      }
      if kernel.refusals == old(kernel.refusals) {
        forall n ensures SameAt(s0, kernel.sets, n) {
          if n != stage && n != spec.name { assert SameAt(s0, failed, n); }
        }
        SameEverywhere(s0, kernel.sets);
      }
      DiscardLeaves(s0, failed, kernel.sets, spec, stage, existed);
    }

    method FillAndExchange(stage: SetName, spec: SetSpec, existed: bool) returns (ok: bool)
      requires Valid() && spec.name.Stable? && stage.Stage?
      requires stage in kernel.sets && kernel.sets[stage] == {}
      requires existed <==> spec.name in kernel.sets
      modifies kernel
      ensures Valid() && kernel.chain == old(kernel.chain) && kernel.otherRules == old(kernel.otherRules)
      ensures ok ==> kernel.sets == Exchanged(old(kernel.sets), spec, stage)
      ensures !ok ==> SameOutside(old(kernel.sets), kernel.sets, {spec.name, stage})
      ensures !ok && existed ==> SameAt(old(kernel.sets), kernel.sets, spec.name)
      ensures kernel.refusals == if ok then old(kernel.refusals) else old(kernel.refusals) + 1
      ensures StageStep(old(kernel.sets), kernel.sets, spec, stage)
      ensures old(kernel.history) <= kernel.history
      ensures forall i :: |old(kernel.history)| <= i < |kernel.history| ==>
        StageStep(old(kernel.sets), kernel.history[i], spec, stage)
    {
      ghost var s := kernel.sets;
      ok := Fill(stage, spec.entries);
      forall i | |old(kernel.history)| <= i < |kernel.history| ensures StageStep(s, kernel.history[i], spec, stage) {
        assert SameOutside(s, kernel.history[i], {stage}) && SameAt(s, kernel.history[i], spec.name);
      }
      if ok && !existed {
        ok := kernel.Create(spec.name, true);
      }
      if ok {
        ok := kernel.Swap(stage, spec.name);
      }
    }

    /** Stage and exchange the sets one after the other, until one fails. */
    method StageAll(specs: seq<SetSpec>, txn: Transaction) returns (ok: bool)
      requires Valid() && DistinctNames(specs) && AllStable(specs)
      requires txn.Valid() && txn.Open() && txn.swaps == []
      requires txn.base == kernel.sets && txn.want == SpecMap(specs)
      modifies this`nonce, kernel, txn`swaps
      ensures Valid() && kernel.chain == old(kernel.chain) && kernel.otherRules == old(kernel.otherRules)
      ensures SwapsOk(txn.base, txn.want, txn.swaps) && Loaded(txn.base, txn.want, kernel.sets, txn.swaps)
      ensures ok ==> |txn.swaps| == |specs| && forall k :: 0 <= k < |specs| ==> txn.swaps[k].stable == specs[k].name
      ensures ok ==> kernel.refusals == old(kernel.refusals)
      ensures !ok ==> kernel.refusals > old(kernel.refusals)
      ensures kernel.refusals <= old(kernel.refusals) + 1 ==> Staged(txn.base, txn.want, kernel.sets, txn.swaps)
      ensures !ok ==>
        |Off(txn.base, kernel.sets) - Touched(txn.swaps)| <= kernel.refusals - old(kernel.refusals) - 1
      ensures StepSafe(txn.base, txn.want, kernel.sets)
      ensures old(kernel.history) <= kernel.history
      ensures SafeSince(kernel.history, |old(kernel.history)|, txn.base, txn.want)
    {
      hide SafeAt, StepSafe, StageStep, SwapOk, SetOf, SpecMap;
      ghost var base, want := txn.base, txn.want;
      UntouchedIsSafe(base, want);
      var listed := kernel.ListNames();
      ok := listed.Some?;
      var existing: set<SetName> := if ok then listed.value else {};
      var i := 0;
      while i < |specs| && ok
        decreases |specs| - i, ok
        invariant 0 <= i <= |specs|
        invariant Valid() && kernel.chain == old(kernel.chain) && kernel.otherRules == old(kernel.otherRules)
        invariant |txn.swaps| == i && forall k :: 0 <= k < i ==> txn.swaps[k].stable == specs[k].name
        invariant forall w :: w in txn.swaps ==> w.stage.Stage? && w.stage.nonce < nonce
        invariant SwapsOk(base, want, txn.swaps)
        invariant Loaded(base, want, kernel.sets, txn.swaps)
        invariant ok ==> existing == kernel.sets.Keys - Stages(txn.swaps)
        invariant ok ==> kernel.refusals == old(kernel.refusals)
        invariant !ok ==> kernel.refusals > old(kernel.refusals)
        invariant kernel.refusals <= old(kernel.refusals) + 1 ==> SameOutside(base, kernel.sets, Touched(txn.swaps))
        invariant !ok ==>
          |Off(base, kernel.sets) - Touched(txn.swaps)| <= kernel.refusals - old(kernel.refusals) - 1
        invariant StepSafe(base, want, kernel.sets)
        invariant old(kernel.history) <= kernel.history
        invariant SafeSince(kernel.history, |old(kernel.history)|, base, want)
      {
        ok := StageNext(specs, txn, existing);
        if ok {
          existing := existing + {specs[i].name};
          i := i + 1;
        }
      }
    }

    method StageNext(specs: seq<SetSpec>, txn: Transaction, existing: set<SetName>) returns (ok: bool)
      requires Valid() && DistinctNames(specs) && AllStable(specs)
      requires txn.want == SpecMap(specs) && |txn.swaps| < |specs|
      requires forall k :: 0 <= k < |txn.swaps| ==> txn.swaps[k].stable == specs[k].name
      requires forall w :: w in txn.swaps ==> w.stage.Stage? && w.stage.nonce < nonce
      requires SwapsOk(txn.base, txn.want, txn.swaps) && Staged(txn.base, txn.want, kernel.sets, txn.swaps)
      requires existing == kernel.sets.Keys - Stages(txn.swaps)
      requires StepSafe(txn.base, txn.want, kernel.sets)
      modifies this`nonce, kernel, txn`swaps
      ensures Valid() && kernel.chain == old(kernel.chain) && kernel.otherRules == old(kernel.otherRules)
      ensures ok ==> |txn.swaps| == |old(txn.swaps)| + 1
      ensures ok ==> forall k :: 0 <= k < |txn.swaps| ==> txn.swaps[k].stable == specs[k].name
      ensures ok ==> existing + {specs[|old(txn.swaps)|].name} == kernel.sets.Keys - Stages(txn.swaps)
      ensures ok ==> kernel.refusals == old(kernel.refusals)
      ensures !ok ==> txn.swaps == old(txn.swaps) && kernel.refusals > old(kernel.refusals)
      ensures forall w :: w in txn.swaps ==> w.stage.Stage? && w.stage.nonce < nonce
      ensures SwapsOk(txn.base, txn.want, txn.swaps) && Loaded(txn.base, txn.want, kernel.sets, txn.swaps)
      ensures kernel.refusals <= old(kernel.refusals) + 1 ==> SameOutside(txn.base, kernel.sets, Touched(txn.swaps))
      ensures !ok ==>
        |Off(txn.base, kernel.sets) - Touched(txn.swaps)| <= kernel.refusals - old(kernel.refusals) - 1
      ensures StepSafe(txn.base, txn.want, kernel.sets)
      ensures old(kernel.history) <= kernel.history
      ensures SafeSince(kernel.history, |old(kernel.history)|, txn.base, txn.want)
    {
      hide SafeAt, StepSafe, StageStep, SwapOk, SetOf, SpecMap, Loaded, SameOutside, SwapsOk, Touched,
        DistinctNames;
      var i := |txn.swaps|;
      var spec := specs[i];
      ghost var base, want, s, h, stage := txn.base, txn.want, kernel.sets, kernel.history, Stage(nonce);
      SpecMapLookup(specs, spec);
      NotYetTouched(base, want, s, txn.swaps, specs, i, stage);
      var swap := StageOne(spec, spec.name in existing);
      forall j | |h| <= j < |kernel.history| ensures StepSafe(base, want, kernel.history[j]) {
        StageStepIsSafe(base, want, s, kernel.history[j], spec, stage);
      }
      StageStepIsSafe(base, want, s, kernel.sets, spec, stage);
      if swap.None? {
        StageStepElsewhere(base, want, s, kernel.sets, txn.swaps, spec, stage);
        StagedOff(base, want, s, kernel.sets, txn.swaps);
        return false;
      }
      ExchangeIsStaged(base, want, s, txn.swaps, spec, stage);
      assert Stages(txn.swaps + [swap.value]) == Stages(txn.swaps) + {stage};
      txn.swaps := txn.swaps + [swap.value];
      return true;
    }

    /** Bring every desired set to its stable name. On success the caller must commit or roll back;
    on failure everything done so far has been undone and the lock is free. */
    method Reconcile(specs: seq<SetSpec>) returns (txn: Transaction?)
      requires Valid() && !lockHeld
      modifies this, kernel
      ensures Valid() && kernel.chain == old(kernel.chain) && kernel.otherRules == old(kernel.otherRules)
      ensures txn != null ==> fresh(txn) && txn.Valid() && txn.Open() && lockHeld
      ensures txn != null ==> Reconciled(txn, specs, old(kernel.sets), kernel.sets)
      ensures txn != null ==> kernel.refusals == old(kernel.refusals)
      ensures txn == null ==> !lockHeld
      ensures txn == null ==> old(kernel.refusals) < kernel.refusals || !(DistinctNames(specs) && AllStable(specs))
      ensures txn == null && kernel.refusals <= old(kernel.refusals) + 1 ==> kernel.sets == old(kernel.sets)
      ensures txn == null && kernel.refusals > old(kernel.refusals) ==>
        BackExceptFor(old(kernel.sets), kernel.sets, kernel.refusals - old(kernel.refusals) - 1)
      ensures old(kernel.refusals) <= kernel.refusals
      ensures StepSafe(old(kernel.sets), SpecMap(specs), kernel.sets)
      ensures old(kernel.history) <= kernel.history
      ensures SafeSince(kernel.history, |old(kernel.history)|, old(kernel.sets), SpecMap(specs))
    {
      hide SafeAt, StepSafe, SetOf, SpecMap, Loaded, SameOutside, Touched, SwapsOk, Undone, Left, Off,
        BackExceptFor;
      UntouchedIsSafe(kernel.sets, SpecMap(specs));
      if !DistinctNames(specs) || !AllStable(specs) {
        return null;
      }
      lockHeld := true;
      txn := new Transaction(kernel.sets, SpecMap(specs), SpecNames(specs));
      var ok := StageAll(specs, txn);
      if !ok {
        ghost var s, mid := kernel.sets, kernel.refusals;
        var undone := Rollback(txn);
        FailedReconcile(txn.base, txn.want, s, kernel.sets, txn.swaps, References(kernel.chain), mid,
          kernel.refusals, old(kernel.refusals));
        if kernel.refusals == old(kernel.refusals) + 1 {
          BackExceptForNone(txn.base, kernel.sets);
        }
        return null;
      }
    }

    // -------------------------------------------------------------- commit

    /** Drop every stable managed set that is not desired. Stages are left alone: they may belong to
    a transaction that is still running. */
    method Gc(desired: set<SetName>) returns (ok: bool)
      requires Valid()
      modifies kernel
      ensures Valid() && kernel.chain == old(kernel.chain) && kernel.otherRules == old(kernel.otherRules)
      ensures old(kernel.refusals) <= kernel.refusals
      ensures Collected(old(kernel.sets), kernel.sets, desired)
      ensures ok ==> forall n :: n in kernel.sets && n.Stable? ==> n in desired
      ensures kernel.refusals == old(kernel.refusals) && References(kernel.chain) <= desired ==> ok
      ensures |Orphans(kernel.sets, desired, References(kernel.chain))| <= kernel.refusals - old(kernel.refusals) ||
        (!ok && kernel.sets == old(kernel.sets) && kernel.refusals == old(kernel.refusals) + 1)
      ensures old(kernel.history) <= kernel.history
      ensures forall i :: |old(kernel.history)| <= i < |kernel.history| ==>
        Collected(old(kernel.sets), kernel.history[i], desired)
    {
      var actual := kernel.ListNames();
      if actual.None? {
        return false;
      }
      ok := DropOrphans(actual.value, desired);
    }

    /** Try every orphan, whatever happens to the others: what is left are sets in use, and no more than
    commands were refused. */
    method DropOrphans(actual: set<SetName>, desired: set<SetName>) returns (ok: bool)
      requires Valid() && actual == kernel.sets.Keys
      modifies kernel
      ensures Valid() && kernel.chain == old(kernel.chain) && kernel.otherRules == old(kernel.otherRules)
      ensures old(kernel.refusals) <= kernel.refusals
      ensures Collected(old(kernel.sets), kernel.sets, desired)
      ensures ok ==> forall n :: n in kernel.sets && n.Stable? ==> n in desired
      ensures kernel.refusals == old(kernel.refusals) && References(kernel.chain) <= desired ==> ok
      ensures |Orphans(kernel.sets, desired, References(kernel.chain))| <= kernel.refusals - old(kernel.refusals)
      ensures old(kernel.history) <= kernel.history
      ensures forall i :: |old(kernel.history)| <= i < |kernel.history| ==>
        Collected(old(kernel.sets), kernel.history[i], desired)
    {
      ghost var s0, refs := kernel.sets, References(kernel.chain);
      hide References;
      ok := true;
      var left := actual;
      ghost var missed: set<SetName> := {};
      while left != {}
        invariant left <= s0.Keys
        invariant Valid() && kernel.chain == old(kernel.chain) && kernel.otherRules == old(kernel.otherRules)
        invariant old(kernel.refusals) <= kernel.refusals
        invariant Collected(s0, kernel.sets, desired)
        invariant ok ==> forall n :: n in kernel.sets && n.Stable? && n !in left ==> n in desired
        invariant kernel.refusals == old(kernel.refusals) && refs <= desired ==> ok
        invariant |missed| <= kernel.refusals - old(kernel.refusals)
        invariant forall n :: n in Orphans(kernel.sets, desired, refs) ==> n in left || n in missed
        invariant old(kernel.history) <= kernel.history
        invariant forall i ::
          |old(kernel.history)| <= i < |kernel.history| ==> Collected(s0, kernel.history[i], desired)
        decreases left
      {
        var name :| name in left;
        left := left - {name};
        if name.Stable? && name !in desired {
          ghost var s, r := kernel.sets, kernel.refusals;
          var gone := kernel.Destroy(name);
          CollectedOne(s0, s, name, desired);
          ok := ok && gone;
          if kernel.refusals > r {
            missed := missed + {name};
          }
        }
      }
      FewerMembers(Orphans(kernel.sets, desired, refs), missed);
    }

    method DestroyStages(swaps: seq<IpsetSwap>) returns (ok: bool)
      requires Valid() && forall w :: w in swaps ==> w.stage.Stage?
      modifies kernel
      ensures Valid() && kernel.chain == old(kernel.chain) && kernel.otherRules == old(kernel.otherRules)
      ensures old(kernel.refusals) <= kernel.refusals
      ensures Dropped(old(kernel.sets), kernel.sets, Stages(swaps))
      ensures ok ==> Stages(swaps) !! kernel.sets.Keys
      ensures kernel.refusals == old(kernel.refusals) ==> ok
      ensures |Stages(swaps) * kernel.sets.Keys| <= kernel.refusals - old(kernel.refusals)
      ensures old(kernel.history) <= kernel.history
      ensures forall i :: |old(kernel.history)| <= i < |kernel.history| ==>
        Dropped(old(kernel.sets), kernel.history[i], Stages(swaps))
    {
      ok := true;
      ghost var missed: set<SetName> := {};
      for k := 0 to |swaps|
        invariant Valid() && kernel.chain == old(kernel.chain) && kernel.otherRules == old(kernel.otherRules)
        invariant old(kernel.refusals) <= kernel.refusals
        invariant Dropped(old(kernel.sets), kernel.sets, Stages(swaps))
        invariant ok ==> forall j :: 0 <= j < k ==> swaps[j].stage !in kernel.sets
        invariant kernel.refusals == old(kernel.refusals) ==> ok
        invariant |missed| <= kernel.refusals - old(kernel.refusals)
        invariant forall j :: 0 <= j < k ==> swaps[j].stage !in kernel.sets || swaps[j].stage in missed
        invariant old(kernel.history) <= kernel.history
        invariant forall i :: |old(kernel.history)| <= i < |kernel.history| ==>
          Dropped(old(kernel.sets), kernel.history[i], Stages(swaps))
      {
        assert swaps[k] in swaps;
        var gone := kernel.Destroy(swaps[k].stage);
        ok := ok && gone;
        if !gone {
          missed := missed + {swaps[k].stage};
        }
      }
      FewerMembers(Stages(swaps) * kernel.sets.Keys, missed);
    }

    /** Confirm the exchanges: drop the old contents kept in the stages, then the orphans. */
    method Commit(txn: Transaction) returns (ok: bool)
      requires Valid() && txn.Valid()
      requires txn.Open() ==> txn.desiredNames == txn.want.Keys
      requires txn.Open() ==> SwapsOk(txn.base, txn.want, txn.swaps)
      requires txn.Open() ==> SameOutside(txn.base, kernel.sets, Touched(txn.swaps)) && Applied(txn.want, kernel.sets)
      modifies this`lockHeld, kernel, txn
      ensures Valid() && kernel.chain == old(kernel.chain) && kernel.otherRules == old(kernel.otherRules)
      ensures txn.Valid() && txn.swaps == old(txn.swaps) && txn.rolledBack == old(txn.rolledBack)
      ensures lockHeld == (old(lockHeld) && !old(txn.Open()))
      ensures txn.committed == (old(txn.committed) || !old(txn.rolledBack))
      ensures old(txn.committed) ==> ok && unchanged(kernel)
      ensures !old(txn.committed) && old(txn.rolledBack) ==> !ok && unchanged(kernel)
      ensures old(txn.Open()) && ok ==> Converged(txn.base, txn.want, kernel.sets)
      ensures old(txn.Open()) ==> CommitSafe(txn.base, txn.want, kernel.sets, Stages(txn.swaps))
      ensures old(txn.Open()) && kernel.refusals == old(kernel.refusals) ==>
        References(kernel.chain) <= txn.want.Keys ==> ok
      ensures old(kernel.refusals) <= kernel.refusals
      ensures old(txn.Open()) ==> CleanedUp(old(kernel.sets), kernel.sets, txn.desiredNames, Stages(txn.swaps),
                                    References(kernel.chain), kernel.refusals - old(kernel.refusals))
      ensures old(kernel.history) <= kernel.history
      ensures old(txn.Open()) ==> forall i :: |old(kernel.history)| <= i < |kernel.history| ==>
        CommitSafe(txn.base, txn.want, kernel.history[i], Stages(txn.swaps))
    {
      hide SwapOk, Collected, Dropped, CommitSafe, Converged, Applied, SameOutside, Touched;
      if txn.committed {
        return true;
      }
      if txn.rolledBack {
        return false;
      }
      ghost var s0, h0 := kernel.sets, kernel.history;
      SwapsHaveStages(txn.base, txn.want, txn.swaps);
      ok := DestroyStages(txn.swaps);
      ghost var s1, h1 := kernel.sets, kernel.history;
      var collected := Gc(txn.desiredNames);
      forall t | Dropped(s0, t, Stages(txn.swaps)) ensures CommitSafe(txn.base, txn.want, t, Stages(txn.swaps)) {
        DroppedIsCommitSafe(txn.base, txn.want, s0, t, txn.swaps);
      }
      forall t | Collected(s1, t, txn.desiredNames) ensures CommitSafe(txn.base, txn.want, t, Stages(txn.swaps)) {
        CollectedIsCommitSafe(txn.base, txn.want, s1, t, Stages(txn.swaps));
      }
      if ok && collected {
        BothCleanupsConverge(txn.base, txn.want, s1, kernel.sets, Stages(txn.swaps));
      }
      CommitCleansUp(s0, s1, kernel.sets, txn.desiredNames, Stages(txn.swaps), References(kernel.chain));
      ok := ok && collected;
      txn.committed := true;
      txn.holdsLock := false;
      lockHeld := false;
    }
  }

  /** Every desired set is there with its desired contents. */
  ghost predicate Applied(want: Sets, s: Sets) {
    forall n :: n in want ==> n in s && s[n] == want[n]
  }

  ghost predicate Collected(s: Sets, t: Sets, desired: set<SetName>) {
    forall n :: SameAt(s, t, n) || (n.Stable? && n !in desired && n !in t)
  }

  /** Stable sets that are not desired and that no chain uses. */
  ghost function Orphans(s: Sets, desired: set<SetName>, refs: set<SetName>): set<SetName> {
    set n | n in s && n.Stable? && n !in desired && n !in refs
  }

  /** What a commit has not cleaned up: a refused command for every stage and every orphan that is left, or one
  for the listing and one for every stage. */
  ghost predicate CleanedUp(before: Sets, s: Sets, desired: set<SetName>, stages: set<SetName>, refs: set<SetName>,
      refused: nat) {
    || |stages * s.Keys| + |Orphans(s, desired, refs)| <= refused
    || (|stages * s.Keys| < refused && Orphans(s, desired, refs) == Orphans(before, desired, refs))
  }

  ghost predicate Dropped(s: Sets, t: Sets, names: set<SetName>) {
    forall n :: SameAt(s, t, n) || (n in names && n !in t)
  }

  /** Convergence: the stable managed sets are exactly the desired ones with exactly the desired
  entries, and everything else is as it was before the transaction. */
  ghost predicate Converged(base: Sets, want: Sets, s: Sets) {
    forall n: SetName ::
      if n.Stable? then (n in s <==> n in want) && (n in want ==> s[n] == want[n]) else SameAt(base, s, n)
  }

  ghost predicate CommitSafeAt(base: Sets, want: Sets, s: Sets, stages: set<SetName>, n: SetName) {
    match n
    case Foreign(_) => SameAt(base, s, n)
    case Stage(_) => SameAt(base, s, n) || n in stages
    case Stable(_, _, _) =>
      if n in want then n in s && s[n] == want[n] else n !in s || SameAt(base, s, n)
  }

  /** What every state during a commit owes: desired sets are complete, surplus stable sets are
  orphans that existed before, and only this transaction's stages come and go. */
  ghost predicate CommitSafe(base: Sets, want: Sets, s: Sets, stages: set<SetName>) {
    forall n :: CommitSafeAt(base, want, s, stages, n)
  }

  ghost predicate Reconciled(txn: Transaction, specs: seq<SetSpec>, before: Sets, after: Sets)
    reads txn
  {
    && txn.base == before && txn.want == SpecMap(specs) && txn.desiredNames == SpecNames(specs)
    && SwapsOk(before, SpecMap(specs), txn.swaps)
    && Staged(before, SpecMap(specs), after, txn.swaps)
    && |txn.swaps| == |specs|
    && (forall k :: 0 <= k < |specs| ==> txn.swaps[k].stable == specs[k].name)
  }

  function Stages(swaps: seq<IpsetSwap>): set<SetName> {
    set w | w in swaps :: w.stage
  }

  predicate AllStable(specs: seq<SetSpec>) {
    forall i :: 0 <= i < |specs| ==> specs[i].name.Stable?
  }

  ghost function Exchanged(s: Sets, spec: SetSpec, stage: SetName): Sets {
    s[stage := OldOf(s, spec.name)][spec.name := SetOf(spec.entries)]
  }

  /** States passed through while one set is staged and exchanged. */
  ghost predicate StageStep(s: Sets, t: Sets, spec: SetSpec, stage: SetName) {
    && SameOutside(s, t, {spec.name, stage})
    && (spec.name in s ==> spec.name in t)
    && (spec.name in t ==> t[spec.name] == SetOf(spec.entries) || t[spec.name] == OldOf(s, spec.name))
  }

  ghost function SwappedBack(s: Sets, w: IpsetSwap, drop: bool): Sets
    requires w.stable in s && w.stage in s
  {
    var t := s[w.stage := s[w.stable]][w.stable := s[w.stage]];
    (if drop then t - {w.stable} else t) - {w.stage}
  }

  /** States passed through while one exchange is undone. */
  ghost predicate UndoStep(s: Sets, t: Sets, w: IpsetSwap)
    requires w.stable in s && w.stage in s
  {
    && SameOutside(s, t, {w.stable, w.stage})
    && (!w.created ==> w.stable in t)
    && (w.stable in t ==> t[w.stable] == s[w.stable] || t[w.stable] == s[w.stage])
  }

  /** How undoing one exchange ends: nothing was exchanged back, or it was, and then the stage can be left
  with the new contents and a created set with the old ones, none. */
  ghost predicate UndoEnd(s: Sets, t: Sets, w: IpsetSwap)
    requires w.stable in s && w.stage in s
  {
    || (SameAt(s, t, w.stable) && SameAt(s, t, w.stage))
    || (&& (w.stage in t ==> t[w.stage] == s[w.stable])
        && (w.stable in t ==> t[w.stable] == s[w.stage])
        && (!w.created ==> w.stable in t))
  }

  /** Commands of one undo that have had no effect: the exchange, or the removals after it. A created set in
  use cannot be removed, and does not count. */
  ghost function CommandsLeft(s: Sets, t: Sets, w: IpsetSwap, refs: set<SetName>): nat {
    if SameAt(s, t, w.stable) && SameAt(s, t, w.stage) then 1
    else (if w.stage in t then 1 else 0) + (if w.created && w.stable in t && w.stable !in refs then 1 else 0)
  }

  /** The stable set is as it was, or is a created one in use and empty. */
  ghost predicate StableBack(base: Sets, s: Sets, w: IpsetSwap, refs: set<SetName>) {
    SameAt(base, s, w.stable) || (InUse(w, refs) && w.stable in s && s[w.stable] == {})
  }

  /** What is left of one exchange: all of it, or its stage, or a set that it created. */
  ghost function LeftAt(base: Sets, want: Sets, s: Sets, w: IpsetSwap, refs: set<SetName>): nat {
    if LoadedAt(base, want, s, w) then 1
    else (if w.stage in s then 1 else 0) + (if StableBack(base, s, w, refs) then 0 else 1)
  }

  ghost function Left(base: Sets, want: Sets, s: Sets, swaps: seq<IpsetSwap>, refs: set<SetName>): nat {
    if swaps == [] then 0 else LeftAt(base, want, s, swaps[0], refs) + Left(base, want, s, swaps[1..], refs)
  }

  /** No contents are lost: the old ones are under the stable name, or, when they could not be exchanged back,
  in the stage. */
  ghost predicate KeptAt(base: Sets, want: Sets, s: Sets, w: IpsetSwap) {
    || LoadedAt(base, want, s, w)
    || (SameAt(base, s, w.stable) || (w.created && w.stable in s && s[w.stable] == {}))
  }

  ghost predicate UndoneAt(base: Sets, want: Sets, s: Sets, w: IpsetSwap, ok: bool, allAllowed: bool,
      refs: set<SetName>) {
    && SafeAt(base, want, s, w.stable)
    && KeptAt(base, want, s, w)
    && (ok ==> RestoredAt(base, s, w))
    && (allAllowed ==> if InUse(w, refs) then LeftEmptyAt(s, w) else RestoredAt(base, s, w))
  }

  /** A set this transaction created and that the chain refers to cannot be destroyed. */
  predicate InUse(w: IpsetSwap, refs: set<SetName>) {
    w.created && w.stable in refs
  }

  ghost predicate LeftEmptyAt(s: Sets, w: IpsetSwap) {
    w.stage !in s && w.stable in s && s[w.stable] == {}
  }

  /** Everything was undone, except that sets in use stay behind empty. `ok` says that nothing had to
  stay behind, provided no command was refused. */
  ghost predicate Undone(base: Sets, want: Sets, s: Sets, swaps: seq<IpsetSwap>, ok: bool, allAllowed: bool,
      refs: set<SetName>) {
    && (forall k :: 0 <= k < |swaps| ==> UndoneAt(base, want, s, swaps[k], ok, allAllowed, refs))
    && (allAllowed ==> (ok <==> forall k :: 0 <= k < |swaps| ==> !InUse(swaps[k], refs)))
  }

  ghost predicate RollbackOutcome(base: Sets, want: Sets, before: Sets, after: Sets, swaps: seq<IpsetSwap>, ok: bool,
    allAllowed: bool, refs: set<SetName>)
  {
    && SameOutside(before, after, Touched(swaps))
    && Undone(base, want, after, swaps, ok, allAllowed, refs)
    && StepSafe(base, want, after)
  }

  lemma NothingUndoneYet(base: Sets, want: Sets, s: Sets, h: seq<Sets>, swaps: seq<IpsetSwap>, refs: set<SetName>)
    ensures SameOutside(s, s, Touched(swaps)) && SafeSince(h, |h|, base, want)
    ensures swaps[|swaps|..] == [] && swaps[..|swaps|] == swaps
    ensures Undone(base, want, s, swaps[|swaps|..], true, true, refs)
    ensures Left(base, want, s, swaps[|swaps|..], refs) == 0
  {
  }

  lemma SwapAt(base: Sets, want: Sets, swaps: seq<IpsetSwap>, i: nat)
    requires SwapsOk(base, want, swaps) && i < |swaps|
    ensures SwapOk(base, want, swaps[i])
  {
  }

  lemma EndLeavesLittle(base: Sets, want: Sets, s: Sets, t: Sets, w: IpsetSwap, refs: set<SetName>)
    requires LoadedAt(base, want, s, w) && SwapOk(base, want, w) && UndoEnd(s, t, w)
    ensures KeptAt(base, want, t, w) && LeftAt(base, want, t, w, refs) <= CommandsLeft(s, t, w, refs)
  {
  }

  lemma OneMoreLeft(base: Sets, want: Sets, s: Sets, w: IpsetSwap, rest: seq<IpsetSwap>, refs: set<SetName>)
    ensures Left(base, want, s, [w] + rest, refs) == LeftAt(base, want, s, w, refs) + Left(base, want, s, rest, refs)
  {
    hide LeftAt;
    assert ([w] + rest)[1..] == rest;
  }

  lemma {:induction false} SameLeft(base: Sets, want: Sets, s: Sets, t: Sets, swaps: seq<IpsetSwap>, refs: set<SetName>)
    requires forall k :: 0 <= k < |swaps| ==> SameAt(s, t, swaps[k].stable) && SameAt(s, t, swaps[k].stage)
    ensures Left(base, want, t, swaps, refs) == Left(base, want, s, swaps, refs)
  {
    if swaps != [] {
      SameLeft(base, want, s, t, swaps[1..], refs);
    }
  }

  lemma LeftElsewhere(base: Sets, want: Sets, s: Sets, t: Sets, swaps: seq<IpsetSwap>, i: nat, refs: set<SetName>)
    requires i < |swaps|
    requires forall k :: i < k < |swaps| ==> SameAt(s, t, swaps[k].stable) && SameAt(s, t, swaps[k].stage)
    ensures Left(base, want, t, swaps[i + 1..], refs) == Left(base, want, s, swaps[i + 1..], refs)
  {
    hide SameAt;
    SameLeft(base, want, s, t, swaps[i + 1..], refs);
  }

  lemma OneMoreUndone(base: Sets, want: Sets, s: Sets, t: Sets, swaps: seq<IpsetSwap>, i: nat, ok: bool,
      undone: bool, refs: set<SetName>, before: bool, allAllowed: bool)
    requires i < |swaps| && SwapOk(base, want, swaps[i]) && LoadedAt(base, want, s, swaps[i])
    requires forall k :: i < k < |swaps| ==> SameAt(s, t, swaps[k].stable) && SameAt(s, t, swaps[k].stage)
    requires (allAllowed ==> before) && Undone(base, want, s, swaps[i + 1..], ok, before, refs)
    requires KeptAt(base, want, t, swaps[i]) && SafeAt(base, want, t, swaps[i].stable)
    requires undone ==> t == SwappedBack(s, swaps[i], swaps[i].created)
    requires !undone && allAllowed ==> InUse(swaps[i], refs) && t == SwappedBack(s, swaps[i], false)
    requires allAllowed ==> (undone <==> !InUse(swaps[i], refs))
    ensures Undone(base, want, t, swaps[i..], ok && undone, allAllowed, refs)
  {
    forall k | i <= k < |swaps| ensures UndoneAt(base, want, t, swaps[k], ok && undone, allAllowed, refs) {
      if k > i { assert UndoneAt(base, want, s, swaps[i + 1..][k - i - 1], ok, before, refs); }
    }
  }

  function Stables(swaps: seq<IpsetSwap>): set<SetName> {
    set w | w in swaps :: w.stable
  }

  /** The names out of a set that differ, some of them spared. */
  ghost function Among(off: set<SetName>, names: set<SetName>, spared: set<SetName>): set<SetName> {
    set n | n in names && n in off && n !in spared
  }

  /** Every exchange accounts for at most one stable set and one stage. */
  lemma {:induction false} LeftCounts(base: Sets, want: Sets, s: Sets, swaps: seq<IpsetSwap>, refs: set<SetName>)
    requires forall w :: w in swaps ==> SwapOk(base, want, w)
    ensures |Among(Off(base, s), Stables(swaps), refs - base.Keys)| <= Left(base, want, s, swaps, refs)
    ensures |Among(Off(base, s), Stages(swaps), {})| <= Left(base, want, s, swaps, refs)
  {
    hide SwapOk, LoadedAt, LeftAt, Off, Among;
    if swaps == [] {
      NothingAmong(Off(base, s), refs - base.Keys);
    } else {
      var w, rest := swaps[0], swaps[1..];
      LeftCounts(base, want, s, rest, refs);
      OneCounts(base, want, s, w, refs);
      HeadNames(swaps);
      SplitCounts(Off(base, s), {w.stable}, Stables(rest), refs - base.Keys);
      SplitCounts(Off(base, s), {w.stage}, Stages(rest), {});
    }
  }

  lemma NothingAmong(off: set<SetName>, spared: set<SetName>)
    ensures Stables([]) == {} && Stages([]) == {} && Among(off, {}, spared) == {} && Among(off, {}, {}) == {}
  {
  }

  lemma HeadNames(swaps: seq<IpsetSwap>)
    requires swaps != []
    ensures Stables(swaps) == {swaps[0].stable} + Stables(swaps[1..])
    ensures Stages(swaps) == {swaps[0].stage} + Stages(swaps[1..])
  {
  }

  lemma SplitCounts(off: set<SetName>, a: set<SetName>, b: set<SetName>, spared: set<SetName>)
    ensures |Among(off, a + b, spared)| <= |Among(off, a, spared)| + |Among(off, b, spared)|
  {
    UnionAtMost(Among(off, a, spared), Among(off, b, spared));
    FewerMembers(Among(off, a + b, spared), Among(off, a, spared) + Among(off, b, spared));
  }

  lemma UnionAtMost(a: set<SetName>, b: set<SetName>)
    ensures |a + b| <= |a| + |b|
  {
    assert a + b == a + (b - a);
    FewerMembers(b - a, b);
  }

  lemma OneCounts(base: Sets, want: Sets, s: Sets, w: IpsetSwap, refs: set<SetName>)
    requires SwapOk(base, want, w)
    ensures |Among(Off(base, s), {w.stable}, refs - base.Keys)| <= LeftAt(base, want, s, w, refs)
    ensures |Among(Off(base, s), {w.stage}, {})| <= LeftAt(base, want, s, w, refs)
  {
    FewerMembers(Among(Off(base, s), {w.stable}, refs - base.Keys), {w.stable});
    FewerMembers(Among(Off(base, s), {w.stage}, {}), {w.stage});
    if w.stage !in s { assert Among(Off(base, s), {w.stage}, {}) == {}; }
    if StableBack(base, s, w, refs) { assert Among(Off(base, s), {w.stable}, refs - base.Keys) == {}; }
  }

  /** After a rollback the sets are those of the start, up to what the refused commands account for, what
  differed elsewhere, and sets in use. */
  lemma RolledBackUpTo(base: Sets, want: Sets, before: Sets, after: Sets, swaps: seq<IpsetSwap>, refs: set<SetName>,
      refused: nat)
    requires SwapsOk(base, want, swaps) && SameOutside(before, after, Touched(swaps))
    requires Left(base, want, after, swaps, refs) <= refused
    ensures |StableOff(base, after) - (refs - base.Keys)| <= |Off(base, before) - Touched(swaps)| + refused
    ensures |OthersOff(base, after)| <= |Off(base, before) - Touched(swaps)| + refused
  {
    forall w | w in swaps ensures SwapOk(base, want, w) {
      var k :| 0 <= k < |swaps| && swaps[k] == w;
    }
    LeftCounts(base, want, after, swaps, refs);
    var off, outside := Off(base, after), Off(base, before) - Touched(swaps);
    SameOffOutside(base, before, after, Touched(swaps));
    assert Touched(swaps) == Stables(swaps) + Stages(swaps);
    forall n | n in Stages(swaps) ensures n.Stage? {
      var w :| w in swaps && w.stage == n;
    }
    forall n | n in Stables(swaps) ensures n.Stable? {
      var w :| w in swaps && w.stable == n;
    }
    hide SwapsOk, SwapOk, SameOutside, Left, Off, Stables, Stages, Touched;
    var stables, stages := Among(off, Stables(swaps), refs - base.Keys), Among(off, Stages(swaps), {});
    UnionAtMost(stables, outside);
    FewerMembers(StableOff(base, after) - (refs - base.Keys), stables + outside);
    UnionAtMost(stages, outside);
    FewerMembers(OthersOff(base, after), stages + outside);
  }

  lemma FailedReconcile(base: Sets, want: Sets, before: Sets, after: Sets, swaps: seq<IpsetSwap>, refs: set<SetName>,
      mid: nat, now: nat, start: nat)
    requires SwapsOk(base, want, swaps) && SameOutside(before, after, Touched(swaps)) && refs <= base.Keys
    requires |Off(base, before) - Touched(swaps)| <= mid - start - 1
    requires start < mid <= now && Left(base, want, after, swaps, refs) <= now - mid
    ensures BackExceptFor(base, after, now - start - 1)
  {
    hide SwapsOk, SameOutside, Left, Off, Touched;
    RolledBackUpTo(base, want, before, after, swaps, refs, now - mid);
    NoneSpared(base, after, refs);
  }

  lemma NoneSpared(base: Sets, s: Sets, refs: set<SetName>)
    requires refs <= base.Keys
    ensures StableOff(base, s) - (refs - base.Keys) == StableOff(base, s)
  {
    assert refs - base.Keys == {};
  }

  lemma SameOffOutside(base: Sets, s: Sets, t: Sets, names: set<SetName>)
    requires SameOutside(s, t, names)
    ensures Off(base, t) - names == Off(base, s) - names
  {
    forall n | n !in names ensures n in Off(base, t) <==> n in Off(base, s) {
      assert SameAt(s, t, n);
    }
  }

  lemma UndoStepIsSafe(base: Sets, want: Sets, s: Sets, t: Sets, w: IpsetSwap)
    requires StepSafe(base, want, s) && LoadedAt(base, want, s, w) && SwapOk(base, want, w) && UndoStep(s, t, w)
    ensures StepSafe(base, want, t)
  {
    forall n ensures SafeAt(base, want, t, n) {
      assert SafeAt(base, want, s, n);
      if n != w.stable && n != w.stage { assert SameAt(s, t, n); }
    }
  }

  lemma UndoStepOutside(s0: Sets, s: Sets, t: Sets, w: IpsetSwap, swaps: seq<IpsetSwap>)
    requires w in swaps && w.stable in s && w.stage in s
    requires SameOutside(s0, s, Touched(swaps)) && UndoStep(s, t, w)
    ensures SameOutside(s0, t, Touched(swaps))
  {
    forall n | n !in Touched(swaps) ensures SameAt(s0, t, n) {
      assert SameAt(s0, s, n) && SameAt(s, t, n);
    }
  }

  /** Undoing exchange i does not disturb the other exchanges. */
  lemma UndoStepElsewhere(base: Sets, want: Sets, s: Sets, t: Sets, swaps: seq<IpsetSwap>, i: nat)
    requires i < |swaps| && SwapsOk(base, want, swaps) && Loaded(base, want, s, swaps[..i + 1])
    requires swaps[i].stable in s && swaps[i].stage in s && UndoStep(s, t, swaps[i])
    ensures Loaded(base, want, t, swaps[..i])
    ensures forall k :: i < k < |swaps| ==> SameAt(s, t, swaps[k].stable) && SameAt(s, t, swaps[k].stage)
  {
    forall k | 0 <= k < |swaps| && k != i ensures SameAt(s, t, swaps[k].stable) && SameAt(s, t, swaps[k].stage) {
      assert SwapOk(base, want, swaps[k]) && SwapOk(base, want, swaps[i]);
      assert if k < i then swaps[k].stable != swaps[i].stable && swaps[k].stage != swaps[i].stage
             else swaps[i].stable != swaps[k].stable && swaps[i].stage != swaps[k].stage;
    }
    forall k | 0 <= k < i ensures LoadedAt(base, want, t, swaps[..i][k]) {
      assert LoadedAt(base, want, s, swaps[..i + 1][k]);
    }
  }

  // --------------------------------------------------- lemmas on reconciling

  /** From a staged state on, only what changed since can differ outside the exchanges. */
  lemma StagedOff(base: Sets, want: Sets, s: Sets, t: Sets, swaps: seq<IpsetSwap>)
    requires Staged(base, want, s, swaps)
    ensures |Off(base, t) - Touched(swaps)| <= |Off(s, t)|
  {
    hide Touched, Loaded;
    forall n | n in Off(base, t) && n !in Touched(swaps) ensures n in Off(s, t) {
      assert SameAt(base, s, n);
    }
    FewerMembers(Off(base, t) - Touched(swaps), Off(s, t));
  }

  lemma StageStepIsSafe(base: Sets, want: Sets, s: Sets, t: Sets, spec: SetSpec, stage: SetName)
    requires StepSafe(base, want, s) && StageStep(s, t, spec, stage)
    requires spec.name.Stable? && spec.name in want && want[spec.name] == SetOf(spec.entries)
    requires SameAt(base, s, spec.name) && stage.Stage? && stage !in base
    ensures StepSafe(base, want, t)
  {
    forall n ensures SafeAt(base, want, t, n) {
      assert SafeAt(base, want, s, n);
      if n != spec.name && n != stage { assert SameAt(s, t, n); }
    }
  }

  lemma NotYetTouched(base: Sets, want: Sets, s: Sets, swaps: seq<IpsetSwap>, specs: seq<SetSpec>, i: nat,
      stage: SetName)
    requires i < |specs| && |swaps| == i && DistinctNames(specs) && AllStable(specs)
    requires forall k :: 0 <= k < i ==> swaps[k].stable == specs[k].name
    requires SwapsOk(base, want, swaps) && Staged(base, want, s, swaps)
    requires stage.Stage? && stage !in s && forall w :: w in swaps ==> w.stage != stage
    ensures specs[i].name !in Touched(swaps) && SameAt(base, s, specs[i].name)
    ensures stage !in Touched(swaps) && stage !in base
    ensures specs[i].name !in Stages(swaps)
  {
    forall w | w in swaps ensures w.stage.Stage? && w.stable.Stable? && w.stable != specs[i].name {
      var k :| 0 <= k < i && swaps[k] == w;
      assert SwapOk(base, want, swaps[k]);
      assert specs[k].name != specs[i].name;
    }
    assert SameAt(base, s, stage) && SameAt(base, s, specs[i].name);
  }

  lemma StageStepElsewhere(base: Sets, want: Sets, s: Sets, t: Sets, swaps: seq<IpsetSwap>, spec: SetSpec,
      stage: SetName)
    requires Loaded(base, want, s, swaps) && StageStep(s, t, spec, stage)
    requires spec.name !in Touched(swaps) && stage !in Touched(swaps)
    ensures Loaded(base, want, t, swaps)
  {
    forall k | 0 <= k < |swaps| ensures LoadedAt(base, want, t, swaps[k]) {
      assert swaps[k] in swaps && LoadedAt(base, want, s, swaps[k]);
      assert swaps[k].stable in Touched(swaps) && swaps[k].stage in Touched(swaps);
      assert SameAt(s, t, swaps[k].stable) && SameAt(s, t, swaps[k].stage);
    }
  }

  lemma ExchangeIsStaged(base: Sets, want: Sets, s: Sets, swaps: seq<IpsetSwap>, spec: SetSpec, stage: SetName)
    requires Staged(base, want, s, swaps) && SwapsOk(base, want, swaps)
    requires spec.name.Stable? && spec.name in want && want[spec.name] == SetOf(spec.entries)
    requires spec.name !in Touched(swaps) && stage.Stage? && stage !in Touched(swaps) && stage !in base
    ensures var w := IpsetSwap(spec.name, stage, spec.name !in s);
      SwapsOk(base, want, swaps + [w]) && Staged(base, want, Exchanged(s, spec, stage), swaps + [w])
  {
    var w := IpsetSwap(spec.name, stage, spec.name !in s);
    var t := Exchanged(s, spec, stage);
    assert SameAt(base, s, spec.name);
    assert StageStep(s, t, spec, stage);
    StageStepElsewhere(base, want, s, t, swaps, spec, stage);
    assert Touched(swaps + [w]) == Touched(swaps) + {spec.name, stage};
    forall n | n !in Touched(swaps + [w]) ensures SameAt(base, t, n) {
      assert SameAt(base, s, n);
    }
    forall k | 0 <= k < |swaps| ensures swaps[k].stable != spec.name && swaps[k].stage != stage {
      assert swaps[k] in swaps;
    }
  }

  /** When no command of the rollback was refused and the chain uses no set created here, the ipsets
  are exactly what they were at the start. */
  lemma RolledBackExactly(base: Sets, want: Sets, before: Sets, after: Sets, swaps: seq<IpsetSwap>, refs: set<SetName>)
    requires SwapsOk(base, want, swaps) && Staged(base, want, before, swaps)
    requires SameOutside(before, after, Touched(swaps))
    requires forall k :: 0 <= k < |swaps| ==> RestoredAt(base, after, swaps[k])
    ensures after == base
  {
    forall n ensures SameAt(base, after, n) {
      if w :| w in swaps && (n == w.stable || n == w.stage) {
        var k :| 0 <= k < |swaps| && swaps[k] == w;
        assert RestoredAt(base, after, swaps[k]) && SwapOk(base, want, swaps[k]);
      } else {
        assert n !in Touched(swaps);
        assert SameAt(base, before, n) && SameAt(before, after, n);
      }
    }
    SameEverywhere(base, after);
  }

  lemma StageStepReflexive(s: Sets, spec: SetSpec, stage: SetName)
    ensures StageStep(s, s, spec, stage)
  {
  }

  lemma DiscardLeaves(s0: Sets, failed: Sets, s: Sets, spec: SetSpec, stage: SetName, existed: bool)
    requires StageStep(s0, failed, spec, stage) && stage !in s0 && (existed <==> spec.name in s0)
    requires existed ==> SameAt(s0, failed, spec.name)
    requires forall n :: SameAt(failed, s, n) || (n !in s && (n == stage || (!existed && n == spec.name)))
    ensures |Off(s0, s)| <= (if stage in s then 1 else 0) + (if !existed && spec.name in s then 1 else 0)
  {
    var left := (if stage in s then {stage} else {}) + (if !existed && spec.name in s then {spec.name} else {});
    forall n | n in Off(s0, s) ensures n in left {
      assert n !in {spec.name, stage} ==> SameAt(s0, failed, n);
      assert SameAt(failed, s, n) || (n !in s && (n == stage || (!existed && n == spec.name)));
    }
    FewerMembers(Off(s0, s), left);
  }

  lemma StageStepIgnoresStage(s: Sets, t: Sets, spec: SetSpec, stage: SetName)
    requires stage.Stage? && spec.name.Stable? && StageStep(s[stage := {}], t, spec, stage)
    ensures StageStep(s, t, spec, stage)
  {
    forall n | n !in {spec.name, stage} ensures SameAt(s, t, n) {
      assert SameAt(s[stage := {}], t, n);
    }
  }

  // ----------------------------------------------------- lemmas on committing

  lemma CollectedOne(s0: Sets, s: Sets, name: SetName, desired: set<SetName>)
    requires Collected(s0, s, desired) && name.Stable? && name !in desired
    ensures Collected(s0, s - {name}, desired)
  {
    forall n ensures SameAt(s0, s - {name}, n) || (n.Stable? && n !in desired && n !in s - {name}) {
      assert SameAt(s0, s, n) || (n.Stable? && n !in desired && n !in s);
    }
  }

  lemma SwapsHaveStages(base: Sets, want: Sets, swaps: seq<IpsetSwap>)
    requires SwapsOk(base, want, swaps)
    ensures forall w :: w in swaps ==> w.stage.Stage? && w.stable.Stable? && w.stable in want && w.stage !in base
  {
    forall w | w in swaps ensures w.stage.Stage? && w.stable.Stable? && w.stable in want && w.stage !in base {
      var k :| 0 <= k < |swaps| && swaps[k] == w;
      assert SwapOk(base, want, swaps[k]);
    }
  }

  lemma CommitCleansUp(s0: Sets, s1: Sets, s2: Sets, desired: set<SetName>, stages: set<SetName>, refs: set<SetName>)
    requires Dropped(s0, s1, stages) && Collected(s1, s2, desired) && forall n :: n in stages ==> n.Stage?
    ensures |stages * s2.Keys| == |stages * s1.Keys|
    ensures Orphans(s1, desired, refs) == Orphans(s0, desired, refs)
  {
    assert forall n :: SameAt(s0, s1, n) || (n in stages && n !in s1);
    assert forall n :: SameAt(s1, s2, n) || (n.Stable? && n !in desired && n !in s2);
    assert stages * s2.Keys == stages * s1.Keys;
  }

  lemma DroppedIsCommitSafe(base: Sets, want: Sets, s: Sets, t: Sets, swaps: seq<IpsetSwap>)
    requires SwapsOk(base, want, swaps) && SameOutside(base, s, Touched(swaps)) && Applied(want, s)
    requires Dropped(s, t, Stages(swaps))
    ensures CommitSafe(base, want, t, Stages(swaps))
  {
    hide SwapsOk;
    SwapsHaveStages(base, want, swaps);
    forall n ensures CommitSafeAt(base, want, t, Stages(swaps), n) {
      assert SameAt(s, t, n) || (n in Stages(swaps) && n !in t);
      assert n !in Touched(swaps) ==> SameAt(base, s, n);
    }
  }

  lemma CollectedIsCommitSafe(base: Sets, want: Sets, s: Sets, t: Sets, stages: set<SetName>)
    requires CommitSafe(base, want, s, stages) && Collected(s, t, want.Keys)
    ensures CommitSafe(base, want, t, stages)
  {
    forall n ensures CommitSafeAt(base, want, t, stages, n) {
      assert CommitSafeAt(base, want, s, stages, n);
      assert SameAt(s, t, n) || (n.Stable? && n !in want && n !in t);
    }
  }

  lemma BothCleanupsConverge(base: Sets, want: Sets, s: Sets, t: Sets, stages: set<SetName>)
    requires CommitSafe(base, want, s, stages) && Collected(s, t, want.Keys)
    requires stages !! s.Keys && forall n :: n in stages ==> n !in base
    requires forall n :: n in t && n.Stable? ==> n in want
    ensures Converged(base, want, t)
  {
    forall n: SetName
      ensures if n.Stable? then (n in t <==> n in want) && (n in want ==> t[n] == want[n]) else SameAt(base, t, n)
    {
      assert CommitSafeAt(base, want, s, stages, n);
      assert SameAt(s, t, n) || (n.Stable? && n !in want && n !in t);
    }
  }
}
