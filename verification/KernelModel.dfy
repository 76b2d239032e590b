/** The kernel state the control plane edits: ipsets, the `VPN_FORWARD` chain, and the other lines of
the filter table. Any command may be refused by the environment; a refused command has no effect. */
module KernelModel {
  import opened Wrappers
  import opened Ipv4
  import opened ForwardPlan

  /** A line of the filter table outside `VPN_FORWARD`: the jump into it and the established connections behind,
  both on FORWARD; what clients may send to the machine itself, on INPUT; earlier forms of these; others. */
  datatype FilterRule = Jump | Established | FromTun | Outdated(input: bool) | Other(text: string)

  class Kernel {
    var sets: Sets
    var chain: seq<Line>
    var otherRules: seq<FilterRule>
    ghost var history: seq<Sets>  // every ipset state so far, the current one last
    ghost var refusals: nat  // commands refused by the environment so far

    /** A chain cannot refer to a set that does not exist. */
    ghost predicate Valid()
      reads this
    {
      && References(chain) <= sets.Keys
      && history != []
      && history[|history| - 1] == sets
    }

    constructor ()
      ensures Valid() && sets == map[] && chain == []
    {
      sets, chain, otherRules, history, refusals := map[], [], [], [map[]], 0;
    }

    twostate predicate Refused()
      reads this
    {
      && sets == old(sets) && chain == old(chain) && otherRules == old(otherRules)
      && history == old(history) && refusals == old(refusals) + 1
    }

    /** The command was carried out and only the ipsets changed. */
    twostate predicate SetsBecame(s: Sets)
      reads this
    {
      && sets == s && chain == old(chain) && otherRules == old(otherRules)
      && history == old(history) + [s] && refusals == old(refusals)
    }

    twostate predicate ChainBecame(c: seq<Line>)
      reads this
    {
      && sets == old(sets) && chain == c && otherRules == old(otherRules)
      && history == old(history) && refusals == old(refusals)
    }

    /** Whether the environment lets the next command through. */
    method Attempt() returns (allowed: bool)
      modifies this`refusals
      ensures refusals == if allowed then old(refusals) else old(refusals) + 1
    {
      allowed := *;
      if !allowed {
        refusals := refusals + 1;
      }
    }

    /** `ipset list -n` */
    method ListNames() returns (r: Option<set<SetName>>)
      requires Valid()
      modifies this
      ensures Valid()
      ensures (r == Some(sets.Keys) && unchanged(this)) || (r == None && Refused())
    {
      var allowed := Attempt();
      r := if allowed then Some(sets.Keys) else None;
    }

    /** `ipset create`, with or without `-exist` */
    method Create(name: SetName, existOk: bool) returns (ok: bool)
      requires Valid()
      modifies this
      ensures Valid()
      ensures ok ==> SetsBecame(if name in old(sets) then old(sets) else old(sets)[name := {}])
      ensures !ok ==> Refused() || unchanged(this)
      ensures !ok && unchanged(this) ==> name in sets && !existOk
      ensures ok ==> existOk || name !in old(sets)
    {
      ok := Attempt();
      if ok {
        if name in sets {
          ok := existOk;
        } else {
          sets := sets[name := {}];
        }
        if ok {
          history := history + [sets];
        }
      }
    }

    /** `ipset add -exist` */
    method Add(name: SetName, entry: Prefix) returns (ok: bool)
      requires Valid() && name in sets
      modifies this
      ensures Valid()
      ensures ok ==> SetsBecame(old(sets)[name := old(sets[name]) + {entry}])
      ensures !ok ==> Refused()
    {
      ok := Attempt();
      if ok {
        sets := sets[name := sets[name] + {entry}];
        history := history + [sets];
      }
    }

    /** `ipset swap`: both sets must exist */
    method Swap(a: SetName, b: SetName) returns (ok: bool)
      requires Valid()
      modifies this
      ensures Valid()
      ensures ok ==> a in old(sets) && b in old(sets)
      ensures ok ==> SetsBecame(old(sets)[a := old(sets)[b]][b := old(sets)[a]])
      ensures !ok ==> Refused() || unchanged(this)
      ensures !ok && unchanged(this) ==> a !in sets || b !in sets
    {
      ok := Attempt();
      if ok {
        if a in sets && b in sets {
          sets := sets[a := sets[b]][b := sets[a]];
          history := history + [sets];
        } else {
          ok := false;
        }
      }
    }

    /** `ipset destroy`, best effort: an absent set counts as destroyed, a set the chain refers to is
    not destroyed. */
    method Destroy(name: SetName) returns (ok: bool)
      requires Valid()
      modifies this
      ensures Valid()
      ensures ok ==> SetsBecame(old(sets) - {name}) && name !in References(chain)
      ensures !ok ==> Refused() || unchanged(this)
      ensures !ok && unchanged(this) ==> name in References(chain)
    {
      ok := Attempt();
      if ok {
        if name in References(chain) {
          ok := false;
        } else {
          sets := sets - {name};
          history := history + [sets];
        }
      }
    }

    /** `iptables -S VPN_FORWARD` */
    method SaveChain() returns (r: Option<seq<Line>>)
      requires Valid()
      modifies this
      ensures Valid()
      ensures (r == Some(chain) && unchanged(this)) || (r == None && Refused())
    {
      var allowed := Attempt();
      r := if allowed then Some(chain) else None;
    }

    /** `iptables -F VPN_FORWARD` */
    method Flush() returns (ok: bool)
      requires Valid()
      modifies this
      ensures Valid()
      ensures ok ==> ChainBecame([])
      ensures !ok ==> Refused()
    {
      ok := Attempt();
      if ok {
        chain := [];
      }
    }

    /** `iptables -A VPN_FORWARD ...` */
    method Append(line: Line) returns (ok: bool)
      requires Valid()
      modifies this
      ensures Valid()
      ensures ok ==> ChainBecame(old(chain) + [line])
      ensures !ok ==> Refused() || unchanged(this)
      ensures !ok && unchanged(this) ==> !(References([line]) <= sets.Keys)
    {
      ok := Attempt();
      if ok {
        if References([line]) <= sets.Keys {
          assert References(chain + [line]) <= References(chain) + References([line]);
          chain := chain + [line];
        } else {
          ok := false;
        }
      }
    }

    /** `iptables-restore --noflush` of the chain: one atomic replacement */
    method ReplaceChain(lines: seq<Line>) returns (ok: bool)
      requires Valid()
      modifies this
      ensures Valid()
      ensures ok ==> ChainBecame(lines)
      ensures !ok ==> Refused() || unchanged(this)
      ensures !ok && unchanged(this) ==> !(References(lines) <= sets.Keys)
    {
      ok := Attempt();
      if ok {
        if References(lines) <= sets.Keys {
          chain := lines;
        } else {
          ok := false;
        }
      }
    }

    /** `iptables-save -t filter` */
    method SaveFilter() returns (r: Option<(seq<Line>, seq<FilterRule>)>)
      requires Valid()
      modifies this
      ensures Valid()
      ensures (r == Some((chain, otherRules)) && unchanged(this)) || (r == None && Refused())
    {
      var allowed := Attempt();
      r := if allowed then Some((chain, otherRules)) else None;
    }

    /** `iptables-restore` of a saved filter table: one atomic replacement */
    method RestoreFilter(saved: (seq<Line>, seq<FilterRule>)) returns (ok: bool)
      requires Valid()
      modifies this
      ensures Valid()
      ensures ok ==> chain == saved.0 && otherRules == saved.1
      ensures ok ==> sets == old(sets) && history == old(history) && refusals == old(refusals)
      ensures !ok ==> Refused() || unchanged(this)
      ensures !ok && unchanged(this) ==> !(References(saved.0) <= sets.Keys)
    {
      ok := Attempt();
      if ok {
        if References(saved.0) <= sets.Keys {
          chain, otherRules := saved.0, saved.1;
        } else {
          ok := false;
        }
      }
    }

    /** Repair of the FORWARD hooks: lines of its own are taken away and written again, the jump before the
    established connections. Any command may be refused after earlier ones took effect. */
    method RepairForward() returns (ok: bool)
      requires Valid()
      modifies this
      ensures Valid()
      ensures sets == old(sets) && chain == old(chain) && history == old(history)
      ensures refusals == if ok then old(refusals) else old(refusals) + 1
      ensures Without(otherRules, false) == Without(old(otherRules), false)
      ensures ok ==> ForwardHooked(otherRules)
    {
      var kept, rules := Without(otherRules, false), otherRules;
      HooksAtTheEnd(otherRules);
      rules := *;
      ok := Attempt();
      if (ok && !ForwardHooked(rules)) || Without(rules, false) != kept {
        rules := kept + [Jump, Established];
      }
      otherRules := rules;
    }

    /** Repair of the INPUT hook, which is there only if it is wanted. */
    method RepairInput(wanted: bool) returns (ok: bool)
      requires Valid()
      modifies this
      ensures Valid()
      ensures sets == old(sets) && chain == old(chain) && history == old(history)
      ensures refusals == if ok then old(refusals) else old(refusals) + 1
      ensures Without(otherRules, true) == Without(old(otherRules), true)
      ensures ok && wanted ==> FromTun in otherRules
    {
      var kept, rules := Without(otherRules, true), otherRules;
      HooksAtTheEnd(otherRules);
      rules := *;
      ok := Attempt();
      if (ok && wanted && FromTun !in rules) || Without(rules, true) != kept {
        rules := kept + [FromTun];
      }
      otherRules := rules;
    }
  }

  // -------------------------------------------------------------------- hooks

  predicate Ours(r: FilterRule, input: bool) {
    if input then r.FromTun? || r == Outdated(true) else r.Jump? || r.Established? || r == Outdated(false)
  }

  /** The lines but for those of the program on one chain. */
  function Without(rules: seq<FilterRule>, input: bool): seq<FilterRule> {
    if rules == [] then []
    else
      Without(rules[..|rules| - 1], input) +
      (if Ours(rules[|rules| - 1], input) then [] else [rules[|rules| - 1]])
  }

  function Strangers(rules: seq<FilterRule>): seq<FilterRule> {
    if rules == [] then []
    else
      Strangers(rules[..|rules| - 1]) + (if rules[|rules| - 1].Other? then [rules[|rules| - 1]] else [])
  }

  /** The later of jump and established connections. */
  function LastHook(rules: seq<FilterRule>): Option<FilterRule> {
    if rules == [] then None
    else if rules[|rules| - 1].Jump? || rules[|rules| - 1].Established? then Some(rules[|rules| - 1])
    else LastHook(rules[..|rules| - 1])
  }

  /** Traffic of clients goes to `VPN_FORWARD` first. */
  predicate ForwardHooked(rules: seq<FilterRule>) {
    Jump in rules && LastHook(rules) == Some(Established)
  }

  lemma OneMoreLine(front: seq<FilterRule>, last: FilterRule, input: bool)
    ensures Without(front + [last], input) == Without(front, input) + (if Ours(last, input) then [] else [last])
    ensures LastHook(front + [last]) == if last.Jump? || last.Established? then Some(last) else LastHook(front)
    ensures Strangers(front + [last]) == Strangers(front) + (if last.Other? then [last] else [])
    ensures Jump in front + [last] <==> Jump in front || last == Jump
  {
    assert (front + [last])[..|front|] == front;
  }

  lemma {:induction false} WithoutTwice(rules: seq<FilterRule>, input: bool)
    ensures Without(Without(rules, input), input) == Without(rules, input)
  {
    if rules != [] {
      var front, last := rules[..|rules| - 1], rules[|rules| - 1];
      assert rules == front + [last];
      WithoutTwice(front, input);
      OneMoreLine(front, last, input);
      OneMoreLine(Without(front, input), last, input);
      hide Without, Ours;
      assert Without(front, input) + [] == Without(front, input);
    }
  }

  lemma HooksAtTheEnd(rules: seq<FilterRule>)
    ensures var r := Without(rules, false) + [Jump, Established];
      Without(r, false) == Without(rules, false) && ForwardHooked(r)
    ensures var r := Without(rules, true) + [FromTun]; Without(r, true) == Without(rules, true)
  {
    hide Without, LastHook;
    WithoutTwice(rules, false);
    WithoutTwice(rules, true);
    var a, b := Without(rules, false), Without(rules, true);
    OneMoreLine(a, Jump, false);
    OneMoreLine(a + [Jump], Established, false);
    OneMoreLine(b, FromTun, true);
    assert a + [Jump, Established] == a + [Jump] + [Established];
    assert a + [] == a && b + [] == b;
  }

  /** Lines of the INPUT hook have no part in the FORWARD hooks. */
  lemma {:induction false} InputKeepsForward(rules: seq<FilterRule>)
    ensures LastHook(Without(rules, true)) == LastHook(rules)
    ensures Jump in Without(rules, true) <==> Jump in rules
  {
    if rules != [] {
      var front, last := rules[..|rules| - 1], rules[|rules| - 1];
      assert rules == front + [last];
      InputKeepsForward(front);
      OneMoreLine(front, last, true);
      OneMoreLine(Without(front, true), last, true);
      hide Without, LastHook;
      assert Without(front, true) + [] == Without(front, true);
    }
  }

  lemma {:induction false} StrangersStay(rules: seq<FilterRule>, input: bool)
    ensures Strangers(Without(rules, input)) == Strangers(rules)
  {
    if rules != [] {
      var front, last := rules[..|rules| - 1], rules[|rules| - 1];
      assert rules == front + [last];
      StrangersStay(front, input);
      OneMoreLine(front, last, input);
      OneMoreLine(Without(front, input), last, input);
      hide Without, Strangers;
      assert Without(front, input) + [] == Without(front, input) && Strangers(front) + [] == Strangers(front);
    }
  }
}
