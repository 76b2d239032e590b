/** User groups: creation, renumbering and deletion under the subnet rules. */
module Groups {
  import opened Wrappers
  import opened Ipv4
  import opened VirtualIps
  import opened AddressSpace

  class Store {
    var groups: seq<Group>  // in order of creation
    var users: Users
    var ccd: Files
    var globalSubnet: Option<Token>

    constructor (globalSubnet: Option<Token>)
      ensures groups == [] && users == map[] && ccd == map[] && this.globalSubnet == globalSubnet
      ensures Consistent()
    {
      groups, users, ccd, this.globalSubnet := [], map[], map[], globalSubnet;
    }

    ghost predicate Consistent()
      reads this
    {
      AddressesOk(groups, users, ccd, globalSubnet)
    }
  }

  // ------------------------------------------------------- conflict detection

  datatype Conflict = OutsideGlobal | Overlaps(groupId: string)

  /** The groups that a new subnet is compared with: not the edited one, and none that is the whole
  global subnet. */
  predicate Compared(g: Group, global: Option<Token>, exclude: Option<string>) {
    exclude != Some(g.id) && !(global.Some? && g.subnet == Normalize(global.value))
  }

  predicate Collides(subnet: Prefix, g: Group, global: Option<Token>, exclude: Option<string>) {
    Compared(g, global, exclude) && SubnetsOverlap(subnet, g.subnet)
  }

  function OverlapsWith(subnet: Prefix, global: Option<Token>, groups: seq<Group>,
      exclude: Option<string>): seq<Conflict> {
    if groups == [] then []
    else
      var g := groups[|groups| - 1];
      OverlapsWith(subnet, global, groups[..|groups| - 1], exclude) +
      (if Collides(subnet, g, global, exclude) then [Overlaps(g.id)] else [])
  }

  /** Nothing to complain about. */
  predicate Fits(subnet: Prefix, global: Option<Token>, groups: seq<Group>, exclude: Option<string>) {
    && (global.Some? ==> IsSubnetOf(subnet, global.value))
    && (forall i :: 0 <= i < |groups| ==> !Collides(subnet, groups[i], global, exclude))
  }

  lemma {:induction false} NoOverlaps(subnet: Prefix, global: Option<Token>, groups: seq<Group>,
      exclude: Option<string>)
    ensures OverlapsWith(subnet, global, groups, exclude) == [] <==>
      forall i :: 0 <= i < |groups| ==> !Collides(subnet, groups[i], global, exclude)
  {
    hide Collides;
    if groups != [] {
      NoOverlaps(subnet, global, groups[..|groups| - 1], exclude);
    }
  }

  method CheckSubnetConflict(subnet: Prefix, global: Option<Token>, groups: seq<Group>, exclude: Option<string>)
    returns (conflicts: seq<Conflict>)
    ensures conflicts == [] <==> Fits(subnet, global, groups, exclude)
    ensures global.Some? && !IsSubnetOf(subnet, global.value) ==> conflicts == [OutsideGlobal]
    ensures !(global.Some? && !IsSubnetOf(subnet, global.value)) ==>
      conflicts == OverlapsWith(subnet, global, groups, exclude)
  {
    hide IsSubnetOf, SubnetsOverlap;
    if global.Some? && !IsSubnetOf(subnet, global.value) {
      return [OutsideGlobal];
    }
    conflicts := [];
    for i := 0 to |groups|
      invariant conflicts == OverlapsWith(subnet, global, groups[..i], exclude)
    {
      assert groups[..i + 1][..i] == groups[..i];
      var g := groups[i];
      if exclude == Some(g.id) {
        continue;
      }
      if global.Some? && g.subnet == Normalize(global.value) {
        continue;
      }
      if SubnetsOverlap(subnet, g.subnet) {
        conflicts := conflicts + [Overlaps(g.id)];
      }
    }
    assert groups[..|groups|] == groups;
    NoOverlaps(subnet, global, groups, exclude);
  }

  // ------------------------------------------------------------------ lookups

  /** Position of a group, or the number of groups. */
  function IndexOf(groups: seq<Group>, gid: string): (k: nat)
    ensures k <= |groups|
    ensures k < |groups| ==> groups[k].id == gid
    ensures k == |groups| ==> forall i :: 0 <= i < |groups| ==> groups[i].id != gid
  {
    if groups == [] || groups[0].id == gid then 0 else 1 + IndexOf(groups[1..], gid)
  }

  predicate NameUsed(groups: seq<Group>, name: string) {
    exists i :: 0 <= i < |groups| && groups[i].name == name
  }

  // ---------------------------------------------------------- space invariant

  lemma SeparateIsSymmetric(a: Group, b: Group, global: Token)
    ensures Separate(a, b, global) <==> Separate(b, a, global)
  {
  }

  /** The check keeps the new subnet apart from every group but the edited one. */
  lemma FitsIsSeparate(subnet: Prefix, global: Token, groups: seq<Group>, exclude: Option<string>, i: nat, g: Group)
    requires Fits(subnet, Some(global), groups, exclude) && i < |groups| && exclude != Some(groups[i].id)
    requires g.subnet == subnet
    ensures Separate(groups[i], g, global)
  {
    hide Disjoint, IsSubnetOf, SubnetsOverlap;
    assert !Collides(subnet, groups[i], Some(global), exclude);
    OverlapMeansNested(subnet, groups[i].subnet);
    DisjointIsSymmetric(subnet, groups[i].subnet);
  }

  lemma DisjointIsSymmetric(a: Token, b: Token)
    ensures Disjoint(a, b) <==> Disjoint(b, a)
  {
  }

  lemma CreatedSpace(groups: seq<Group>, global: Option<Token>, g: Group)
    requires SpaceOk(groups, global) && Fits(g.subnet, global, groups, None)
    ensures SpaceOk(groups + [g], global)
  {
    hide IsSubnetOf, Separate, Fits;
    assert IsSubnetOf(g.subnet, global.value) by { FitsIsInside(g.subnet, global.value, groups, None); }
    forall i | 0 <= i < |groups| ensures Separate(groups[i], g, global.value) {
      FitsIsSeparate(g.subnet, global.value, groups, None, i, g);
    }
  }

  lemma FitsIsInside(subnet: Prefix, global: Token, groups: seq<Group>, exclude: Option<string>)
    requires Fits(subnet, Some(global), groups, exclude)
    ensures IsSubnetOf(subnet, global)
  {
  }

  lemma RenumberedSpace(groups: seq<Group>, global: Option<Token>, k: nat, g: Group)
    requires SpaceOk(groups, global) && DistinctGroups(groups) && k < |groups|
    requires Fits(g.subnet, global, groups, Some(groups[k].id))
    ensures SpaceOk(groups[k := g], global)
  {
    hide IsSubnetOf, Separate, Fits;
    FitsIsInside(g.subnet, global.value, groups, Some(groups[k].id));
    var r := groups[k := g];
    forall i, j | 0 <= i < j < |r| ensures Separate(r[i], r[j], global.value) {
      if i == k {
        FitsIsSeparate(g.subnet, global.value, groups, Some(groups[k].id), j, g);
        SeparateIsSymmetric(groups[j], g, global.value);
      } else if j == k {
        FitsIsSeparate(g.subnet, global.value, groups, Some(groups[k].id), i, g);
      }
    }
  }

  lemma SubsetOfItself(a: Prefix, b: Token)
    ensures IsSubnetOf(Normalize(a), a) && IsSubnetOf(a, a) && (a == Normalize(b) ==> IsSubnetOf(a, b))
  {
    SubnetMeansContainment(a, a);
    SubnetMeansContainment(Normalize(a), a);
    if a == Normalize(b) {
      SubnetMeansContainment(a, b);
    }
  }

  lemma OnlyRootSpace(g: Group, global: Option<Token>)
    requires global.Some?
    ensures SpaceOk([g], global) <==> IsSubnetOf(g.subnet, global.value)
  {
    hide IsSubnetOf;
    if SpaceOk([g], global) {
      assert [g][0] == g;
    }
  }

  lemma RemovedSpace(groups: seq<Group>, global: Option<Token>, k: nat)
    requires SpaceOk(groups, global) && k < |groups|
    ensures SpaceOk(groups[..k] + groups[k + 1..], global)
  {
    hide IsSubnetOf, Separate;
    var r := groups[..k] + groups[k + 1..];
    assert forall i :: 0 <= i < |r| ==> r[i] == groups[if i < k then i else i + 1];
  }

  // ------------------------------------------------------------------ service

  predicate MayCreate(groups: seq<Group>, global: Option<Token>, name: string, subnet: Option<Token>) {
    && subnet.Some? && (forall i :: 0 <= i < |groups| ==> groups[i].name != name)
    && (groups != [] ==> IsSubnetOf(Normalize(subnet.value), groups[0].subnet))
    && Fits(Normalize(subnet.value), global, groups, None)
  }

  predicate MayRenumber(groups: seq<Group>, global: Option<Token>, gid: string, subnet: Option<Token>) {
    var k := IndexOf(groups, gid);
    && k < |groups| && subnet.Some? && groups[k].userCount == 0
    && (if k == 0 then |groups| == 1 else Fits(Normalize(subnet.value), global, groups, Some(gid)))
  }

  class GroupService {
    const store: Store

    constructor (store: Store)
      ensures this.store == store
    {
      this.store := store;
    }

    method Create(id: string, name: string, subnet: Option<Token>) returns (r: Option<Group>)
      requires store.Consistent()
      requires IndexOf(store.groups, id) == |store.groups|
      modifies store`groups
      ensures store.Consistent()
      ensures r.Some? <==> MayCreate(old(store.groups), store.globalSubnet, name, subnet)
      ensures r.Some? ==> r.value == Group(id, name, Normalize(subnet.value), true, 0)
      ensures store.groups == old(store.groups) + if r.Some? then [r.value] else []
      ensures old(SpaceOk(store.groups, store.globalSubnet)) ==> SpaceOk(store.groups, store.globalSubnet)
      ensures old(RootIsGlobal(store.groups, store.globalSubnet)) ==> RootIsGlobal(store.groups, store.globalSubnet)
    {
      hide IsSubnetOf, Fits, AddressesOk, SpaceOk, Normalize;
      if subnet.None? {
        return None;
      }
      var normalized := Normalize(subnet.value);
      if NameUsed(store.groups, name) {
        return None;
      }
      if store.groups != [] && !IsSubnetOf(normalized, store.groups[0].subnet) {
        return None;
      }
      var conflicts := CheckSubnetConflict(normalized, store.globalSubnet, store.groups, None);
      if conflicts != [] {
        return None;
      }
      var group := Group(id, name, normalized, true, 0);
      GroupAdded(store.groups, store.users, store.ccd, store.globalSubnet, group);
      if SpaceOk(store.groups, store.globalSubnet) {
        CreatedSpace(store.groups, store.globalSubnet, group);
      }
      store.groups := store.groups + [group];
      r := Some(group);
    }

    /** Change a group's subnet. The root group carries the global subnet with it, but only once the
    refresh of a referring tag went through: until then they differ. */
    method UpdateSubnet(gid: string, subnet: Option<Token>, refreshOk: bool) returns (out: Outcome)
      requires store.Consistent()
      modifies store`groups, store`globalSubnet
      ensures store.Consistent()
      ensures out.Rejected? <==> !MayRenumber(old(store.groups), old(store.globalSubnet), gid, subnet)
      ensures out.Rejected? ==> store.groups == old(store.groups) && store.globalSubnet == old(store.globalSubnet)
      ensures !out.Rejected? ==> (out.Done? <==> refreshOk)
      ensures !out.Rejected? ==>
        Renumbered(old(store.groups), old(store.globalSubnet), gid, Normalize(subnet.value), refreshOk)
      ensures !out.Rejected? && old(SpaceOk(store.groups, store.globalSubnet)) ==>
        (SpaceOk(store.groups, store.globalSubnet) <==>
        IndexOf(old(store.groups), gid) != 0 || refreshOk ||
          IsSubnetOf(Normalize(subnet.value), old(store.globalSubnet).value))
      ensures !out.Rejected? && old(RootIsGlobal(store.groups, store.globalSubnet)) ==>
        (RootIsGlobal(store.groups, store.globalSubnet) <==>
        IndexOf(old(store.groups), gid) != 0 || refreshOk ||
          Normalize(subnet.value) == Normalize(old(store.globalSubnet).value))
      ensures out.Done? && IndexOf(old(store.groups), gid) == 0 ==> RootIsGlobal(store.groups, store.globalSubnet)
    {
      hide IsSubnetOf, Fits, AddressesOk, SpaceOk, Normalize, Separate;
      var k := IndexOf(store.groups, gid);
      if k == |store.groups| || subnet.None? || store.groups[k].userCount > 0 {
        return Rejected;
      }
      var normalized := Normalize(subnet.value);
      if k == 0 {
        if |store.groups| > 1 {
          return Rejected;
        }
      } else {
        var conflicts := CheckSubnetConflict(normalized, store.globalSubnet, store.groups, Some(gid));
        if conflicts != [] {
          return Rejected;
        }
      }
      SubnetChanged(store.groups, store.users, store.ccd, store.globalSubnet, k, normalized, k == 0 && refreshOk);
      NormalizeKeepsAddresses(subnet.value, 0);
      if SpaceOk(store.groups, store.globalSubnet) {
        ChangedSpace(store.groups, store.users, store.ccd, store.globalSubnet, gid, normalized, refreshOk);
      }
      store.groups := store.groups[k := store.groups[k].(subnet := normalized)];
      if !refreshOk {
        return FollowUpRaised;
      }
      if k == 0 {
        store.globalSubnet := Some(normalized);
      }
      return Done;
    }

    ghost predicate Renumbered(groups: seq<Group>, global: Option<Token>, gid: string, subnet: Prefix, refreshOk: bool)
      reads store
    {
      var k := IndexOf(groups, gid);
      && k < |groups|
      && store.groups == groups[k := groups[k].(subnet := subnet)]
      && store.globalSubnet == if k == 0 && refreshOk then Some(subnet) else global
    }

    method Delete(gid: string, linkedRules: bool, refreshOk: bool) returns (out: Outcome)
      requires store.Consistent()
      modifies store`groups
      ensures store.Consistent()
      ensures out.Rejected? <==>
        var k := IndexOf(old(store.groups), gid);
          k == |old(store.groups)| || old(store.groups)[k].userCount > 0 || k == 0 || linkedRules
      ensures out.Rejected? ==> store.groups == old(store.groups)
      ensures !out.Rejected? ==> (out.Done? <==> refreshOk)
      ensures !out.Rejected? ==>
        var k := IndexOf(old(store.groups), gid); store.groups == old(store.groups)[..k] + old(store.groups)[k + 1..]
      ensures old(SpaceOk(store.groups, store.globalSubnet)) ==> SpaceOk(store.groups, store.globalSubnet)
      ensures old(RootIsGlobal(store.groups, store.globalSubnet)) ==> RootIsGlobal(store.groups, store.globalSubnet)
    {
      hide AddressesOk, SpaceOk, Normalize;
      var k := IndexOf(store.groups, gid);
      if k == |store.groups| || store.groups[k].userCount > 0 || k == 0 || linkedRules {
        return Rejected;
      }
      GroupRemoved(store.groups, store.users, store.ccd, store.globalSubnet, k);
      if SpaceOk(store.groups, store.globalSubnet) {
        RemovedSpace(store.groups, store.globalSubnet, k);
      }
      store.groups := store.groups[..k] + store.groups[k + 1..];
      return if refreshOk then Done else FollowUpRaised;
    }

    method SetStatus(gid: string, active: bool, refreshOk: bool) returns (out: Outcome)
      requires store.Consistent()
      modifies store`groups
      ensures store.Consistent()
      ensures out.Rejected? <==> IndexOf(old(store.groups), gid) == |old(store.groups)|
      ensures out.Rejected? ==> store.groups == old(store.groups)
      ensures !out.Rejected? ==>
        var k := IndexOf(old(store.groups), gid);
          store.groups == old(store.groups)[k := old(store.groups)[k].(active := active)]
      ensures old(SpaceOk(store.groups, store.globalSubnet)) ==> SpaceOk(store.groups, store.globalSubnet)
      ensures old(RootIsGlobal(store.groups, store.globalSubnet)) ==> RootIsGlobal(store.groups, store.globalSubnet)
    {
      hide AddressesOk, Normalize, IsSubnetOf, Disjoint;
      var k := IndexOf(store.groups, gid);
      if k == |store.groups| {
        return Rejected;
      }
      StatusSet(store.groups, store.users, store.ccd, store.globalSubnet, k, active);
      store.groups := store.groups[k := store.groups[k].(active := active)];
      return if refreshOk then Done else FollowUpRaised;
    }
  }

  // --------------------------------------------- the address plan under groups

  lemma NobodyThere(groups: seq<Group>, users: Users, ccd: Files, global: Option<Token>, gid: string)
    requires AddressesOk(groups, users, ccd, global) && forall i :: 0 <= i < |groups| ==> groups[i].id != gid
    ensures Members(users, gid) == {}
  {
    hide AddressesOk;
    if u :| u in Members(users, gid) {
      GroupExists(groups, users, ccd, global, u);
    }
  }

  lemma GroupAdded(groups: seq<Group>, users: Users, ccd: Files, global: Option<Token>, g: Group)
    requires AddressesOk(groups, users, ccd, global) && g.userCount == 0
    requires forall i :: 0 <= i < |groups| ==> groups[i].id != g.id
    ensures AddressesOk(groups + [g], users, ccd, global)
  {
    hide FilesOk, WellPlaced, Address, Members, Live;
    NobodyThere(groups, users, ccd, global, g.id);
    GroupsEdited(groups, groups + [g], users, ccd, global, global);
  }

  lemma SubnetChanged(groups: seq<Group>, users: Users, ccd: Files, global: Option<Token>, k: nat,
      subnet: Prefix, sync: bool)
    requires AddressesOk(groups, users, ccd, global) && k < |groups| && groups[k].userCount == 0
    requires sync ==> |groups| == 1
    ensures AddressesOk(groups[k := groups[k].(subnet := subnet)], users, ccd, if sync then Some(subnet) else global)
  {
    hide FilesOk, WellPlaced, Address, Members, Live;
    var groups' := groups[k := groups[k].(subnet := subnet)];
    forall g | g in groups && g.userCount > 0 ensures g in groups' {
      var i :| 0 <= i < |groups| && groups[i] == g;
      assert groups'[i] == g;
    }
    GroupsEdited(groups, groups', users, ccd, global, if sync then Some(subnet) else global);
  }

  lemma GroupRemoved(groups: seq<Group>, users: Users, ccd: Files, global: Option<Token>, k: nat)
    requires AddressesOk(groups, users, ccd, global) && k < |groups| && groups[k].userCount == 0
    ensures AddressesOk(groups[..k] + groups[k + 1..], users, ccd, global)
  {
    hide FilesOk, WellPlaced, Address, Members, Live;
    var groups' := groups[..k] + groups[k + 1..];
    assert forall i :: 0 <= i < |groups'| ==> groups'[i] == groups[if i < k then i else i + 1];
    forall g | g in groups && g.userCount > 0 ensures g in groups' {
      var i :| 0 <= i < |groups| && groups[i] == g;
      assert groups'[if i < k then i else i - 1] == g;
    }
    GroupsEdited(groups, groups', users, ccd, global, global);
  }

  lemma StatusSet(groups: seq<Group>, users: Users, ccd: Files, global: Option<Token>, k: nat, active: bool)
    requires AddressesOk(groups, users, ccd, global) && k < |groups|
    ensures AddressesOk(groups[k := groups[k].(active := active)], users, ccd, global)
  {
    hide FilesOk, Address, Members, IsHost, IpText, IsServer;
    var groups' := groups[k := groups[k].(active := active)];
    forall u | Live(users, u) ensures WellPlaced(groups', global, ccd, u, users[u].groupId) {
      var ip :| Address(ccd, u) == Some(IpText(ip)) && Placed(groups, users[u].groupId, global, ip);
      var g :| g in groups && g.id == users[u].groupId && IsHost(g.subnet, ip);
      var i :| 0 <= i < |groups| && groups[i] == g;
      assert groups'[i].id == g.id && groups'[i].subnet == g.subnet;
    }
  }

  lemma ChangedSpace(groups: seq<Group>, users: Users, ccd: Files, global: Option<Token>, gid: string,
      subnet: Prefix, refreshOk: bool)
    requires AddressesOk(groups, users, ccd, global) && SpaceOk(groups, global)
    requires IndexOf(groups, gid) < |groups|
    requires if IndexOf(groups, gid) == 0 then |groups| == 1 else Fits(subnet, global, groups, Some(gid))
    ensures var k := IndexOf(groups, gid);
      SpaceOk(groups[k := groups[k].(subnet := subnet)], if k == 0 && refreshOk then Some(subnet) else global) <==>
      k != 0 || refreshOk || IsSubnetOf(subnet, global.value)
  {
    hide IsSubnetOf, Fits, Separate, FilesOk, WellPlaced, CountsExact, Normalize;
    var k := IndexOf(groups, gid);
    var g := groups[k].(subnet := subnet);
    if k == 0 {
      assert groups[0 := g] == [g];
      OnlyRootSpace(g, if refreshOk then Some(subnet) else global);
      SubsetOfItself(subnet, subnet);
    } else {
      RenumberedSpace(groups, global, k, g);
    }
  }

  /** A root group can drift from the pool: renumber it while a refresh fails. From then on the group
  lies outside the global subnet, and nobody in it can get an address. */
  lemma RootDriftsFromGlobal()
    ensures var root, pool, next: Token := Group("r", "root", Net(0, 32), true, 0), Some(Net(0, 32)), Net(1, 32);
      && SpaceOk([root], pool) && RootIsGlobal([root], pool)
      && MayRenumber([root], pool, "r", Some(next))
      && !SpaceOk([root.(subnet := Normalize(next))], pool)
  {
    var root := Group("r", "root", Net(0, 32), true, 0);
    assert Pow2(32) > 1 by { Pow2Monotone(0, 32); }
    assert Shift(1, 0) == 1 && Shift(0, 0) == 0;
    assert [root.(subnet := Net(1, 32))][0].subnet == Net(1, 32);
  }
}
