/** Groups, users and CCD files as stored, and what the address plan promises about them. */
module AddressSpace {
  import opened Wrappers
  import opened Ipv4
  import opened VirtualIps
  import opened CcdRounds
  import opened CcdVip

  datatype Group = Group(id: string, name: string, subnet: Prefix, active: bool, userCount: nat)

  datatype UserStatus = Active | Disabled | Deleted

  datatype User = User(groupId: string, status: UserStatus)

  type Users = map<string, User>

  type Files = map<string, seq<string>>  // the CCD directory

  /** `FollowUpRaised`: everything was stored, then synchronising mesh routes or refreshing the rules of
  a referring tag failed; nothing is taken back. */
  datatype Outcome = Done | Rejected | FollowUpRaised

  // ------------------------------------------------------------- group space

  ghost predicate DistinctGroups(groups: seq<Group>) {
    forall i, j :: 0 <= i < j < |groups| ==> groups[i].id != groups[j].id
  }

  predicate Separate(a: Group, b: Group, global: Token) {
    a.subnet == Normalize(global) || b.subnet == Normalize(global) || Disjoint(a.subnet, b.subnet)
  }

  /** Every group lies in the global subnet, and two groups that are not the whole of it share no
  address. */
  ghost predicate SpaceOk(groups: seq<Group>, global: Option<Token>) {
    && global.Some?
    && (forall i :: 0 <= i < |groups| ==> IsSubnetOf(groups[i].subnet, global.value))
    && (forall i, j :: 0 <= i < j < |groups| ==> Separate(groups[i], groups[j], global.value))
  }

  /** The root group is the first one, and it is the whole pool. */
  ghost predicate RootIsGlobal(groups: seq<Group>, global: Option<Token>) {
    groups != [] && global.Some? && groups[0].subnet == Normalize(global.value)
  }

  // --------------------------------------------------------------- addresses

  predicate Live(users: Users, u: string) {
    u in users && !users[u].status.Deleted?
  }

  predicate Belongs(users: Users, u: string, gid: string) {
    Live(users, u) && users[u].groupId == gid
  }

  function Members(users: Users, gid: string): set<string> {
    set u | u in users && Belongs(users, u, gid)
  }

  function Address(ccd: Files, u: string): Option<string> {
    if u in ccd then VirtualIp(ccd[u]) else None
  }

  /** All addresses that some file of the directory states, whoever it belongs to. */
  function Taken(ccd: Files): set<string> {
    set u | u in ccd && Address(ccd, u).Some? :: Address(ccd, u).value
  }

  predicate IsServer(global: Option<Token>, ip: nat) {
    global.Some? && ServerAddress(global.value) == Some(ip)
  }

  /** A usable address of the group, and not the server's. */
  ghost predicate Placed(groups: seq<Group>, gid: string, global: Option<Token>, ip: nat) {
    !IsServer(global, ip) && exists g :: g in groups && g.id == gid && IsHost(g.subnet, ip)
  }

  ghost predicate WellPlaced(groups: seq<Group>, global: Option<Token>, ccd: Files, u: string, gid: string) {
    exists ip :: Address(ccd, u) == Some(IpText(ip)) && Placed(groups, gid, global, ip)
  }

  ghost predicate CountsExact(groups: seq<Group>, users: Users) {
    forall i :: 0 <= i < |groups| ==> groups[i].userCount == |Members(users, groups[i].id)|
  }

  ghost predicate FilesOk(ccd: Files) {
    forall u :: u in ccd ==> AddressFirst(ccd[u]) && WellMarked(ccd[u])
  }

  /** The invariant of the address plan. Exact user counts belong to it: they are the only guard on
  changing or deleting a group's subnet. */
  ghost predicate AddressesOk(groups: seq<Group>, users: Users, ccd: Files, global: Option<Token>) {
    && DistinctGroups(groups)
    && FilesOk(ccd)
    && CountsExact(groups, users)
    && (forall u :: Live(users, u) ==> WellPlaced(groups, global, ccd, u, users[u].groupId))
    && (forall u, v :: Live(users, u) && Live(users, v) && u != v ==> Address(ccd, u) != Address(ccd, v))
  }

  // -------------------------------------------------------------- transitions

  /** Edits of files that keep every live user's address keep the plan, and do not mend it. */
  lemma FilesEdited(groups: seq<Group>, users: Users, ccd: Files, ccd': Files, global: Option<Token>)
    requires FilesOk(ccd) && FilesOk(ccd')
    requires forall u :: Live(users, u) ==> Address(ccd', u) == Address(ccd, u)
    ensures AddressesOk(groups, users, ccd, global) <==> AddressesOk(groups, users, ccd', global)
  {
    hide Address, Placed, DistinctGroups, CountsExact, FilesOk;
  }

  /** Disabling and enabling users. */
  lemma StatusChanged(groups: seq<Group>, users: Users, users': Users, ccd: Files, global: Option<Token>)
    requires AddressesOk(groups, users, ccd, global) && users'.Keys == users.Keys
    requires forall u ::
      u in users ==> users'[u].groupId == users[u].groupId && users'[u].status.Deleted? == users[u].status.Deleted?
    ensures AddressesOk(groups, users', ccd, global)
  {
    hide Address, Placed, DistinctGroups, FilesOk, WellPlaced;
    forall i | 0 <= i < |groups| ensures groups[i].userCount == |Members(users', groups[i].id)| {
      assert Members(users', groups[i].id) == Members(users, groups[i].id);
    }
  }

  /** Changes of the group table that leave every group with members where it is, while the server
  address stays or nobody is there. */
  lemma GroupsEdited(groups: seq<Group>, groups': seq<Group>, users: Users, ccd: Files, global: Option<Token>,
      global': Option<Token>)
    requires AddressesOk(groups, users, ccd, global) && DistinctGroups(groups') && CountsExact(groups', users)
    requires forall g :: g in groups && g.userCount > 0 ==> g in groups'
    requires global' == global || forall g :: g in groups ==> g.userCount == 0
    ensures AddressesOk(groups', users, ccd, global')
  {
    hide DistinctGroups, FilesOk, IsHost, IpText, IsServer;
    forall u | Live(users, u) ensures WellPlaced(groups', global', ccd, u, users[u].groupId) {
      var ip :| Address(ccd, u) == Some(IpText(ip)) && Placed(groups, users[u].groupId, global, ip);
      var g :| g in groups && g.id == users[u].groupId && IsHost(g.subnet, ip);
      MemberCounts(groups, users, g, u);
      assert Placed(groups', users[u].groupId, global', ip);
    }
  }

  lemma MemberCounts(groups: seq<Group>, users: Users, g: Group, u: string)
    requires CountsExact(groups, users) && g in groups && Belongs(users, u, g.id)
    ensures g.userCount > 0
  {
    assert u in Members(users, g.id);
  }

  /** The group of a live user exists. */
  lemma GroupExists(groups: seq<Group>, users: Users, ccd: Files, global: Option<Token>, u: string)
    requires AddressesOk(groups, users, ccd, global) && Live(users, u)
    ensures exists g :: g in groups && g.id == users[u].groupId
  {
    hide DistinctGroups, FilesOk, IsHost, IpText, Address, CountsExact;
    var ip :| Address(ccd, u) == Some(IpText(ip)) && Placed(groups, users[u].groupId, global, ip);
  }

  // ----------------------------------------------------------- counting users

  /** `max(0, count + delta)` */
  function Adjusted(count: nat, delta: int): nat {
    if count + delta < 0 then 0 else count + delta
  }

  function Recount(g: Group, gid: string, delta: int): Group {
    if g.id == gid then g.(userCount := Adjusted(g.userCount, delta)) else g
  }

  /** The group table after `_increment_group_user_count`; a missing group is skipped. */
  function Recounted(groups: seq<Group>, gid: string, delta: int): (r: seq<Group>)
    ensures |r| == |groups|
    ensures forall i :: 0 <= i < |groups| ==> r[i] == Recount(groups[i], gid, delta)
  {
    seq(|groups|, i requires 0 <= i < |groups| => Recount(groups[i], gid, delta))
  }

  lemma RecountedKeepsPlaces(groups: seq<Group>, gid: string, delta: int, g: Group)
    requires g in groups
    ensures exists h :: h in Recounted(groups, gid, delta) && h.id == g.id && h.subnet == g.subnet
  {
    var i :| 0 <= i < |groups| && groups[i] == g;
    assert Recounted(groups, gid, delta)[i].id == g.id && Recounted(groups, gid, delta)[i].subnet == g.subnet;
  }

  lemma RecountedPlaced(groups: seq<Group>, gid: string, delta: int, own: string, global: Option<Token>, ip: nat)
    requires Placed(groups, own, global, ip)
    ensures Placed(Recounted(groups, gid, delta), own, global, ip)
  {
    hide IsHost;
    var g :| g in groups && g.id == own && IsHost(g.subnet, ip);
    RecountedKeepsPlaces(groups, gid, delta, g);
  }

  lemma RecountedWellPlaced(groups: seq<Group>, gid: string, delta: int, global: Option<Token>, ccd: Files,
      u: string, own: string)
    requires WellPlaced(groups, global, ccd, u, own)
    ensures WellPlaced(Recounted(groups, gid, delta), global, ccd, u, own)
  {
    hide Placed, IpText, Address;
    var ip :| Address(ccd, u) == Some(IpText(ip)) && Placed(groups, own, global, ip);
    RecountedPlaced(groups, gid, delta, own, global, ip);
  }

  lemma RecountedDistinct(groups: seq<Group>, gid: string, delta: int)
    requires DistinctGroups(groups)
    ensures DistinctGroups(Recounted(groups, gid, delta))
  {
  }

  lemma MembersJoin(users: Users, u: string, gid: string, status: UserStatus, other: string)
    requires !Live(users, u) && !status.Deleted?
    ensures |Members(users[u := User(gid, status)], other)| == |Members(users, other)| + if other == gid then 1 else 0
  {
    var users' := users[u := User(gid, status)];
    if other == gid {
      assert Members(users', gid) == Members(users, gid) + {u};
    } else {
      assert Members(users', other) == Members(users, other);
    }
  }

  lemma MembersLeave(users: Users, u: string, other: string)
    requires Live(users, u)
    ensures |Members(users, other)| ==
      |Members(users[u := users[u].(status := Deleted)], other)| + if other == users[u].groupId then 1 else 0
  {
    var users', gid := users[u := users[u].(status := Deleted)], users[u].groupId;
    if other == gid {
      assert Members(users, gid) == Members(users', gid) + {u};
    } else {
      assert Members(users', other) == Members(users, other);
    }
  }

  /** One user joins a group. */
  lemma JoinCounts(groups: seq<Group>, users: Users, u: string, gid: string, status: UserStatus)
    requires CountsExact(groups, users) && !Live(users, u) && !status.Deleted?
    ensures CountsExact(Recounted(groups, gid, 1), users[u := User(gid, status)])
  {
    hide Members, Live, Recounted;
    forall i | 0 <= i < |groups|
      ensures Recounted(groups, gid, 1)[i].userCount == |Members(users[u := User(gid, status)], groups[i].id)|
    {
      MembersJoin(users, u, gid, status, groups[i].id);
    }
  }

  /** One user leaves its group; the floor at zero never matters. */
  lemma LeaveCounts(groups: seq<Group>, users: Users, u: string)
    requires CountsExact(groups, users) && Live(users, u)
    ensures CountsExact(Recounted(groups, users[u].groupId, -1), users[u := users[u].(status := Deleted)])
  {
    hide Members, Recounted;
    var gid := users[u].groupId;
    forall i | 0 <= i < |groups|
      ensures Recounted(groups, gid, -1)[i].userCount ==
        |Members(users[u := users[u].(status := Deleted)], groups[i].id)|
    {
      MembersLeave(users, u, groups[i].id);
    }
  }

  lemma TakenContains(ccd: Files, u: string)
    ensures Address(ccd, u).Some? ==> Address(ccd, u).value in Taken(ccd)
  {
  }

  /** Another live user has the address. */
  ghost predicate HeldByOther(users: Users, ccd: Files, u: string, address: string) {
    exists v :: v != u && Live(users, v) && Address(ccd, v) == Some(address)
  }

  /** What the files that can be read do not state, only a file that cannot be read can. */
  lemma HeldOnlyUnread(users: Users, ccd: Files, unreadable: set<string>, u: string, address: string)
    requires address !in Taken(ccd - unreadable)
    requires forall v :: v in unreadable && v != u ==> !Live(users, v)
    ensures !HeldByOther(users, ccd, u, address)
  {
    hide VirtualIp, Taken;
    forall v | v != u && Live(users, v) ensures Address(ccd, v) != Some(address) {
      TakenContains(ccd - unreadable, v);
    }
  }

  /** Giving a user an address that another one has breaks the plan. */
  lemma SharedAddress(users: Users, users': Users, ccd: Files, ccd': Files, u: string, groups: seq<Group>,
      global: Option<Token>)
    requires Live(users', u) && Address(ccd', u).Some? && HeldByOther(users, ccd, u, Address(ccd', u).value)
    requires forall v :: v != u && Live(users, v) ==> Live(users', v) && Address(ccd', v) == Address(ccd, v)
    ensures !AddressesOk(groups, users', ccd', global)
  {
    hide Live, Address, WellPlaced, CountsExact, FilesOk, DistinctGroups;
    var v :| v != u && Live(users, v) && Address(ccd, v) == Address(ccd', u);
    assert Live(users', v) && Address(ccd', v) == Address(ccd', u);
  }

  /** The two ways in which one user's address changes. */
  lemma OneAddressChanged(users: Users, users': Users, ccd: Files, ccd': Files, u: string)
    requires forall v, w :: Live(users, v) && Live(users, w) && v != w ==> Address(ccd, v) != Address(ccd, w)
    requires forall v :: v != u && Live(users', v) ==> Live(users, v) && Address(ccd', v) == Address(ccd, v)
    requires Live(users', u) ==> Address(ccd', u).Some? && !HeldByOther(users, ccd, u, Address(ccd', u).value)
    ensures forall v, w :: Live(users', v) && Live(users', w) && v != w ==> Address(ccd', v) != Address(ccd', w)
  {
    hide Address, Live;
  }

  /** A user is created in a group with an address of that group: the plan is kept exactly when no other live
  user has it. */
  lemma UserCreated(groups: seq<Group>, users: Users, ccd: Files, global: Option<Token>, u: string, gid: string,
      file: seq<string>, ip: nat)
    requires AddressesOk(groups, users, ccd, global) && !Live(users, u)
    requires Placed(groups, gid, global, ip)
    requires VirtualIp(file) == Some(IpText(ip)) && AddressFirst(file) && WellMarked(file)
    ensures AddressesOk(Recounted(groups, gid, 1), users[u := User(gid, Active)], ccd[u := file], global) <==>
      !HeldByOther(users, ccd, u, IpText(ip))
    ensures FilesOk(ccd[u := file])
  {
    hide Placed, DistinctGroups, CountsExact, IpText, Taken, VirtualIp, AddressFirst, WellMarked, Recounted,
      WellPlaced, HeldByOther;
    var groups', users', ccd' := Recounted(groups, gid, 1), users[u := User(gid, Active)], ccd[u := file];
    if HeldByOther(users, ccd, u, IpText(ip)) {
      SharedAddress(users, users', ccd, ccd', u, groups', global);
      return;
    }
    RecountedDistinct(groups, gid, 1);
    JoinCounts(groups, users, u, gid, Active);
    OneAddressChanged(users, users', ccd, ccd', u);
    forall v | Live(users', v) ensures WellPlaced(groups', global, ccd', v, users'[v].groupId) {
      if v == u {
        RecountedPlaced(groups, gid, 1, gid, global, ip);
        PlacedAt(groups', global, ccd', u, gid, ip);
      } else {
        RecountedWellPlaced(groups, gid, 1, global, ccd, v, users[v].groupId);
        SameAddress(groups', global, ccd, ccd', v, users[v].groupId);
      }
    }
  }

  lemma PlacedAt(groups: seq<Group>, global: Option<Token>, ccd: Files, u: string, gid: string, ip: nat)
    requires Address(ccd, u) == Some(IpText(ip)) && Placed(groups, gid, global, ip)
    ensures WellPlaced(groups, global, ccd, u, gid)
  {
  }

  lemma SameAddress(groups: seq<Group>, global: Option<Token>, ccd: Files, ccd': Files, u: string, gid: string)
    requires WellPlaced(groups, global, ccd, u, gid) && Address(ccd', u) == Address(ccd, u)
    ensures WellPlaced(groups, global, ccd', u, gid)
  {
    hide Placed, IpText;
  }

  lemma UserDeleted(groups: seq<Group>, users: Users, ccd: Files, global: Option<Token>, u: string)
    requires AddressesOk(groups, users, ccd, global) && Live(users, u)
    ensures AddressesOk(Recounted(groups, users[u].groupId, -1), users[u := users[u].(status := Deleted)], ccd - {u},
      global)
  {
    hide DistinctGroups, CountsExact, IpText, Taken, VirtualIp, AddressFirst, WellMarked, Recounted, WellPlaced;
    var gid := users[u].groupId;
    var groups', users', ccd' := Recounted(groups, gid, -1), users[u := users[u].(status := Deleted)], ccd - {u};
    RecountedDistinct(groups, gid, -1);
    LeaveCounts(groups, users, u);
    OneAddressChanged(users, users', ccd, ccd', u);
    forall v | Live(users', v) ensures WellPlaced(groups', global, ccd', v, users'[v].groupId) {
      RecountedWellPlaced(groups, gid, -1, global, ccd, v, users[v].groupId);
      SameAddress(groups', global, ccd, ccd', v, users[v].groupId);
    }
  }

  /** Deleting the user keeps the counts exact: it is not deleted yet, or its group is gone or empty. */
  predicate CountedOnce(groups: seq<Group>, users: Users, u: string) {
    u in users ==>
      Live(users, u) || forall i :: 0 <= i < |groups| && groups[i].id == users[u].groupId ==> groups[i].userCount == 0
  }

  /** A user that is deleted a second time: the address plan is kept exactly when nobody is left in the
  group that is counted down again. */
  lemma UserDeletedAgain(groups: seq<Group>, users: Users, ccd: Files, global: Option<Token>, u: string)
    requires AddressesOk(groups, users, ccd, global) && u in users && !Live(users, u)
    ensures CountedOnce(groups, users, u) <==>
      AddressesOk(Recounted(groups, users[u].groupId, -1), users[u := users[u].(status := Deleted)], ccd - {u}, global)
  {
    hide DistinctGroups, IpText, Taken, VirtualIp, AddressFirst, WellMarked, Members, WellPlaced, Recounted;
    var gid, ccd' := users[u].groupId, ccd - {u};
    var groups' := Recounted(groups, gid, -1);
    assert users[u := users[u].(status := Deleted)] == users;
    if CountedOnce(groups, users, u) {
      assert groups' == groups;
      forall v | Live(users, v) ensures WellPlaced(groups, global, ccd', v, users[v].groupId) {
        SameAddress(groups, global, ccd, ccd', v, users[v].groupId);
      }
    } else {
      var i :| 0 <= i < |groups| && groups[i].id == gid && groups[i].userCount != 0;
      assert groups'[i].userCount == |Members(users, groups[i].id)| - 1 && groups'[i].id == groups[i].id;
    }
  }

  /** A user moves to another group and gets an address there: the plan is kept exactly when no other live user
  has it. */
  lemma UserMoved(groups: seq<Group>, users: Users, ccd: Files, global: Option<Token>, u: string, gid: string,
      file: seq<string>, ip: nat)
    requires AddressesOk(groups, users, ccd, global) && Live(users, u) && users[u].groupId != gid
    requires Placed(groups, gid, global, ip)
    requires VirtualIp(file) == Some(IpText(ip)) && AddressFirst(file) && WellMarked(file)
    ensures var groups' := Recounted(Recounted(groups, users[u].groupId, -1), gid, 1);
      AddressesOk(groups', users[u := users[u].(groupId := gid)], ccd[u := file], global) <==>
        !HeldByOther(users, ccd, u, IpText(ip))
    ensures FilesOk(ccd[u := file])
  {
    hide Placed, DistinctGroups, CountsExact, IpText, Taken, VirtualIp, AddressFirst, WellMarked, Recounted,
      WellPlaced, HeldByOther;
    var gid0, left := users[u].groupId, users[u := users[u].(status := Deleted)];
    var mid := Recounted(groups, gid0, -1);
    var groups', users', ccd' := Recounted(mid, gid, 1), users[u := users[u].(groupId := gid)], ccd[u := file];
    if HeldByOther(users, ccd, u, IpText(ip)) {
      SharedAddress(users, users', ccd, ccd', u, groups', global);
      return;
    }
    RecountedDistinct(groups, gid0, -1);
    RecountedDistinct(mid, gid, 1);
    LeaveCounts(groups, users, u);
    JoinCounts(mid, left, u, gid, users[u].status);
    assert left[u := User(gid, users[u].status)] == users';
    OneAddressChanged(users, users', ccd, ccd', u);
    forall v | Live(users', v) ensures WellPlaced(groups', global, ccd', v, users'[v].groupId) {
      if v == u {
        RecountedPlaced(groups, gid0, -1, gid, global, ip);
        RecountedPlaced(mid, gid, 1, gid, global, ip);
        PlacedAt(groups', global, ccd', u, gid, ip);
      } else {
        RecountedWellPlaced(groups, gid0, -1, global, ccd, v, users[v].groupId);
        RecountedWellPlaced(mid, gid, 1, global, ccd, v, users[v].groupId);
        SameAddress(groups', global, ccd, ccd', v, users[v].groupId);
      }
    }
  }

  ghost predicate OwnAddress(g: Group, users: Users, ccd: Files, global: Option<Token>, u: string, ip: nat) {
    && Address(ccd, u) == Some(IpText(ip))
    && Covers(g.subnet, ip) && IsHost(g.subnet, ip) && !IsServer(global, ip)
    && forall v :: Live(users, v) && v != u ==> Address(ccd, v) != Some(IpText(ip))
  }

  /** What the invariant says about one user: an address of its group, and nobody else's. */
  lemma NoSharedAddress(groups: seq<Group>, users: Users, ccd: Files, global: Option<Token>, u: string)
    requires AddressesOk(groups, users, ccd, global) && Live(users, u)
    ensures exists ip: nat, g :: g in groups && g.id == users[u].groupId && OwnAddress(g, users, ccd, global, u, ip)
  {
    hide DistinctGroups, CountsExact, FilesOk, IpText, Address, IsServer;
    assert WellPlaced(groups, global, ccd, u, users[u].groupId);
    var ip :| Address(ccd, u) == Some(IpText(ip)) && Placed(groups, users[u].groupId, global, ip);
    var g :| g in groups && g.id == users[u].groupId && IsHost(g.subnet, ip);
    assert OwnAddress(g, users, ccd, global, u, ip);
  }
}
