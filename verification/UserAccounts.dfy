/** VPN users: creation, deletion, status and group changes, with the addresses they hold. */
module UserAccounts {
  import opened Wrappers
  import opened Ipv4
  import opened Text
  import opened VirtualIps
  import opened CcdBlocks
  import opened CcdRounds
  import opened CcdVip
  import opened CcdLines
  import opened CcdContents
  import opened CcdStatus
  import opened AddressSpace
  import opened Groups
  import opened PeerCcd

  /** The address line that an allocation writes. */
  function LineFor(ip: nat, global: Token): string {
    AddressLine(IpText(ip), MaskText(global.len))
  }

  ghost predicate IsAllocation(groups: seq<Group>, global: Option<Token>, used: set<string>, gid: string,
      r: Option<nat>) {
    var k := IndexOf(groups, gid);
    k < |groups| && (if global.None? then r == None else IsNext(groups[k].subnet, global.value, used, r))
  }

  /** The mesh routes were written into every file that could be edited. */
  ghost predicate MeshWritten(users: Users, routes: Routes, broken: set<string>, before: Files, after: Files)
    requires RoutesOk(routes)
  {
    && after.Keys == before.Keys
    && forall u :: u in after ==>
      after[u] == MeshFile(users, routes, broken, u, before[u]) &&
      RoutesPushed(users, routes, broken, u, before[u], after[u])
  }

  /** The file of a user who gets another address: the lines it had, with one address line. */
  function Addressed(lines: seq<string>, ip: nat, global: Token): seq<string> {
    TrimEnd(Replaced(lines, LineFor(ip, global)))
  }

  /** The user has taken the address: the file keeps its own lines and has one address line, which says so.
  Nobody else's address has changed, and all files have the mesh routes that now apply. */
  ghost predicate TookAddress(before: Files, users: Users, routes: Routes, broken: set<string>, u: string, ip: nat,
      global: Token, lines: seq<string>, after: Files)
    requires RoutesOk(routes)
  {
    && MeshWritten(users, routes, broken, before[u := Addressed(lines, ip, global)], after)
    && OneAddress(after[u], ip, global.len) && OwnLines(after[u]) == OwnLines(lines)
    && Address(after, u) == Some(IpText(ip)) && forall v :: v != u ==> Address(after, v) == Address(before, v)
  }

  function LinesOf(ccd: Files, u: string): seq<string> {
    if u in ccd then ccd[u] else []
  }

  class UserService {
    const store: Store

    constructor (store: Store)
      ensures this.store == store
    {
      this.store := store;
    }

    /** Files that cannot be read are skipped, so their addresses do not count as taken. */
    method ListCcdVirtualIps(unreadable: set<string>) returns (used: set<string>)
      ensures used == Taken(store.ccd - unreadable)
    {
      hide VirtualIp;
      used := {};
      var readable := store.ccd - unreadable;
      var todo := store.ccd.Keys;
      while todo != {}
        invariant todo <= store.ccd.Keys
        invariant used == set u | u in readable.Keys - todo && Address(readable, u).Some? :: Address(readable, u).value
        decreases todo
      {
        var u :| u in todo;
        if u in unreadable {
          assert readable.Keys - (todo - {u}) == readable.Keys - todo;
          todo := todo - {u};
          continue;
        }
        var ip := ReadVirtualIp(store.ccd[u]);
        assert readable.Keys - (todo - {u}) == (readable.Keys - todo) + {u};
        if ip.Some? {
          used := used + {ip.value};
        }
        todo := todo - {u};
      }
    }

    method AllocateVirtualIpForGroup(group: Group, unreadable: set<string>) returns (r: Option<nat>)
      requires store.globalSubnet.Some?
      ensures IsNext(group.subnet, store.globalSubnet.value, Taken(store.ccd - unreadable), r)
    {
      var used := ListCcdVirtualIps(unreadable);
      r := AllocateVirtualIp(group.subnet, store.globalSubnet.value, used);
    }

    method IncrementGroupUserCount(gid: string, delta: int)
      requires DistinctGroups(store.groups)
      modifies store`groups
      ensures store.groups == Recounted(old(store.groups), gid, delta)
    {
      var k := IndexOf(store.groups, gid);
      if k < |store.groups| {
        store.groups := store.groups[k := Recount(store.groups[k], gid, delta)];
      }
    }

    /** Create a user: the next address of the group that no readable file states goes into a new CCD file.
    Credentials come from the PKI, which may fail; no address is taken then. */
    method Create(username: string, gid: string, credentialsOk: bool, unreadable: set<string>, routes: Routes,
        broken: set<string>)
      returns (out: Outcome, ghost ip: Option<nat>)
      requires store.Consistent() && RoutesOk(routes)
      modifies store`groups, store`users, store`ccd
      ensures out.Rejected? ==> store.Consistent()
      ensures IndexOf(old(store.groups), gid) < |old(store.groups)| && !Live(old(store.users), username) ==>
        IsAllocation(old(store.groups), store.globalSubnet, Taken(old(store.ccd) - unreadable), gid, ip)
      ensures !out.Rejected? <==>
        !Live(old(store.users), username) && IndexOf(old(store.groups), gid) < |old(store.groups)| && ip.Some? &&
        credentialsOk
      ensures !out.Rejected? ==>
        (store.Consistent() <==> !HeldByOther(old(store.users), old(store.ccd), username, IpText(ip.value)))
      ensures out.Rejected? ==>
        store.users == old(store.users) && store.ccd == old(store.ccd) && store.groups == old(store.groups)
      ensures !out.Rejected? ==>
        && store.users == old(store.users)[username := User(gid, Active)]
        && store.groups == Recounted(old(store.groups), gid, 1)
        && store.globalSubnet.Some?
        && TookAddress(old(store.ccd), store.users, routes, broken, username, ip.value, store.globalSubnet.value, [],
          store.ccd)
    {
      hide AddressesOk, HeldByOther, IsNext, VirtualIp, IpText, Taken, Recounted, AddressFirst, WellMarked, Placed,
        MeshWritten, OwnLines, OneAddress, Addressed, LineFor, FilesOk, DistinctGroups, IsSubnetOf, Words,
        CountsExact, IsPush;
      ip := None;
      var k := IndexOf(store.groups, gid);
      if Live(store.users, username) || k == |store.groups| || store.globalSubnet.None? {
        return Rejected, None;
      }
      var next := AllocateVirtualIpForGroup(store.groups[k], unreadable);
      if next.None? || !credentialsOk {
        return Rejected, next;
      }
      ip := next;
      var file := [LineFor(next.value, store.globalSubnet.value)];
      NewFile(next.value, store.globalSubnet.value);
      AllocatedIsPlaced(store.groups, store.globalSubnet, Taken(store.ccd - unreadable), gid, next.value);
      UserCreated(store.groups, store.users, store.ccd, store.globalSubnet, username, gid, file, next.value);
      Distinct(store.groups, store.users, store.ccd, store.globalSubnet);
      ghost var files := store.ccd;
      AllocatedInSpace(store.groups, store.globalSubnet, Taken(files - unreadable), gid, next.value);
      AddressedAnew(next.value, store.globalSubnet.value);
      NoLines();
      store.ccd := store.ccd[username := file];
      store.users := store.users[username := User(gid, Active)];
      IncrementGroupUserCount(gid, 1);
      out := FinishWithMesh(routes, broken, true);
      AddressTaken(files, store.users, routes, broken, username, next.value, store.globalSubnet.value, [], store.ccd);
    }

    /** The end of a change that affects routes. */
    method FinishWithMesh(routes: Routes, broken: set<string>, refreshOk: bool) returns (out: Outcome)
      requires FilesOk(store.ccd) && RoutesOk(routes)
      modifies store`ccd
      ensures (store.Consistent() <==> old(store.Consistent())) && !out.Rejected?
      ensures MeshWritten(store.users, routes, broken, old(store.ccd), store.ccd)
      ensures forall v :: Address(store.ccd, v) == Address(old(store.ccd), v)
    {
      hide AddressesOk, VirtualIp, MeshFile;
      var peers := new PeerService(store);
      var ok := peers.SyncAllMeshPushRoutesInCcd(routes, broken);
      MeshSynced(store.groups, store.users, old(store.ccd), store.ccd, store.globalSubnet, routes, broken);
      return if ok && refreshOk then Done else FollowUpRaised;
    }

    /** Delete a user. Nothing is stored when the CRL cannot be written. A user that was deleted before is
    counted off its group once more. */
    method Delete(username: string, crlOk: bool, refreshOk: bool) returns (out: Outcome)
      requires store.Consistent()
      modifies store`groups, store`users, store`ccd
      ensures out.Rejected? ==> store.Consistent()
      ensures !out.Rejected? ==> (store.Consistent() <==> CountedOnce(old(store.groups), old(store.users), username))
      ensures out.Rejected? <==> username !in old(store.users) || !crlOk
      ensures out.Rejected? ==>
        store.users == old(store.users) && store.ccd == old(store.ccd) && store.groups == old(store.groups)
      ensures !out.Rejected? ==>
        && store.users == old(store.users)[username := old(store.users)[username].(status := Deleted)]
        && store.groups == Recounted(old(store.groups), old(store.users)[username].groupId, -1)
        && store.ccd == old(store.ccd) - {username}
    {
      hide AddressesOk, Recounted;
      if username !in store.users || !crlOk {
        return Rejected;
      }
      if Live(store.users, username) {
        UserDeleted(store.groups, store.users, store.ccd, store.globalSubnet, username);
      } else {
        UserDeletedAgain(store.groups, store.users, store.ccd, store.globalSubnet, username);
      }
      Distinct(store.groups, store.users, store.ccd, store.globalSubnet);
      var gid := store.users[username].groupId;
      store.ccd := store.ccd - {username};
      store.users := store.users[username := store.users[username].(status := Deleted)];
      IncrementGroupUserCount(gid, -1);
      return if refreshOk then Done else FollowUpRaised;
    }

    method ToggleStatus(username: string, refreshOk: bool) returns (out: Outcome)
      requires store.Consistent()
      modifies store`users, store`ccd
      ensures store.Consistent()
      ensures out.Rejected? <==> !Live(old(store.users), username)
      ensures out.Rejected? ==> store.users == old(store.users) && store.ccd == old(store.ccd)
      ensures !out.Rejected? ==>
        && store.users == old(store.users)[username := Toggled(old(store.users)[username])]
        && store.users[username].status == (if old(store.users)[username].status.Active? then Disabled else Active)
        && FileOf(store.ccd, username) ==
          WithDisable(FileOf(old(store.ccd), username), store.users[username].status.Disabled?)
        && (username in store.ccd ==> Enforces(store.ccd[username], store.users[username].status.Disabled?))
      ensures forall v :: v != username ==> FileOf(store.ccd, v) == FileOf(old(store.ccd), v)
      ensures forall v :: Address(store.ccd, v) == Address(old(store.ccd), v)
    {
      hide AddressesOk, Enabled, VirtualIp, Enforces, WithDisable;
      if !Live(store.users, username) {
        return Rejected;
      }
      var user := Toggled(store.users[username]);
      StatusChanged(store.groups, store.users, store.users[username := user], store.ccd, store.globalSubnet);
      store.users := store.users[username := user];
      var file := if username in store.ccd then Some(store.ccd[username]) else None;
      var edited := UpdateCcdDisable(file, user.status.Disabled?);
      FileEnforces(file, user.status.Disabled?);
      Disabling(store.groups, store.users, store.ccd, store.globalSubnet, username, user.status.Disabled?);
      if edited.Some? {
        store.ccd := store.ccd[username := edited.value];
      }
      return if refreshOk then Done else FollowUpRaised;
    }

    /** Allocate in the new group, rewrite the address line, store the user, and move the counts. */
    method MoveUser(username: string, gid: string, unreadable: set<string>)
      returns (ghost ip: Option<nat>, moved: bool)
      requires store.Consistent() && MayMove(store.groups, store.users, username, gid)
      requires store.users[username].groupId != gid
      requires CanRead(store.ccd, unreadable, username)
      modifies store`groups, store`users, store`ccd
      ensures IsAllocation(old(store.groups), store.globalSubnet, Taken(old(store.ccd) - unreadable), gid, ip)
      ensures moved <==> ip.Some?
      ensures !moved ==> store.Consistent()
      ensures moved ==> FilesOk(store.ccd)
      ensures moved ==>
        (store.Consistent() <==> !HeldByOther(old(store.users), old(store.ccd), username, IpText(ip.value)))
      ensures !moved ==>
        store.users == old(store.users) && store.ccd == old(store.ccd) && store.groups == old(store.groups)
      ensures moved ==>
        && store.users == old(store.users)[username := old(store.users)[username].(groupId := gid)]
        && store.groups == Recounted(Recounted(old(store.groups), old(store.users)[username].groupId, -1), gid, 1)
        && store.ccd == old(store.ccd)[username :=
          Addressed(LinesOf(old(store.ccd), username), ip.value, store.globalSubnet.value)]
    {
      hide AddressesOk, HeldByOther, IsNext, VirtualIp, IpText, Taken, Recounted, AddressFirst, WellMarked, Placed,
        FilesOk, DistinctGroups, IsSubnetOf, Words, CountsExact, IsPush, Replaced, TrimEnd, AddressLine;
      if store.globalSubnet.None? {
        return None, false;
      }
      var next := AllocateVirtualIpForGroup(store.groups[IndexOf(store.groups, gid)], unreadable);
      if next.None? {
        return None, false;
      }
      ip, moved := next, true;
      var gid0 := store.users[username].groupId;
      var lines := if username in store.ccd then store.ccd[username] else [];
      var prior, file := ReplaceCcdIfconfigPush(lines, IpText(next.value), MaskText(store.globalSubnet.value.len));
      Distinct(store.groups, store.users, store.ccd, store.globalSubnet);
      LinesAreGood(store.groups, store.users, store.ccd, store.globalSubnet, username);
      MovedFile(lines, next.value, store.globalSubnet.value);
      AllocatedIsPlaced(store.groups, store.globalSubnet, Taken(store.ccd - unreadable), gid, next.value);
      UserMoved(store.groups, store.users, store.ccd, store.globalSubnet, username, gid, file, next.value);
      RecountedDistinct(store.groups, gid0, -1);
      store.ccd := store.ccd[username := file];
      store.users := store.users[username := store.users[username].(groupId := gid)];
      IncrementGroupUserCount(gid0, -1);
      IncrementGroupUserCount(gid, 1);
    }

    /** Move a user to another active group, with a new address of that group in the old file, which has to
    be readable. */
    method ChangeGroup(username: string, gid: string, unreadable: set<string>, routes: Routes, broken: set<string>,
        refreshOk: bool)
      returns (out: Outcome, ghost ip: Option<nat>)
      requires store.Consistent() && RoutesOk(routes)
      modifies store`groups, store`users, store`ccd
      ensures MayMove(old(store.groups), old(store.users), username, gid) ==>
        old(store.users)[username].groupId != gid && CanRead(old(store.ccd), unreadable, username) ==>
          IsAllocation(old(store.groups), store.globalSubnet, Taken(old(store.ccd) - unreadable), gid, ip)
      ensures !out.Rejected? <==>
        MayMove(old(store.groups), old(store.users), username, gid) &&
        CanRead(old(store.ccd), unreadable, username) &&
        (old(store.users)[username].groupId == gid || ip.Some?)
      ensures out.Rejected? || old(store.users)[username].groupId == gid ==>
        store.Consistent() &&
        store.users == old(store.users) && store.ccd == old(store.ccd) && store.groups == old(store.groups)
      ensures !out.Rejected? && old(store.users)[username].groupId != gid ==>
        && (store.Consistent() <==> !HeldByOther(old(store.users), old(store.ccd), username, IpText(ip.value)))
        && store.users == old(store.users)[username := old(store.users)[username].(groupId := gid)]
        && store.groups == Recounted(Recounted(old(store.groups), old(store.users)[username].groupId, -1), gid, 1)
        && store.globalSubnet.Some?
        && TookAddress(old(store.ccd), store.users, routes, broken, username, ip.value, store.globalSubnet.value,
          LinesOf(old(store.ccd), username), store.ccd)
    {
      hide AddressesOk, HeldByOther, VirtualIp, IpText, Taken, Recounted, Address, IsAllocation, MeshWritten,
        OwnLines, OneAddress, Addressed, FilesOk;
      ghost var files, groups := store.ccd, store.groups;
      ip := None;
      var k := IndexOf(store.groups, gid);
      if !Live(store.users, username) || k == |store.groups| || !store.groups[k].active {
        return Rejected, None;
      }
      if username in store.ccd && username in unreadable {
        return Rejected, None;
      }
      if store.users[username].groupId == gid {
        return Done, None;
      }
      LinesAreGood(groups, store.users, files, store.globalSubnet, username);
      var moved;
      ip, moved := MoveUser(username, gid, unreadable);
      if !moved {
        return Rejected, ip;
      }
      AllocatedInSpace(groups, store.globalSubnet, Taken(files - unreadable), gid, ip.value);
      out := FinishWithMesh(routes, broken, refreshOk);
      AddressTaken(files, store.users, routes, broken, username, ip.value, store.globalSubnet.value,
        LinesOf(files, username), store.ccd);
    }
  }

  predicate CanRead(ccd: Files, unreadable: set<string>, u: string) {
    u in ccd ==> u !in unreadable
  }

  function Toggled(user: User): User {
    user.(status := if user.status.Active? then Disabled else Active)
  }

  function FileOf(ccd: Files, u: string): Option<seq<string>> {
    if u in ccd then Some(ccd[u]) else None
  }

  predicate MayMove(groups: seq<Group>, users: Users, u: string, gid: string) {
    Live(users, u) && IndexOf(groups, gid) < |groups| && groups[IndexOf(groups, gid)].active
  }

  lemma Distinct(groups: seq<Group>, users: Users, ccd: Files, global: Option<Token>)
    requires AddressesOk(groups, users, ccd, global)
    ensures DistinctGroups(groups) && FilesOk(ccd)
  {
  }

  lemma NoLines()
    ensures AddressFirst([]) && WellMarked([])
  {
  }

  lemma LineIsGood(ip: nat, global: Token)
    ensures IsPush(LineFor(ip, global)) && Words(LineFor(ip, global))[1] == IpText(ip)
    ensures !MarkerLike(LineFor(ip, global)) && MarkedLine(LineFor(ip, global))
  {
    hide IpText, MaskText, Words, MarkerLike;
    IpTextIsWord(ip);
    MaskIsWord(global.len);
    AddressLineStatesIp(IpText(ip), MaskText(global.len));
    NoHashIsPlain(LineFor(ip, global));
  }

  lemma NewFile(ip: nat, global: Token)
    ensures var file := [LineFor(ip, global)];
      VirtualIp(file) == Some(IpText(ip)) && AddressFirst(file) && WellMarked(file)
  {
    hide IsPush, Words, IpText, LineFor;
    LineIsGood(ip, global);
  }

  lemma MovedFile(lines: seq<string>, ip: nat, global: Token)
    requires AddressFirst(lines) && WellMarked(lines)
    ensures var file := TrimEnd(Replaced(lines, LineFor(ip, global)));
      VirtualIp(file) == Some(IpText(ip)) && AddressFirst(file) && WellMarked(file)
  {
    hide IsPush, Words, IpText, LineFor, Replaced, TrimEnd, AddressFirst, WellMarked, VirtualIp;
    LineIsGood(ip, global);
    ReplacedContents(lines, LineFor(ip, global));
    ReplacedIsWellFormed(lines, LineFor(ip, global));
  }

  lemma AllocatedInSpace(groups: seq<Group>, global: Option<Token>, used: set<string>, gid: string, ip: nat)
    requires IsAllocation(groups, global, used, gid, Some(ip))
    ensures global.Some? && ip < SPACE
  {
    hide IpText, IsSubnetOf;
    LastInSpace(groups[IndexOf(groups, gid)].subnet);
  }

  /** A new file is the address line alone. */
  lemma AddressedAnew(ip: nat, global: Token)
    ensures Addressed([], ip, global) == [LineFor(ip, global)]
  {
    hide IpText, MaskText, RStrip, NoSpace, PushesOf, ReplaceFirst, IsDisable;
    var line, mask := LineFor(ip, global), MaskText(global.len);
    MaskIsWord(global.len);
    LastIsSolid(mask);
    assert line[|line| - 1] == mask[|mask| - 1];
    TrimmedIsTrimmed(line);
    NoPushes([]);
    assert [line] + [] == [line] && [line][..0] == [];
  }

  lemma LastIsSolid(w: string)
    requires w != "" && NoSpace(w)
    ensures !IsSpace(w[|w| - 1])
  {
  }

  lemma LinesAreGood(groups: seq<Group>, users: Users, ccd: Files, global: Option<Token>, u: string)
    requires AddressesOk(groups, users, ccd, global)
    ensures AddressFirst(LinesOf(ccd, u)) && WellMarked(LinesOf(ccd, u))
  {
    hide AddressFirst, WellMarked;
    NoLines();
  }

  /** After rewriting the address and the mesh routes. */
  lemma AddressTaken(before: Files, users: Users, routes: Routes, broken: set<string>, u: string, ip: nat,
      global: Token, lines: seq<string>, after: Files)
    requires RoutesOk(routes) && ip < SPACE && AddressFirst(lines) && WellMarked(lines)
    requires MeshWritten(users, routes, broken, before[u := Addressed(lines, ip, global)], after)
    requires forall v :: Address(after, v) == Address(before[u := Addressed(lines, ip, global)], v)
    ensures TookAddress(before, users, routes, broken, u, ip, global, lines, after)
  {
    hide AddressFirst, WellMarked, OwnLines, OneAddress, VirtualIp, MeshFile, RoutesPushed, Replaced, TrimEnd,
      IpText;
    var file := Addressed(lines, ip, global);
    MovedFile(lines, ip, global);
    AddressRewritten(lines, ip, global.len);
    PushedKeepsOneAddress(users, routes, broken, u, file, ip, global.len);
    PushedKeepsOwn(users, routes, broken, u, file, after[u]);
  }

  /** A disabled user stays disabled, and a site keeps its routes, whatever group the user moves to. */
  lemma MovedFileSays(before: Files, users: Users, routes: Routes, broken: set<string>, u: string, ip: nat,
      global: Token, lines: seq<string>, after: Files, ws: seq<string>)
    requires RoutesOk(routes) && TookAddress(before, users, routes, broken, u, ip, global, lines, after)
    requires ws != [] && ws[0] != "ifconfig-push"
    ensures Says(Kept(after[u], MeshMarkers(), false), ws) <==> Says(Kept(lines, MeshMarkers(), false), ws)
  {
    hide OwnLines, Kept, Says, MeshMarkers, MeshWritten, OneAddress;
    OwnLinesSay(lines, ws);
    OwnLinesSay(after[u], ws);
  }

  lemma MeshKeepsStatus(users: Users, routes: Routes, broken: set<string>, before: Files, after: Files)
    requires RoutesOk(routes) && MeshWritten(users, routes, broken, before, after)
    requires forall u :: u in before && Live(users, u) ==> Enforces(before[u], users[u].status.Disabled?)
    ensures forall u :: u in after && Live(users, u) ==> Enforces(after[u], users[u].status.Disabled?)
  {
    hide Enforces, RoutesPushed, MeshFile;
    forall u | u in after && Live(users, u) ensures Enforces(after[u], users[u].status.Disabled?) {
      MeshFileEnforces(users, routes, broken, u, before[u], users[u].status.Disabled?);
    }
  }

  lemma AddressedEnforces(lines: seq<string>, ip: nat, global: Token, off: bool)
    requires Enforces(lines, off)
    ensures Enforces(Addressed(lines, ip, global), off)
  {
    hide Enforces, Replaced, TrimEnd, IpText, MaskText, IsPush, IsDisable, AddressLine, Words, MarkedLine,
      MarkerLike;
    LineIsGood(ip, global);
    AddressLetsIn(IpText(ip), MaskText(global.len));
    AddressEnforces(lines, LineFor(ip, global), off);
  }

  lemma TakingKeepsStatus(before: Files, users: Users, routes: Routes, broken: set<string>, u: string, ip: nat,
      global: Token, lines: seq<string>, after: Files)
    requires RoutesOk(routes) && TookAddress(before, users, routes, broken, u, ip, global, lines, after)
    requires Live(users, u) && Enforces(lines, users[u].status.Disabled?)
    requires forall v :: v in before && v != u && Live(users, v) ==> Enforces(before[v], users[v].status.Disabled?)
    ensures forall v :: v in after && Live(users, v) ==> Enforces(after[v], users[v].status.Disabled?)
  {
    hide Enforces, OneAddress, OwnLines, MeshWritten, Addressed, Address, IpText, RoutesOk;
    AddressedEnforces(lines, ip, global, users[u].status.Disabled?);
    MeshKeepsStatus(users, routes, broken, before[u := Addressed(lines, ip, global)], after);
  }

  lemma AllocatedIsPlaced(groups: seq<Group>, global: Option<Token>, used: set<string>, gid: string, ip: nat)
    requires global.Some? && IndexOf(groups, gid) < |groups|
    requires IsNext(groups[IndexOf(groups, gid)].subnet, global.value, used, Some(ip))
    ensures Placed(groups, gid, global, ip) && IpText(ip) !in used
  {
    hide IpText, IsSubnetOf;
    assert groups[IndexOf(groups, gid)] in groups;
  }

  lemma Disabling(groups: seq<Group>, users: Users, ccd: Files, global: Option<Token>, u: string, disable: bool)
    requires AddressesOk(groups, users, ccd, global)
    ensures var edited := WithDisable(FileOf(ccd, u), disable);
      var ccd' := if edited.Some? then ccd[u := edited.value] else ccd;
      AddressesOk(groups, users, ccd', global) && Address(ccd', u) == Address(ccd, u)
  {
    hide WellPlaced, CountsExact, DistinctGroups, AddressFirst, WellMarked, VirtualIp, Enabled;
    var edited := WithDisable(FileOf(ccd, u), disable);
    var ccd' := if edited.Some? then ccd[u := edited.value] else ccd;
    if u in ccd {
      DisableKeepsAddress(ccd[u], disable);
    } else if disable {
      JustDisable();
    }
    FilesEdited(groups, users, ccd, ccd', global);
  }

  /** After the edit the file shuts the client out exactly when it should. */
  lemma FileEnforces(file: Option<seq<string>>, off: bool)
    ensures var edited := WithDisable(file, off);
      (edited.Some? ==> Enforces(edited.value, off)) && (edited.None? ==> file.None?)
  {
    DisableIsDisable();
    hide IsDisable;
    if file.Some? {
      StatusEnforces(file.value, off);
    }
  }

  lemma JustDisable()
    ensures AddressFirst(["disable"]) && WellMarked(["disable"]) && VirtualIp(["disable"]) == None
  {
    hide IsPush, Words, MarkerLike, MarkedLine, VirtualIp, PushesOf, IsDisable;
    DisableIsDisable();
    NotMarkers();
    OneLine("disable");
    VirtualIpIs(["disable"]);
  }
  function OneGroup(): seq<Group> {
    [Group("g", "g", Net(0, 32), true, 1)]
  }

  /** One user of the group was deleted, another holds its address. */
  function DeletedAndActive(): Users {
    map["u" := User("g", Deleted), "v" := User("g", Active)]
  }

  function OneFile(): Files {
    map["v" := [LineFor(0, Net(0, 32))]]
  }

  /** Delete the first user again: the group counts nobody, although the other user is still in it. */
  lemma DeletedTwice()
    ensures AddressesOk(OneGroup(), DeletedAndActive(), OneFile(), None)
    ensures !CountedOnce(OneGroup(), DeletedAndActive(), "u")
    ensures Recounted(OneGroup(), "g", -1)[0].userCount == 0 && Members(DeletedAndActive(), "g") == {"v"}
    ensures var groups, users := Recounted(OneGroup(), "g", -1), DeletedAndActive();
      !AddressesOk(groups, users["u" := users["u"].(status := Deleted)], OneFile() - {"u"}, None)
  {
    hide VirtualIp, AddressFirst, WellMarked, LineFor, IpText;
    var groups, users, ccd := OneGroup(), DeletedAndActive(), OneFile();
    NewFile(0, Net(0, 32));
    assert Members(users, "g") == {"v"};
    assert Placed(groups, "g", None, 0) by {
      assert Pow2(0) == 1;
      assert groups[0] in groups && IsHost(groups[0].subnet, 0);
    }
    assert Address(ccd, "v") == Some(IpText(0));
    assert WellPlaced(groups, None, ccd, "v", "g");
    assert AddressesOk(groups, users, ccd, None);
    assert groups[0].id == users["u"].groupId && groups[0].userCount != 0;
    UserDeletedAgain(groups, users, ccd, None, "u");
  }
  /** One active user, with the only address of its group. */
  function OneUser(): Users {
    map["v" := User("g", Active)]
  }

  /** The user's file cannot be read: the next user of the group is given the same address. */
  lemma UnreadableIsGivenAgain()
    ensures var pool := Some(Net(0, 31));
      && AddressesOk(OneGroup(), OneUser(), OneFile(), pool)
      && IsAllocation(OneGroup(), pool, Taken(OneFile() - {"v"}), "g", Some(0))
      && HeldByOther(OneUser(), OneFile(), "u", IpText(0))
  {
    hide VirtualIp, AddressFirst, WellMarked, LineFor, IpText;
    var groups, users, ccd, pool: Option<Token> := OneGroup(), OneUser(), OneFile(), Some(Net(0, 31));
    NewFile(0, Net(0, 32));
    assert Members(users, "g") == {"v"};
    assert Pow2(0) == 1 && Pow2(1) == 2;
    Pow2Monotone(1, 32);
    assert ServerAddress(Net(0, 31)) == Some(1);
    assert Placed(groups, "g", pool, 0) by {
      assert groups[0] in groups && IsHost(groups[0].subnet, 0);
    }
    assert Address(ccd, "v") == Some(IpText(0));
    assert WellPlaced(groups, pool, ccd, "v", "g");
    assert OneFile() - {"v"} == map[];
    assert Taken(map[]) == {};
    assert IsSubnetOf(Net(0, 32), Net(0, 31));
    assert Allocatable(Net(0, 32), Net(0, 31), {}, 0);
    assert IndexOf(groups, "g") == 0;
  }
}
