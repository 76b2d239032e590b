/** Runs of group, user and peer requests against one store. */
module AccountRuns {
  import opened Wrappers
  import opened Ipv4
  import opened VirtualIps
  import opened CcdMerge
  import opened CcdLines
  import opened CcdRounds
  import opened CcdStatus
  import opened AddressSpace
  import opened Groups
  import opened PeerCcd
  import opened UserAccounts

  /** Requests with what the outside world makes of them: whether a refresh succeeds, whether the PKI
  does, which files cannot be read when an address is looked for (`unreadable`), or edited for the mesh
  routes (`broken`). */
  datatype Request =
    | CreateGroup(id: string, name: string, subnet: Option<Token>)
    | RenumberGroup(gid: string, subnet: Option<Token>, refreshOk: bool)
    | DeleteGroup(gid: string, linkedRules: bool, refreshOk: bool)
    | SetGroupStatus(gid: string, active: bool, refreshOk: bool)
    | CreateUser(username: string, gid: string, credentialsOk: bool, unreadable: set<string>, routes: Routes,
        broken: set<string>)
    | DeleteUser(username: string, crlOk: bool, refreshOk: bool)
    | ToggleUser(username: string, refreshOk: bool)
    | MoveUser(username: string, gid: string, unreadable: set<string>, routes: Routes, broken: set<string>,
        refreshOk: bool)
    | MergePeerRoutes(username: string, peerId: string, cidrs: seq<AddrText>)
    | StripPeerRoutes(username: string, peerId: string)
    | SyncMesh(routes: Routes, broken: set<string>)

  ghost predicate WellFormedRequest(r: Request) {
    && (r.CreateUser? || r.MoveUser? || r.SyncMesh? ==> RoutesOk(r.routes))
    && (r.MergePeerRoutes? || r.StripPeerRoutes? ==> '#' !in r.peerId)
  }

  predicate OnGroups(r: Request) {
    r.CreateGroup? || r.RenumberGroup? || r.DeleteGroup? || r.SetGroupStatus?
  }

  /** Group identifiers are fresh, no user is deleted twice out of a group with members, and no address is
  looked for while another live user's file cannot be read. */
  predicate Admissible(s: State, r: Request) {
    && (r.CreateGroup? ==> IndexOf(s.groups, r.id) == |s.groups|)
    && (r.DeleteUser? ==> CountedOnce(s.groups, s.users, r.username))
    && (r.CreateUser? || r.MoveUser? ==> OthersReadable(s.users, r.unreadable, r.username))
  }

  predicate OthersReadable(users: Users, unreadable: set<string>, u: string) {
    forall v :: v in unreadable && v != u ==> !Live(users, v)
  }

  /** What the store holds between two requests. */
  datatype State = State(groups: seq<Group>, users: Users, ccd: Files, global: Option<Token>)

  ghost function StateOf(store: Store): State
    reads store
  {
    State(store.groups, store.users, store.ccd, store.globalSubnet)
  }

  ghost predicate PlanOk(s: State) {
    AddressesOk(s.groups, s.users, s.ccd, s.global)
  }

  ghost predicate InSpace(s: State) {
    SpaceOk(s.groups, s.global)
  }

  ghost predicate RootIsPool(s: State) {
    RootIsGlobal(s.groups, s.global)
  }

  /** The file of every live user shuts the client out exactly when the user is disabled. */
  predicate StatusOk(s: State) {
    forall u :: u in s.ccd && Live(s.users, u) ==> Enforces(s.ccd[u], s.users[u].status.Disabled?)
  }

  // --------------------------------------------------------- what requests do

  /** Which requests about groups go through, and the groups after any of them. */
  ghost predicate GroupsServed(r: Request, a: State, b: State)
    requires OnGroups(r)
  {
    && b.users == a.users && b.ccd == a.ccd && (!r.RenumberGroup? ==> b.global == a.global)
    && match r
      case CreateGroup(id, name, subnet) =>
        if MayCreate(a.groups, a.global, name, subnet) then
          b.groups == a.groups + [Group(id, name, Normalize(subnet.value), true, 0)]
        else b.groups == a.groups
      case RenumberGroup(gid, subnet, refreshOk) =>
        if MayRenumber(a.groups, a.global, gid, subnet) then
          var k, n := IndexOf(a.groups, gid), Normalize(subnet.value);
          b.groups == a.groups[k := a.groups[k].(subnet := n)] &&
          b.global == if k == 0 && refreshOk then Some(n) else a.global
        else b == a
      case DeleteGroup(gid, linkedRules, _) =>
        var k := IndexOf(a.groups, gid);
        if 0 < k < |a.groups| && a.groups[k].userCount == 0 && !linkedRules then
          b.groups == a.groups[..k] + a.groups[k + 1..]
        else b.groups == a.groups
      case SetGroupStatus(gid, active, _) =>
        var k := IndexOf(a.groups, gid);
        if k < |a.groups| then b.groups == a.groups[k := a.groups[k].(active := active)] else b.groups == a.groups
  }

  /** Which requests about users go through, and what the store holds after any of them. `ip` is the address
  that was looked for. */
  ghost predicate UsersServed(r: Request, a: State, ip: Option<nat>, b: State)
    requires WellFormedRequest(r) && (r.CreateUser? || r.DeleteUser? || r.ToggleUser? || r.MoveUser?)
  {
    match r
    case CreateUser(u, gid, credentialsOk, unreadable, routes, broken) =>
      var may := !Live(a.users, u) && IndexOf(a.groups, gid) < |a.groups|;
      && (may ==> IsAllocation(a.groups, a.global, Taken(a.ccd - unreadable), gid, ip))
      && if may && ip.Some? && credentialsOk then
          b == a.(groups := Recounted(a.groups, gid, 1), users := a.users[u := User(gid, Active)], ccd := b.ccd) &&
          a.global.Some? && TookAddress(a.ccd, b.users, routes, broken, u, ip.value, a.global.value, [], b.ccd)
        else b == a
    case DeleteUser(u, crlOk, _) =>
      if u in a.users && crlOk then
        b == a.(groups := Recounted(a.groups, a.users[u].groupId, -1),
          users := a.users[u := a.users[u].(status := Deleted)], ccd := a.ccd - {u})
      else b == a
    case ToggleUser(u, _) =>
      if Live(a.users, u) then
        var status := if a.users[u].status.Active? then Disabled else Active;
        && b == a.(users := a.users[u := a.users[u].(status := status)], ccd := b.ccd)
        && FileOf(b.ccd, u) == WithDisable(FileOf(a.ccd, u), status.Disabled?)
        && (u in b.ccd ==> Enforces(b.ccd[u], status.Disabled?))
        && (forall v :: v != u ==> FileOf(b.ccd, v) == FileOf(a.ccd, v))
        && (forall v :: Address(b.ccd, v) == Address(a.ccd, v))
      else b == a
    case MoveUser(u, gid, unreadable, routes, broken, _) =>
      var moves :=
        MayMove(a.groups, a.users, u, gid) && a.users[u].groupId != gid && CanRead(a.ccd, unreadable, u);
      && (moves ==> IsAllocation(a.groups, a.global, Taken(a.ccd - unreadable), gid, ip))
      && if moves && ip.Some? then
          b == a.(groups := Recounted(Recounted(a.groups, a.users[u].groupId, -1), gid, 1),
            users := a.users[u := a.users[u].(groupId := gid)], ccd := b.ccd) &&
          a.global.Some? &&
          TookAddress(a.ccd, b.users, routes, broken, u, ip.value, a.global.value, LinesOf(a.ccd, u), b.ccd)
        else b == a
  }

  /** What peer sites write into the files. */
  ghost predicate RoutesServed(r: Request, a: State, b: State)
    requires r.MergePeerRoutes? || r.StripPeerRoutes? || r.SyncMesh?
    requires WellFormedRequest(r)
  {
    && b == a.(ccd := b.ccd)
    && match r
      case MergePeerRoutes(u, peerId, cidrs) =>
        b.ccd == if u in a.ccd && AllIpv4(cidrs) then a.ccd[u := MergePeer(a.ccd[u], peerId, cidrs)] else a.ccd
      case StripPeerRoutes(u, peerId) =>
        b.ccd == if u in a.ccd then a.ccd[u := MergePeer(a.ccd[u], peerId, [])] else a.ccd
      case SyncMesh(routes, broken) =>
        MeshWritten(a.users, routes, broken, a.ccd, b.ccd)
  }

  /** How one request went; `ip` is the address that it looked for, if any. */
  datatype Step = Step(request: Request, before: State, ip: Option<nat>, after: State)

  /** All that one request does. One that is not admissible is left out of the run. */
  ghost predicate StepOk(s: Step) {
    && WellFormedRequest(s.request) && PlanOk(s.before) && PlanOk(s.after)
    && if !Admissible(s.before, s.request) then s.after == s.before
      else if OnGroups(s.request) then GroupsServed(s.request, s.before, s.after)
      else if s.request.MergePeerRoutes? || s.request.StripPeerRoutes? || s.request.SyncMesh? then
        RoutesServed(s.request, s.before, s.after)
      else UsersServed(s.request, s.before, s.ip, s.after)
  }

  method ServeGroups(store: Store, r: Request)
    requires store.Consistent() && Admissible(StateOf(store), r) && OnGroups(r)
    modifies store
    ensures store.Consistent()
    ensures GroupsServed(r, old(StateOf(store)), StateOf(store))
  {
    hide SpaceOk, AddressesOk, IsSubnetOf, Fits, Normalize, RootIsGlobal, MayCreate, MayRenumber;
    var service := new GroupService(store);
    match r {
      case CreateGroup(id, name, subnet) =>
        var g := service.Create(id, name, subnet);
      case RenumberGroup(gid, subnet, refreshOk) =>
        var out := service.UpdateSubnet(gid, subnet, refreshOk);
      case DeleteGroup(gid, linkedRules, refreshOk) =>
        var out := service.Delete(gid, linkedRules, refreshOk);
      case SetGroupStatus(gid, active, refreshOk) =>
        var out := service.SetStatus(gid, active, refreshOk);
    }
  }

  method ServeNew(store: Store, r: Request) returns (ghost ip: Option<nat>)
    requires store.Consistent() && WellFormedRequest(r) && Admissible(StateOf(store), r) && r.CreateUser?
    modifies store
    ensures store.Consistent()
    ensures UsersServed(r, old(StateOf(store)), ip, StateOf(store))
  {
    hide SpaceOk, AddressesOk, IsAllocation, Recounted, Taken, HeldByOther, TookAddress, RoutesOk;
    ghost var before := StateOf(store);
    var service := new UserService(store);
    var out;
    out, ip := service.Create(r.username, r.gid, r.credentialsOk, r.unreadable, r.routes, r.broken);
    if !out.Rejected? {
      NextIsFree(before, r.gid, r.unreadable, r.username, ip.value);
    }
  }

  method ServeMove(store: Store, r: Request) returns (ghost ip: Option<nat>)
    requires store.Consistent() && WellFormedRequest(r) && Admissible(StateOf(store), r) && r.MoveUser?
    modifies store
    ensures store.Consistent()
    ensures UsersServed(r, old(StateOf(store)), ip, StateOf(store))
  {
    hide SpaceOk, AddressesOk, IsAllocation, Recounted, Taken, HeldByOther, TookAddress, RoutesOk, LinesOf, CanRead;
    ghost var before := StateOf(store);
    var service := new UserService(store);
    var out;
    out, ip := service.ChangeGroup(r.username, r.gid, r.unreadable, r.routes, r.broken, r.refreshOk);
    if !out.Rejected? && before.users[r.username].groupId != r.gid {
      NextIsFree(before, r.gid, r.unreadable, r.username, ip.value);
    }
  }

  method ServeUsers(store: Store, r: Request) returns (ghost ip: Option<nat>)
    requires store.Consistent() && WellFormedRequest(r) && Admissible(StateOf(store), r)
    requires r.CreateUser? || r.DeleteUser? || r.ToggleUser? || r.MoveUser?
    modifies store
    ensures store.Consistent()
    ensures UsersServed(r, old(StateOf(store)), ip, StateOf(store))
  {
    hide SpaceOk, AddressesOk, Address, IsAllocation, Recounted, Taken, FileOf, WithDisable, TookAddress, Enforces,
      CanRead, LinesOf, MayMove;
    var service := new UserService(store);
    ip := None;
    match r {
      case CreateUser(_, _, _, _, _, _) =>
        ip := ServeNew(store, r);
      case DeleteUser(username, crlOk, refreshOk) =>
        var out := service.Delete(username, crlOk, refreshOk);
      case ToggleUser(username, refreshOk) =>
        var out := service.ToggleStatus(username, refreshOk);
      case MoveUser(_, _, _, _, _, _) =>
        ip := ServeMove(store, r);
    }
  }

  /** An address found while the other live users' files can be read is nobody else's. */
  lemma NextIsFree(s: State, gid: string, unreadable: set<string>, u: string, ip: nat)
    requires IsAllocation(s.groups, s.global, Taken(s.ccd - unreadable), gid, Some(ip))
    requires OthersReadable(s.users, unreadable, u)
    ensures !HeldByOther(s.users, s.ccd, u, IpText(ip))
  {
    hide IpText, IsSubnetOf, Taken, IsHost;
    HeldOnlyUnread(s.users, s.ccd, unreadable, u, IpText(ip));
  }

  method ServeRoutes(store: Store, r: Request)
    requires store.Consistent() && WellFormedRequest(r)
    requires r.MergePeerRoutes? || r.StripPeerRoutes? || r.SyncMesh?
    modifies store
    ensures store.Consistent()
    ensures RoutesServed(r, old(StateOf(store)), StateOf(store))
  {
    hide AddressesOk, Address, MeshFile, MergePeer, AllIpv4;
    var peers := new PeerService(store);
    match r {
      case MergePeerRoutes(username, peerId, cidrs) =>
        var ok := peers.MergeCcd(username, peerId, cidrs);
      case StripPeerRoutes(username, peerId) =>
        peers.StripCcd(username, peerId);
      case SyncMesh(routes, broken) =>
        ghost var ccd := store.ccd;
        Distinct(store.groups, store.users, ccd, store.globalSubnet);
        var ok := peers.SyncAllMeshPushRoutesInCcd(routes, broken);
        MeshSynced(store.groups, store.users, ccd, store.ccd, store.globalSubnet, routes, broken);
    }
  }

  method Serve(store: Store, r: Request) returns (ghost ip: Option<nat>)
    requires store.Consistent() && WellFormedRequest(r)
    modifies store
    ensures store.Consistent()
    ensures StepOk(Step(r, old(StateOf(store)), ip, StateOf(store)))
  {
    hide GroupsServed, UsersServed, RoutesServed, AddressesOk, WellFormedRequest, CountedOnce, OthersReadable;
    ip := None;
    var now := State(store.groups, store.users, store.ccd, store.globalSubnet);
    if !Admissible(now, r) {
      return;
    }
    if OnGroups(r) {
      ServeGroups(store, r);
    } else if r.MergePeerRoutes? || r.StripPeerRoutes? || r.SyncMesh? {
      ServeRoutes(store, r);
    } else {
      ip := ServeUsers(store, r);
    }
  }

  // --------------------------------------------------------------------- runs

  /** A run that goes from one state to another, each step doing what its request asks for. */
  ghost predicate RunsTo(a: State, h: seq<Step>, b: State)
    decreases |h|
  {
    if h == [] then a == b
    else
      var last := h[|h| - 1]; last.after == b && StepOk(last) && RunsTo(a, h[..|h| - 1], last.before)
  }

  lemma OneMoreStep(a: State, h: seq<Step>, s: Step)
    requires RunsTo(a, h, s.before) && StepOk(s)
    ensures RunsTo(a, h + [s], s.after)
  {
    hide StepOk;
    assert (h + [s])[..|h|] == h;
  }

  lemma NoStepYet(a: State)
    ensures RunsTo(a, [], a)
  {
  }

  /** The request gives the root group another subnet. */
  predicate RenumbersRoot(s: Step) {
    && s.request.RenumberGroup? && IndexOf(s.before.groups, s.request.gid) == 0
    && MayRenumber(s.before.groups, s.before.global, s.request.gid, s.request.subnet)
  }

  /** The new subnet lies in what is the global subnet afterwards: in itself when the refresh went through. */
  predicate RootInside(s: Step)
    requires RenumbersRoot(s)
  {
    s.request.refreshOk ||
    (s.before.global.Some? && IsSubnetOf(Normalize(s.request.subnet.value), s.before.global.value))
  }

  predicate RootWhole(s: Step)
    requires RenumbersRoot(s)
  {
    s.request.refreshOk ||
    (s.before.global.Some? && Normalize(s.request.subnet.value) == Normalize(s.before.global.value))
  }

  /** The last renumbering of the root group left it inside the global subnet; without one, what held at the
  start counts. */
  predicate LastRootInside(h: seq<Step>, start: bool) {
    if h == [] then start
    else if RenumbersRoot(h[|h| - 1]) then RootInside(h[|h| - 1])
    else LastRootInside(h[..|h| - 1], start)
  }

  predicate LastRootWhole(h: seq<Step>, start: bool) {
    if h == [] then start
    else if RenumbersRoot(h[|h| - 1]) then RootWhole(h[|h| - 1])
    else LastRootWhole(h[..|h| - 1], start)
  }

  /** Whatever is asked, from a consistent store, and so from an empty one: the store goes from state to state,
  each step doing what its request asks for, and every state keeps the address plan, so that live users have
  distinct addresses inside their group's present subnet, none has the server's, and the user counts are
  exact. The groups keep to their space, and the root group is the whole pool, if the last renumbering of the
  root left it so. */
  method ServeAll(store: Store, requests: seq<Request>) returns (ghost steps: seq<Step>)
    requires store.Consistent() && forall i :: 0 <= i < |requests| ==> WellFormedRequest(requests[i])
    modifies store
    ensures store.Consistent()
    ensures |steps| == |requests| && forall i :: 0 <= i < |steps| ==> steps[i].request == requests[i]
    ensures RunsTo(old(StateOf(store)), steps, StateOf(store))
    ensures LastRootInside(steps, InSpace(old(StateOf(store)))) ==> InSpace(StateOf(store))
    ensures LastRootWhole(steps, RootIsPool(old(StateOf(store)))) ==> RootIsPool(StateOf(store))
    ensures StatusOk(old(StateOf(store))) ==> StatusOk(StateOf(store))
  {
    hide AddressesOk, SpaceOk, RootIsGlobal, WellFormedRequest, StepOk, RunsTo, LastRootInside, LastRootWhole,
      StatusOk;
    ghost var start := StateOf(store);
    steps := [];
    NoStepYet(start);
    for i := 0 to |requests|
      invariant store.Consistent() && |steps| == i
      invariant forall k :: 0 <= k < i ==> steps[k].request == requests[k]
      invariant RunsTo(start, steps, StateOf(store))
    {
      ghost var before := StateOf(store);
      ghost var ip := Serve(store, requests[i]);
      ghost var s := Step(requests[i], before, ip, StateOf(store));
      OneMoreStep(start, steps, s);
      steps := steps + [s];
    }
    RunKeepsSpace(start, steps, StateOf(store));
    if StatusOk(start) {
      RunKeepsStatus(start, steps, StateOf(store));
    }
  }

  // -------------------------------------------------------- who may connect

  /** Whatever groups users move to, and whatever sites write into their files: a disabled user stays shut out
  and an active one is let in. */
  lemma {:induction false} RunKeepsStatus(a: State, h: seq<Step>, b: State)
    requires RunsTo(a, h, b) && StatusOk(a)
    ensures StatusOk(b)
    decreases |h|
  {
    hide StepOk, StatusOk;
    if h != [] {
      RunKeepsStatus(a, h[..|h| - 1], h[|h| - 1].before);
      StepKeepsStatus(h[|h| - 1]);
    }
  }

  lemma StepKeepsStatus(s: Step)
    requires StepOk(s) && StatusOk(s.before)
    ensures StatusOk(s.after)
  {
    hide GroupsServed, UsersServed, RoutesServed, AddressesOk, CountedOnce, OthersReadable, StatusOk;
    var r := s.request;
    if Admissible(s.before, r) {
      if OnGroups(r) {
        GroupsKeepStatus(s);
      } else if r.MergePeerRoutes? || r.StripPeerRoutes? || r.SyncMesh? {
        RoutesKeepStatus(s);
      } else {
        UsersKeepStatus(s);
      }
    }
  }

  lemma GroupsKeepStatus(s: Step)
    requires OnGroups(s.request) && GroupsServed(s.request, s.before, s.after) && StatusOk(s.before)
    ensures StatusOk(s.after)
  {
    hide Enforces, MayCreate, MayRenumber, IndexOf, Normalize;
  }

  lemma RoutesKeepStatus(s: Step)
    requires s.request.MergePeerRoutes? || s.request.StripPeerRoutes? || s.request.SyncMesh?
    requires WellFormedRequest(s.request) && RoutesServed(s.request, s.before, s.after)
    requires PlanOk(s.before) && StatusOk(s.before)
    ensures StatusOk(s.after)
  {
    hide Enforces, MergePeer, MeshWritten, WellMarked, RoutesOk, CountsExact, DistinctGroups, WellPlaced;
    var a, b, r := s.before, s.after, s.request;
    if r.SyncMesh? {
      MeshKeepsStatus(a.users, r.routes, r.broken, a.ccd, b.ccd);
    } else {
      var u, cidrs := r.username, if r.MergePeerRoutes? then r.cidrs else [];
      if u in a.ccd && AllIpv4(cidrs) && Live(a.users, u) {
        PeerMergeEnforces(a.ccd[u], r.peerId, cidrs, a.users[u].status.Disabled?);
      }
    }
  }

  lemma UsersKeepStatus(s: Step)
    requires s.request.CreateUser? || s.request.DeleteUser? || s.request.ToggleUser? || s.request.MoveUser?
    requires WellFormedRequest(s.request) && UsersServed(s.request, s.before, s.ip, s.after)
    requires PlanOk(s.before) && StatusOk(s.before)
    ensures StatusOk(s.after)
  {
    hide Enforces, IsAllocation, Recounted, TookAddress, WithDisable, RoutesOk, Taken, Address, CanRead,
      AddressesOk, LinesOf, StatusOk;
    var a, b, r := s.before, s.after, s.request;
    if b == a {
      return;
    }
    match r {
      case CreateUser(u, _, _, _, routes, broken) =>
        NothingShutsOut();
        OthersEnforce(a, b.users, u);
        TakingKeepsStatus(a.ccd, b.users, routes, broken, u, s.ip.value, a.global.value, [], b.ccd);
        SameStatus(b);
      case MoveUser(u, _, _, routes, broken, _) =>
        HasFile(a, u);
        OthersEnforce(a, b.users, u);
        TakingKeepsStatus(a.ccd, b.users, routes, broken, u, s.ip.value, a.global.value, LinesOf(a.ccd, u), b.ccd);
        SameStatus(b);
      case DeleteUser(u, _, _) =>
        OthersEnforce(a, b.users, u);
        SameStatus(b);
      case ToggleUser(u, _) =>
        OthersEnforce(a, b.users, u);
        ToggledFiles(a.ccd, b.ccd, u);
        SameStatus(b);
    }
  }

  lemma OthersEnforce(s: State, users: Users, u: string)
    requires StatusOk(s)
    requires forall v :: v != u ==> (v in users <==> v in s.users) && (v in users ==> users[v] == s.users[v])
    ensures forall v :: v in s.ccd && v != u && Live(users, v) ==> Enforces(s.ccd[v], users[v].status.Disabled?)
    ensures u in s.ccd && Live(s.users, u) ==> Enforces(s.ccd[u], s.users[u].status.Disabled?)
  {
    hide Enforces;
  }

  lemma SameStatus(s: State)
    requires forall v :: v in s.ccd && Live(s.users, v) ==> Enforces(s.ccd[v], s.users[v].status.Disabled?)
    ensures StatusOk(s)
  {
    hide Enforces;
  }

  lemma ToggledFiles(before: Files, after: Files, u: string)
    requires forall v :: v != u ==> FileOf(after, v) == FileOf(before, v)
    ensures forall v :: v != u ==> (v in after <==> v in before) && (v in after ==> after[v] == before[v])
  {
    forall v | v != u ensures (v in after <==> v in before) && (v in after ==> after[v] == before[v]) {
      assert FileOf(after, v) == FileOf(before, v);
    }
  }

  lemma NothingShutsOut()
    ensures Enforces([], false)
  {
  }

  lemma HasFile(s: State, u: string)
    requires PlanOk(s) && Live(s.users, u)
    ensures u in s.ccd && LinesOf(s.ccd, u) == s.ccd[u]
  {
    hide FilesOk, CountsExact, DistinctGroups, Placed;
    assert WellPlaced(s.groups, s.global, s.ccd, u, s.users[u].groupId);
  }

  // ------------------------------------------------------------------- space

  lemma {:induction false} RunKeepsSpace(a: State, h: seq<Step>, b: State)
    requires RunsTo(a, h, b)
    ensures LastRootInside(h, InSpace(a)) ==> InSpace(b)
    ensures LastRootWhole(h, RootIsPool(a)) ==> RootIsPool(b)
    decreases |h|
  {
    hide StepOk, InSpace, RootIsPool, RenumbersRoot, RootInside, RootWhole;
    if h != [] {
      RunKeepsSpace(a, h[..|h| - 1], h[|h| - 1].before);
      StepKeepsSpace(h[|h| - 1]);
    }
  }

  /** Renumbering the root group leaves it inside the global subnet, or equal to it, exactly when its refresh
  went through or the new subnet was so already; no other request takes a group out of the space, or the root
  group from the pool. */
  lemma StepKeepsSpace(s: Step)
    requires StepOk(s)
    ensures RenumbersRoot(s) ==> (InSpace(s.after) <==> RootInside(s)) && (RootIsPool(s.after) <==> RootWhole(s))
    ensures !RenumbersRoot(s) && InSpace(s.before) ==> InSpace(s.after)
    ensures !RenumbersRoot(s) && RootIsPool(s.before) ==> RootIsPool(s.after)
  {
    hide GroupsServed, UsersServed, AddressesOk, SpaceOk, RootIsGlobal, CountedOnce, MayRenumber, Normalize;
    if Admissible(s.before, s.request) {
      if OnGroups(s.request) {
        GroupsKeepSpace(s);
      } else if s.request.CreateUser? || s.request.DeleteUser? || s.request.ToggleUser? || s.request.MoveUser? {
        UsersKeepSpace(s);
      }
    }
  }

  lemma GroupsKeepSpace(s: Step)
    requires OnGroups(s.request) && PlanOk(s.before) && GroupsServed(s.request, s.before, s.after)
    ensures RenumbersRoot(s) ==> (InSpace(s.after) <==> RootInside(s)) && (RootIsPool(s.after) <==> RootWhole(s))
    ensures !RenumbersRoot(s) && InSpace(s.before) ==> InSpace(s.after)
    ensures !RenumbersRoot(s) && RootIsPool(s.before) ==> RootIsPool(s.after)
  {
    hide IsSubnetOf, Fits, Separate, FilesOk, WellPlaced, CountsExact, Normalize, SpaceOk;
    var a, b := s.before, s.after;
    match s.request {
      case CreateGroup(id, name, subnet) =>
        if InSpace(a) && a.groups != b.groups {
          CreatedSpace(a.groups, a.global, Group(id, name, Normalize(subnet.value), true, 0));
        }
      case RenumberGroup(gid, subnet, refreshOk) =>
        if MayRenumber(a.groups, a.global, gid, subnet) {
          RenumberedKeepsSpace(s);
        }
      case DeleteGroup(gid, linkedRules, refreshOk) =>
        if InSpace(a) && a.groups != b.groups {
          RemovedSpace(a.groups, a.global, IndexOf(a.groups, gid));
        }
      case SetGroupStatus(gid, active, refreshOk) =>
        SameSubnets(a.groups, b.groups, a.global);
    }
  }

  lemma RenumberedKeepsSpace(s: Step)
    requires s.request.RenumberGroup? && PlanOk(s.before) && GroupsServed(s.request, s.before, s.after)
    requires MayRenumber(s.before.groups, s.before.global, s.request.gid, s.request.subnet)
    ensures RenumbersRoot(s) ==> (InSpace(s.after) <==> RootInside(s)) && (RootIsPool(s.after) <==> RootWhole(s))
    ensures !RenumbersRoot(s) && InSpace(s.before) ==> InSpace(s.after)
    ensures !RenumbersRoot(s) && RootIsPool(s.before) ==> RootIsPool(s.after)
  {
    hide IsSubnetOf, Fits, Separate, FilesOk, WellPlaced, CountsExact, Normalize, SpaceOk;
    var a, k, n := s.before, IndexOf(s.before.groups, s.request.gid), Normalize(s.request.subnet.value);
    var g := a.groups[k].(subnet := n);
    if k == 0 {
      assert s.after.groups == [g];
      SubsetOfItself(n, n);
      NormalizedAgain(s.request.subnet.value);
      if s.after.global.Some? {
        OnlyRootSpace(g, s.after.global);
      } else {
        NoSpaceWithoutGlobal(s.after.groups, s.after.global);
      }
    } else if InSpace(a) {
      RenumberedSpace(a.groups, a.global, k, g);
    }
  }

  lemma NormalizedAgain(t: Token)
    ensures Normalize(Normalize(t)) == Normalize(t)
  {
    NormalizeKeepsAddresses(t, 0);
  }

  lemma NoSpaceWithoutGlobal(groups: seq<Group>, global: Option<Token>)
    ensures SpaceOk(groups, global) ==> global.Some?
  {
  }

  /** The space looks at subnets only. */
  lemma SameSubnets(a: seq<Group>, b: seq<Group>, global: Option<Token>)
    requires |a| == |b| && forall i :: 0 <= i < |a| ==> b[i].subnet == a[i].subnet
    ensures SpaceOk(a, global) ==> SpaceOk(b, global)
    ensures RootIsGlobal(a, global) ==> RootIsGlobal(b, global)
  {
    hide IsSubnetOf, Disjoint, Normalize;
  }

  lemma UsersKeepSpace(s: Step)
    requires s.request.CreateUser? || s.request.DeleteUser? || s.request.ToggleUser? || s.request.MoveUser?
    requires WellFormedRequest(s.request) && UsersServed(s.request, s.before, s.ip, s.after)
    ensures InSpace(s.before) ==> InSpace(s.after)
    ensures RootIsPool(s.before) ==> RootIsPool(s.after)
  {
    hide SpaceOk, RootIsGlobal, Taken, TookAddress, IsAllocation, WithDisable, FileOf, Address, MayMove;
    SameSubnets(s.before.groups, s.after.groups, s.before.global);
  }
}
