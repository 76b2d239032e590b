/** What peer sites write into the CCD directory. */
module PeerCcd {
  import opened Wrappers
  import opened Ipv4
  import opened CcdBlocks
  import opened CcdMerge
  import opened CcdRounds
  import opened CcdVip
  import opened CcdRoutes
  import opened CcdContents
  import opened CcdStatus
  import opened AddressSpace
  import opened Groups

  /** Mesh routes by user group. */
  type Routes = map<string, seq<AddrText>>

  ghost predicate RoutesOk(routes: Routes) {
    forall gid :: gid in routes ==> AllIpv4(routes[gid])
  }

  function RoutesOf(routes: Routes, gid: string): seq<AddrText> {
    if gid in routes then routes[gid] else []
  }

  predicate GetsMesh(users: Users, broken: set<string>, u: string) {
    u in users && users[u].status.Active? && u !in broken
  }

  /** A user's file after the mesh routes were synchronised. */
  function MeshFile(users: Users, routes: Routes, broken: set<string>, u: string, file: seq<string>): seq<string>
    requires RoutesOk(routes)
  {
    if GetsMesh(users, broken, u) then MergeMesh(file, RoutesOf(routes, users[u].groupId)) else file
  }

  /** What a synchronisation makes of one file: its own lines stay, and an active user is pushed exactly the
  networks of the group. */
  ghost predicate RoutesPushed(users: Users, routes: Routes, broken: set<string>, u: string, before: seq<string>,
      after: seq<string>)
    requires RoutesOk(routes)
  {
    && OwnLines(after) == OwnLines(before)
    && if u in users && users[u].status == Active && u !in broken then
        forall p: Prefix :: PushIn(Inside(after, MeshMarkers(), false), p) <==>
          users[u].groupId in routes && p in Networks(Tokens(routes[users[u].groupId]))
      else after == before
  }

  lemma MeshFileIsPushed(users: Users, routes: Routes, broken: set<string>, u: string, file: seq<string>)
    requires RoutesOk(routes)
    ensures RoutesPushed(users, routes, broken, u, file, MeshFile(users, routes, broken, u, file))
  {
    hide MergeMesh, OwnLines, PushIn, Inside, MeshMarkers, Networks;
    if GetsMesh(users, broken, u) {
      var cidrs := RoutesOf(routes, users[u].groupId);
      OwnOfMesh(file, cidrs);
      forall p: Prefix {
        MeshBlockReadsBack(file, cidrs, p);
      }
      NoNetworks();
    }
  }

  lemma PushedKeepsOneAddress(users: Users, routes: Routes, broken: set<string>, u: string, file: seq<string>,
      ip: nat, len: nat)
    requires RoutesOk(routes) && AddressFirst(file) && len <= 32
    ensures OneAddress(MeshFile(users, routes, broken, u, file), ip, len) <==> OneAddress(file, ip, len)
  {
    hide MergeMesh, OneAddress, AddressFirst;
    if GetsMesh(users, broken, u) {
      MeshKeepsOneAddress(file, RoutesOf(routes, users[u].groupId), ip, len);
    }
  }

  lemma PushedKeepsOwn(users: Users, routes: Routes, broken: set<string>, u: string, before: seq<string>,
      after: seq<string>)
    requires RoutesOk(routes) && RoutesPushed(users, routes, broken, u, before, after)
    ensures OwnLines(after) == OwnLines(before)
  {
    hide OwnLines;
  }

  lemma MeshFileEnforces(users: Users, routes: Routes, broken: set<string>, u: string, file: seq<string>, off: bool)
    requires RoutesOk(routes) && Enforces(file, off)
    ensures Enforces(MeshFile(users, routes, broken, u, file), off)
  {
    hide MergeMesh, Enforces;
    if GetsMesh(users, broken, u) {
      MeshMergeEnforces(file, RoutesOf(routes, users[u].groupId), off);
    }
  }

  lemma NoNetworks()
    ensures forall p: Prefix :: p !in Networks(Tokens([]))
  {
    assert Tokens([]) == [];
  }

  class PeerService {
    const store: Store

    constructor (store: Store)
      ensures this.store == store
    {
      this.store := store;
    }

    /** Rewrite the mesh block of every active user that has a file; files in `broken` cannot be read
    or written, the others are done all the same. */
    method SyncAllMeshPushRoutesInCcd(routes: Routes, broken: set<string>) returns (ok: bool)
      requires RoutesOk(routes)
      modifies store`ccd
      ensures store.ccd.Keys == old(store.ccd).Keys
      ensures forall u :: u in store.ccd ==> store.ccd[u] == MeshFile(store.users, routes, broken, u, old(store.ccd)[u])
      ensures forall u :: u in store.ccd ==>
        RoutesPushed(store.users, routes, broken, u, old(store.ccd)[u], store.ccd[u])
      ensures ok <==>
        forall u :: u in broken && u in store.users && store.users[u].status.Active? ==> u !in old(store.ccd)
    {
      hide MergeMesh, RoutesPushed;
      ghost var files := store.ccd;
      var todo, failed: set<string> := store.users.Keys, {};
      while todo != {}
        invariant store.ccd.Keys == files.Keys && todo <= store.users.Keys
        invariant forall u :: u in files && u in todo ==> store.ccd[u] == files[u]
        invariant forall u ::
          u in files && u !in todo ==> store.ccd[u] == MeshFile(store.users, routes, broken, u, files[u])
        invariant forall u ::
          u in failed <==> u in store.users && u !in todo && u in broken && store.users[u].status.Active? && u in files
        decreases todo
      {
        var u :| u in todo;
        todo := todo - {u};
        if !store.users[u].status.Active? || u !in store.ccd {
          continue;
        }
        if u in broken {
          failed := failed + {u};
          continue;
        }
        var merged := MergeMeshPeerPushRoutesIntoCcd(store.ccd[u], RoutesOf(routes, store.users[u].groupId));
        store.ccd := store.ccd[u := merged.value];
      }
      ok := failed == {};
      forall u | u in files ensures RoutesPushed(store.users, routes, broken, u, files[u], store.ccd[u]) {
        MeshFileIsPushed(store.users, routes, broken, u, files[u]);
      }
    }

    method MergeCcd(username: string, peerId: string, cidrs: seq<AddrText>) returns (ok: bool)
      requires store.Consistent() && '#' !in peerId
      modifies store`ccd
      ensures store.Consistent()
      ensures ok <==> username in old(store.ccd) && AllIpv4(cidrs)
      ensures store.ccd ==
        if ok then old(store.ccd)[username := MergePeer(old(store.ccd)[username], peerId, cidrs)] else old(store.ccd)
    {
      hide MergePeer, AddressesOk, AddressFirst, WellMarked;
      if username !in store.ccd {
        return false;
      }
      var merged := MergePeerBlockIntoCcd(store.ccd[username], peerId, cidrs);
      if merged.None? {
        return false;
      }
      PeerFileEdited(store.groups, store.users, store.ccd, store.globalSubnet, username, peerId, cidrs);
      store.ccd := store.ccd[username := merged.value];
      return true;
    }

    method StripCcd(username: string, peerId: string)
      requires store.Consistent() && '#' !in peerId
      modifies store`ccd
      ensures store.Consistent()
      ensures store.ccd ==
        if username in old(store.ccd) then old(store.ccd)[username := MergePeer(old(store.ccd)[username], peerId, [])]
        else old(store.ccd)
    {
      hide MergePeer, AddressesOk, AddressFirst, WellMarked;
      if username !in store.ccd {
        return;
      }
      var stripped := MergePeerBlockIntoCcd(store.ccd[username], peerId, []);
      PeerFileEdited(store.groups, store.users, store.ccd, store.globalSubnet, username, peerId, []);
      store.ccd := store.ccd[username := stripped.value];
    }
  }

  lemma PeerMergeIsMarked(ls: seq<string>, id: string, c: seq<AddrText>)
    requires WellMarked(ls) && AllIpv4(c) && '#' !in id
    ensures WellMarked(MergePeer(ls, id, c))
  {
    hide MarkedLine, PeerMarkers, MeshMarkers, InsertBeforeMesh, IrouteBlock, MeshAt, Anchored;
    var base := WithoutBlocks(ls, PeerMarkers(id));
    BaseIsMarked(ls, id);
    if c != [] {
      MarkedIsAnchored(base);
      BlockNotEmpty(id, c);
      InsertAnchored(base, IrouteBlock(id, c));
      BlocksMarked(id, c, []);
    }
  }

  lemma MeshMergeIsMarked(ls: seq<string>, m: seq<AddrText>)
    requires WellMarked(ls) && AllIpv4(m)
    ensures WellMarked(MergeMesh(ls, m))
  {
    hide MarkedLine, MeshMarkers, Kept, TrimEnd, MeshBlock;
    KeptIsMarked(ls, MeshMarkers(), false);
    TrimKeepsMarked(Kept(ls, MeshMarkers(), false));
    BlocksMarked("", [], m);
  }

  lemma PeerFileEdited(groups: seq<Group>, users: Users, ccd: Files, global: Option<Token>, u: string,
      id: string, c: seq<AddrText>)
    requires AddressesOk(groups, users, ccd, global) && u in ccd && AllIpv4(c) && '#' !in id
    ensures AddressesOk(groups, users, ccd[u := MergePeer(ccd[u], id, c)], global)
  {
    hide MergePeer, AddressFirst, WellMarked, WellPlaced, CountsExact, DistinctGroups, VirtualIp;
    PeerMergeKeepsAddress(ccd[u], id, c);
    PeerMergeIsMarked(ccd[u], id, c);
    FilesEdited(groups, users, ccd, ccd[u := MergePeer(ccd[u], id, c)], global);
  }

  /** Synchronising mesh routes changes nobody's address; so it keeps the plan, and does not mend it. */
  lemma MeshSynced(groups: seq<Group>, users: Users, ccd: Files, ccd': Files, global: Option<Token>,
      routes: Routes, broken: set<string>)
    requires FilesOk(ccd) && RoutesOk(routes) && ccd'.Keys == ccd.Keys
    requires forall u :: u in ccd' ==> ccd'[u] == MeshFile(users, routes, broken, u, ccd[u])
    ensures FilesOk(ccd') && (AddressesOk(groups, users, ccd, global) <==> AddressesOk(groups, users, ccd', global))
    ensures forall u :: Address(ccd', u) == Address(ccd, u)
  {
    hide MergeMesh, AddressFirst, WellMarked, WellPlaced, CountsExact, DistinctGroups, VirtualIp;
    forall u | u in ccd
      ensures VirtualIp(ccd'[u]) == VirtualIp(ccd[u]) && AddressFirst(ccd'[u]) && WellMarked(ccd'[u])
    {
      if GetsMesh(users, broken, u) {
        MeshMergeKeepsAddress(ccd[u], RoutesOf(routes, users[u].groupId));
        MeshMergeIsMarked(ccd[u], RoutesOf(routes, users[u].groupId));
      }
    }
    FilesEdited(groups, users, ccd, ccd', global);
  }
}
