/** Firewall tags: a tag is not a snapshot of addresses; its members are resolved at every refresh. */
module Tags {
  import opened Wrappers
  import opened Ipv4

  datatype TagMembers = TagMembers(usernames: seq<string>, groupIds: seq<string>)

  datatype GroupInfo = GroupInfo(active: bool, subnet: Option<Token>)

  datatype UserInfo = UserInfo(groupId: string, active: bool)

  /** The rows that tag resolution reads; `vips` is what the CCD files say. */
  datatype Directory = Directory(
    tags: map<string, TagMembers>,
    groups: map<string, GroupInfo>,
    users: map<string, UserInfo>,
    vips: map<string, Token>)

  predicate ActiveGroup(dir: Directory, gid: string) {
    gid in dir.groups && dir.groups[gid].active
  }

  /** An active user that is a member itself or through an active member group. */
  predicate TagUser(dir: Directory, m: TagMembers, u: string) {
    && u in dir.users && dir.users[u].active
    && var g := dir.users[u].groupId;
      u in m.usernames || (g in m.groupIds && g in dir.groups && dir.groups[g].active)
  }

  /** Who is behind a tag, address by address. */
  predicate TagCovers(dir: Directory, m: TagMembers, ip: nat) {
    || (exists g ::
        && g in m.groupIds && g in dir.groups && dir.groups[g].active
        && dir.groups[g].subnet.Some? && Covers(dir.groups[g].subnet.value, ip))
    || (exists u :: u in dir.vips && TagUser(dir, m, u) && Covers(dir.vips[u], ip))
  }

  function GroupTokens(dir: Directory, gids: seq<string>): seq<Token> {
    if gids == [] then []
    else
      var g := gids[|gids| - 1];
      GroupTokens(dir, gids[..|gids| - 1]) +
        (if ActiveGroup(dir, g) && dir.groups[g].subnet.Some? then [dir.groups[g].subnet.value] else [])
  }

  function MemberNetworks(dir: Directory, m: TagMembers): set<Prefix> {
    Networks(GroupTokens(dir, m.groupIds)) + (set u | u in dir.vips && TagUser(dir, m, u) :: Normalize(dir.vips[u]))
  }

  /** The subnets of the tag's active groups, and the users to look up: the tag's own and those of
  its active groups. */
  method CollectGroups(dir: Directory, members: TagMembers) returns (addresses: seq<Token>, usernames: set<string>)
    ensures addresses == GroupTokens(dir, members.groupIds)
    ensures forall u :: u in usernames <==> u in members.usernames || ViaGroups(dir, members.groupIds, u)
  {
    usernames := set u | u in members.usernames;
    addresses := [];
    var gids := members.groupIds;
    for i := 0 to |gids|
      invariant addresses == GroupTokens(dir, gids[..i])
      invariant forall u :: u in usernames <==> u in members.usernames || ViaGroups(dir, gids[..i], u)
    {
      assert gids[..i + 1][..i] == gids[..i] && gids[..i + 1] == gids[..i] + [gids[i]];
      if !ActiveGroup(dir, gids[i]) {
        continue;
      }
      if dir.groups[gids[i]].subnet.Some? {
        addresses := addresses + [dir.groups[gids[i]].subnet.value];
      }
      usernames := usernames + (set u | u in dir.users && dir.users[u].active && dir.users[u].groupId == gids[i]);
    }
    assert gids[..|gids|] == gids;
  }

  function VipNetworks(dir: Directory, usernames: set<string>): set<Prefix> {
    set u | u in usernames && u in dir.users && dir.users[u].active && u in dir.vips :: Normalize(dir.vips[u])
  }

  method CollectVips(dir: Directory, usernames: set<string>) returns (addresses: seq<Token>)
    ensures Networks(addresses) == VipNetworks(dir, usernames)
  {
    addresses := [];
    var left := usernames;
    while left != {}
      invariant left <= usernames
      invariant Networks(addresses) == VipNetworks(dir, usernames - left)
      decreases left
    {
      var u :| u in left;
      assert usernames - (left - {u}) == usernames - left + {u};
      if u in dir.users && dir.users[u].active && u in dir.vips {
        NetworksAppend(addresses, [dir.vips[u]]);
        addresses := addresses + [dir.vips[u]];
      }
      left := left - {u};
    }
    assert usernames - {} == usernames;
  }

  lemma NetworksAppend(a: seq<Token>, b: seq<Token>)
    ensures Networks(a + b) == Networks(a) + Networks(b)
  {
  }

  /** `resolve_addresses`: an unknown tag is an error; otherwise the canonical list of networks. */
  method ResolveAddresses(dir: Directory, tagId: string) returns (r: Option<seq<Prefix>>)
    ensures r == if tagId in dir.tags then Some(ResolvedTag(dir, tagId)) else None
  {
    hide CanonicalNets, GroupTokens;
    if tagId !in dir.tags {
      return None;
    }
    var subnets, usernames := CollectGroups(dir, dir.tags[tagId]);
    var vips := CollectVips(dir, usernames);
    NetworksAppend(subnets, vips);
    CanonicalIsSorted(subnets + vips);
    assert VipNetworks(dir, usernames) ==
      set u | u in dir.vips && TagUser(dir, dir.tags[tagId], u) :: Normalize(dir.vips[u]);
    SortedListsWithSameElements(CanonicalNets(subnets + vips), ResolvedTag(dir, tagId));
    r := Some(CanonicalNets(subnets + vips));
  }

  predicate ViaGroups(dir: Directory, gids: seq<string>, u: string) {
    u in dir.users && dir.users[u].active && dir.users[u].groupId in gids && ActiveGroup(dir, dir.users[u].groupId)
  }

  lemma {:induction false} GroupTokensMembers(dir: Directory, gids: seq<string>, t: Token)
    ensures t in GroupTokens(dir, gids) <==>
      exists g :: g in gids && ActiveGroup(dir, g) && dir.groups[g].subnet == Some(t)
  {
    if gids != [] {
      var front, g := gids[..|gids| - 1], gids[|gids| - 1];
      assert gids == front + [g];
      GroupTokensMembers(dir, front, t);
    }
  }

  ghost function ResolvedTag(dir: Directory, tagId: string): seq<Prefix>
    requires tagId in dir.tags
    ensures StrictlySorted(ResolvedTag(dir, tagId))
    ensures forall p: Prefix :: p in ResolvedTag(dir, tagId) <==> p in MemberNetworks(dir, dir.tags[tagId])
  {
    SortableSet(MemberNetworks(dir, dir.tags[tagId]));
    var s :| StrictlySorted(s) && forall p: Prefix :: p in s <==> p in MemberNetworks(dir, dir.tags[tagId]);
    s
  }

  lemma {:induction false} SortableSet(nets: set<Prefix>)
    ensures exists s :: StrictlySorted(s) && forall p: Prefix :: p in s <==> p in nets
  {
    if nets == {} {
      assert StrictlySorted([]);
    } else {
      var p :| p in nets;
      SortableSet(nets - {p});
      var s :| StrictlySorted(s) && forall q: Prefix :: q in s <==> q in nets - {p};
      InsertNetSorted(p, s);
    }
  }

  /** A resolved tag covers exactly the addresses of its active members. */
  lemma ResolvedTagCovers(dir: Directory, tagId: string, ip: nat)
    requires tagId in dir.tags
    ensures (exists p :: p in ResolvedTag(dir, tagId) && Covers(p, ip)) <==> TagCovers(dir, dir.tags[tagId], ip)
  {
    var m := dir.tags[tagId];
    var ts := GroupTokens(dir, m.groupIds);
    if p :| p in ResolvedTag(dir, tagId) && Covers(p, ip) {
      if p in Networks(ts) {
        var t :| t in ts && Normalize(t) == p;
        NormalizeKeepsAddresses(t, ip);
        GroupTokensMembers(dir, m.groupIds, t);
      } else {
        var u :| u in dir.vips && TagUser(dir, m, u) && Normalize(dir.vips[u]) == p;
        NormalizeKeepsAddresses(dir.vips[u], ip);
      }
    }
    if g :|
      && g in m.groupIds && g in dir.groups && dir.groups[g].active && dir.groups[g].subnet.Some?
      && Covers(dir.groups[g].subnet.value, ip)
    {
      var t := dir.groups[g].subnet.value;
      GroupTokensMembers(dir, m.groupIds, t);
      NormalizeKeepsAddresses(t, ip);
      assert Normalize(t) in ResolvedTag(dir, tagId);
    }
    if u :| u in dir.vips && TagUser(dir, m, u) && Covers(dir.vips[u], ip) {
      NormalizeKeepsAddresses(dir.vips[u], ip);
      assert Normalize(dir.vips[u]) in ResolvedTag(dir, tagId);
    }
  }
}
