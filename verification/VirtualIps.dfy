/** Virtual addresses of VPN clients: which addresses of a group can be handed out, how many there
are, and the loop that picks the next one. */
module VirtualIps {
  import opened Wrappers
  import opened Ipv4
  import opened Text

  // ------------------------------------------------------------ dotted quads

  function Octets(ip: nat): seq<string> {
    [
      DecimalText(ip / 256 / 256 / 256),
      DecimalText(ip / 256 / 256 % 256),
      DecimalText(ip / 256 % 256),
      DecimalText(ip % 256)]
  }

  /** `str(IPv4Address(ip))` */
  function IpText(ip: nat): string {
    Join(Octets(ip), '.')
  }

  lemma IpTextInjective(a: nat, b: nat)
    requires IpText(a) == IpText(b)
    ensures a == b
  {
    var pa := Quad(a);
    var pb := Quad(b);
    assert Split(Join(pa, '.'), '.') == pa && Split(Join(pb, '.'), '.') == pb;
    assert forall k :: 0 <= k < 4 ==> pa[k] == pb[k];
    SameDecimal(a / 256 / 256 / 256, b / 256 / 256 / 256);
    SameDecimal(a / 256 / 256 % 256, b / 256 / 256 % 256);
    SameDecimal(a / 256 % 256, b / 256 % 256);
    SameDecimal(a % 256, b % 256);
  }

  lemma SameDecimal(a: nat, b: nat)
    requires DecimalText(a) == DecimalText(b)
    ensures a == b
  {
    DecimalOfText(a);
    DecimalOfText(b);
  }

  lemma Quad(ip: nat) returns (parts: seq<string>)
    ensures |parts| == 4 && IpText(ip) == Join(parts, '.') && Split(Join(parts, '.'), '.') == parts
    ensures parts == Octets(ip)
  {
    parts := Octets(ip);
    hide Join, Split, DecimalText;
    forall p | p in parts ensures '.' !in p {
      assert Digits(p);
    }
    SplitOfJoin(parts, '.');
  }

  /** An address prints as one word. */
  lemma IpTextIsWord(ip: nat)
    ensures IpText(ip) != "" && NoSpace(IpText(ip)) && '#' !in IpText(ip)
  {
    var a, b, c, d := Octets(ip)[0], Octets(ip)[1], Octets(ip)[2], Octets(ip)[3];
    hide DecimalText;
    assert Digits(a) && Digits(b) && Digits(c) && Digits(d);
    JoinFour(a, b, c, d);
  }

  lemma JoinFour(a: string, b: string, c: string, d: string)
    requires Digits(a) && Digits(b) && Digits(c) && Digits(d)
    ensures Join([a, b, c, d], '.') == a + "." + b + "." + c + "." + d
    ensures Join([a, b, c, d], '.') != "" && NoSpace(Join([a, b, c, d], '.')) && '#' !in Join([a, b, c, d], '.')
  {
    assert [a, b, c, d][1..] == [b, c, d] && [b, c, d][1..] == [c, d] && [c, d][1..] == [d];
    assert Join([c, d], '.') == c + "." + d;
    assert Join([b, c, d], '.') == b + "." + (c + "." + d);
    assert Join([a, b, c, d], '.') == a + "." + (b + "." + (c + "." + d));
  }

  // ------------------------------------------------------------------- hosts

  /** The addresses `hosts()` iterates over are one range: without the network and broadcast address
  up to /30, everything for /31 (RFC 3021 section 2.1) and /32. */
  function FirstHost(n: Prefix): nat {
    if n.len <= 30 then First(n) + 1 else First(n)
  }

  function EndHost(n: Prefix): nat {
    if n.len <= 30 then Last(n) else Last(n) + 1
  }

  predicate IsHost(n: Prefix, ip: nat) {
    FirstHost(n) <= ip < EndHost(n)
  }

  /** The tunnel address of the OpenVPN server: the second address of the pool, if there is one. */
  function ServerAddress(pool: Token): Option<nat> {
    if First(pool) + 1 < SPACE then Some(First(pool) + 1) else None
  }

  /** In a pool with more than two addresses the server has the first host, so no client is before it. */
  lemma ServerIsFirst(pool: Token)
    requires pool.len <= 30
    ensures ServerAddress(pool).Some?
    ensures var ip := ServerAddress(pool).value;
      IsHost(Normalize(pool), ip) && forall h: nat :: IsHost(Normalize(pool), h) ==> ip <= h
  {
    hide Align;
    LastInSpace(pool);
    NormalizeKeepsAddresses(pool, 0);
    assert Pow2(2) == 4;
    if pool.len < 30 {
      Pow2Monotone(2, 32 - pool.len);
    }
  }

  predicate Allocatable(n: Prefix, pool: Token, used: set<string>, ip: nat) {
    IsHost(n, ip) && ServerAddress(pool) != Some(ip) && IpText(ip) !in used
  }

  ghost function Free(n: Prefix, pool: Token, used: set<string>): set<nat> {
    set ip: nat | FirstHost(n) <= ip < EndHost(n) && Allocatable(n, pool, used, ip)
  }

  /** The outcome of an allocation: the least free host; nothing when the pool has no server address,
  the group lies outside the pool, or every host is taken. */
  ghost predicate IsNext(n: Prefix, pool: Token, used: set<string>, r: Option<nat>) {
    match r
    case Some(ip) =>
      && ServerAddress(pool).Some? && IsSubnetOf(n, pool)
      && Allocatable(n, pool, used, ip) && forall k: nat :: k < ip ==> !Allocatable(n, pool, used, k)
    case None =>
      ServerAddress(pool).None? || !IsSubnetOf(n, pool) || Free(n, pool, used) == {}
  }

  method AllocateVirtualIp(n: Prefix, pool: Token, used: set<string>) returns (r: Option<nat>)
    ensures IsNext(n, pool, used, r)
  {
    hide IpText, IsSubnetOf, First, Size;
    if !IsSubnetOf(n, pool) {
      return None;
    }
    var server := ServerAddress(pool);
    if server.None? {
      return None;
    }
    var host := FirstHost(n);
    while host < EndHost(n)
      invariant FirstHost(n) <= host
      invariant forall k: nat :: k < host ==> !Allocatable(n, pool, used, k)
    {
      if host != server.value && IpText(host) !in used {
        return Some(host);
      }
      host := host + 1;
    }
    return None;
  }

  // ---------------------------------------------------------------- capacity

  /** `assignable_client_ip_count` */
  function AssignableClientIpCount(n: Prefix, pool: Token): Option<nat> {
    var hostCount := if n.len <= 30 then (if Size(n.len) >= 2 then Size(n.len) - 2 else 0) else Size(n.len);
    match ServerAddress(pool)
    case None => None
    case Some(server) =>
      var usable := Covers(n, server) && (n.len >= 31 || (server != First(n) && server != Last(n)));
      Some(if usable && hostCount > 0 then hostCount - 1 else if usable then 0 else hostCount)
  }

  predicate Within(ip: nat, lo: nat, hi: nat) {
    lo <= ip < hi
  }

  ghost function Range(lo: nat, hi: nat): set<nat> {
    set ip: nat | lo <= ip < hi && Within(ip, lo, hi)
  }

  lemma {:induction false} RangeSize(lo: nat, hi: nat)
    requires lo <= hi
    ensures |Range(lo, hi)| == hi - lo
    decreases hi - lo
  {
    if lo < hi {
      RangeSize(lo, hi - 1);
      assert Range(lo, hi) == Range(lo, hi - 1) + {hi - 1};
    } else {
      assert Range(lo, hi) == {};
    }
  }

  lemma {:induction false} SizeOfShort(len: nat)
    requires len <= 32
    ensures len <= 30 ==> Size(len) >= 4
    ensures len == 31 ==> Size(len) == 2
    ensures len == 32 ==> Size(len) == 1
  {
    assert Pow2(2) == 4 && Pow2(1) == 2;
    if len < 30 {
      Pow2Monotone(2, 32 - len);
    }
  }

  lemma NoneUsed(n: Prefix, pool: Token)
    ensures Free(n, pool, {}) ==
      Range(FirstHost(n), EndHost(n)) - (if ServerAddress(pool).Some? then {ServerAddress(pool).value} else {})
  {
    hide First, Size, IpText;
  }

  /** The displayed capacity is the number of hosts other than the server, for every prefix length. */
  lemma CapacityCountsHosts(n: Prefix, pool: Token)
    ensures AssignableClientIpCount(n, pool) ==
      if ServerAddress(pool).None? then None else Some(|Free(n, pool, {})|)
  {
    hide First, Size, IpText, Free;
    SizeOfShort(n.len);
    NoneUsed(n, pool);
    RangeSize(FirstHost(n), EndHost(n));
  }

  /** The loop returns the address for some set of addresses in use. */
  ghost predicate CanHandOut(n: Prefix, pool: Token, ip: nat) {
    exists used :: IsNext(n, pool, used, Some(ip))
  }

  ghost function Obtainable(n: Prefix, pool: Token): set<nat> {
    set ip: nat | FirstHost(n) <= ip < EndHost(n) && CanHandOut(n, pool, ip)
  }

  ghost function Below(ip: nat): set<string> {
    set k: nat | 0 <= k < ip :: IpText(k)
  }

  lemma FreeCanBeHandedOut(n: Prefix, pool: Token, ip: nat)
    requires IsSubnetOf(n, pool) && ServerAddress(pool).Some? && ip in Free(n, pool, {})
    ensures CanHandOut(n, pool, ip)
  {
    hide First, Size, IpText, IsSubnetOf;
    forall k: nat | k < ip ensures IpText(k) != IpText(ip) {
      if IpText(k) == IpText(ip) { IpTextInjective(k, ip); }
    }
    assert IsNext(n, pool, Below(ip), Some(ip));
  }

  lemma ObtainableIs(n: Prefix, pool: Token)
    ensures Obtainable(n, pool) ==
      if IsSubnetOf(n, pool) && ServerAddress(pool).Some? then Free(n, pool, {}) else {}
  {
    hide First, Size, IpText, IsSubnetOf, CanHandOut;
    forall ip: nat | CanHandOut(n, pool, ip)
      ensures IsSubnetOf(n, pool) && ServerAddress(pool).Some? && ip in Free(n, pool, {})
    {
      HandedOutIsFree(n, pool, ip);
    }
    if IsSubnetOf(n, pool) && ServerAddress(pool).Some? {
      forall ip | ip in Free(n, pool, {}) ensures CanHandOut(n, pool, ip) {
        FreeCanBeHandedOut(n, pool, ip);
      }
    }
  }

  lemma HandedOutIsFree(n: Prefix, pool: Token, ip: nat)
    requires CanHandOut(n, pool, ip)
    ensures IsSubnetOf(n, pool) && ServerAddress(pool).Some? && ip in Free(n, pool, {})
  {
    hide First, Size, IpText, IsSubnetOf;
    var used :| IsNext(n, pool, used, Some(ip));
  }

  /** Only a group of one address that is the server's has no capacity. */
  lemma ShownAsZero(n: Prefix, pool: Token)
    requires AssignableClientIpCount(n, pool).Some?
    ensures AssignableClientIpCount(n, pool).value == 0 <==> n.len == 32 && ServerAddress(pool) == Some(First(n))
  {
    hide First, Size;
    SizeOfShort(n.len);
  }

  /** The displayed capacity is the number of addresses that the loop can ever return, for every prefix
  length, exactly when the group lies inside the pool, or is the server's address alone. */
  lemma CapacityIsExactlyWhen(n: Prefix, pool: Token)
    requires ServerAddress(pool).Some?
    ensures AssignableClientIpCount(n, pool) == Some(|Obtainable(n, pool)|) <==>
      IsSubnetOf(n, pool) || (n.len == 32 && ServerAddress(pool) == Some(First(n)))
  {
    hide Obtainable, Free, IsSubnetOf, First, Size, Covers;
    CapacityCountsHosts(n, pool);
    ObtainableIs(n, pool);
    ShownAsZero(n, pool);
  }

  /** A group of one address outside the pool: the capacity is shown as one, and nothing is handed out. */
  lemma CapacityOutsideThePool()
    ensures var n, pool := Net(0, 32), Net(1, 32);
      AssignableClientIpCount(n, pool) == Some(1) && !IsSubnetOf(n, pool) && Obtainable(n, pool) == {}
  {
    assert Pow2(2) == 4;
    Pow2Monotone(2, 32);
    ObtainableIs(Net(0, 32), Net(1, 32));
  }

  // ------------------------------------------------------- a run of allocations

  function Texts(ips: seq<nat>): set<string> {
    set i | 0 <= i < |ips| :: IpText(ips[i])
  }

  /** Every address was handed out by the loop while the earlier ones were in use. */
  ghost predicate IsRun(n: Prefix, pool: Token, ips: seq<nat>) {
    forall i :: 0 <= i < |ips| ==> IsNext(n, pool, Texts(ips[..i]), Some(ips[i]))
  }

  lemma {:induction false} FreeAfterRun(n: Prefix, pool: Token, ips: seq<nat>)
    requires IsRun(n, pool, ips)
    ensures |Free(n, pool, Texts(ips))| + |ips| == |Free(n, pool, {})|
  {
    hide First, Size, IpText, IsHost, FirstHost, EndHost, IsSubnetOf;
    if ips == [] {
      assert Texts(ips) == {};
    } else {
      var k := |ips| - 1;
      forall i | 0 <= i < k ensures IsNext(n, pool, Texts(ips[..k][..i]), Some(ips[..k][i])) {
        assert ips[..k][..i] == ips[..i];
      }
      FreeAfterRun(n, pool, ips[..k]);
      OneLess(n, pool, Texts(ips[..k]), ips[k]);
      assert Texts(ips) == Texts(ips[..k]) + {IpText(ips[k])} by {
        assert ips == ips[..k] + [ips[k]];
      }
    }
  }

  lemma FreeAre(n: Prefix, pool: Token, used: set<string>, k: nat)
    ensures k in Free(n, pool, used) <==> Allocatable(n, pool, used, k)
  {
    hide First, Size, IpText, ServerAddress;
  }

  lemma OneLess(n: Prefix, pool: Token, used: set<string>, ip: nat)
    requires IsNext(n, pool, used, Some(ip))
    ensures |Free(n, pool, used + {IpText(ip)})| + 1 == |Free(n, pool, used)|
  {
    var before, after := Free(n, pool, used), Free(n, pool, used + {IpText(ip)});
    hide IsHost, IpText, IsSubnetOf, ServerAddress, Free;
    forall k: nat ensures k in before <==> k in after || k == ip {
      FreeAre(n, pool, used, k);
      FreeAre(n, pool, used + {IpText(ip)}, k);
      if IpText(k) == IpText(ip) { IpTextInjective(k, ip); }
    }
    FreeAre(n, pool, used + {IpText(ip)}, ip);
    assert ip !in after && before == after + {ip};
  }

  /** From an empty directory, exactly as many allocations succeed as the capacity says: no run is
  longer, and a run fails to go on only when it is that long. */
  lemma RunsFillTheCapacity(n: Prefix, pool: Token, ips: seq<nat>, next: Option<nat>)
    requires IsSubnetOf(n, pool) && ServerAddress(pool).Some?
    requires IsRun(n, pool, ips) && IsNext(n, pool, Texts(ips), next)
    ensures |ips| <= AssignableClientIpCount(n, pool).value
    ensures next.None? <==> |ips| == AssignableClientIpCount(n, pool).value
  {
    hide First, Size, IpText, Free, AssignableClientIpCount, IsRun, IsSubnetOf, Allocatable;
    CapacityCountsHosts(n, pool);
    FreeAfterRun(n, pool, ips);
    if next.Some? {
      NextIsFree(n, pool, Texts(ips), next.value);
    }
  }

  lemma NextIsFree(n: Prefix, pool: Token, used: set<string>, ip: nat)
    requires IsNext(n, pool, used, Some(ip))
    ensures ip in Free(n, pool, used)
  {
    hide First, Size, IpText, IsSubnetOf;
  }
}
