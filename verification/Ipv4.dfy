/** IPv4 addresses and prefixes as natural numbers (RFC 4632 section 3.1). A `Token` is an address with a
prefix length as an operator typed it; it may carry host bits (`192.168.1.7/24`). A `Prefix` is a token
whose host bits are zero. */
module Ipv4 {
  import opened Wrappers

  function Pow2(n: nat): (p: nat)
    ensures p >= 1
  {
    if n == 0 then 1 else 2 * Pow2(n - 1)
  }

  /** Size of the IPv4 address space. */
  const SPACE: nat := Pow2(32)

  // ------------------------------------------------------- bits of an address

  /** `x` with its k lowest bits cleared. */
  function Align(x: nat, k: nat): (a: nat)
    ensures a <= x < a + Pow2(k)
    decreases k
  {
    if k == 0 then x else 2 * Align(x / 2, k - 1)
  }

  /** `x >> k`. */
  function Shift(x: nat, k: nat): nat
    decreases k
  {
    if k == 0 then x else Shift(x / 2, k - 1)
  }

  lemma {:induction false} AlignTwice(x: nat, k: nat)
    ensures Align(Align(x, k), k) == Align(x, k)
    decreases k
  {
    if k > 0 {
      AlignTwice(x / 2, k - 1);
      assert 2 * Align(x / 2, k - 1) / 2 == Align(x / 2, k - 1);
    }
  }

  /** What is aligned to a large block is aligned to every smaller one. */
  lemma {:induction false} CoarserAligned(x: nat, fine: nat, coarse: nat)
    requires fine <= coarse && Align(x, coarse) == x
    ensures Align(x, fine) == x
    decreases fine
  {
    if fine > 0 {
      CoarserAligned(x / 2, fine - 1, coarse - 1);
    }
  }

  lemma {:induction false} NextBlockAligned(x: nat, k: nat)
    requires Align(x, k) == x
    ensures Align(x + Pow2(k), k) == x + Pow2(k)
    decreases k
  {
    if k > 0 {
      NextBlockAligned(x / 2, k - 1);
      assert (x + Pow2(k)) / 2 == x / 2 + Pow2(k - 1);
    }
  }

  /** Two block starts that differ are at least a block apart. */
  lemma {:induction false} BlocksApart(x: nat, y: nat, k: nat)
    requires Align(x, k) == x && Align(y, k) == y && x < y
    ensures x + Pow2(k) <= y
    decreases k
  {
    if k > 0 {
      BlocksApart(x / 2, y / 2, k - 1);
    }
  }

  lemma {:induction false} SameBlock(x: nat, y: nat, k: nat)
    ensures Shift(x, k) == Shift(y, k) <==> Align(x, k) == Align(y, k)
    ensures Align(y, k) <= x < Align(y, k) + Pow2(k) <==> Align(x, k) == Align(y, k)
    decreases k
  {
    if k > 0 {
      SameBlock(x / 2, y / 2, k - 1);
    }
  }

  lemma {:induction false} BlockInSpace(x: nat, k: nat, n: nat)
    requires k <= n && x < Pow2(n)
    ensures Align(x, k) + Pow2(k) <= Pow2(n)
    decreases k
  {
    if k > 0 {
      BlockInSpace(x / 2, k - 1, n - 1);
    } else {
      assert Align(x, k) == x;
    }
  }

  lemma {:induction false} Pow2Monotone(a: nat, b: nat)
    requires a < b
    ensures Pow2(a) < Pow2(b)
  {
    if a + 1 < b {
      Pow2Monotone(a, b - 1);
    }
  }

  // ---------------------------------------------------------------- meaning

  datatype Net = Net(addr: nat, len: nat)

  type Token = t: Net | t.len <= 32 && t.addr < SPACE witness Net(0, 0)

  predicate Aligned(t: Token) {
    Align(t.addr, 32 - t.len) == t.addr
  }

  type Prefix = t: Token | Aligned(t) witness Net(0, 32)

  function Size(len: nat): (s: nat)
    requires len <= 32
    ensures s >= 1
  {
    Pow2(32 - len)
  }

  function First(t: Token): (f: nat)
    ensures f <= t.addr
  {
    Align(t.addr, 32 - t.len)
  }

  function Last(t: Token): nat {
    First(t) + Size(t.len) - 1
  }

  predicate Covers(t: Token, ip: nat) {
    First(t) <= ip <= Last(t)
  }

  predicate Disjoint(a: Token, b: Token) {
    Last(a) < First(b) || Last(b) < First(a)
  }

  /** The network a token denotes, host bits dropped (`strict=False`). */
  function Normalize(t: Token): (p: Prefix)
    ensures p.len == t.len && p.addr == First(t) == First(p)
  {
    AlignTwice(t.addr, 32 - t.len);
    Net(First(t), t.len)
  }

  lemma NormalizeKeepsAddresses(t: Token, ip: nat)
    ensures Covers(Normalize(t), ip) <==> Covers(t, ip)
    ensures Normalize(Normalize(t)) == Normalize(t)
  {
  }

  // ------------------------------------------------- containment and overlap

  /** `child in parent` of two CIDR values: equal leading bits, and parent no longer than child. */
  predicate IsSubnetOf(child: Token, parent: Token) {
    parent.len <= child.len && Shift(child.addr, 32 - parent.len) == Shift(parent.addr, 32 - parent.len)
  }

  /** The two address ranges intersect. */
  predicate SubnetsOverlap(a: Token, b: Token) {
    First(a) <= Last(b) && First(b) <= Last(a)
  }

  lemma BlocksNestOrSeparate(x: nat, k: nat, y: nat, j: nat)
    requires j <= k && Align(x, k) == x && Align(y, j) == y
    ensures x <= y < y + Pow2(j) <= x + Pow2(k) || y + Pow2(j) <= x || x + Pow2(k) <= y
  {
    hide Align, Pow2;
    CoarserAligned(x, j, k);
    if y < x {
      BlocksApart(y, x, j);
    } else if y < x + Pow2(k) {
      NextBlockAligned(x, k);
      CoarserAligned(x + Pow2(k), j, k);
      BlocksApart(y, x + Pow2(k), j);
    }
  }

  /** Address blocks never straddle: whichever is longer lies wholly inside or wholly outside. */
  lemma NestedOrDisjoint(a: Token, b: Token)
    requires a.len <= b.len
    ensures (First(a) <= First(b) && Last(b) <= Last(a)) || Disjoint(a, b)
  {
    hide Align, Pow2;
    BlocksNestOrSeparate(Normalize(a).addr, 32 - a.len, Normalize(b).addr, 32 - b.len);
  }

  /** The bit test of `is_subnet_of` says exactly that every address of the child is the parent's. */
  lemma SubnetMeansContainment(c: Token, p: Token)
    ensures IsSubnetOf(c, p) <==> First(p) <= First(c) && Last(c) <= Last(p)
    ensures IsSubnetOf(c, p) <==> forall ip: nat :: Covers(c, ip) ==> Covers(p, ip)
  {
    hide Align, Shift, Pow2;
    assert Covers(c, First(c)) && Covers(c, Last(c));
    if p.len <= c.len {
      NestedOrDisjoint(p, c);
      SameBlock(c.addr, p.addr, 32 - p.len);
    } else {
      Pow2Monotone(32 - p.len, 32 - c.len);
    }
  }

  /** Overlap is a shared address, and it happens exactly when one block contains the other. */
  lemma OverlapMeansNested(a: Token, b: Token)
    ensures SubnetsOverlap(a, b) <==> exists ip: nat :: Covers(a, ip) && Covers(b, ip)
    ensures SubnetsOverlap(a, b) <==> IsSubnetOf(a, b) || IsSubnetOf(b, a)
    ensures SubnetsOverlap(a, b) <==> !Disjoint(a, b)
  {
    SubnetMeansContainment(a, b);
    SubnetMeansContainment(b, a);
    if a.len <= b.len {
      NestedOrDisjoint(a, b);
    } else {
      NestedOrDisjoint(b, a);
    }
    if SubnetsOverlap(a, b) {
      var ip := if First(a) <= First(b) then First(b) else First(a);
      assert Covers(a, ip) && Covers(b, ip);
    }
  }

  lemma SubnetTransitive(a: Token, b: Token, c: Token)
    requires IsSubnetOf(a, b) && IsSubnetOf(b, c)
    ensures IsSubnetOf(a, c)
  {
    SubnetMeansContainment(a, b);
    SubnetMeansContainment(b, c);
    SubnetMeansContainment(a, c);
  }

  /** The last address of a block is still an IPv4 address. */
  lemma LastInSpace(t: Token)
    ensures Last(t) < SPACE
  {
    hide Align, Pow2;
    BlockInSpace(t.addr, 32 - t.len, 32);
  }

  // --------------------------------------- canonical lists of networks

  predicate Less(a: Net, b: Net) {
    a.addr < b.addr || (a.addr == b.addr && a.len < b.len)
  }

  predicate StrictlySorted(s: seq<Prefix>) {
    forall i, j :: 0 <= i < j < |s| ==> Less(s[i], s[j])
  }

  function InsertNet(p: Prefix, s: seq<Prefix>): (r: seq<Prefix>)
  {
    if s == [] then [p]
    else if p == s[0] then s
    else if Less(p, s[0]) then [p] + s
    else [s[0]] + InsertNet(p, s[1..])
  }

  lemma {:induction false} InsertNetSorted(p: Prefix, s: seq<Prefix>)
    requires StrictlySorted(s)
    ensures StrictlySorted(InsertNet(p, s))
    ensures forall x :: x in InsertNet(p, s) <==> x == p || x in s
  {
    if s != [] && p != s[0] && !Less(p, s[0]) {
      var rest := s[1..];
      InsertNetSorted(p, rest);
      var r := InsertNet(p, rest);
      assert forall x :: x in r ==> Less(s[0], x) by {
        forall x | x in r ensures Less(s[0], x) {
          if x != p {
            assert x in rest;
          }
        }
      }
      assert InsertNet(p, s) == [s[0]] + r;
      assert s == [s[0]] + rest;
    }
  }

  /** Normalised, duplicate-free and ordered by (address, length). */
  function CanonicalNets(tokens: seq<Token>): (r: seq<Prefix>) {
    if tokens == [] then []
    else InsertNet(Normalize(tokens[|tokens| - 1]), CanonicalNets(tokens[..|tokens| - 1]))
  }

  /** The networks a list of texts denotes. */
  function Networks(tokens: seq<Token>): set<Prefix> {
    set t | t in tokens :: Normalize(t)
  }

  lemma {:induction false} CanonicalIsSorted(tokens: seq<Token>)
    ensures StrictlySorted(CanonicalNets(tokens))
    ensures forall p: Prefix :: p in CanonicalNets(tokens) <==> p in Networks(tokens)
  {
    if tokens != [] {
      var front, last := tokens[..|tokens| - 1], tokens[|tokens| - 1];
      CanonicalIsSorted(front);
      InsertNetSorted(Normalize(last), CanonicalNets(front));
      assert tokens == front + [last];
      assert Networks(tokens) == Networks(front) + {Normalize(last)};
    }
  }

  lemma {:induction false} SortedListsWithSameElements(a: seq<Prefix>, b: seq<Prefix>)
    requires StrictlySorted(a) && StrictlySorted(b)
    requires forall x :: x in a <==> x in b
    ensures a == b
  {
    assert |a| > 0 ==> a[0] in b;
    assert |b| > 0 ==> b[0] in a;
    if a != [] {
      assert a[0] == b[0];
      var ra, rb := a[1..], b[1..];
      forall x ensures x in ra <==> x in rb {
        if x in ra { assert x in a && x in b && x != b[0]; }
        if x in rb { assert x in b && x in a && x != a[0]; }
      }
      SortedListsWithSameElements(ra, rb);
      assert a == [a[0]] + ra && b == [b[0]] + rb;
    }
  }

  /** The canonical list depends only on which networks the texts denote: neither on their order,
  nor on repetition, nor on host bits. */
  lemma CanonicalDependsOnNetworksOnly(a: seq<Token>, b: seq<Token>)
    ensures Networks(a) == Networks(b) <==> CanonicalNets(a) == CanonicalNets(b)
  {
    CanonicalIsSorted(a);
    CanonicalIsSorted(b);
    if Networks(a) == Networks(b) {
      SortedListsWithSameElements(CanonicalNets(a), CanonicalNets(b));
    }
  }

  /** A canonical list covers the same addresses as the tokens it was made from. */
  lemma CanonicalCovers(tokens: seq<Token>, ip: nat)
    ensures (exists p :: p in CanonicalNets(tokens) && Covers(p, ip))
       <==> (exists t :: t in tokens && Covers(t, ip))
  {
    CanonicalIsSorted(tokens);
    if p :| p in CanonicalNets(tokens) && Covers(p, ip) {
      var t :| t in tokens && Normalize(t) == p;
      NormalizeKeepsAddresses(t, ip);
    }
    if t :| t in tokens && Covers(t, ip) {
      NormalizeKeepsAddresses(t, ip);
      assert Normalize(t) in CanonicalNets(tokens);
    }
  }

  // ----------------------------------------------- address fields as texts

  /** One comma-separated piece of an address field. Saving a rule accepts host names and negated
  addresses (`Hostname`) and refuses `Malformed` ones; the kernel side takes IPv4 only. */
  datatype AddrText = Blank | Ipv4Text(token: Token) | Hostname(text: string) | Malformed(text: string)

  predicate AllIpv4(xs: seq<AddrText>) {
    forall i :: 0 <= i < |xs| ==> xs[i].Blank? || xs[i].Ipv4Text?
  }

  function Tokens(xs: seq<AddrText>): (ts: seq<Token>)
    requires AllIpv4(xs)
  {
    if xs == [] then []
    else Tokens(xs[..|xs| - 1]) + (match xs[|xs| - 1] case Ipv4Text(t) => [t] case _ => [])
  }

  lemma {:induction false} TokensMembers(xs: seq<AddrText>)
    requires AllIpv4(xs)
    ensures forall t: Token :: t in Tokens(xs) <==> Ipv4Text(t) in xs
  {
    if xs != [] {
      TokensMembers(xs[..|xs| - 1]);
      assert xs == xs[..|xs| - 1] + [xs[|xs| - 1]];
    }
  }

  function NormalizeEntries(xs: seq<AddrText>): Option<seq<Prefix>> {
    if AllIpv4(xs) then Some(CanonicalNets(Tokens(xs))) else None
  }
}
