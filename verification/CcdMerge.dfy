/** The two block editors of a CCD file, and how they get along. Both skip blank texts and IPv6 networks alike:
a `Blank` here is either. */
module CcdMerge {
  import opened Wrappers
  import opened Ipv4
  import opened Text
  import opened CcdBlocks

  // ----------------------------------------------------------- specification

  /** The file without the site's block, trimmed. */
  function WithoutBlocks(ls: seq<string>, mk: Markers): seq<string> {
    TrimEnd(Kept(ls, mk, false))
  }

  /** First line on which the text of the mesh begin marker ends, or the number of lines. */
  function MeshAt(ls: seq<string>): (k: nat)
    ensures k <= |ls|
    ensures k < |ls| ==> EndsWith(ls[k], MeshMarkers().begin)
    ensures forall j :: 0 <= j < k ==> !EndsWith(ls[j], MeshMarkers().begin)
  {
    if ls == [] || EndsWith(ls[0], MeshMarkers().begin) then 0 else 1 + MeshAt(ls[1..])
  }

  /** Insert a block where the text of the mesh begin marker first occurs, at the end otherwise. The
  text before the marker on its line, if any, ends up in front of the block. */
  function InsertBeforeMesh(base: seq<string>, block: seq<string>): seq<string>
    requires block != []
  {
    var k := MeshAt(base);
    if k == |base| then base + block
    else
      var m := MeshMarkers().begin;
      base[..k] + [base[k][..|base[k]| - |m|] + block[0]] + block[1..] + [m] + base[k + 1..]
  }

  /** `merge_peer_block_into_ccd` */
  function MergePeer(ls: seq<string>, id: string, cidrs: seq<AddrText>): seq<string>
    requires AllIpv4(cidrs)
  {
    var base := WithoutBlocks(ls, PeerMarkers(id));
    if cidrs == [] then base else InsertBeforeMesh(base, IrouteBlock(id, cidrs))
  }

  /** `merge_mesh_peer_push_routes_into_ccd` */
  function MergeMesh(ls: seq<string>, cidrs: seq<AddrText>): seq<string>
    requires AllIpv4(cidrs)
  {
    WithoutBlocks(ls, MeshMarkers()) + MeshBlock(cidrs)
  }

  // ------------------------------------------------------------- the editors

  method DropBlocks(ls: seq<string>, mk: Markers) returns (out: seq<string>)
    ensures out == Kept(ls, mk, false)
  {
    out := [];
    var skip := false;
    for i := 0 to |ls|
      invariant out == Kept(ls[..i], mk, false) && skip == SkipAfter(ls[..i], mk, false)
    {
      assert ls[..i + 1] == ls[..i] + [ls[i]];
      KeptConcat(ls[..i], [ls[i]], mk, false);
      assert [ls[i]][1..] == [];
      if mk.begin <= ls[i] {
        skip := true;
        continue;
      }
      if mk.end <= ls[i] {
        skip := false;
        continue;
      }
      if !skip {
        out := out + [ls[i]];
      }
    }
    assert ls[..|ls|] == ls;
  }

  method BuildIrouteBlock(id: string, cidrs: seq<AddrText>) returns (r: Option<seq<string>>)
    ensures r.Some? <==> AllIpv4(cidrs)
    ensures r.Some? ==> r.value == IrouteBlock(id, cidrs)
  {
    hide IrouteLine, PeerMarkers, IrouteLines, Tokens, Normalize;
    assert IrouteLines(Tokens(cidrs[..0])) == [] by { NoRoutes(); }
    var lines := [PeerMarkers(id).begin];
    for i := 0 to |cidrs|
      invariant AllIpv4(cidrs[..i])
      invariant lines == [PeerMarkers(id).begin] + IrouteLines(Tokens(cidrs[..i]))
    {
      assert cidrs[..i + 1][..i] == cidrs[..i];
      match cidrs[i] {
        case Blank =>
          assert AllIpv4(cidrs[..i + 1]);
          BlankStep(cidrs, i);
        case Ipv4Text(t) =>
          assert AllIpv4(cidrs[..i + 1]);
          IrouteStep(cidrs, i);
          lines := lines + [IrouteLine(Normalize(t))];
        case _ => return None;
      }
    }
    assert cidrs[..|cidrs|] == cidrs;
    r := Some(lines + [PeerMarkers(id).end]);
  }

  lemma NoRoutes()
    ensures Tokens([]) == [] && IrouteLines([]) == []
  {
  }

  lemma BlankStep(cidrs: seq<AddrText>, i: nat)
    requires i < |cidrs| && AllIpv4(cidrs[..i + 1]) && cidrs[i].Blank?
    ensures AllIpv4(cidrs[..i]) && Tokens(cidrs[..i + 1]) == Tokens(cidrs[..i])
  {
    assert cidrs[..i + 1][..i] == cidrs[..i];
  }

  lemma IrouteStep(cidrs: seq<AddrText>, i: nat)
    requires i < |cidrs| && AllIpv4(cidrs[..i + 1]) && cidrs[i].Ipv4Text?
    ensures AllIpv4(cidrs[..i])
    ensures IrouteLines(Tokens(cidrs[..i + 1])) ==
      IrouteLines(Tokens(cidrs[..i])) + [IrouteLine(Normalize(cidrs[i].token))]
  {
    hide IrouteLine, Normalize;
    assert cidrs[..i + 1][..i] == cidrs[..i];
    var ts, t := Tokens(cidrs[..i]), cidrs[i].token;
    assert Tokens(cidrs[..i + 1]) == ts + [t];
    assert (ts + [t])[..|ts|] == ts;
  }

  /** `sorted_unique_ipv4_cidrs`: networks seen once each, then sorted. */
  method SortedUniqueIpv4Cidrs(cidrs: seq<AddrText>) returns (r: Option<seq<Prefix>>)
    ensures r == NormalizeEntries(cidrs)
  {
    var keys: seq<Prefix> := [];
    var seen: set<Prefix> := {};
    for i := 0 to |cidrs|
      invariant AllIpv4(cidrs[..i])
      invariant forall p: Prefix :: p in keys <==> p in seen
      invariant seen == Networks(Tokens(cidrs[..i]))
    {
      assert cidrs[..i + 1][..i] == cidrs[..i];
      match cidrs[i] {
        case Blank => assert AllIpv4(cidrs[..i + 1]);
        case Ipv4Text(t) =>
          assert AllIpv4(cidrs[..i + 1]);
          NetworksStep(cidrs, i);
          var canon := Normalize(t);
          if canon !in seen {
            seen := seen + {canon};
            keys := keys + [canon];
          }
        case _ => return None;
      }
    }
    assert cidrs[..|cidrs|] == cidrs;
    r := Some(SortNets(keys));
    SortNetsIs(keys);
    CanonicalIsSorted(Tokens(cidrs));
    SortedListsWithSameElements(SortNets(keys), CanonicalNets(Tokens(cidrs)));
  }

  lemma NetworksStep(cidrs: seq<AddrText>, i: nat)
    requires i < |cidrs| && AllIpv4(cidrs[..i + 1]) && cidrs[i].Ipv4Text?
    ensures AllIpv4(cidrs[..i])
    ensures Networks(Tokens(cidrs[..i + 1])) == Networks(Tokens(cidrs[..i])) + {Normalize(cidrs[i].token)}
  {
    assert cidrs[..i + 1][..i] == cidrs[..i];
    var ts, t := Tokens(cidrs[..i]), cidrs[i].token;
    assert Tokens(cidrs[..i + 1]) == ts + [t];
    forall p: Prefix ensures p in Networks(ts + [t]) <==> p in Networks(ts) + {Normalize(t)} {
    }
  }

  /** `keys.sort(key=ip_network)` */
  function SortNets(keys: seq<Prefix>): seq<Prefix> {
    if keys == [] then [] else InsertNet(keys[|keys| - 1], SortNets(keys[..|keys| - 1]))
  }

  lemma {:induction false} SortNetsIs(keys: seq<Prefix>)
    ensures StrictlySorted(SortNets(keys))
    ensures forall p: Prefix :: p in SortNets(keys) <==> p in keys
  {
    if keys != [] {
      SortNetsIs(keys[..|keys| - 1]);
      InsertNetSorted(keys[|keys| - 1], SortNets(keys[..|keys| - 1]));
      assert keys == keys[..|keys| - 1] + [keys[|keys| - 1]];
    }
  }

  method BuildMeshBlock(cidrs: seq<AddrText>) returns (r: Option<seq<string>>)
    ensures r.Some? <==> AllIpv4(cidrs)
    ensures r.Some? ==> r.value == MeshBlock(cidrs)
  {
    hide PushLine, MeshMarkers, CanonicalNets;
    var nets := SortedUniqueIpv4Cidrs(cidrs);
    if nets.None? {
      return None;
    }
    if nets.value == [] {
      return Some([]);
    }
    var lines := [MeshMarkers().begin];
    for i := 0 to |nets.value|
      invariant lines == [MeshMarkers().begin] + PushLines(nets.value[..i])
    {
      assert nets.value[..i + 1][..i] == nets.value[..i];
      lines := lines + [PushLine(nets.value[i])];
    }
    assert nets.value[..|nets.value|] == nets.value;
    r := Some(lines + [MeshMarkers().end]);
  }

  method MergePeerBlockIntoCcd(ls: seq<string>, id: string, cidrs: seq<AddrText>) returns (r: Option<seq<string>>)
    ensures r.Some? <==> AllIpv4(cidrs)
    ensures r.Some? ==> r.value == MergePeer(ls, id, cidrs)
  {
    hide Kept, TrimEnd, InsertBeforeMesh, PeerMarkers;
    var out := DropBlocks(ls, PeerMarkers(id));
    var base := TrimEnd(out);
    if cidrs == [] {
      return Some(base);
    }
    var block := BuildIrouteBlock(id, cidrs);
    if block.None? {
      return None;
    }
    return Some(InsertBeforeMesh(base, block.value));
  }

  method MergeMeshPeerPushRoutesIntoCcd(ls: seq<string>, cidrs: seq<AddrText>) returns (r: Option<seq<string>>)
    ensures r.Some? <==> AllIpv4(cidrs)
    ensures r.Some? ==> r.value == MergeMesh(ls, cidrs)
  {
    hide Kept, TrimEnd, MeshBlock;
    var out := DropBlocks(ls, MeshMarkers());
    var block := BuildMeshBlock(cidrs);
    if block.None? {
      return None;
    }
    return Some(TrimEnd(out) + block.value);
  }

  // ------------------------------------------------------ mesh: last write wins

  lemma MeshBlockKept(cidrs: seq<AddrText>, id: string)
    requires AllIpv4(cidrs)
    ensures Kept(MeshBlock(cidrs), MeshMarkers(), false) == []
    ensures AllApart(PeerMarkers(id), MeshBlock(cidrs))
    ensures MeshBlock(cidrs) != [] ==> forall ls :: Trimmed(ls + MeshBlock(cidrs))
  {
    hide Apart, PushLines, MeshMarkers, PeerMarkers, CanonicalNets;
    var ps := CanonicalNets(Tokens(cidrs));
    PushLinesApart(ps, id);
    MarkerShapes(id);
    if ps != [] {
      KeptOfBlock(PushLines(ps), MeshMarkers(), false);
      forall ls ensures Trimmed(ls + MeshBlock(cidrs)) {
        MarkersAreSolid(id);
        SolidEnd(ls + ([MeshMarkers().begin] + PushLines(ps)), MeshMarkers());
        assert ls + MeshBlock(cidrs) == ls + ([MeshMarkers().begin] + PushLines(ps)) + [MeshMarkers().end];
      }
    }
  }

  lemma SolidEnd(ls: seq<string>, mk: Markers)
    requires mk.end != "" && !IsSpace(mk.end[|mk.end| - 1])
    ensures Trimmed(ls + [mk.end])
  {
    LastIsSolid(ls, mk.end);
  }

  /** What is left of a file without blocks has none, and is left alone a second time. */
  lemma WithoutBlocksTwice(ls: seq<string>, mk: Markers)
    ensures AllApart(mk, WithoutBlocks(ls, mk)) && Trimmed(WithoutBlocks(ls, mk))
    ensures Kept(WithoutBlocks(ls, mk), mk, false) == WithoutBlocks(ls, mk)
    ensures !SkipAfter(WithoutBlocks(ls, mk), mk, false)
  {
    hide Kept, TrimEnd, AllApart, SkipAfter;
    KeptIsApart(ls, mk, false);
    TrimEndKeepsApart(Kept(ls, mk, false), mk);
    TrimEndTwice(Kept(ls, mk, false));
    KeptOfApart(WithoutBlocks(ls, mk), mk, false);
  }

  /** Whatever mesh routes were written before, merging others gives the file as if they had been
  written first. With the same routes: merging is idempotent. With none: stripping after a merge is
  stripping alone. */
  lemma MeshLastWriteWins(ls: seq<string>, c: seq<AddrText>, d: seq<AddrText>)
    requires AllIpv4(c) && AllIpv4(d)
    ensures MergeMesh(MergeMesh(ls, c), d) == MergeMesh(ls, d)
  {
    hide Kept, TrimEnd, SkipAfter, MeshBlock;
    var base := WithoutBlocks(ls, MeshMarkers());
    WithoutBlocksTwice(ls, MeshMarkers());
    MeshBlockKept(c, "");
    KeptConcat(base, MeshBlock(c), MeshMarkers(), false);
    assert base + [] == base;
  }

  // ---------------------------------------------- peer blocks: last write wins

  /** The first text of the mesh begin marker, if there is one, is a whole line. */
  predicate Anchored(ls: seq<string>) {
    MeshAt(ls) < |ls| ==> ls[MeshAt(ls)] == MeshMarkers().begin
  }

  lemma InsertAnchored(base: seq<string>, block: seq<string>)
    requires block != [] && Anchored(base)
    ensures InsertBeforeMesh(base, block) == base[..MeshAt(base)] + block + base[MeshAt(base)..]
  {
    hide MeshMarkers, MeshAt;
    var k := MeshAt(base);
    if k < |base| {
      var m := MeshMarkers().begin;
      assert base[k][..|base[k]| - |m|] + block[0] == block[0];
      Regroup(base[..k], m, base[k + 1..], block);
      assert base[k..] == [m] + base[k + 1..];
    } else {
      assert base[..k] == base && base[k..] == [];
      assert base + block + [] == base + block;
    }
  }

  lemma Regroup(a: seq<string>, m: string, rest: seq<string>, block: seq<string>)
    requires block != []
    ensures a + [block[0]] + block[1..] + [m] + rest == a + block + ([m] + rest)
  {
    assert block == [block[0]] + block[1..];
  }

  lemma IrouteBlockKept(id: string, cidrs: seq<AddrText>)
    requires AllIpv4(cidrs)
    ensures Kept(IrouteBlock(id, cidrs), PeerMarkers(id), false) == []
    ensures !SkipAfter(IrouteBlock(id, cidrs), PeerMarkers(id), false)
    ensures AllApart(MeshMarkers(), IrouteBlock(id, cidrs))
    ensures forall ls :: Trimmed(ls + IrouteBlock(id, cidrs))
  {
    hide Apart, IrouteLines, MeshMarkers, PeerMarkers, Tokens;
    var body := IrouteLines(Tokens(cidrs));
    IrouteLinesApart(Tokens(cidrs), id);
    MarkerShapes(id);
    KeptOfBlock(body, PeerMarkers(id), false);
    MarkersAreSolid(id);
    forall ls ensures Trimmed(ls + IrouteBlock(id, cidrs)) {
      SolidEnd(ls + ([PeerMarkers(id).begin] + body), PeerMarkers(id));
      assert ls + IrouteBlock(id, cidrs) == ls + ([PeerMarkers(id).begin] + body) + [PeerMarkers(id).end];
    }
  }

  lemma InsertedBlockDropsOut(base: seq<string>, id: string, cidrs: seq<AddrText>)
    requires AllIpv4(cidrs) && AllApart(PeerMarkers(id), base) && Anchored(base)
    ensures Kept(InsertBeforeMesh(base, IrouteBlock(id, cidrs)), PeerMarkers(id), false) == base
  {
    hide Kept, SkipAfter, MeshMarkers, PeerMarkers, InsertBeforeMesh, IrouteBlock, Apart;
    var mk, block, k := PeerMarkers(id), IrouteBlock(id, cidrs), MeshAt(base);
    IrouteBlockKept(id, cidrs);
    assert block != [] by { BlockNotEmpty(id, cidrs); }
    InsertAnchored(base, block);
    KeptOfApart(base[..k], mk, false);
    KeptOfApart(base[k..], mk, false);
    KeptConcat(base[..k] + block, base[k..], mk, false);
    KeptConcat(base[..k], block, mk, false);
    assert base[..k] + [] + base[k..] == base;
  }

  lemma BlockNotEmpty(id: string, cidrs: seq<AddrText>)
    requires AllIpv4(cidrs)
    ensures IrouteBlock(id, cidrs) != [] && IrouteBlock(id, cidrs)[0] == PeerMarkers(id).begin
  {
  }

  /** Merging a site's routes replaces what was merged for that site before and touches nothing else:
  taking the block out again gives the file that taking it out at once would have given, so all
  other lines, other sites' blocks included, stand in the order they stood in. */
  lemma PeerLastWriteWins(ls: seq<string>, id: string, c: seq<AddrText>, d: seq<AddrText>)
    requires AllIpv4(c) && AllIpv4(d)
    requires c == [] || Anchored(WithoutBlocks(ls, PeerMarkers(id)))
    ensures MergePeer(MergePeer(ls, id, c), id, d) == MergePeer(ls, id, d)
  {
    hide Kept, TrimEnd, SkipAfter, IrouteBlock, InsertBeforeMesh, Anchored, PeerMarkers;
    var mk := PeerMarkers(id);
    var base := WithoutBlocks(ls, mk);
    WithoutBlocksTwice(ls, mk);
    if c != [] {
      InsertedBlockDropsOut(base, id, c);
    }
    assert WithoutBlocks(MergePeer(ls, id, c), mk) == base;
  }

  /** The condition is exact: when the marker's text first occurs behind other text, the block is
  written behind that text too, is no longer recognised, and cannot be taken out again. */
  lemma StripUndoesMergeExactlyWhenAnchored(ls: seq<string>, id: string, c: seq<AddrText>)
    requires AllIpv4(c) && c != [] && '#' !in id
    ensures MergePeer(MergePeer(ls, id, c), id, []) == MergePeer(ls, id, []) <==>
      Anchored(WithoutBlocks(ls, PeerMarkers(id)))
  {
    hide Kept, TrimEnd, SkipAfter, IrouteBlock, InsertBeforeMesh, PeerMarkers, Anchored, WithoutBlocks, IrouteLines;
    var mk := PeerMarkers(id);
    var base := WithoutBlocks(ls, mk);
    if Anchored(base) {
      PeerLastWriteWins(ls, id, c, []);
    } else {
      WithoutBlocksTwice(ls, mk);
      UnanchoredStays(base, id, c);
    }
  }

  /** A file with the mesh marker behind one character: the block of this site, once written, cannot be
  taken out again. */
  lemma UnanchoredMarker(c: seq<AddrText>)
    requires AllIpv4(c) && c != []
    ensures var ls := ["x" + MeshMarkers().begin];
      MergePeer(MergePeer(ls, "p", c), "p", []) != MergePeer(ls, "p", [])
  {
    hide MergePeer, Anchored, WithoutBlocks;
    BehindOneCharacter();
    StripUndoesMergeExactlyWhenAnchored(["x" + MeshMarkers().begin], "p", c);
  }

  lemma BehindOneCharacter()
    ensures var ls := ["x" + MeshMarkers().begin]; WithoutBlocks(ls, PeerMarkers("p")) == ls && !Anchored(ls)
  {
    hide MeshMarkers, PeerMarkers, RStrip, Kept;
    var m, mk := MeshMarkers().begin, PeerMarkers("p");
    var line := "x" + m;
    SolidMarkers(mk);
    assert Apart(mk, line);
    KeptOfApart([line], mk, false);
    TrimmedIsTrimmed(line);
    assert line[|line| - |m|..] == m;
    assert [line][0] == line;
  }

  lemma SolidMarkers(mk: Markers)
    requires mk == PeerMarkers("p")
    ensures var m := MeshMarkers().begin; m != "" && !IsSpace(m[|m| - 1]) && m[0] == '#'
    ensures mk.begin != "" && mk.begin[0] == '#' && mk.end != "" && mk.end[0] == '#'
  {
  }

  lemma UnanchoredStays(base: seq<string>, id: string, c: seq<AddrText>)
    requires AllIpv4(c) && AllApart(PeerMarkers(id), base) && Trimmed(base) && !Anchored(base) && '#' !in id
    ensures WithoutBlocks(InsertBeforeMesh(base, IrouteBlock(id, c)), PeerMarkers(id)) != base
  {
    hide Apart, MeshMarkers, PeerMarkers, IrouteLines, Kept, SkipAfter, TrimEnd, Tokens, MeshAt;
    var mk, m, k := PeerMarkers(id), MeshMarkers().begin, MeshAt(base);
    MarkerShapes(id);
    var glued := base[k][..|base[k]| - |m|] + mk.begin;
    var body := IrouteLines(Tokens(c));
    IrouteLinesApart(Tokens(c), id);
    assert IrouteBlock(id, c)[1..] == body + [mk.end];
    var front := base[..k] + [glued] + body;
    var back := [m] + base[k + 1..];
    assert InsertBeforeMesh(base, IrouteBlock(id, c)) == front + [mk.end] + back;
    GluedIsApart(base[k], id);
    assert AllApart(mk, front) && AllApart(mk, back);
    KeptAroundEnd(front, back, mk);
    TrimEndConcat(front, back);
    BackStays(base, k, m);
    assert |front + TrimEnd(back)| > |base|;
  }

  /** A lone end marker drops out. */
  lemma KeptAroundEnd(front: seq<string>, back: seq<string>, mk: Markers)
    requires AllApart(mk, front) && AllApart(mk, back) && !(mk.begin <= mk.end)
    ensures Kept(front + [mk.end] + back, mk, false) == front + back
  {
    hide Kept, SkipAfter, Apart;
    KeptOfApart(front, mk, false);
    One(mk.end, mk, false);
    KeptConcat(front, [mk.end], mk, false);
    KeptConcat(front + [mk.end], back, mk, false);
    KeptOfApart(back, mk, false);
    assert front + [] == front;
  }

  lemma BackStays(base: seq<string>, k: nat, m: string)
    requires Trimmed(base) && k < |base| && m == MeshMarkers().begin
    ensures |TrimEnd([m] + base[k + 1..])| == |base| - k
  {
    hide RStrip;
    assert m[|m| - 1] == '-';
    TrimEndConcat([m], base[k + 1..]);
    LastIsSolid([], m);
    assert [] + [m] == [m];
    if k + 1 < |base| {
      TrimEndConcat(base[..k + 1], base[k + 1..]);
      assert base == base[..k + 1] + base[k + 1..];
    }
  }

  /** Text in front of a marker hides it. */
  lemma GluedIsApart(line: string, id: string)
    requires Apart(PeerMarkers(id), line) && EndsWith(line, MeshMarkers().begin) && line != MeshMarkers().begin
    requires '#' !in id
    ensures Apart(PeerMarkers(id), line[..|line| - |MeshMarkers().begin|] + PeerMarkers(id).begin)
  {
    var mk, n := PeerMarkers(id), |line| - |MeshMarkers().begin|;
    OneHash(id);
    hide PeerMarkers, MeshMarkers;
    var glued := line[..n] + mk.begin;
    assert n > 0;
    assert glued[n] == mk.begin[0] == '#';
    assert glued[..n] == line[..n];
  }

  lemma OneHash(id: string)
    requires '#' !in id
    ensures PeerMarkers(id).begin != "" && PeerMarkers(id).begin[0] == '#'
    ensures forall k :: 1 <= k < |PeerMarkers(id).begin| ==> PeerMarkers(id).begin[k] != '#'
    ensures forall k :: 1 <= k < |PeerMarkers(id).end| ==> PeerMarkers(id).end[k] != '#'
  {
  }
}
