/** Marked blocks in a client's CCD file: the peer site's iroute block and the mesh push block. A file is
its list of lines. Both editors drop the old block, cut trailing white space, and write the new block, so
a file that ends without a newline is edited like one that ends with it. */
module CcdBlocks {
  import opened Ipv4
  import opened Text
  import opened VirtualIps

  // ----------------------------------------------------------------- markers

  datatype Markers = Markers(begin: string, end: string)

  function MeshMarkers(): Markers {
    Markers("# --- ovpn-mesh-peer-routes begin ---", "# --- ovpn-mesh-peer-routes end ---")
  }

  function PeerMarkers(id: string): Markers {
    Markers("# --- ovpn-peer begin " + id + " ---", "# --- ovpn-peer end " + id + " ---")
  }

  /** The line is no marker of this kind. Markers are recognised by their text at the start of a line. */
  predicate Apart(mk: Markers, line: string) {
    !(mk.begin <= line) && !(mk.end <= line)
  }

  predicate AllApart(mk: Markers, ls: seq<string>) {
    forall i :: 0 <= i < |ls| ==> Apart(mk, ls[i])
  }

  /** Lines that can be a marker of any kind. */
  predicate MarkerLike(line: string) {
    "# --- ovpn-" <= line
  }

  // ------------------------------------------------------------ dropping blocks

  /** The lines outside the blocks; `skip` says whether a block is open at the start. */
  function Kept(ls: seq<string>, mk: Markers, skip: bool): seq<string> {
    if ls == [] then []
    else if mk.begin <= ls[0] then Kept(ls[1..], mk, true)
    else if mk.end <= ls[0] then Kept(ls[1..], mk, false)
    else (if skip then [] else [ls[0]]) + Kept(ls[1..], mk, skip)
  }

  function SkipAfter(ls: seq<string>, mk: Markers, skip: bool): bool {
    if ls == [] then skip
    else if mk.begin <= ls[0] then SkipAfter(ls[1..], mk, true)
    else if mk.end <= ls[0] then SkipAfter(ls[1..], mk, false)
    else SkipAfter(ls[1..], mk, skip)
  }

  lemma {:induction false} KeptConcat(a: seq<string>, b: seq<string>, mk: Markers, skip: bool)
    ensures Kept(a + b, mk, skip) == Kept(a, mk, skip) + Kept(b, mk, SkipAfter(a, mk, skip))
    ensures SkipAfter(a + b, mk, skip) == SkipAfter(b, mk, SkipAfter(a, mk, skip))
  {
    if a == [] {
      assert a + b == b;
    } else {
      assert (a + b)[1..] == a[1..] + b;
      KeptConcat(a[1..], b, mk, true);
      KeptConcat(a[1..], b, mk, false);
    }
  }

  /** What comes next stands in a block: a begin marker was there, and no end marker after it. */
  ghost predicate InBlock(before: seq<string>, mk: Markers) {
    exists i :: 0 <= i < |before| && mk.begin <= before[i] &&
      forall j :: i < j < |before| ==> !(mk.end <= before[j])
  }

  lemma {:induction false} SkipIsInBlock(ls: seq<string>, mk: Markers)
    ensures SkipAfter(ls, mk, false) <==> InBlock(ls, mk)
  {
    if ls != [] {
      var n := |ls| - 1;
      var front, last := ls[..n], ls[n];
      assert ls == front + [last];
      SkipIsInBlock(front, mk);
      KeptConcat(front, [last], mk, false);
      assert [last][1..] == [];
      if InBlock(front, mk) && !(mk.end <= last) {
        var i :| 0 <= i < n && mk.begin <= front[i] && forall j :: i < j < n ==> !(mk.end <= front[j]);
        assert mk.begin <= ls[i];
      }
    }
  }

  /** Line by line: the markers go, and what stands in a block; everything else stays where it was. */
  lemma KeptIsOutside(before: seq<string>, line: string, mk: Markers)
    ensures Kept([], mk, false) == []
    ensures Kept(before + [line], mk, false) ==
      Kept(before, mk, false) + (if Apart(mk, line) && !InBlock(before, mk) then [line] else [])
  {
    SkipIsInBlock(before, mk);
    KeptConcat(before, [line], mk, false);
    assert [line][1..] == [];
  }

  lemma {:induction false} KeptIsApart(ls: seq<string>, mk: Markers, skip: bool)
    ensures AllApart(mk, Kept(ls, mk, skip))
    ensures forall l :: l in Kept(ls, mk, skip) ==> l in ls
  {
    if ls != [] {
      KeptIsApart(ls[1..], mk, true);
      KeptIsApart(ls[1..], mk, false);
    }
  }

  lemma {:induction false} KeptOfApart(ls: seq<string>, mk: Markers, skip: bool)
    requires AllApart(mk, ls)
    ensures Kept(ls, mk, skip) == (if skip then [] else ls) && SkipAfter(ls, mk, skip) == skip
  {
    if ls != [] {
      assert Apart(mk, ls[0]);
      KeptOfApart(ls[1..], mk, skip);
    }
  }

  lemma KeptOfBlock(body: seq<string>, mk: Markers, skip: bool)
    requires AllApart(mk, body) && !(mk.begin <= mk.end)
    ensures Kept([mk.begin] + body + [mk.end], mk, skip) == []
    ensures !SkipAfter([mk.begin] + body + [mk.end], mk, skip)
  {
    KeptConcat([mk.begin], body, mk, skip);
    KeptConcat([mk.begin] + body, [mk.end], mk, skip);
    KeptOfApart(body, mk, true);
    One(mk.begin, mk, skip);
    One(mk.end, mk, SkipAfter([mk.begin] + body, mk, skip));
  }

  lemma One(line: string, mk: Markers, skip: bool)
    ensures mk.begin <= line ==> Kept([line], mk, skip) == [] && SkipAfter([line], mk, skip)
    ensures !(mk.begin <= line) && mk.end <= line ==> Kept([line], mk, skip) == [] && !SkipAfter([line], mk, skip)
  {
    assert [line][1..] == [];
  }

  // --------------------------------------------------------------- trimming

  /** `rstrip` of the whole text, then one newline: trailing blank lines go, and the white space at
  the end of the last line. */
  function TrimEnd(ls: seq<string>): (r: seq<string>)
    ensures |r| <= |ls|
  {
    if ls == [] then []
    else if RStrip(ls[|ls| - 1]) == "" then TrimEnd(ls[..|ls| - 1])
    else ls[..|ls| - 1] + [RStrip(ls[|ls| - 1])]
  }

  predicate Trimmed(ls: seq<string>) {
    TrimEnd(ls) == ls
  }

  lemma RStripTwice(s: string)
    ensures RStrip(RStrip(s)) == RStrip(s)
  {
    if RStrip(s) != "" {
      TrimmedIsTrimmed(RStrip(s));
    }
  }

  lemma TrimBlank(a: seq<string>, line: string)
    requires RStrip(line) == ""
    ensures TrimEnd(a + [line]) == TrimEnd(a)
  {
    assert (a + [line])[..|a + [line]| - 1] == a;
  }

  lemma TrimSolid(a: seq<string>, line: string)
    requires RStrip(line) != ""
    ensures TrimEnd(a + [line]) == a + [RStrip(line)] == TrimEnd(a + [RStrip(line)])
  {
    hide RStrip;
    RStripTwice(line);
    assert (a + [line])[..|a + [line]| - 1] == a && (a + [RStrip(line)])[..|a + [RStrip(line)]| - 1] == a;
  }

  lemma {:induction false} TrimEndTwice(ls: seq<string>)
    ensures Trimmed(TrimEnd(ls))
  {
    hide RStrip;
    if ls != [] {
      var last := ls[|ls| - 1];
      if RStrip(last) == "" {
        TrimEndTwice(ls[..|ls| - 1]);
      } else {
        RStripTwice(last);
      }
    }
  }

  lemma {:induction false} TrimEndConcat(a: seq<string>, b: seq<string>)
    ensures TrimEnd(a + b) == if TrimEnd(b) == [] then TrimEnd(a) else a + TrimEnd(b)
  {
    hide RStrip;
    if b == [] {
      assert a + b == a;
    } else {
      assert (a + b)[..|a + b| - 1] == a + b[..|b| - 1];
      TrimEndConcat(a, b[..|b| - 1]);
    }
  }

  lemma {:induction false} TrimEndKeepsApart(ls: seq<string>, mk: Markers)
    requires AllApart(mk, ls)
    ensures AllApart(mk, TrimEnd(ls))
  {
    if ls != [] {
      TrimEndKeepsApart(ls[..|ls| - 1], mk);
      assert Apart(mk, ls[|ls| - 1]);
    }
  }

  lemma LastIsSolid(ls: seq<string>, line: string)
    requires line != "" && !IsSpace(line[|line| - 1])
    ensures Trimmed(ls + [line])
  {
    TrimmedIsTrimmed(line);
    assert (ls + [line])[..|ls + [line]| - 1] == ls;
  }

  // ----------------------------------------------------------------- blocks

  /** Dotted mask of a prefix length. */
  function MaskText(len: nat): string
    requires len <= 32
  {
    SizeInSpace(len);
    IpText(SPACE - Size(len))
  }

  lemma SizeInSpace(len: nat)
    requires len <= 32
    ensures Size(len) <= SPACE
  {
    if len > 0 {
      Pow2Monotone(32 - len, 32);
    }
  }

  lemma MaskIsWord(len: nat)
    requires len <= 32
    ensures MaskText(len) != "" && NoSpace(MaskText(len)) && '#' !in MaskText(len)
  {
    hide IpText;
    SizeInSpace(len);
    IpTextIsWord(SPACE - Size(len));
  }

  function IrouteLine(p: Prefix): string {
    "iroute " + IpText(p.addr) + " " + MaskText(p.len)
  }

  function PushLine(p: Prefix): string {
    "push \"route " + IpText(p.addr) + " " + MaskText(p.len) + "\""
  }

  function IrouteLines(ts: seq<Token>): seq<string> {
    if ts == [] then [] else IrouteLines(ts[..|ts| - 1]) + [IrouteLine(Normalize(ts[|ts| - 1]))]
  }

  function PushLines(ps: seq<Prefix>): seq<string> {
    if ps == [] then [] else PushLines(ps[..|ps| - 1]) + [PushLine(ps[|ps| - 1])]
  }

  /** `build_iroute_block` */
  function IrouteBlock(id: string, cidrs: seq<AddrText>): seq<string>
    requires AllIpv4(cidrs)
  {
    [PeerMarkers(id).begin] + IrouteLines(Tokens(cidrs)) + [PeerMarkers(id).end]
  }

  /** `build_mesh_peer_push_routes_block` */
  function MeshBlock(cidrs: seq<AddrText>): seq<string>
    requires AllIpv4(cidrs)
  {
    var ps := CanonicalNets(Tokens(cidrs));
    if ps == [] then [] else [MeshMarkers().begin] + PushLines(ps) + [MeshMarkers().end]
  }

  lemma MarkerShapes(id: string)
    ensures !(MeshMarkers().begin <= MeshMarkers().end) && !(PeerMarkers(id).begin <= PeerMarkers(id).end)
    ensures Apart(PeerMarkers(id), MeshMarkers().begin) && Apart(PeerMarkers(id), MeshMarkers().end)
    ensures Apart(MeshMarkers(), PeerMarkers(id).begin) && Apart(MeshMarkers(), PeerMarkers(id).end)
  {
    var m, p := MeshMarkers(), PeerMarkers(id);
    assert m.begin[28] == 'b' && m.end[28] == 'e';
    assert m.begin[11] == 'm' && m.end[11] == 'm' && p.begin[11] == 'p' && p.end[11] == 'p';
    assert p.begin[16] == 'b' && p.end[16] == 'e';
  }

  lemma MarkersAreSolid(id: string)
    ensures !IsSpace(MeshMarkers().end[|MeshMarkers().end| - 1])
    ensures !IsSpace(PeerMarkers(id).end[|PeerMarkers(id).end| - 1])
    ensures !IsSpace(MeshMarkers().begin[|MeshMarkers().begin| - 1])
  {
  }

  /** Markers start with '#'; routes do not. */
  lemma RouteLinesApart(p: Prefix, id: string)
    ensures Apart(PeerMarkers(id), IrouteLine(p)) && Apart(MeshMarkers(), IrouteLine(p))
    ensures Apart(PeerMarkers(id), PushLine(p)) && Apart(MeshMarkers(), PushLine(p))
  {
    hide IpText, MaskText;
    assert IrouteLine(p)[0] == 'i' && PushLine(p)[0] == 'p';
    assert MeshMarkers().begin[0] == '#' && MeshMarkers().end[0] == '#';
    assert PeerMarkers(id).begin[0] == '#' && PeerMarkers(id).end[0] == '#';
  }

  lemma {:induction false} IrouteLinesApart(ts: seq<Token>, id: string)
    ensures AllApart(PeerMarkers(id), IrouteLines(ts)) && AllApart(MeshMarkers(), IrouteLines(ts))
  {
    hide Apart, IrouteLine, Normalize;
    if ts != [] {
      IrouteLinesApart(ts[..|ts| - 1], id);
      RouteLinesApart(Normalize(ts[|ts| - 1]), id);
    }
  }

  lemma {:induction false} PushLinesApart(ps: seq<Prefix>, id: string)
    ensures AllApart(PeerMarkers(id), PushLines(ps)) && AllApart(MeshMarkers(), PushLines(ps))
  {
    hide Apart, PushLine;
    if ps != [] {
      PushLinesApart(ps[..|ps| - 1], id);
      RouteLinesApart(ps[|ps| - 1], id);
    }
  }
}
