/** A save of a peer site edits its bound user's file twice: first the iroute block, then the mesh
block. When is the result stable? */
module CcdRounds {
  import opened Ipv4
  import opened Text
  import opened VirtualIps
  import opened CcdBlocks
  import opened CcdMerge

  /** One save. */
  function Round(ls: seq<string>, id: string, c: seq<AddrText>, m: seq<AddrText>): seq<string>
    requires AllIpv4(c) && AllIpv4(m)
  {
    MergeMesh(MergePeer(ls, id, c), m)
  }

  ghost predicate Stable(ls: seq<string>, id: string, c: seq<AddrText>, m: seq<AddrText>)
    requires AllIpv4(c) && AllIpv4(m)
  {
    MergePeer(ls, id, c) == ls && MergeMesh(ls, m) == ls
  }

  // ------------------------------------------------------ lines and the marker

  predicate MarkedLine(line: string) {
    line == MeshMarkers().begin || (!(MeshMarkers().begin <= line) && !EndsWith(RStrip(line), MeshMarkers().begin))
  }

  /** The mesh begin marker appears as a whole line or not at all. */
  predicate WellMarked(ls: seq<string>) {
    forall i :: 0 <= i < |ls| ==> MarkedLine(ls[i])
  }

  /** No mesh marker on the line, in any position that an editor looks at. */
  predicate Plain(line: string) {
    MarkedLine(line) && Apart(MeshMarkers(), line)
  }

  predicate AllPlain(ls: seq<string>) {
    forall i :: 0 <= i < |ls| ==> Plain(ls[i])
  }

  lemma PlainEnds(line: string)
    ensures Plain(line) ==> !EndsWith(line, MeshMarkers().begin)
    ensures MarkedLine(line) && EndsWith(line, MeshMarkers().begin) ==> line == MeshMarkers().begin
  {
    MarkersAreSolid("");
    if EndsWith(line, MeshMarkers().begin) {
      TrimmedIsTrimmed(line);
    }
  }

  lemma {:induction false} MeshAtPlain(a: seq<string>, b: seq<string>)
    requires AllPlain(a) && (b == [] || b[0] == MeshMarkers().begin)
    ensures MeshAt(a + b) == |a|
  {
    hide Plain, EndsWith, MeshMarkers;
    if a == [] {
      assert a + b == b;
      if b != [] { BeginEnds(); }
    } else {
      assert Plain(a[0]);
      PlainEnds(a[0]);
      assert (a + b)[1..] == a[1..] + b;
      MeshAtPlain(a[1..], b);
    }
  }

  lemma BeginEnds()
    ensures EndsWith(MeshMarkers().begin, MeshMarkers().begin)
  {
  }

  lemma MarkedLineTrim(line: string)
    requires MarkedLine(line) && RStrip(line) != ""
    ensures MarkedLine(RStrip(line))
    ensures forall mk: Markers :: Apart(mk, line) ==> Apart(mk, RStrip(line))
  {
    hide MeshMarkers, EndsWith;
    MarkersAreSolid("");
    RStripTwice(line);
    if line == MeshMarkers().begin {
      TrimmedIsTrimmed(line);
    }
  }

  lemma {:induction false} TrimKeepsMarked(ls: seq<string>)
    ensures WellMarked(ls) ==> WellMarked(TrimEnd(ls))
    ensures AllPlain(ls) ==> AllPlain(TrimEnd(ls))
  {
    hide MarkedLine, Apart, RStrip;
    if ls != [] {
      var last := ls[|ls| - 1];
      TrimKeepsMarked(ls[..|ls| - 1]);
      if RStrip(last) != "" && MarkedLine(last) {
        MarkedLineTrim(last);
      }
    }
  }

  lemma KeptIsMarked(ls: seq<string>, mk: Markers, skip: bool)
    requires WellMarked(ls)
    ensures WellMarked(Kept(ls, mk, skip))
    ensures mk == MeshMarkers() ==> AllPlain(Kept(ls, mk, skip))
  {
    hide MarkedLine, Apart, Kept;
    KeptIsApart(ls, mk, skip);
    var kept := Kept(ls, mk, skip);
    forall i | 0 <= i < |kept| ensures MarkedLine(kept[i]) {
      assert kept[i] in ls;
    }
  }

  lemma MarkedIsAnchored(ls: seq<string>)
    requires WellMarked(ls)
    ensures Anchored(ls)
  {
    if MeshAt(ls) < |ls| {
      PlainEnds(ls[MeshAt(ls)]);
    }
  }

  // ------------------------------------------------------ before and behind

  function Base(ls: seq<string>, id: string): seq<string> {
    WithoutBlocks(ls, PeerMarkers(id))
  }

  /** Lines outside mesh blocks, before the first one and from it on, once the site's block is out. */
  function Before(ls: seq<string>, id: string): seq<string> {
    Kept(Base(ls, id)[..MeshAt(Base(ls, id))], MeshMarkers(), false)
  }

  function Behind(ls: seq<string>, id: string): seq<string> {
    Kept(Base(ls, id)[MeshAt(Base(ls, id))..], MeshMarkers(), false)
  }

  /** The guard: no block to write; or nothing but blank lines behind the mesh block, and, when no mesh
  block is to be written, no blank lines in front of it. */
  predicate Settled(ls: seq<string>, id: string, c: seq<AddrText>, m: seq<AddrText>)
    requires AllIpv4(c) && AllIpv4(m)
  {
    c == [] || (TrimEnd(Behind(ls, id)) == [] && (MeshBlock(m) != [] || Trimmed(Before(ls, id))))
  }

  /** Shape of the pieces: none holds a mesh marker or a marker of the site. */
  lemma Pieces(ls: seq<string>, id: string)
    requires WellMarked(ls)
    ensures WellMarked(Base(ls, id)) && AllApart(PeerMarkers(id), Base(ls, id))
    ensures AllPlain(Before(ls, id)) && AllPlain(TrimEnd(Behind(ls, id)))
    ensures AllApart(PeerMarkers(id), Before(ls, id)) && AllApart(PeerMarkers(id), TrimEnd(Behind(ls, id)))
  {
    hide Plain, MarkedLine, Apart, Kept, TrimEnd, MeshAt;
    var base := Base(ls, id);
    KeptIsMarked(ls, PeerMarkers(id), false);
    TrimKeepsMarked(Kept(ls, PeerMarkers(id), false));
    WithoutBlocksTwice(ls, PeerMarkers(id));
    var a, b := base[..MeshAt(base)], base[MeshAt(base)..];
    KeptIsMarked(a, MeshMarkers(), false);
    KeptIsMarked(b, MeshMarkers(), false);
    TrimKeepsMarked(Kept(b, MeshMarkers(), false));
    KeepsApart(a, id);
    KeepsApart(b, id);
    TrimEndKeepsApart(Kept(b, MeshMarkers(), false), PeerMarkers(id));
  }

  lemma KeepsApart(ls: seq<string>, id: string)
    requires AllApart(PeerMarkers(id), ls)
    ensures AllApart(PeerMarkers(id), Kept(ls, MeshMarkers(), false))
  {
    hide Apart, Kept;
    KeptIsApart(ls, MeshMarkers(), false);
    var kept := Kept(ls, MeshMarkers(), false);
    forall i | 0 <= i < |kept| ensures Apart(PeerMarkers(id), kept[i]) {
      assert kept[i] in ls;
    }
  }

  lemma PlainDoNotOpen(ls: seq<string>)
    requires WellMarked(ls) && MeshAt(ls) == |ls|
    ensures !SkipAfter(ls, MeshMarkers(), false)
    decreases |ls|
  {
    hide MeshMarkers, EndsWith;
    if ls != [] {
      BeginEnds();
      assert MarkedLine(ls[0]);
      PlainDoNotOpen(ls[1..]);
    }
  }

  lemma {:induction false} MeshAtPrefix(ls: seq<string>)
    ensures MeshAt(ls[..MeshAt(ls)]) == MeshAt(ls)
  {
    hide EndsWith;
    var a := ls[..MeshAt(ls)];
    assert forall j :: 0 <= j < |a| ==> a[j] == ls[j];
  }

  /** The file after one save, piece by piece. */
  lemma RoundIs(ls: seq<string>, id: string, c: seq<AddrText>, m: seq<AddrText>)
    requires WellMarked(ls) && AllIpv4(c) && AllIpv4(m) && c != []
    ensures Round(ls, id, c, m) == Before(ls, id) + IrouteBlock(id, c) + TrimEnd(Behind(ls, id)) + MeshBlock(m)
  {
    hide Plain, MarkedLine, Apart, Kept, TrimEnd, MeshAt, SkipAfter, IrouteBlock, MeshBlock, PeerMarkers,
      MeshMarkers, InsertBeforeMesh, Anchored;
    var base, block, mk := Base(ls, id), IrouteBlock(id, c), MeshMarkers();
    var a, b := base[..MeshAt(base)], base[MeshAt(base)..];
    Pieces(ls, id);
    MarkedIsAnchored(base);
    BlockNotEmpty(id, c);
    InsertAnchored(base, block);
    MeshAtPrefix(base);
    PlainDoNotOpen(a);
    IrouteBlockKept(id, c);
    KeptConcat(a + block, b, mk, false);
    KeptConcat(a, block, mk, false);
    KeptOfApart(block, mk, false);
    TrimEndConcat(Before(ls, id) + block, Behind(ls, id));
    assert Before(ls, id) + block + [] == Before(ls, id) + block;
  }

  /** What the peer editor makes of that file. */
  lemma NextPeerMerge(ls: seq<string>, id: string, c: seq<AddrText>, m: seq<AddrText>)
    requires WellMarked(ls) && AllIpv4(c) && AllIpv4(m) && c != []
    ensures var rest := Before(ls, id) + TrimEnd(Behind(ls, id));
      && Base(Round(ls, id, c, m), id) == (if MeshBlock(m) == [] then TrimEnd(rest) else rest + MeshBlock(m))
      && MergePeer(Round(ls, id, c, m), id, c) ==
        (if MeshBlock(m) == [] then TrimEnd(rest) else rest) + IrouteBlock(id, c) + MeshBlock(m)
  {
    hide Plain, MarkedLine, Apart, Kept, TrimEnd, MeshAt, SkipAfter, IrouteBlock, MeshBlock, PeerMarkers,
      MeshMarkers, InsertBeforeMesh, Anchored;
    var x, y, block, mesh := Before(ls, id), TrimEnd(Behind(ls, id)), IrouteBlock(id, c), MeshBlock(m);
    RoundIs(ls, id, c, m);
    Pieces(ls, id);
    BlockDropsOut(x, y, id, c, m);
    var rest := x + y;
    PlainConcat(x, y);
    TrimKeepsMarked(rest);
    MeshBlockKept(m, id);
    var base := Base(Round(ls, id, c, m), id);
    assert rest + [] == rest;
    assert base == (if mesh == [] then TrimEnd(rest) else rest) + mesh;
    InsertInFront(if mesh == [] then TrimEnd(rest) else rest, id, c, m);
  }

  lemma PlainConcat(a: seq<string>, b: seq<string>)
    requires AllPlain(a) && AllPlain(b)
    ensures AllPlain(a + b)
  {
    hide Plain;
  }

  lemma BlockDropsOut(x: seq<string>, y: seq<string>, id: string, c: seq<AddrText>, m: seq<AddrText>)
    requires AllIpv4(c) && AllIpv4(m) && AllApart(PeerMarkers(id), x) && AllApart(PeerMarkers(id), y)
    ensures Kept(x + IrouteBlock(id, c) + y + MeshBlock(m), PeerMarkers(id), false) == x + y + MeshBlock(m)
  {
    hide Apart, Kept, SkipAfter, IrouteBlock, MeshBlock, PeerMarkers, MeshMarkers;
    var block, mesh, mk := IrouteBlock(id, c), MeshBlock(m), PeerMarkers(id);
    IrouteBlockKept(id, c);
    MeshBlockKept(m, id);
    KeptConcat(x + block + y, mesh, mk, false);
    KeptConcat(x + block, y, mk, false);
    KeptConcat(x, block, mk, false);
    KeptOfApart(x, mk, false);
    KeptOfApart(y, mk, false);
    KeptOfApart(mesh, mk, false);
    assert x + [] == x;
  }

  lemma InsertInFront(rest: seq<string>, id: string, c: seq<AddrText>, m: seq<AddrText>)
    requires AllIpv4(c) && AllIpv4(m) && AllPlain(rest)
    ensures InsertBeforeMesh(rest + MeshBlock(m), IrouteBlock(id, c)) == rest + IrouteBlock(id, c) + MeshBlock(m)
  {
    hide Plain, MeshAt, IrouteBlock, MeshMarkers, PushLines, CanonicalNets;
    var mesh, block := MeshBlock(m), IrouteBlock(id, c);
    BlockNotEmpty(id, c);
    MeshAtPlain(rest, mesh);
    InsertAnchored(rest + mesh, block);
    assert (rest + mesh)[..|rest|] == rest && (rest + mesh)[|rest|..] == mesh;
  }

  /** Exactly when the guard holds, one save leaves a file that neither editor would change again. */
  lemma RoundIsStableExactlyWhenSettled(ls: seq<string>, id: string, c: seq<AddrText>, m: seq<AddrText>)
    requires WellMarked(ls) && AllIpv4(c) && AllIpv4(m)
    ensures Stable(Round(ls, id, c, m), id, c, m) <==> Settled(ls, id, c, m)
  {
    hide Plain, MarkedLine, Kept, TrimEnd, MeshAt, IrouteBlock, MeshBlock, PeerMarkers, MeshMarkers, WellMarked,
      MergePeer, MergeMesh, Before, Behind;
    MeshLastWriteWins(MergePeer(ls, id, c), m, m);
    if c == [] {
      NoBlockIsStable(ls, id, m);
    } else {
      RoundIs(ls, id, c, m);
      NextPeerMerge(ls, id, c, m);
      Pieces(ls, id);
      BlockNotEmpty(id, c);
      TrimEndTwice(Behind(ls, id));
      SamePieces(Before(ls, id), TrimEnd(Behind(ls, id)), id, IrouteBlock(id, c), MeshBlock(m));
    }
  }

  /** A line behind the mesh block: the first save of a site with a LAN leaves a file that the next save
  changes again. */
  lemma UnsettledRound(c: seq<AddrText>, m: seq<AddrText>)
    requires AllIpv4(c) && c != [] && AllIpv4(m)
    ensures var ls := [MeshMarkers().begin, MeshMarkers().end, "x"];
      WellMarked(ls) && !Stable(Round(ls, "p", c, m), "p", c, m)
  {
    hide Behind, WellMarked, Stable, Round, MeshMarkers, TrimEnd;
    LineBehind();
    RoundIsStableExactlyWhenSettled([MeshMarkers().begin, MeshMarkers().end, "x"], "p", c, m);
  }

  lemma LineBehind()
    ensures var ls := [MeshMarkers().begin, MeshMarkers().end, "x"];
      WellMarked(ls) && TrimEnd(Behind(ls, "p")) != []
  {
    hide MeshMarkers, PeerMarkers, Apart, MarkedLine, Kept, MeshAt, RStrip;
    var mk, b, e := MeshMarkers(), MeshMarkers().begin, MeshMarkers().end;
    var ls := [b, e, "x"];
    PlainLetter();
    MeshMarkersMarked();
    MarkerShapes("p");
    assert AllApart(PeerMarkers("p"), ls);
    KeptOfApart(ls, PeerMarkers("p"), false);
    TrimmedIsTrimmed("x");
    assert Base(ls, "p") == ls;
    assert EndsWith(b, b);
    assert MeshAt(ls) == 0;
    assert ls[0..] == ([b] + [] + [e]) + ["x"];
    KeptOfBlock([], mk, false);
    KeptConcat([b] + [] + [e], ["x"], mk, false);
    KeptOfApart(["x"], mk, false);
    assert [] + ["x"] == ["x"];
  }

  lemma PlainLetter()
    ensures MarkedLine("x") && Apart(MeshMarkers(), "x") && Apart(PeerMarkers("p"), "x")
  {
    assert RStrip("x") == "x";
  }

  lemma SamePieces(x: seq<string>, y: seq<string>, id: string, block: seq<string>, mesh: seq<string>)
    requires block != [] && block[0] == PeerMarkers(id).begin && AllApart(PeerMarkers(id), y) && Trimmed(y)
    ensures (if mesh == [] then TrimEnd(x + y) else x + y) + block + mesh == x + block + y + mesh
      <==> y == [] && (mesh != [] || Trimmed(x))
  {
    hide TrimEnd, PeerMarkers;
    TrimEndConcat(x, y);
    if y == [] {
      assert x + y == x && x + block + y == x + block;
      if mesh == [] {
        assert |TrimEnd(x)| == |x| && TrimEnd(x) + block == x + block ==>
          TrimEnd(x) == (TrimEnd(x) + block)[..|x|] == (x + block)[..|x|] == x;
      }
    } else {
      var l, r := x + y + block + mesh, x + block + y + mesh;
      assert l[|x|] == y[0] && r[|x|] == block[0];
      assert Apart(PeerMarkers(id), y[0]);
    }
  }

  lemma NoBlockIsStable(ls: seq<string>, id: string, m: seq<AddrText>)
    requires AllIpv4(m)
    ensures MergePeer(Round(ls, id, [], m), id, []) == Round(ls, id, [], m)
  {
    hide Apart, Kept, SkipAfter, TrimEnd, MeshBlock, PeerMarkers, MeshMarkers;
    var base, mk := Base(ls, id), PeerMarkers(id);
    var front := WithoutBlocks(base, MeshMarkers());
    WithoutBlocksTwice(ls, mk);
    WithoutBlocksTwice(base, MeshMarkers());
    KeepsApart(base, id);
    TrimEndKeepsApart(Kept(base, MeshMarkers(), false), mk);
    MeshBlockKept(m, id);
    KeptOfApart(front, mk, false);
    KeptConcat(front, MeshBlock(m), mk, false);
    KeptOfApart(MeshBlock(m), mk, false);
    assert front + [] == front;
  }

  // ------------------------------------------------------------ settling down

  lemma SuffixHead(s: string, suffix: string)
    requires suffix != ""
    ensures EndsWith(s, suffix) ==> s[|s| - |suffix|] == suffix[0] && (|s| == |suffix| ==> s == suffix)
  {
  }

  lemma NoHashIsPlain(line: string)
    requires '#' !in line
    ensures Plain(line)
  {
    var b := MeshMarkers().begin;
    assert b[0] == '#' && MeshMarkers().end[0] == '#';
    SuffixHead(RStrip(line), b);
    assert forall ch :: ch in RStrip(line) ==> ch in line;
  }

  lemma RouteLinesPlain(p: Prefix)
    ensures Plain(IrouteLine(p)) && Plain(PushLine(p))
  {
    hide IpText, MaskText, Plain;
    IpTextIsWord(p.addr);
    MaskIsWord(p.len);
    NoHashIsPlain(IrouteLine(p));
    NoHashIsPlain(PushLine(p));
  }

  lemma {:induction false} IrouteLinesPlain(ts: seq<Token>)
    ensures AllPlain(IrouteLines(ts))
  {
    hide Plain, IrouteLine, Normalize;
    if ts != [] {
      IrouteLinesPlain(ts[..|ts| - 1]);
      RouteLinesPlain(Normalize(ts[|ts| - 1]));
    }
  }

  lemma {:induction false} PushLinesPlain(ps: seq<Prefix>)
    ensures AllPlain(PushLines(ps))
  {
    hide Plain, PushLine;
    if ps != [] {
      PushLinesPlain(ps[..|ps| - 1]);
      RouteLinesPlain(ps[|ps| - 1]);
    }
  }

  lemma PeerMarkersMarked(id: string)
    requires '#' !in id
    ensures MarkedLine(PeerMarkers(id).begin) && MarkedLine(PeerMarkers(id).end)
  {
    var p, b := PeerMarkers(id), MeshMarkers().begin;
    OneHash(id);
    MarkersAreSolid(id);
    assert b[0] == '#' && b[11] == 'm' && p.begin[11] == 'p' && p.end[11] == 'p' && p.end[0] == '#';
    assert p.begin[|p.begin| - 1] == '-' && p.end[|p.end| - 1] == '-';
    TrimmedIsTrimmed(p.begin);
    TrimmedIsTrimmed(p.end);
    hide PeerMarkers, MeshMarkers;
    NotAtEnd(p.begin, b);
    NotAtEnd(p.end, b);
  }

  lemma NotAtEnd(p: string, b: string)
    requires |p| > 11 && |b| > 11 && b[0] == '#' && p[11] != b[11] && forall k :: 1 <= k < |p| ==> p[k] != '#'
    ensures !EndsWith(p, b) && !(b <= p)
  {
    SuffixHead(p, b);
  }

  lemma BlocksMarked(id: string, c: seq<AddrText>, m: seq<AddrText>)
    requires AllIpv4(c) && AllIpv4(m) && '#' !in id
    ensures WellMarked(IrouteBlock(id, c)) && WellMarked(MeshBlock(m))
  {
    hide MarkedLine, PeerMarkers, MeshMarkers, IrouteLines, PushLines, Tokens, CanonicalNets, Apart;
    PeerMarkersMarked(id);
    MeshMarkersMarked();
    IrouteLinesPlain(Tokens(c));
    PushLinesPlain(CanonicalNets(Tokens(m)));
  }

  lemma MeshMarkersMarked()
    ensures MarkedLine(MeshMarkers().begin) && MarkedLine(MeshMarkers().end)
  {
    var b, e := MeshMarkers().begin, MeshMarkers().end;
    assert b[28] == 'b' && e[28] == 'e' && |e| < |b|;
  }

  lemma RoundIsMarked(ls: seq<string>, id: string, c: seq<AddrText>, m: seq<AddrText>)
    requires WellMarked(ls) && AllIpv4(c) && AllIpv4(m) && '#' !in id && c != []
    ensures WellMarked(Round(ls, id, c, m))
  {
    hide MarkedLine, PeerMarkers, MeshMarkers, IrouteBlock, MeshBlock, Apart, Round, Before, Behind, TrimEnd;
    RoundIs(ls, id, c, m);
    Pieces(ls, id);
    BlocksMarked(id, c, m);
  }

  /** After one save the guard holds. */
  lemma RoundSettles(ls: seq<string>, id: string, c: seq<AddrText>, m: seq<AddrText>)
    requires WellMarked(ls) && AllIpv4(c) && AllIpv4(m) && '#' !in id
    ensures Settled(Round(ls, id, c, m), id, c, m)
  {
    hide Plain, MarkedLine, Apart, Kept, TrimEnd, MeshAt, SkipAfter, IrouteBlock, MeshBlock, PeerMarkers,
      MeshMarkers, WellMarked, Round, Base;
    if c != [] {
      var x, y := Before(ls, id), TrimEnd(Behind(ls, id));
      Pieces(ls, id);
      NextPeerMerge(ls, id, c, m);
      PlainConcat(x, y);
      TrimKeepsMarked(x + y);
      TrimEndTwice(x + y);
      BehindPlain(Round(ls, id, c, m), if MeshBlock(m) == [] then TrimEnd(x + y) else x + y, id, m);
    }
  }

  lemma BehindPlain(ls: seq<string>, rest: seq<string>, id: string, m: seq<AddrText>)
    requires AllIpv4(m) && AllPlain(rest) && Base(ls, id) == rest + MeshBlock(m)
    ensures TrimEnd(Behind(ls, id)) == [] && Before(ls, id) == rest
  {
    hide Apart, Kept, MeshAt, SkipAfter, MeshMarkers, PushLines, CanonicalNets, EndsWith, Base, MarkedLine;
    MeshAtPlain(rest, MeshBlock(m));
    assert (rest + MeshBlock(m))[..|rest|] == rest && (rest + MeshBlock(m))[|rest|..] == MeshBlock(m);
    MeshBlockKept(m, id);
    KeptOfApart(rest, MeshMarkers(), false);
  }

  /** No oscillation: whatever the file looked like, from the second identical save on nothing changes. */
  lemma SecondRoundIsStable(ls: seq<string>, id: string, c: seq<AddrText>, m: seq<AddrText>)
    requires WellMarked(ls) && AllIpv4(c) && AllIpv4(m) && '#' !in id
    ensures Stable(Round(Round(ls, id, c, m), id, c, m), id, c, m)
  {
    hide Plain, MarkedLine, Settled, WellMarked, Round, Stable;
    if c == [] {
      NoBlockRounds(ls, id, m);
    } else {
      RoundIsMarked(ls, id, c, m);
      RoundSettles(ls, id, c, m);
      RoundIsStableExactlyWhenSettled(Round(ls, id, c, m), id, c, m);
    }
  }

  lemma NoBlockRounds(ls: seq<string>, id: string, m: seq<AddrText>)
    requires AllIpv4(m)
    ensures Stable(Round(Round(ls, id, [], m), id, [], m), id, [], m)
  {
    hide MergePeer, MergeMesh;
    NoBlockIsStable(ls, id, m);
    MeshLastWriteWins(MergePeer(ls, id, []), m, m);
  }

  /** A file whose mesh block is last, as the mesh editor leaves it, is stable after one save exactly
  when that save writes no block of the site, or writes mesh routes, or finds no blank lines in front. */
  lemma MeshLastIsStable(ls: seq<string>, prior: seq<AddrText>, id: string, c: seq<AddrText>, m: seq<AddrText>)
    requires WellMarked(ls) && AllIpv4(prior) && AllIpv4(c) && AllIpv4(m) && '#' !in id
    ensures Stable(Round(MergeMesh(ls, prior), id, c, m), id, c, m) <==>
      c == [] || MeshBlock(m) != [] || Trimmed(Before(MergeMesh(ls, prior), id))
  {
    hide Plain, MarkedLine, Apart, Kept, TrimEnd, MeshAt, SkipAfter, IrouteBlock, MeshBlock, PeerMarkers,
      MeshMarkers, Round, Stable, Behind, Before, Base;
    var rest := WithoutBlocks(ls, MeshMarkers());
    KeptIsMarked(ls, MeshMarkers(), false);
    TrimKeepsMarked(Kept(ls, MeshMarkers(), false));
    BlocksMarked(id, c, prior);
    assert WellMarked(MergeMesh(ls, prior));
    MeshLastBase(rest, prior, id);
    RoundIsStableExactlyWhenSettled(MergeMesh(ls, prior), id, c, m);
  }

  lemma MeshLastBase(rest: seq<string>, prior: seq<AddrText>, id: string)
    requires AllPlain(rest) && AllIpv4(prior)
    ensures TrimEnd(Behind(rest + MeshBlock(prior), id)) == []
  {
    hide Plain, MarkedLine, Apart, Kept, TrimEnd, MeshAt, SkipAfter, MeshBlock, PeerMarkers, MeshMarkers, Behind;
    var kept, mesh, mk := Kept(rest, PeerMarkers(id), false), MeshBlock(prior), PeerMarkers(id);
    var skip := SkipAfter(rest, mk, false);
    MeshBlockKept(prior, id);
    KeptConcat(rest, mesh, mk, false);
    KeptOfApart(mesh, mk, skip);
    PlainKept(rest, mk);
    TrimKeepsMarked(kept);
    assert kept + [] == kept;
    NoMeshBlock();
    if skip || mesh == [] {
      assert TrimEnd(kept) + [] == TrimEnd(kept);
      BehindPlain(rest + mesh, TrimEnd(kept), id, []);
    } else {
      BehindPlain(rest + mesh, kept, id, prior);
    }
  }

  lemma NoMeshBlock()
    ensures MeshBlock([]) == []
  {
  }

  lemma PlainKept(ls: seq<string>, mk: Markers)
    requires AllPlain(ls)
    ensures AllPlain(Kept(ls, mk, false))
  {
    hide Plain, Kept;
    KeptIsApart(ls, mk, false);
    var kept := Kept(ls, mk, false);
    forall i | 0 <= i < |kept| ensures Plain(kept[i]) {
      assert kept[i] in ls;
    }
  }
}
