/** The virtual address of a client, as its CCD file states it, under every edit of that file. */
module CcdVip {
  import opened Wrappers
  import opened Ipv4
  import opened Text
  import opened VirtualIps
  import opened CcdBlocks
  import opened CcdMerge
  import opened CcdRounds

  /** `ifconfig-push <ip> ...` */
  predicate IsPush(line: string) {
    |Words(line)| >= 2 && Words(line)[0] == "ifconfig-push"
  }

  /** The address of the first such line. */
  function VirtualIp(ls: seq<string>): Option<string> {
    if ls == [] then None else if IsPush(ls[0]) then Some(Words(ls[0])[1]) else VirtualIp(ls[1..])
  }

  method ReadVirtualIp(ls: seq<string>) returns (ip: Option<string>)
    ensures ip == VirtualIp(ls)
  {
    for i := 0 to |ls|
      invariant VirtualIp(ls) == VirtualIp(ls[i..])
    {
      var parts := Words(ls[i]);
      if |parts| >= 2 && parts[0] == "ifconfig-push" {
        return Some(parts[1]);
      }
      assert ls[i..][1..] == ls[i + 1..];
    }
    return None;
  }

  function PushesOf(ls: seq<string>): (ps: seq<string>)
    ensures forall i :: 0 <= i < |ps| ==> IsPush(ps[i])
  {
    if ls == [] then [] else (if IsPush(ls[0]) then [ls[0]] else []) + PushesOf(ls[1..])
  }

  function Others(ls: seq<string>): seq<string> {
    if ls == [] then [] else (if IsPush(ls[0]) then [] else [ls[0]]) + Others(ls[1..])
  }

  lemma {:induction false} PushesConcat(a: seq<string>, b: seq<string>)
    ensures PushesOf(a + b) == PushesOf(a) + PushesOf(b)
    ensures Others(a + b) == Others(a) + Others(b)
  {
    hide IsPush;
    if a == [] {
      assert a + b == b;
    } else {
      assert (a + b)[1..] == a[1..] + b;
      PushesConcat(a[1..], b);
    }
  }

  /** The address is that of the first push line. */
  lemma {:induction false} VirtualIpIs(ls: seq<string>)
    ensures VirtualIp(ls) == if PushesOf(ls) == [] then None else Some(Words(PushesOf(ls)[0])[1])
  {
    hide Words;
    if ls != [] {
      VirtualIpIs(ls[1..]);
    }
  }

  // ------------------------------------------------------------- white space

  lemma {:induction false} BlankHasNoWords(s: string)
    requires AllSpace(s)
    ensures Words(s) == []
  {
    assert LStrip(s) == "";
  }

  /** Words do not see trailing white space. */
  lemma {:induction false} WordsOfTrimmed(s: string, blank: string)
    requires AllSpace(blank)
    ensures Words(s + blank) == Words(s)
    decreases |s|
  {
    hide Words;
    if s == "" {
      assert s + blank == blank;
      BlankHasNoWords(blank);
      BlankHasNoWords(s);
    } else if IsSpace(s[0]) {
      WordsSkipsLeadingSpace(s);
      WordsSkipsLeadingSpace(s + blank);
      assert (s + blank)[1..] == s[1..] + blank;
      WordsOfTrimmed(s[1..], blank);
    } else {
      var n := WordLength(s);
      assert n > 0;
      var w, rest := s[..n], s[n..];
      assert s == w + rest && s + blank == w + (rest + blank);
      WordsStep(w, rest);
      WordsStep(w, rest + blank);
      WordsOfTrimmed(rest, blank);
    }
  }

  lemma PushTrim(line: string)
    ensures IsPush(RStrip(line)) <==> IsPush(line)
    ensures IsPush(line) ==> RStrip(line) != "" && Words(RStrip(line)) == Words(line)
  {
    hide Words;
    var n := TrimmedLength(line);
    assert line == RStrip(line) + line[n..];
    WordsOfTrimmed(RStrip(line), line[n..]);
    BlankHasNoWords("");
  }

  lemma {:induction false} TrimKeepsAddressLines(ls: seq<string>)
    ensures |PushesOf(TrimEnd(ls))| == |PushesOf(ls)|
    ensures forall i :: 0 <= i < |PushesOf(ls)| ==> Words(PushesOf(TrimEnd(ls))[i]) == Words(PushesOf(ls)[i])
  {
    hide IsPush, RStrip, Words;
    if ls != [] {
      var front, last := ls[..|ls| - 1], ls[|ls| - 1];
      assert ls == front + [last];
      TrimKeepsAddressLines(front);
      hide PushesOf, TrimEnd;
      LastAddressLine(front, last);
    }
  }

  lemma LastAddressLine(front: seq<string>, last: string)
    requires |PushesOf(TrimEnd(front))| == |PushesOf(front)|
    requires forall i :: 0 <= i < |PushesOf(front)| ==>
      Words(PushesOf(TrimEnd(front))[i]) == Words(PushesOf(front)[i])
    ensures var a, b := PushesOf(TrimEnd(front + [last])), PushesOf(front + [last]);
      |a| == |b| && forall i :: 0 <= i < |b| ==> Words(a[i]) == Words(b[i])
  {
    hide IsPush, RStrip, Words, PushesOf, TrimEnd;
    PushesConcat(front, [last]);
    PushTrim(last);
    OneLine(last);
    if RStrip(last) == "" {
      TrimBlank(front, last);
      assert PushesOf(front) + [] == PushesOf(front);
    } else {
      TrimSolid(front, last);
      PushesConcat(front, [RStrip(last)]);
      OneLine(RStrip(last));
    }
  }

  lemma TrimKeepsVirtualIp(ls: seq<string>)
    ensures VirtualIp(TrimEnd(ls)) == VirtualIp(ls)
    ensures |PushesOf(TrimEnd(ls))| == |PushesOf(ls)|
  {
    hide TrimEnd, PushesOf, VirtualIp, Words;
    TrimKeepsAddressLines(ls);
    VirtualIpIs(ls);
    VirtualIpIs(TrimEnd(ls));
  }

  lemma OneLine(line: string)
    ensures PushesOf([line]) == (if IsPush(line) then [line] else [])
    ensures Others([line]) == if IsPush(line) then [] else [line]
  {
    assert [line][1..] == [];
  }

  // ------------------------------------------------- well-placed address lines

  /** Every address line stands before every marker line. Files are created with the address line
  alone, and all edits keep it so. */
  predicate AddressFirst(ls: seq<string>) {
    forall i, j :: 0 <= i < j < |ls| && MarkerLike(ls[i]) ==> !IsPush(ls[j])
  }

  predicate NoAddress(ls: seq<string>) {
    forall i :: 0 <= i < |ls| ==> !IsPush(ls[i])
  }

  lemma FirstWord(w: string, tail: string)
    requires w != "" && NoSpace(w) && tail != "" && IsSpace(tail[0]) && w != "ifconfig-push"
    ensures !IsPush(w + tail)
  {
    WordsStep(w, tail);
  }

  lemma MarkerIsNoPush(line: string)
    requires MarkerLike(line)
    ensures !IsPush(line)
  {
    assert line == "#" + line[1..];
    FirstWord("#", line[1..]);
  }

  lemma RouteIsNoPush(p: Prefix)
    ensures !IsPush(IrouteLine(p)) && !IsPush(PushLine(p)) && !MarkerLike(IrouteLine(p)) && !MarkerLike(PushLine(p))
  {
    hide IpText, MaskText, IsPush;
    var a, b :=
      " " + IpText(p.addr) + " " + MaskText(p.len), " \"route " + IpText(p.addr) + " " + MaskText(p.len) + "\"";
    StartsWithWord("iroute", a);
    StartsWithWord("push", b);
    assert IrouteLine(p) == "iroute" + a && PushLine(p) == "push" + b;
  }

  lemma StartsWithWord(w: string, tail: string)
    requires w == "iroute" || w == "push"
    requires tail != "" && tail[0] == ' '
    ensures !IsPush(w + tail) && !MarkerLike(w + tail)
  {
    hide IsPush;
    FirstWord(w, tail);
    assert (w + tail)[0] == w[0];
  }

  lemma MarkersAreMarkerLike(id: string, line: string)
    ensures !Apart(PeerMarkers(id), line) || !Apart(MeshMarkers(), line) ==> MarkerLike(line)
  {
    MarkersMarkerLike(id);
    hide MeshMarkers, PeerMarkers;
    PrefixOfPrefix("# --- ovpn-", MeshMarkers().begin, line);
    PrefixOfPrefix("# --- ovpn-", MeshMarkers().end, line);
    PrefixOfPrefix("# --- ovpn-", PeerMarkers(id).begin, line);
    PrefixOfPrefix("# --- ovpn-", PeerMarkers(id).end, line);
  }

  lemma MarkersMarkerLike(id: string)
    ensures MarkerLike(MeshMarkers().begin) && MarkerLike(MeshMarkers().end)
    ensures MarkerLike(PeerMarkers(id).begin) && MarkerLike(PeerMarkers(id).end)
  {
    PeerTags();
    MeshTags();
    PrefixStays("# --- ovpn-", "# --- ovpn-peer begin ", id, " ---");
    PrefixStays("# --- ovpn-", "# --- ovpn-peer end ", id, " ---");
  }

  lemma PeerTags()
    ensures "# --- ovpn-" <= "# --- ovpn-peer begin " && "# --- ovpn-" <= "# --- ovpn-peer end "
  {
  }

  lemma MeshTags()
    ensures MarkerLike(MeshMarkers().begin) && MarkerLike(MeshMarkers().end)
  {
  }

  lemma PrefixStays(a: string, b: string, c: string, d: string)
    requires a <= b
    ensures a <= b + c + d
  {
  }

  lemma PrefixOfPrefix(a: string, b: string, c: string)
    requires a <= b
    ensures b <= c ==> a <= c
  {
  }

  /** Behind a marker nothing is dropped that states an address. */
  lemma {:induction false} NothingBehind(ls: seq<string>, mk: Markers, skip: bool)
    requires NoAddress(ls)
    ensures PushesOf(ls) == [] && PushesOf(Kept(ls, mk, skip)) == []
  {
    hide IsPush;
    if ls != [] {
      NothingBehind(ls[1..], mk, true);
      NothingBehind(ls[1..], mk, false);
      var kept := Kept(ls[1..], mk, false);
      PushesConcat([ls[0]], kept);
      OneLine(ls[0]);
      hide PushesOf;
      assert skip ==> [] + Kept(ls[1..], mk, skip) == Kept(ls[1..], mk, skip);
    }
  }

  ghost predicate OurMarkers(mk: Markers) {
    forall line: string :: !Apart(mk, line) ==> MarkerLike(line)
  }

  lemma {:induction false} KeptKeepsPushes(ls: seq<string>, mk: Markers)
    requires AddressFirst(ls) && OurMarkers(mk)
    ensures PushesOf(Kept(ls, mk, false)) == PushesOf(ls)
    ensures AddressFirst(Kept(ls, mk, false))
  {
    hide IsPush, MarkerLike, Apart;
    if ls != [] {
      var rest := ls[1..];
      if Apart(mk, ls[0]) {
        KeptKeepsPushes(rest, mk);
        KeptIsApart(rest, mk, false);
        assert Kept(ls, mk, false) == [ls[0]] + Kept(rest, mk, false) by { ApartStep(ls, mk); }
        PushesConcat([ls[0]], Kept(rest, mk, false));
        OneLine(ls[0]);
        HeadFirst(ls[0], ls, Kept(rest, mk, false));
      } else {
        assert MarkerLike(ls[0]);
        NothingBehind(rest, mk, true);
        NothingBehind(rest, mk, false);
        MarkerIsNoPush(ls[0]);
        KeptFirst(ls, mk);
      }
    }
  }

  lemma ApartStep(ls: seq<string>, mk: Markers)
    requires ls != [] && Apart(mk, ls[0])
    ensures Kept(ls, mk, false) == [ls[0]] + Kept(ls[1..], mk, false)
  {
  }

  lemma KeptFirst(ls: seq<string>, mk: Markers)
    requires ls != [] && !Apart(mk, ls[0]) && NoAddress(ls[1..])
    ensures Kept(ls, mk, false) == Kept(ls[1..], mk, mk.begin <= ls[0])
    ensures NoAddress(Kept(ls, mk, false))
  {
    hide IsPush;
    KeptIsApart(ls[1..], mk, mk.begin <= ls[0]);
    var kept := Kept(ls[1..], mk, mk.begin <= ls[0]);
    forall i | 0 <= i < |kept| ensures !IsPush(kept[i]) {
      assert kept[i] in ls[1..];
    }
  }

  lemma HeadFirst(head: string, ls: seq<string>, tail: seq<string>)
    requires ls != [] && head == ls[0] && AddressFirst(ls) && AddressFirst(tail)
    requires forall l :: l in tail ==> l in ls[1..]
    ensures AddressFirst([head] + tail)
  {
    hide IsPush, MarkerLike;
    var all := [head] + tail;
    forall i, j | 0 <= i < j < |all| && MarkerLike(all[i]) ensures !IsPush(all[j]) {
      assert all[j] == tail[j - 1];
      if i == 0 {
        assert tail[j - 1] in ls[1..];
      }
    }
  }

  lemma {:induction false} TrimKeepsAddressFirst(ls: seq<string>)
    requires AddressFirst(ls)
    ensures AddressFirst(TrimEnd(ls))
  {
    hide IsPush, RStrip;
    if ls != [] {
      var front, last := ls[..|ls| - 1], ls[|ls| - 1];
      TrimKeepsAddressFirst(front);
      PushTrim(last);
    }
  }

  lemma AppendUnaddressed(a: seq<string>, b: seq<string>)
    requires AddressFirst(a) && NoAddress(b)
    ensures AddressFirst(a + b) && VirtualIp(a + b) == VirtualIp(a)
  {
    hide IsPush, MarkerLike;
    PushesConcat(a, b);
    NothingBehind(b, MeshMarkers(), false);
    VirtualIpIs(a);
    VirtualIpIs(a + b);
  }

  // ----------------------------------------------------------- block editors

  lemma OursAreMarkers(id: string)
    ensures OurMarkers(PeerMarkers(id)) && OurMarkers(MeshMarkers())
  {
    hide MarkerLike, Apart;
    forall line: string | !Apart(PeerMarkers(id), line) || !Apart(MeshMarkers(), line) ensures MarkerLike(line) {
      MarkersAreMarkerLike(id, line);
    }
  }

  lemma WithoutBlocksKeepsAddress(ls: seq<string>, mk: Markers)
    requires AddressFirst(ls) && OurMarkers(mk)
    ensures AddressFirst(WithoutBlocks(ls, mk)) && VirtualIp(WithoutBlocks(ls, mk)) == VirtualIp(ls)
  {
    hide OurMarkers, AddressFirst, Kept, TrimEnd;
    KeptKeepsPushes(ls, mk);
    TrimKeepsAddressFirst(Kept(ls, mk, false));
    TrimKeepsVirtualIp(Kept(ls, mk, false));
    VirtualIpIs(ls);
    VirtualIpIs(Kept(ls, mk, false));
  }

  lemma {:induction false} IrouteLinesUnaddressed(ts: seq<Token>)
    ensures NoAddress(IrouteLines(ts))
  {
    hide IsPush, IrouteLine, Normalize;
    if ts != [] {
      IrouteLinesUnaddressed(ts[..|ts| - 1]);
      RouteIsNoPush(Normalize(ts[|ts| - 1]));
    }
  }

  lemma {:induction false} PushLinesUnaddressed(ps: seq<Prefix>)
    ensures NoAddress(PushLines(ps))
  {
    hide IsPush, PushLine;
    if ps != [] {
      PushLinesUnaddressed(ps[..|ps| - 1]);
      RouteIsNoPush(ps[|ps| - 1]);
    }
  }

  lemma BlocksUnaddressed(id: string, c: seq<AddrText>, m: seq<AddrText>)
    requires AllIpv4(c) && AllIpv4(m)
    ensures NoAddress(IrouteBlock(id, c)) && NoAddress(MeshBlock(m)) && !IsPush(MeshMarkers().begin)
  {
    OursAreMarkers(id);
    var p, q := PeerMarkers(id), MeshMarkers();
    hide IsPush, MarkerLike, PeerMarkers, MeshMarkers, IrouteLines, PushLines, Tokens, CanonicalNets;
    assert !Apart(p, p.begin) && !Apart(p, p.end) && !Apart(q, q.begin) && !Apart(q, q.end);
    MarkerIsNoPush(p.begin);
    MarkerIsNoPush(p.end);
    MarkerIsNoPush(q.begin);
    MarkerIsNoPush(q.end);
    IrouteLinesUnaddressed(Tokens(c));
    PushLinesUnaddressed(CanonicalNets(Tokens(m)));
  }

  lemma InsertKeepsAddress(base: seq<string>, block: seq<string>)
    requires AddressFirst(base) && Anchored(base) && NoAddress(block) && block != []
    ensures AddressFirst(InsertBeforeMesh(base, block)) && VirtualIp(InsertBeforeMesh(base, block)) == VirtualIp(base)
  {
    hide AddressFirst, NoAddress, InsertBeforeMesh, MeshAt, VirtualIp, Anchored;
    var a, b := base[..MeshAt(base)], base[MeshAt(base)..];
    InsertAnchored(base, block);
    MeshBegins(base);
    assert base == a + b;
    AppendUnaddressed(a, b);
    AppendUnaddressed(a, block);
    AppendUnaddressed(a + block, b);
  }

  /** Merging or stripping a site's routes never changes the client's address. */
  lemma PeerMergeKeepsAddress(ls: seq<string>, id: string, c: seq<AddrText>)
    requires AddressFirst(ls) && WellMarked(ls) && AllIpv4(c)
    ensures AddressFirst(MergePeer(ls, id, c)) && VirtualIp(MergePeer(ls, id, c)) == VirtualIp(ls)
  {
    hide AddressFirst, NoAddress, WithoutBlocks, PeerMarkers, IrouteBlock, InsertBeforeMesh, OurMarkers, WellMarked,
      VirtualIp, Anchored;
    OursAreMarkers(id);
    WithoutBlocksKeepsAddress(ls, PeerMarkers(id));
    if c != [] {
      var base := WithoutBlocks(ls, PeerMarkers(id));
      BaseIsMarked(ls, id);
      MarkedIsAnchored(base);
      BlockNotEmpty(id, c);
      BlocksUnaddressed(id, c, []);
      InsertKeepsAddress(base, IrouteBlock(id, c));
    }
  }

  lemma BaseIsMarked(ls: seq<string>, id: string)
    requires WellMarked(ls)
    ensures WellMarked(WithoutBlocks(ls, PeerMarkers(id)))
  {
    Pieces(ls, id);
  }

  /** From the mesh block on, no address line follows. */
  lemma MeshBegins(base: seq<string>)
    requires AddressFirst(base) && Anchored(base)
    ensures AddressFirst(base[..MeshAt(base)]) && NoAddress(base[MeshAt(base)..])
  {
    hide IsPush, MeshMarkers, MarkerLike;
    if MeshAt(base) < |base| {
      BlocksUnaddressed("", [], []);
      MarkersAreMarkerLike("", MeshMarkers().begin);
      assert !Apart(MeshMarkers(), MeshMarkers().begin);
    }
  }

  /** Merging or stripping mesh routes never changes the client's address. */
  lemma MeshMergeKeepsAddress(ls: seq<string>, m: seq<AddrText>)
    requires AddressFirst(ls) && AllIpv4(m)
    ensures AddressFirst(MergeMesh(ls, m)) && VirtualIp(MergeMesh(ls, m)) == VirtualIp(ls)
  {
    hide AddressFirst, NoAddress, WithoutBlocks, MeshMarkers, MeshBlock, OurMarkers, VirtualIp;
    OursAreMarkers("");
    WithoutBlocksKeepsAddress(ls, MeshMarkers());
    BlocksUnaddressed("", [], m);
    AppendUnaddressed(WithoutBlocks(ls, MeshMarkers()), MeshBlock(m));
  }

  // ------------------------------------------------ any file, well placed or not

  lemma UnaddressedTail(a: seq<string>, b: seq<string>)
    requires NoAddress(b)
    ensures VirtualIp(a + b) == VirtualIp(a)
  {
    hide IsPush, Words;
    PushesConcat(a, b);
    NothingBehind(b, MeshMarkers(), false);
    VirtualIpIs(a);
    VirtualIpIs(a + b);
  }

  /** Whatever the file: merging or stripping mesh routes leaves it stating the address that its lines
  outside mesh blocks state. */
  lemma MeshMergeAddress(ls: seq<string>, m: seq<AddrText>)
    requires AllIpv4(m)
    ensures VirtualIp(MergeMesh(ls, m)) == VirtualIp(Kept(ls, MeshMarkers(), false))
  {
    hide NoAddress, Kept, TrimEnd, MeshMarkers, MeshBlock, VirtualIp;
    BlocksUnaddressed("", [], m);
    TrimKeepsVirtualIp(Kept(ls, MeshMarkers(), false));
    UnaddressedTail(WithoutBlocks(ls, MeshMarkers()), MeshBlock(m));
  }

  lemma InsertedUnaddressed(a: seq<string>, block: seq<string>, b: seq<string>)
    requires NoAddress(block)
    ensures VirtualIp(a + block + b) == VirtualIp(a + b)
  {
    hide IsPush, Words;
    NothingBehind(block, MeshMarkers(), false);
    PushesConcat(a, block);
    PushesConcat(a + block, b);
    PushesConcat(a, b);
    VirtualIpIs(a + block + b);
    VirtualIpIs(a + b);
  }

  lemma InsertAddress(base: seq<string>, block: seq<string>)
    requires Anchored(base) && NoAddress(block) && block != []
    ensures VirtualIp(InsertBeforeMesh(base, block)) == VirtualIp(base)
  {
    hide NoAddress, InsertBeforeMesh, VirtualIp, Anchored, MeshAt;
    var a, b := base[..MeshAt(base)], base[MeshAt(base)..];
    InsertAnchored(base, block);
    InsertedUnaddressed(a, block, b);
    assert a + b == base;
  }

  /** So does merging or stripping a site's routes, as long as the mesh marker, if the file has one, is a
  line of its own. */
  lemma PeerMergeAddress(ls: seq<string>, id: string, c: seq<AddrText>)
    requires AllIpv4(c) && (c == [] || Anchored(WithoutBlocks(ls, PeerMarkers(id))))
    ensures VirtualIp(MergePeer(ls, id, c)) == VirtualIp(Kept(ls, PeerMarkers(id), false))
  {
    hide NoAddress, Kept, TrimEnd, PeerMarkers, IrouteBlock, InsertBeforeMesh, VirtualIp, Anchored;
    TrimKeepsVirtualIp(Kept(ls, PeerMarkers(id), false));
    if c != [] {
      BlockNotEmpty(id, c);
      BlocksUnaddressed(id, c, []);
      InsertAddress(WithoutBlocks(ls, PeerMarkers(id)), IrouteBlock(id, c));
    }
  }
}
