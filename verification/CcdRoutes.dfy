/** What a reader of a CCD file makes of its route lines: the networks are read back from the text. */
module CcdRoutes {
  import opened Wrappers
  import opened Ipv4
  import opened Text
  import opened VirtualIps
  import opened CcdBlocks
  import opened CcdMerge

  // ------------------------------------------------------------------ reading

  predicate IsOctet(text: string) {
    Digits(text) && Decimal(text) <= 255
  }

  function Quadruple(a: nat, b: nat, c: nat, d: nat): nat {
    ((a * 256 + b) * 256 + c) * 256 + d
  }

  /** Four decimals of at most 255 between dots, the first counting most. */
  function ReadDotted(text: string): Option<nat> {
    var ps := Split(text, '.');
    if |ps| == 4 && IsOctet(ps[0]) && IsOctet(ps[1]) && IsOctet(ps[2]) && IsOctet(ps[3]) then
      Some(Quadruple(Decimal(ps[0]), Decimal(ps[1]), Decimal(ps[2]), Decimal(ps[3])))
    else None
  }

  /** A keyword, the address of the network, and its mask. */
  predicate WordsName(ws: seq<string>, keyword: string, p: Prefix) {
    && |ws| == 3 && ws[0] == keyword
    && ReadDotted(ws[1]) == Some(p.addr) && ReadDotted(ws[2]) == Some(Pow2(32) - Pow2(32 - p.len))
  }

  /** `iroute <address> <mask>` */
  predicate IrouteNames(line: string, p: Prefix) {
    WordsName(Words(line), "iroute", p)
  }

  /** `push "route <address> <mask>"` */
  predicate PushNames(line: string, p: Prefix) {
    && |line| > 6 && line[..6] == "push \"" && line[|line| - 1] == '"'
    && WordsName(Words(line[6..|line| - 1]), "route", p)
  }

  predicate IrouteIn(ls: seq<string>, p: Prefix) {
    exists i :: 0 <= i < |ls| && IrouteNames(ls[i], p)
  }

  predicate PushIn(ls: seq<string>, p: Prefix) {
    exists i :: 0 <= i < |ls| && PushNames(ls[i], p)
  }

  /** The lines between the markers of a block; `open` says whether one is open at the start. */
  function Inside(ls: seq<string>, mk: Markers, open: bool): seq<string> {
    if ls == [] then []
    else if mk.begin <= ls[0] then Inside(ls[1..], mk, true)
    else if mk.end <= ls[0] then Inside(ls[1..], mk, false)
    else (if open then [ls[0]] else []) + Inside(ls[1..], mk, open)
  }

  // ------------------------------------------------------------ one address

  lemma ReadsIpText(ip: nat)
    requires ip < SPACE
    ensures ReadDotted(IpText(ip)) == Some(ip)
  {
    hide Split, Join, Decimal, DecimalText, IpText, ReadDotted, Quadruple;
    var parts := Quad(ip);
    SpaceIs();
    BaseOf256(ip);
    FourDecimals(IpText(ip), ip / 256 / 256 / 256, ip / 256 / 256 % 256, ip / 256 % 256, ip % 256);
  }

  lemma FourDecimals(text: string, a: nat, b: nat, c: nat, d: nat)
    requires Split(text, '.') == [DecimalText(a), DecimalText(b), DecimalText(c), DecimalText(d)]
    requires a <= 255 && b <= 255 && c <= 255 && d <= 255
    ensures ReadDotted(text) == Some(Quadruple(a, b, c, d))
  {
    hide Split, DecimalText, Decimal, Quadruple;
    OneOctet(a);
    OneOctet(b);
    OneOctet(c);
    OneOctet(d);
    hide IsOctet;
  }

  lemma OneOctet(n: nat)
    requires n <= 255
    ensures IsOctet(DecimalText(n)) && Decimal(DecimalText(n)) == n
  {
    hide DecimalText, Decimal;
    DecimalOfText(n);
  }

  lemma SpaceIs()
    ensures SPACE == 256 * 256 * 256 * 256
  {
    assert Pow2(8) == 256;
    OneOctetMore(8);
    OneOctetMore(16);
    OneOctetMore(24);
    hide Pow2;
  }

  lemma OneOctetMore(k: nat)
    ensures Pow2(k + 8) == 256 * Pow2(k)
  {
    assert Pow2(k + 2) == 4 * Pow2(k);
    assert Pow2(k + 4) == 4 * Pow2(k + 2);
    assert Pow2(k + 6) == 4 * Pow2(k + 4);
    assert Pow2(k + 8) == 4 * Pow2(k + 6);
  }

  lemma BaseOf256(ip: nat)
    requires ip < 256 * 256 * 256 * 256
    ensures ip / 256 / 256 / 256 <= 255
    ensures Quadruple(ip / 256 / 256 / 256, ip / 256 / 256 % 256, ip / 256 % 256, ip % 256) == ip
  {
  }

  lemma ReadsMask(len: nat)
    requires len <= 32
    ensures ReadDotted(MaskText(len)) == Some(Pow2(32) - Pow2(32 - len))
  {
    hide IpText, ReadDotted, Pow2;
    SizeInSpace(len);
    SizeIsPositive(len);
    ReadsIpText(SPACE - Size(len));
  }

  lemma SizeIsPositive(len: nat)
    requires len <= 32
    ensures Size(len) == Pow2(32 - len) >= 1 && SPACE == Pow2(32)
  {
    hide Pow2;
  }

  // --------------------------------------------------------------- one line

  lemma ThreeWords(a: string, b: string, c: string)
    requires forall w :: w in [a, b, c] ==> w != "" && NoSpace(w)
    ensures Words(a + " " + b + " " + c) == [a, b, c]
  {
    hide Words, NoSpace;
    assert a in [a, b, c] && b in [a, b, c] && c in [a, b, c];
    assert a + " " + b + " " + c == a + " " + (b + " " + c);
    WordThen(a, b + " " + c);
    WordThen(b, c);
    OneWord(c);
  }

  lemma OneWord(w: string)
    requires w != "" && NoSpace(w)
    ensures Words(w) == [w]
  {
    WordsStep(w, "");
    assert w + "" == w;
  }

  lemma SameNetwork(p: Prefix, q: Prefix)
    requires p.addr == q.addr && Pow2(32) - Pow2(32 - p.len) == Pow2(32) - Pow2(32 - q.len)
    ensures p == q
  {
    if p.len < q.len {
      Pow2Monotone(32 - q.len, 32 - p.len);
    } else if q.len < p.len {
      Pow2Monotone(32 - p.len, 32 - q.len);
    }
  }

  lemma IrouteLineReads(p: Prefix, q: Prefix)
    ensures IrouteNames(IrouteLine(p), q) <==> p == q
  {
    hide IpText, MaskText, Words, ReadDotted, Pow2, NoSpace;
    assert "iroute" != "" && NoSpace("iroute") by { KeywordsAreWords(); }
    IpTextIsWord(p.addr);
    MaskIsWord(p.len);
    ThreeWords("iroute", IpText(p.addr), MaskText(p.len));
    assert IrouteLine(p) == "iroute" + " " + IpText(p.addr) + " " + MaskText(p.len);
    ReadsIpText(p.addr);
    ReadsMask(p.len);
    if IrouteNames(IrouteLine(p), q) {
      SameNetwork(p, q);
    }
  }

  lemma KeywordsAreWords()
    ensures NoSpace("iroute") && NoSpace("route")
  {
  }

  lemma PushLineReads(p: Prefix, q: Prefix)
    ensures PushNames(PushLine(p), q) <==> p == q
  {
    hide IpText, MaskText, Words, ReadDotted, Pow2, NoSpace;
    assert "route" != "" && NoSpace("route") by { KeywordsAreWords(); }
    IpTextIsWord(p.addr);
    MaskIsWord(p.len);
    ThreeWords("route", IpText(p.addr), MaskText(p.len));
    var line, inner := PushLine(p), "route" + " " + IpText(p.addr) + " " + MaskText(p.len);
    assert line == "push \"" + inner + "\"";
    assert line[..6] == "push \"" && line[6..|line| - 1] == inner;
    ReadsIpText(p.addr);
    ReadsMask(p.len);
    if PushNames(line, q) {
      SameNetwork(p, q);
    }
  }

  // -------------------------------------------------------------- many lines

  lemma IrouteInConcat(a: seq<string>, b: seq<string>, p: Prefix)
    ensures IrouteIn(a + b, p) <==> IrouteIn(a, p) || IrouteIn(b, p)
  {
    hide IrouteNames;
    if i :| 0 <= i < |a| && IrouteNames(a[i], p) {
      assert IrouteNames((a + b)[i], p);
    }
    if i :| 0 <= i < |b| && IrouteNames(b[i], p) {
      assert IrouteNames((a + b)[|a| + i], p);
    }
  }

  lemma PushInConcat(a: seq<string>, b: seq<string>, p: Prefix)
    ensures PushIn(a + b, p) <==> PushIn(a, p) || PushIn(b, p)
  {
    hide PushNames;
    if i :| 0 <= i < |a| && PushNames(a[i], p) {
      assert PushNames((a + b)[i], p);
    }
    if i :| 0 <= i < |b| && PushNames(b[i], p) {
      assert PushNames((a + b)[|a| + i], p);
    }
  }

  lemma OneIroute(line: string, p: Prefix)
    ensures IrouteIn([line], p) <==> IrouteNames(line, p)
  {
    hide IrouteNames;
    assert [line][0] == line;
  }

  lemma OnePush(line: string, p: Prefix)
    ensures PushIn([line], p) <==> PushNames(line, p)
  {
    hide PushNames;
    assert [line][0] == line;
  }

  lemma {:induction false} IrouteLinesRead(ts: seq<Token>, p: Prefix)
    ensures IrouteIn(IrouteLines(ts), p) <==> p in Networks(ts)
  {
    hide IrouteNames, IrouteLine, Normalize;
    if ts != [] {
      var front, last := ts[..|ts| - 1], ts[|ts| - 1];
      IrouteLinesRead(front, p);
      IrouteInConcat(IrouteLines(front), [IrouteLine(Normalize(last))], p);
      OneIroute(IrouteLine(Normalize(last)), p);
      IrouteLineReads(Normalize(last), p);
      assert ts == front + [last];
      assert Networks(ts) == Networks(front) + {Normalize(last)};
    }
  }

  lemma {:induction false} PushLinesRead(ps: seq<Prefix>, p: Prefix)
    ensures PushIn(PushLines(ps), p) <==> p in ps
  {
    hide PushNames, PushLine;
    if ps != [] {
      var front, last := ps[..|ps| - 1], ps[|ps| - 1];
      PushLinesRead(front, p);
      PushInConcat(PushLines(front), [PushLine(last)], p);
      OnePush(PushLine(last), p);
      PushLineReads(last, p);
      assert ps == front + [last];
    }
  }

  // ------------------------------------------------------------ inside a block

  lemma {:induction false} InsideConcat(a: seq<string>, b: seq<string>, mk: Markers, open: bool)
    ensures Inside(a + b, mk, open) == Inside(a, mk, open) + Inside(b, mk, SkipAfter(a, mk, open))
  {
    if a == [] {
      assert a + b == b;
    } else {
      assert (a + b)[1..] == a[1..] + b;
      InsideConcat(a[1..], b, mk, true);
      InsideConcat(a[1..], b, mk, false);
    }
  }

  lemma {:induction false} InsideOfApart(ls: seq<string>, mk: Markers, open: bool)
    requires AllApart(mk, ls)
    ensures Inside(ls, mk, open) == if open then ls else []
  {
    if ls != [] {
      assert Apart(mk, ls[0]);
      InsideOfApart(ls[1..], mk, open);
    }
  }

  lemma InsideOfBlock(body: seq<string>, mk: Markers)
    requires AllApart(mk, body) && !(mk.begin <= mk.end)
    ensures Inside([mk.begin] + body + [mk.end], mk, false) == body
    ensures !SkipAfter([mk.begin] + body + [mk.end], mk, false)
  {
    KeptOfBlock(body, mk, false);
    InsideConcat([mk.begin], body, mk, false);
    InsideConcat([mk.begin] + body, [mk.end], mk, false);
    InsideOfApart(body, mk, true);
    One(mk.begin, mk, false);
    assert [mk.begin][1..] == [] && [mk.end][1..] == [];
  }

  /** Between apart lines, a block is all there is inside. */
  lemma InsideAround(a: seq<string>, body: seq<string>, b: seq<string>, mk: Markers)
    requires AllApart(mk, a) && AllApart(mk, b) && AllApart(mk, body) && !(mk.begin <= mk.end)
    ensures Inside(a + ([mk.begin] + body + [mk.end]) + b, mk, false) == body
  {
    var block := [mk.begin] + body + [mk.end];
    InsideOfBlock(body, mk);
    InsideOfApart(a, mk, false);
    InsideOfApart(b, mk, false);
    KeptOfApart(a, mk, false);
    InsideConcat(a, block, mk, false);
    InsideConcat(a + block, b, mk, false);
    KeptConcat(a, block, mk, false);
  }

  /** After a merge, what stands in the site's block is read as exactly the site's networks. */
  lemma PeerBlockReadsBack(ls: seq<string>, id: string, cidrs: seq<AddrText>, p: Prefix)
    requires AllIpv4(cidrs)
    requires cidrs == [] || Anchored(WithoutBlocks(ls, PeerMarkers(id)))
    ensures IrouteIn(Inside(MergePeer(ls, id, cidrs), PeerMarkers(id), false), p) <==> p in Networks(Tokens(cidrs))
  {
    hide Kept, TrimEnd, SkipAfter, InsertBeforeMesh, Anchored, PeerMarkers, Inside, IrouteLines, Networks, IrouteIn,
      Apart;
    var mk := PeerMarkers(id);
    var base := WithoutBlocks(ls, mk);
    KeptIsApart(ls, mk, false);
    TrimEndKeepsApart(Kept(ls, mk, false), mk);
    if cidrs == [] {
      InsideOfApart(base, mk, false);
      IrouteLinesRead([], p);
      NothingIn(p);
    } else {
      var block, k := IrouteBlock(id, cidrs), MeshAt(base);
      BlockNotEmpty(id, cidrs);
      InsertAnchored(base, block);
      IrouteLinesApart(Tokens(cidrs), id);
      MarkerShapes(id);
      PartsApart(base, k, mk);
      InsideAround(base[..k], IrouteLines(Tokens(cidrs)), base[k..], mk);
      IrouteLinesRead(Tokens(cidrs), p);
    }
  }

  lemma PartsApart(ls: seq<string>, k: nat, mk: Markers)
    requires AllApart(mk, ls) && k <= |ls|
    ensures AllApart(mk, ls[..k]) && AllApart(mk, ls[k..])
  {
    hide Apart;
  }

  lemma NothingIn(p: Prefix)
    ensures !IrouteIn([], p) && !PushIn([], p) && IrouteLines([]) == [] && Tokens([]) == []
  {
  }

  /** The same for the mesh block, in any file. */
  lemma MeshBlockReadsBack(ls: seq<string>, cidrs: seq<AddrText>, p: Prefix)
    requires AllIpv4(cidrs)
    ensures PushIn(Inside(MergeMesh(ls, cidrs), MeshMarkers(), false), p) <==> p in Networks(Tokens(cidrs))
  {
    hide Kept, TrimEnd, SkipAfter, MeshMarkers, Inside, PushLines, Networks, PushIn, Apart, CanonicalNets, Tokens;
    var mk := MeshMarkers();
    var base, ps := WithoutBlocks(ls, mk), CanonicalNets(Tokens(cidrs));
    KeptIsApart(ls, mk, false);
    TrimEndKeepsApart(Kept(ls, mk, false), mk);
    CanonicalIsSorted(Tokens(cidrs));
    PushLinesRead(ps, p);
    PushLinesApart(ps, "");
    MarkerShapes("");
    if ps == [] {
      assert base + [] == base;
      InsideOfApart(base, mk, false);
      NothingIn(p);
    } else {
      var block := [mk.begin] + PushLines(ps) + [mk.end];
      assert base + block + [] == base + block;
      InsideAround(base, PushLines(ps), [], mk);
    }
  }

  // -------------------------------------------------------------- whole files

  lemma {:induction false} WordsConcat(s: string, tail: string)
    requires tail == "" || IsSpace(tail[0])
    ensures Words(s + tail) == Words(s) + Words(tail)
    decreases |s|
  {
    hide Words, LStrip, NoSpace, WordLength, IsSpace;
    if s == "" {
      NoWords();
      assert s + tail == tail;
    } else if IsSpace(s[0]) {
      WordsSkipsLeadingSpace(s);
      WordsSkipsLeadingSpace(s + tail);
      assert (s + tail)[1..] == s[1..] + tail;
      WordsConcat(s[1..], tail);
    } else {
      var n := WordLength(s);
      HeadWord(s, tail, n);
      WordsConcat(s[n..], tail);
    }
  }

  lemma HeadWord(s: string, tail: string, n: nat)
    requires s != "" && !IsSpace(s[0]) && n == WordLength(s) && (tail == "" || IsSpace(tail[0]))
    ensures 0 < n <= |s|
    ensures Words(s) == [s[..n]] + Words(s[n..]) && Words(s + tail) == [s[..n]] + Words(s[n..] + tail)
  {
    hide Words, WordLength, LStrip, NoSpace, IsSpace;
    FirstWordIs(s);
    Halves(s, n, tail);
    var w, rest := s[..n], s[n..];
    HeadOf(w, rest, tail);
  }

  lemma Halves(s: string, n: nat, tail: string)
    requires n <= |s|
    ensures s == s[..n] + s[n..] && s + tail == s[..n] + (s[n..] + tail)
  {
  }

  lemma HeadOf(w: string, rest: string, tail: string)
    requires w != "" && NoSpace(w) && (rest == "" || IsSpace(rest[0])) && (tail == "" || IsSpace(tail[0]))
    ensures Words(w + rest) == [w] + Words(rest) && Words(w + (rest + tail)) == [w] + Words(rest + tail)
  {
    hide Words, LStrip;
    WordsStep(w, rest);
    assert rest == "" ==> rest + tail == tail;
    assert rest != "" ==> (rest + tail)[0] == rest[0];
    WordsStep(w, rest + tail);
  }

  lemma NoWords()
    ensures Words("") == []
  {
  }

  lemma FirstWordIs(s: string)
    requires s != "" && !IsSpace(s[0])
    ensures var n := WordLength(s); n > 0 && NoSpace(s[..n]) && (s[n..] == "" || IsSpace(s[n..][0]))
  {
  }

  /** Marker lines end in a word that is no mask. */
  lemma MarkerEndNamesNothing(s: string, p: Prefix)
    ensures !IrouteNames(s + " ---", p)
  {
    hide Words, ReadDotted;
    WordsConcat(s, " ---");
    DashesAreNoMask();
    assert Words(" ---") == ["---"];
  }

  lemma DashesAreNoMask()
    ensures Words(" ---") == ["---"] && ReadDotted("---").None?
  {
    assert " ---" == " " + "---" && "---" + "" == "---";
    WordsSkipsLeadingSpace(" ---");
    assert " ---"[1..] == "---";
    WordsStep("---", "");
    FindAbsent("---", '.');
  }

  lemma EndsInMarker(line: string, marker: string, p: Prefix)
    requires EndsWith(line, marker) && EndsWith(marker, " ---")
    ensures !IrouteNames(line, p)
  {
    hide IrouteNames;
    var s := line[..|line| - 4];
    assert marker[|marker| - 4..] == " ---" && line[|line| - |marker|..] == marker;
    assert line[|line| - 4..] == marker[|marker| - 4..];
    assert line == s + " ---";
    MarkerEndNamesNothing(s, p);
  }

  lemma MarkersEnd(id: string)
    ensures EndsWith(MeshMarkers().begin, " ---")
    ensures EndsWith(PeerMarkers(id).begin, " ---") && EndsWith(PeerMarkers(id).end, " ---")
  {
    var mk := PeerMarkers(id);
    assert mk.begin == ("# --- ovpn-peer begin " + id) + " ---" && mk.end == ("# --- ovpn-peer end " + id) + " ---";
    assert mk.begin[|mk.begin| - 4..] == " ---" && mk.end[|mk.end| - 4..] == " ---";
  }

  /** Whatever the file, and wherever the block lands: the client's iroutes are those of the lines outside the
  site's old block, and the site's networks. */
  lemma PeerMergeIroutes(ls: seq<string>, id: string, cidrs: seq<AddrText>, p: Prefix)
    requires AllIpv4(cidrs)
    ensures IrouteIn(MergePeer(ls, id, cidrs), p) <==>
      IrouteIn(WithoutBlocks(ls, PeerMarkers(id)), p) || p in Networks(Tokens(cidrs))
  {
    hide Kept, TrimEnd, InsertBeforeMesh, WithoutBlocks, IrouteLines, Networks, IrouteIn, IrouteBlock;
    var base := WithoutBlocks(ls, PeerMarkers(id));
    if cidrs == [] {
      IrouteLinesRead([], p);
      NothingIn(p);
    } else {
      BlockNotEmpty(id, cidrs);
      InsertedIroutes(base, id, cidrs, p);
    }
  }

  lemma InsertedIroutes(base: seq<string>, id: string, cidrs: seq<AddrText>, p: Prefix)
    requires AllIpv4(cidrs)
    ensures IrouteIn(InsertBeforeMesh(base, IrouteBlock(id, cidrs)), p) <==>
      IrouteIn(base, p) || p in Networks(Tokens(cidrs))
  {
    hide IrouteIn, IrouteNames, IrouteLines, Networks, Tokens, PeerMarkers, MeshMarkers, EndsWith;
    var lines, mk, m, k := IrouteLines(Tokens(cidrs)), PeerMarkers(id), MeshMarkers().begin, MeshAt(base);
    var rest := lines + [mk.end];
    IrouteLinesRead(Tokens(cidrs), p);
    MarkersEnd(id);
    ItsOwnEnd(mk.begin);
    ItsOwnEnd(mk.end);
    ItsOwnEnd(m);
    EndsInMarker(mk.begin, mk.begin, p);
    EndsInMarker(mk.end, mk.end, p);
    EndsInMarker(m, m, p);
    OneIroute(mk.begin, p);
    OneIroute(mk.end, p);
    IrouteInConcat(lines, [mk.end], p);
    assert IrouteBlock(id, cidrs) == [mk.begin] + rest;
    if k == |base| {
      IrouteInConcat([mk.begin], rest, p);
      IrouteInConcat(base, [mk.begin] + rest, p);
    } else {
      SplitIroutes(base, k, mk.begin, rest, m, p);
    }
  }

  lemma ItsOwnEnd(s: string)
    ensures EndsWith(s, s)
  {
    assert s[0..] == s;
  }

  lemma SplitIroutes(base: seq<string>, k: nat, begin: string, rest: seq<string>, m: string, p: Prefix)
    requires k < |base| && EndsWith(base[k], m) && EndsWith(m, " ---") && EndsWith(begin, " ---")
    ensures
      IrouteIn(base[..k] + [base[k][..|base[k]| - |m|] + begin] + rest + [m] + base[k + 1..], p) <==>
      IrouteIn(base, p) || IrouteIn(rest, p)
  {
    hide IrouteIn, IrouteNames;
    var split := base[k][..|base[k]| - |m|] + begin;
    assert EndsWith(split, begin) by { assert split[|split| - |begin|..] == begin; }
    ItsOwnEnd(m);
    EndsInMarker(split, begin, p);
    EndsInMarker(base[k], m, p);
    EndsInMarker(m, m, p);
    OneIroute(split, p);
    OneIroute(base[k], p);
    OneIroute(m, p);
    var a, b := base[..k], base[k + 1..];
    assert base == a + [base[k]] + b;
    IrouteInConcat(a, [base[k]], p);
    IrouteInConcat(a + [base[k]], b, p);
    IrouteInConcat(a, [split], p);
    IrouteInConcat(a + [split], rest, p);
    IrouteInConcat(a + [split] + rest, [m], p);
    IrouteInConcat(a + [split] + rest + [m], b, p);
  }
}
