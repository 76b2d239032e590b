/** What an edit of a client's file leaves of its other lines. */
module CcdContents {
  import opened Wrappers
  import opened Ipv4
  import opened Text
  import opened VirtualIps
  import opened CcdBlocks
  import opened CcdMerge
  import opened CcdVip
  import opened CcdLines
  import opened CcdRoutes

  /** The lines that are neither an address line nor part of a mesh block, in order, up to trailing white space:
  `disable`, the blocks of sites, and whatever an operator wrote. */
  function OwnLines(ls: seq<string>): seq<string> {
    TrimEnd(Others(Kept(ls, MeshMarkers(), false)))
  }

  /** `ifconfig-push <address> <mask of the pool>` */
  predicate AddressNames(line: string, ip: nat, len: nat)
    requires len <= 32
  {
    && |Words(line)| == 3 && Words(line)[0] == "ifconfig-push"
    && ReadDotted(Words(line)[1]) == Some(ip) && ReadDotted(Words(line)[2]) == Some(Pow2(32) - Pow2(32 - len))
  }

  /** Exactly one address line, and what it says. */
  predicate OneAddress(ls: seq<string>, ip: nat, len: nat)
    requires len <= 32
  {
    |PushesOf(ls)| == 1 && AddressNames(PushesOf(ls)[0], ip, len)
  }

  // ----------------------------------------------------------------- trimming

  /** Cutting white space at the end first makes no difference once it is cut. */
  lemma {:induction false} OthersOfTrimmed(ls: seq<string>)
    ensures TrimEnd(Others(TrimEnd(ls))) == TrimEnd(Others(ls))
  {
    hide RStrip, IsPush;
    if ls != [] {
      var n := |ls| - 1;
      var front, last := ls[..n], ls[n];
      assert ls == front + [last];
      PushesConcat(front, [last]);
      OneLine(last);
      PushTrim(last);
      if RStrip(last) == "" {
        OthersOfTrimmed(front);
        TrimBlank(Others(front), last);
      } else {
        PushesConcat(front, [RStrip(last)]);
        OneLine(RStrip(last));
        if !IsPush(last) {
          TrimSolid(Others(front), last);
        }
      }
    }
  }

  /** A marker is recognised whether or not its line ends in white space. */
  lemma TrimKeepsMarker(line: string, marker: string)
    requires marker != "" && !IsSpace(marker[|marker| - 1])
    ensures marker <= RStrip(line) <==> marker <= line
  {
    var n := TrimmedLength(line);
    if marker <= line {
      assert line[|marker| - 1] == marker[|marker| - 1];
    }
  }

  lemma KeptOfOne(line: string, mk: Markers, skip: bool)
    ensures Kept([line], mk, skip) == if skip || !Apart(mk, line) then [] else [line]
  {
    assert [line][1..] == [];
  }

  lemma {:induction false} KeptOfTrimmed(ls: seq<string>, mk: Markers)
    requires mk.begin != "" && !IsSpace(mk.begin[|mk.begin| - 1]) && mk.end != "" && !IsSpace(mk.end[|mk.end| - 1])
    ensures TrimEnd(Kept(TrimEnd(ls), mk, false)) == TrimEnd(Kept(ls, mk, false))
  {
    hide RStrip, Kept, SkipAfter;
    if ls != [] {
      var n := |ls| - 1;
      var front, last := ls[..n], ls[n];
      assert ls == front + [last];
      var skip := SkipAfter(front, mk, false);
      KeptConcat(front, [last], mk, false);
      KeptOfOne(last, mk, skip);
      TrimKeepsMarker(last, mk.begin);
      TrimKeepsMarker(last, mk.end);
      if RStrip(last) == "" {
        KeptOfTrimmed(front, mk);
        TrimBlank(Kept(front, mk, false), last);
        assert Kept(front, mk, false) + [] == Kept(front, mk, false);
      } else {
        KeptConcat(front, [RStrip(last)], mk, false);
        KeptOfOne(RStrip(last), mk, skip);
        TrimSolid(Kept(front, mk, false), last);
      }
    }
  }

  lemma MeshMarkersAreSolid()
    ensures var mk := MeshMarkers();
      mk.begin != "" && !IsSpace(mk.begin[|mk.begin| - 1]) && mk.end != "" && !IsSpace(mk.end[|mk.end| - 1])
  {
    MarkersAreSolid("");
  }

  lemma OwnOfTrimmed(ls: seq<string>)
    ensures OwnLines(TrimEnd(ls)) == OwnLines(ls)
  {
    hide TrimEnd, Others, Kept, MeshMarkers;
    MeshMarkersAreSolid();
    KeptOfTrimmed(ls, MeshMarkers());
    OthersOfTrimmed(Kept(TrimEnd(ls), MeshMarkers(), false));
    OthersOfTrimmed(Kept(ls, MeshMarkers(), false));
  }

  // ------------------------------------------------------------ other editors

  /** Address lines are no markers, so dropping them and dropping blocks are independent. */
  lemma {:induction false} OthersOfKept(ls: seq<string>, skip: bool)
    ensures Others(Kept(ls, MeshMarkers(), skip)) == Kept(Others(ls), MeshMarkers(), skip)
  {
    hide IsPush, MeshMarkers, Kept, SkipAfter, Others, Apart;
    var mk := MeshMarkers();
    if ls == [] {
      NothingKept(mk, skip);
    } else {
      var line, rest := ls[0], ls[1..];
      assert ls == [line] + rest;
      var open := SkipAfter([line], mk, skip);
      OthersOfKept(rest, open);
      OneKept(line, skip);
      KeptConcat([line], rest, mk, skip);
      PushesConcat(Kept([line], mk, skip), Kept(rest, mk, open));
      PushesConcat([line], rest);
      KeptConcat(Others([line]), Others(rest), mk, skip);
    }
  }

  lemma NothingKept(mk: Markers, skip: bool)
    ensures Others([]) == [] && Kept([], mk, skip) == []
  {
  }

  lemma OneKept(line: string, skip: bool)
    ensures var mk := MeshMarkers();
      && Others(Kept([line], mk, skip)) == Kept(Others([line]), mk, skip)
      && SkipAfter(Others([line]), mk, skip) == SkipAfter([line], mk, skip)
  {
    hide IsPush, MeshMarkers;
    AddressIsNoMarker(line);
    OneLine(line);
    KeptOfOne(line, MeshMarkers(), skip);
    assert [line][1..] == [];
  }

  lemma AddressIsNoMarker(line: string)
    ensures IsPush(line) ==> Apart(MeshMarkers(), line)
  {
    hide IsPush, MarkerLike;
    MarkersAreMarkerLike("", line);
    if !Apart(MeshMarkers(), line) {
      MarkerIsNoPush(line);
    }
  }

  lemma OwnOfReplaced(ls: seq<string>, line: string)
    requires IsPush(line)
    ensures OwnLines(Replaced(ls, line)) == OwnLines(ls)
  {
    hide IsPush, Others, Kept, Replaced, TrimEnd;
    ReplacedLines(ls, line);
    OthersOfKept(Replaced(ls, line), false);
    OthersOfKept(ls, false);
  }

  /** Rewriting the mesh routes leaves all lines outside them, in any file. */
  lemma OwnOfMesh(ls: seq<string>, c: seq<AddrText>)
    requires AllIpv4(c)
    ensures OwnLines(MergeMesh(ls, c)) == OwnLines(ls)
  {
    hide Kept, TrimEnd, SkipAfter, MeshBlock, Others;
    var mk := MeshMarkers();
    var base := WithoutBlocks(ls, mk);
    KeptIsApart(ls, mk, false);
    TrimEndKeepsApart(Kept(ls, mk, false), mk);
    KeptOfApart(base, mk, false);
    MeshBlockKept(c, "");
    KeptConcat(base, MeshBlock(c), mk, false);
    assert base + [] == base;
    OthersOfTrimmed(Kept(ls, mk, false));
  }

  /** Some line has these words. */
  ghost predicate Says(ls: seq<string>, ws: seq<string>) {
    exists i :: 0 <= i < |ls| && Words(ls[i]) == ws
  }

  lemma SaysConcat(a: seq<string>, line: string, ws: seq<string>)
    ensures Says(a + [line], ws) <==> Says(a, ws) || Words(line) == ws
  {
    hide Words;
    if i :| 0 <= i < |a| && Words(a[i]) == ws {
      assert Words((a + [line])[i]) == ws;
    }
    assert (a + [line])[|a|] == line;
  }

  lemma TrimSameWords(line: string)
    ensures Words(RStrip(line)) == Words(line) && (RStrip(line) == "" ==> Words(line) == [])
  {
    hide Words;
    var n := TrimmedLength(line);
    assert line == RStrip(line) + line[n..];
    WordsOfTrimmed(RStrip(line), line[n..]);
    BlankHasNoWords("");
  }

  lemma {:induction false} TrimKeepsWords(ls: seq<string>, ws: seq<string>)
    requires ws != []
    ensures Says(TrimEnd(ls), ws) <==> Says(ls, ws)
  {
    hide Words, RStrip, Says;
    if ls != [] {
      var front, last := ls[..|ls| - 1], ls[|ls| - 1];
      assert ls == front + [last];
      SaysConcat(front, last, ws);
      SaysConcat(front, RStrip(last), ws);
      TrimSameWords(last);
      TrimKeepsWords(front, ws);
    }
  }

  lemma {:induction false} OthersKeepWords(ls: seq<string>, ws: seq<string>)
    requires ws != [] && ws[0] != "ifconfig-push"
    ensures Says(Others(ls), ws) <==> Says(ls, ws)
  {
    hide Words, Says;
    if ls != [] {
      var front, last := ls[..|ls| - 1], ls[|ls| - 1];
      assert ls == front + [last];
      PushesConcat(front, [last]);
      OneLine(last);
      SaysConcat(front, last, ws);
      SaysConcat(Others(front), last, ws);
      assert Others(front) + [] == Others(front);
      OthersKeepWords(front, ws);
    }
  }

  /** So a `disable`, a site's marker or an `iroute` outside mesh blocks is there after an edit exactly when it was
  there before. */
  lemma OwnLinesSay(ls: seq<string>, ws: seq<string>)
    requires ws != [] && ws[0] != "ifconfig-push"
    ensures Says(OwnLines(ls), ws) <==> Says(Kept(ls, MeshMarkers(), false), ws)
  {
    hide Others, Kept, TrimEnd, MeshMarkers, Says;
    var kept := Kept(ls, MeshMarkers(), false);
    TrimKeepsWords(Others(kept), ws);
    OthersKeepWords(kept, ws);
  }

  // ------------------------------------------------------------- the address

  lemma AddressLineReads(ip: nat, len: nat)
    requires ip < SPACE && len <= 32
    ensures AddressNames(AddressLine(IpText(ip), MaskText(len)), ip, len)
    ensures IsPush(AddressLine(IpText(ip), MaskText(len)))
  {
    hide IpText, MaskText, Words, ReadDotted, Pow2, NoSpace, AddressLine;
    IpTextIsWord(ip);
    MaskIsWord(len);
    AddressLineStatesIp(IpText(ip), MaskText(len));
    ReadsIpText(ip);
    ReadsMask(len);
  }

  lemma TrimKeepsOneAddress(ls: seq<string>, ip: nat, len: nat)
    requires len <= 32
    ensures OneAddress(TrimEnd(ls), ip, len) <==> OneAddress(ls, ip, len)
  {
    hide IsPush, TrimEnd, Words, ReadDotted, PushesOf;
    TrimKeepsAddressLines(ls);
  }

  /** Whatever the file, giving its user another address leaves one address line, which says so, and all lines
  outside mesh blocks. */
  lemma AddressRewritten(ls: seq<string>, ip: nat, len: nat)
    requires ip < SPACE && len <= 32
    ensures var r := TrimEnd(Replaced(ls, AddressLine(IpText(ip), MaskText(len))));
      OneAddress(r, ip, len) && OwnLines(r) == OwnLines(ls)
  {
    hide IsPush, TrimEnd, Words, PushesOf, OwnLines, Replaced, AddressLine, AddressNames, IpText, MaskText;
    var line := AddressLine(IpText(ip), MaskText(len));
    AddressLineReads(ip, len);
    ReplacedLines(ls, line);
    TrimKeepsOneAddress(Replaced(ls, line), ip, len);
    OwnOfReplaced(ls, line);
    OwnOfTrimmed(Replaced(ls, line));
  }

  /** The address line of a file whose address lines come first is outside mesh blocks. */
  lemma MeshKeepsOneAddress(ls: seq<string>, c: seq<AddrText>, ip: nat, len: nat)
    requires AddressFirst(ls) && AllIpv4(c) && len <= 32
    ensures OneAddress(MergeMesh(ls, c), ip, len) <==> OneAddress(ls, ip, len)
  {
    hide Kept, TrimEnd, MeshMarkers, MeshBlock, PushesOf, AddressFirst, NoAddress, IsPush, OurMarkers, AddressNames;
    var base := WithoutBlocks(ls, MeshMarkers());
    OursAreMarkers("");
    BlocksUnaddressed("", [], c);
    PushesConcat(base, MeshBlock(c));
    NoPushes(MeshBlock(c));
    assert PushesOf(base) + [] == PushesOf(base);
    KeptKeepsPushes(ls, MeshMarkers());
    TrimKeepsOneAddress(Kept(ls, MeshMarkers(), false), ip, len);
  }

  lemma {:induction false} NoPushes(ls: seq<string>)
    requires NoAddress(ls)
    ensures PushesOf(ls) == []
  {
    hide IsPush;
    if ls != [] {
      NoPushes(ls[1..]);
    }
  }
}
