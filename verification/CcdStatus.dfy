/** Whether a client may connect: a `disable` line on top of its file, under every edit of that file. */
module CcdStatus {
  import opened Wrappers
  import opened Ipv4
  import opened Text
  import opened CcdBlocks
  import opened CcdMerge
  import opened CcdRounds
  import opened CcdVip
  import opened CcdLines

  /** The client is shut out. */
  predicate ShutOut(ls: seq<string>) {
    exists i :: 0 <= i < |ls| && IsDisable(ls[i])
  }

  /** The way the program shuts a client out: `disable` on top. */
  predicate OnTop(ls: seq<string>) {
    ls != [] && IsDisable(ls[0])
  }

  /** The file lets the client in, or shuts it out with its first line. */
  predicate Enforces(ls: seq<string>, off: bool) {
    if off then OnTop(ls) else !ShutOut(ls)
  }

  lemma EnforcesIs(ls: seq<string>, off: bool)
    requires Enforces(ls, off)
    ensures ShutOut(ls) <==> off
  {
    hide IsDisable;
  }

  // ----------------------------------------------------------------- one line

  lemma OtherStart(line: string)
    requires line != "" && !IsSpace(line[0]) && line[0] != 'd'
    ensures !IsDisable(line)
  {
    assert LeadingSpace(line) == 0;
  }

  lemma RoutesLetIn(p: Prefix)
    ensures !IsDisable(IrouteLine(p)) && !IsDisable(PushLine(p))
  {
    hide IsDisable;
    assert IrouteLine(p)[0] == 'i' && PushLine(p)[0] == 'p';
    OtherStart(IrouteLine(p));
    OtherStart(PushLine(p));
  }

  lemma MarkersLetIn(id: string)
    ensures !IsDisable(PeerMarkers(id).begin) && !IsDisable(PeerMarkers(id).end)
    ensures !IsDisable(MeshMarkers().begin) && !IsDisable(MeshMarkers().end)
  {
    hide IsDisable;
    assert PeerMarkers(id).begin[0] == PeerMarkers(id).end[0] == '#';
    assert MeshMarkers().begin[0] == MeshMarkers().end[0] == '#';
    OtherStart(PeerMarkers(id).begin);
    OtherStart(PeerMarkers(id).end);
    OtherStart(MeshMarkers().begin);
    OtherStart(MeshMarkers().end);
  }

  lemma AddressLetsIn(ip: string, mask: string)
    ensures !IsDisable(AddressLine(ip, mask))
  {
    hide IsDisable;
    assert AddressLine(ip, mask)[0] == 'i';
    OtherStart(AddressLine(ip, mask));
  }

  lemma TrimmedDisable(line: string)
    ensures IsDisable(RStrip(line)) <==> IsDisable(line)
    ensures IsDisable(line) ==> RStrip(line) != ""
  {
    StripOfTrimmed(line);
    StripOfWord("");
  }

  lemma {:induction false} StripOfTrimmed(line: string)
    ensures Strip(RStrip(line)) == Strip(line)
    decreases |line|
  {
    var n, k := TrimmedLength(line), LeadingSpace(line);
    if n == 0 {
      AllBlank(line, k);
    } else {
      assert k < n;
      SameLead(line, n);
      var inner := line[k..];
      assert RStrip(line)[k..] == inner[..n - k];
      TrimmedIs(inner, n - k);
      TrimmedIs(inner[..n - k], n - k);
    }
  }

  lemma AllBlank(line: string, k: nat)
    requires TrimmedLength(line) == 0 && k == LeadingSpace(line)
    ensures Strip(line) == "" && Strip(RStrip(line)) == ""
  {
    assert AllSpace(line);
    StripShape(line);
    StripShape("");
  }

  lemma {:induction false} SameLead(line: string, n: nat)
    requires n <= |line| && LeadingSpace(line) < n
    ensures LeadingSpace(line[..n]) == LeadingSpace(line)
    decreases |line|
  {
    if IsSpace(line[0]) {
      assert line[..n][1..] == line[1..][..n - 1];
      SameLead(line[1..], n - 1);
    }
  }

  lemma {:induction false} TrimmedIs(s: string, n: nat)
    requires 0 < n <= |s| && !IsSpace(s[n - 1]) && forall k :: n <= k < |s| ==> IsSpace(s[k])
    ensures RStrip(s) == s[..n]
  {
    assert TrimmedLength(s) == n;
  }

  // --------------------------------------------------------------- many lines

  lemma ShutOutConcat(a: seq<string>, b: seq<string>)
    ensures ShutOut(a + b) <==> ShutOut(a) || ShutOut(b)
    ensures OnTop(a) ==> OnTop(a + b)
  {
    hide IsDisable;
    if i :| 0 <= i < |a| && IsDisable(a[i]) {
      assert IsDisable((a + b)[i]);
    }
    if i :| 0 <= i < |b| && IsDisable(b[i]) {
      assert IsDisable((a + b)[|a| + i]);
    }
  }

  lemma OneLetsIn(line: string)
    ensures ShutOut([line]) <==> IsDisable(line)
  {
    hide IsDisable;
    assert [line][0] == line;
  }

  lemma {:induction false} TrimEnforces(ls: seq<string>, off: bool)
    requires Enforces(ls, off)
    ensures Enforces(TrimEnd(ls), off)
  {
    hide IsDisable, RStrip;
    if ls != [] {
      var front, last := ls[..|ls| - 1], ls[|ls| - 1];
      assert ls == front + [last];
      TrimmedDisable(last);
      ShutOutConcat(front, [last]);
      ShutOutConcat(front, [RStrip(last)]);
      OneLetsIn(last);
      OneLetsIn(RStrip(last));
      if RStrip(last) == "" {
        TrimEnforces(front, off);
      }
    }
  }

  lemma {:induction false} KeptLetsIn(ls: seq<string>, mk: Markers, skip: bool)
    requires !ShutOut(ls)
    ensures !ShutOut(Kept(ls, mk, skip))
  {
    hide IsDisable;
    if ls != [] {
      assert ls == [ls[0]] + ls[1..];
      ShutOutConcat([ls[0]], ls[1..]);
      KeptLetsIn(ls[1..], mk, true);
      KeptLetsIn(ls[1..], mk, false);
      ShutOutConcat([ls[0]], Kept(ls[1..], mk, false));
    }
  }

  lemma KeptEnforces(ls: seq<string>, mk: Markers, off: bool)
    requires Enforces(ls, off) && OurMarkers(mk)
    ensures Enforces(Kept(ls, mk, false), off)
  {
    hide IsDisable, MarkerLike, Apart;
    if off {
      DisableIsNoPush(ls[0]);
      assert Apart(mk, ls[0]);
      ApartStep(ls, mk);
    } else {
      KeptLetsIn(ls, mk, false);
    }
  }

  lemma {:induction false} IrouteLinesLetIn(ts: seq<Token>)
    ensures !ShutOut(IrouteLines(ts))
  {
    hide IsDisable, IrouteLine, Normalize;
    if ts != [] {
      var front, line := IrouteLines(ts[..|ts| - 1]), IrouteLine(Normalize(ts[|ts| - 1]));
      IrouteLinesLetIn(ts[..|ts| - 1]);
      RoutesLetIn(Normalize(ts[|ts| - 1]));
      ShutOutConcat(front, [line]);
      OneLetsIn(line);
    }
  }

  lemma {:induction false} PushLinesLetIn(ps: seq<Prefix>)
    ensures !ShutOut(PushLines(ps))
  {
    hide IsDisable, PushLine;
    if ps != [] {
      var front, line := PushLines(ps[..|ps| - 1]), PushLine(ps[|ps| - 1]);
      PushLinesLetIn(ps[..|ps| - 1]);
      RoutesLetIn(ps[|ps| - 1]);
      ShutOutConcat(front, [line]);
      OneLetsIn(line);
    }
  }

  lemma Enclosed(begin: string, body: seq<string>, end: string)
    requires !ShutOut(body) && !IsDisable(begin) && !IsDisable(end)
    ensures !ShutOut([begin] + body + [end])
  {
    hide IsDisable;
    ShutOutConcat([begin] + body, [end]);
    ShutOutConcat([begin], body);
    OneLetsIn(begin);
    OneLetsIn(end);
  }

  lemma BlocksLetIn(id: string, c: seq<AddrText>, m: seq<AddrText>)
    requires AllIpv4(c) && AllIpv4(m)
    ensures !ShutOut(IrouteBlock(id, c)) && !ShutOut(MeshBlock(m))
  {
    hide IsDisable, IrouteLines, PushLines, PeerMarkers, MeshMarkers, Tokens, CanonicalNets;
    MarkersLetIn(id);
    IrouteLinesLetIn(Tokens(c));
    PushLinesLetIn(CanonicalNets(Tokens(m)));
    var mk := PeerMarkers(id);
    Enclosed(mk.begin, IrouteLines(Tokens(c)), mk.end);
    Enclosed(MeshMarkers().begin, PushLines(CanonicalNets(Tokens(m))), MeshMarkers().end);
  }

  // ---------------------------------------------------------------- the edits

  lemma BaseEnforces(ls: seq<string>, mk: Markers, off: bool)
    requires Enforces(ls, off) && OurMarkers(mk)
    ensures Enforces(WithoutBlocks(ls, mk), off)
  {
    hide Kept, TrimEnd, OurMarkers, Enforces;
    KeptEnforces(ls, mk, off);
    TrimEnforces(Kept(ls, mk, false), off);
  }

  lemma MeshMergeEnforces(ls: seq<string>, m: seq<AddrText>, off: bool)
    requires Enforces(ls, off) && AllIpv4(m)
    ensures Enforces(MergeMesh(ls, m), off)
  {
    hide IsDisable, Kept, TrimEnd, MeshBlock, MeshMarkers, OurMarkers;
    OursAreMarkers("");
    BaseEnforces(ls, MeshMarkers(), off);
    BlocksLetIn("", [], m);
    ShutOutConcat(WithoutBlocks(ls, MeshMarkers()), MeshBlock(m));
  }

  lemma PeerMergeEnforces(ls: seq<string>, id: string, c: seq<AddrText>, off: bool)
    requires Enforces(ls, off) && WellMarked(ls) && AllIpv4(c)
    ensures Enforces(MergePeer(ls, id, c), off)
  {
    hide IsDisable, Kept, TrimEnd, IrouteBlock, MeshMarkers, PeerMarkers, OurMarkers, InsertBeforeMesh, MeshAt,
      WellMarked, Anchored;
    var base, block := WithoutBlocks(ls, PeerMarkers(id)), IrouteBlock(id, c);
    OursAreMarkers(id);
    BaseEnforces(ls, PeerMarkers(id), off);
    if c != [] {
      BaseIsMarked(ls, id);
      MarkedIsAnchored(base);
      BlockNotEmpty(id, c);
      InsertAnchored(base, block);
      BlocksLetIn(id, c, []);
      var k := MeshAt(base);
      assert base == base[..k] + base[k..];
      ShutOutConcat(base[..k], base[k..]);
      ShutOutConcat(base[..k], block);
      ShutOutConcat(base[..k] + block, base[k..]);
      if off {
        DisableIsNotMesh(base[0]);
        MeshNotFirst(base);
        assert OnTop(base[..k]);
      }
    }
  }

  lemma DisableIsNotMesh(line: string)
    requires IsDisable(line)
    ensures !EndsWith(line, MeshMarkers().begin)
  {
    hide Strip;
    var m := MeshMarkers().begin;
    if EndsWith(line, m) {
      assert line[|line| - 1] == m[|m| - 1] == '-';
      LastOfStripped(line);
    }
  }

  lemma LastOfStripped(line: string)
    requires line != "" && !IsSpace(line[|line| - 1])
    ensures Strip(line) != "" && Strip(line)[|Strip(line)| - 1] == line[|line| - 1]
  {
    var l := LStrip(line);
    assert l[|l| - 1] == line[|line| - 1];
    TrimmedIsTrimmed(l);
  }

  lemma MeshNotFirst(base: seq<string>)
    requires base != [] && !EndsWith(base[0], MeshMarkers().begin)
    ensures MeshAt(base) > 0
  {
    hide MeshMarkers, EndsWith;
  }

  lemma AddressEnforces(ls: seq<string>, line: string, off: bool)
    requires Enforces(ls, off) && IsPush(line) && !IsDisable(line)
    ensures Enforces(TrimEnd(Replaced(ls, line)), off)
  {
    hide IsDisable, TrimEnd, IsPush, Replaced;
    ReplacedLines(ls, line);
    if off {
      DisableIsNoPush(ls[0]);
      TopStays(ls, line);
    } else {
      var r := Replaced(ls, line);
      forall i | 0 <= i < |r| ensures !IsDisable(r[i]) {
        assert r[i] in r;
      }
    }
    TrimEnforces(Replaced(ls, line), off);
  }

  lemma TopStays(ls: seq<string>, line: string)
    requires OnTop(ls) && !IsPush(ls[0])
    ensures OnTop(Replaced(ls, line))
  {
    hide IsDisable, IsPush;
  }

  lemma StatusEnforces(file: seq<string>, off: bool)
    ensures Enforces(WithDisable(Some(file), off).value, off)
  {
    hide IsDisable;
    DisableIsDisable();
    EnabledTwice(file);
    var e := Enabled(file);
    forall i | 0 <= i < |e| ensures !IsDisable(e[i]) {
      assert e[i] in e;
    }
  }
}
