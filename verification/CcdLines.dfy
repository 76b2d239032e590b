/** The two single-line editors of a CCD file: `disable` and the address line. */
module CcdLines {
  import opened Wrappers
  import opened Text
  import opened CcdBlocks
  import opened CcdRounds
  import opened CcdVip

  // ----------------------------------------------------------------- disable

  predicate IsDisable(line: string) {
    Strip(line) == "disable"
  }

  function Enabled(ls: seq<string>): seq<string> {
    if ls == [] then [] else (if IsDisable(ls[0]) then [] else [ls[0]]) + Enabled(ls[1..])
  }

  lemma {:induction false} EnabledConcat(a: seq<string>, b: seq<string>)
    ensures Enabled(a + b) == Enabled(a) + Enabled(b)
  {
    hide IsDisable;
    if a == [] {
      assert a + b == b;
    } else {
      assert (a + b)[1..] == a[1..] + b;
      EnabledConcat(a[1..], b);
    }
  }

  /** Line by line: only `disable` lines go, all others stay in order. */
  lemma EnabledIsRest(before: seq<string>, line: string)
    ensures Enabled([]) == []
    ensures Enabled(before + [line]) == Enabled(before) + (if Strip(line) == "disable" then [] else [line])
  {
    hide Strip;
    EnabledConcat(before, [line]);
    assert [line][1..] == [];
  }

  /** The file after its user was disabled or enabled; enabling a file that says nothing else leaves
  one empty line. A missing file is only created to disable. */
  function WithDisable(file: Option<seq<string>>, disable: bool): Option<seq<string>> {
    match file
    case None => if disable then Some(["disable"]) else None
    case Some(ls) =>
      if disable then Some(["disable"] + Enabled(ls)) else Some(if Enabled(ls) == [] then [""] else Enabled(ls))
  }

  method UpdateCcdDisable(file: Option<seq<string>>, disable: bool) returns (r: Option<seq<string>>)
    ensures r == WithDisable(file, disable)
  {
    if file.None? {
      return if disable then Some(["disable"]) else None;
    }
    var lines, filtered: seq<string> := file.value, [];
    for i := 0 to |lines|
      invariant filtered == Enabled(lines[..i])
    {
      assert lines[..i + 1] == lines[..i] + [lines[i]];
      EnabledConcat(lines[..i], [lines[i]]);
      assert [lines[i]][1..] == [];
      if !IsDisable(lines[i]) {
        filtered := filtered + [lines[i]];
      }
    }
    assert lines[..|lines|] == lines;
    if disable {
      filtered := ["disable"] + filtered;
    }
    return Some(if filtered == [] then [""] else filtered);
  }

  lemma DisableIsDisable()
    ensures IsDisable("disable") && !IsDisable("") && !IsPush("disable") && !IsPush("")
  {
    hide Words, Strip;
    StripOfWord("disable");
    StripOfWord("");
    WordsOfJoin(["disable"]);
    BlankHasNoWords("");
  }

  lemma {:induction false} EnabledTwice(ls: seq<string>)
    ensures Enabled(Enabled(ls)) == Enabled(ls)
    ensures forall l :: l in Enabled(ls) ==> l in ls && !IsDisable(l)
  {
    hide IsDisable;
    if ls != [] {
      EnabledTwice(ls[1..]);
      EnabledConcat([ls[0]], Enabled(ls[1..]));
      assert [ls[0]][1..] == [];
      assert [] + Enabled(ls[1..]) == Enabled(ls[1..]);
    }
  }

  lemma DisableIsDropped(ls: seq<string>)
    ensures Enabled(["disable"] + ls) == Enabled(ls) && Enabled([]) == []
  {
    DisableIsDisable();
    hide IsDisable;
    assert (["disable"] + ls)[1..] == ls;
  }

  /** Disabling puts one `disable` line in front, and enabling again gives the file that enabling it
  at once would have given. */
  lemma EnableUndoesDisable(file: Option<seq<string>>)
    ensures var off := WithDisable(file, true);
      && off.value[0] == "disable" && Enabled(off.value) == off.value[1..]
      && WithDisable(off, true) == off
      && (file.Some? ==> WithDisable(off, false) == WithDisable(file, false))
  {
    DisableIsDisable();
    hide IsDisable;
    var ls := if file.Some? then file.value else [];
    EnabledTwice(ls);
    DisableIsDropped(Enabled(ls));
    assert (["disable"] + Enabled(ls))[1..] == Enabled(ls);
    hide Enabled;
    assert ["disable"] + [] == ["disable"];
  }

  lemma DisableIsNoPush(line: string)
    requires IsDisable(line)
    ensures !IsPush(line) && !MarkerLike(line)
  {
    var k := LeadingSpace(line);
    var inner := line[k..];
    var n := TrimmedLength(inner);
    assert line[..k] + inner == line && inner == Strip(line) + inner[n..];
    WordsOfTrimmed(Strip(line), inner[n..]);
    LeadingBlank(line);
    DisableIsDisable();
    assert n > 0 && Strip(line)[0] == inner[0] == 'd';
    assert k == 0 ==> inner == line;
  }

  lemma {:induction false} LeadingBlank(line: string)
    ensures Words(line) == Words(LStrip(line))
  {
    assert LeadingSpace(LStrip(line)) == 0;
  }

  lemma {:induction false} EnabledKeepsPushes(ls: seq<string>)
    ensures PushesOf(Enabled(ls)) == PushesOf(ls)
  {
    hide IsPush, IsDisable;
    if ls != [] {
      EnabledKeepsPushes(ls[1..]);
      PushesConcat([ls[0]], Enabled(ls[1..]));
      OneLine(ls[0]);
      assert [] + Enabled(ls[1..]) == Enabled(ls[1..]);
      if IsDisable(ls[0]) {
        DisableIsNoPush(ls[0]);
      }
    }
  }

  lemma {:induction false} EnabledKeepsOrder(ls: seq<string>)
    requires AddressFirst(ls)
    ensures AddressFirst(Enabled(ls))
  {
    hide IsPush, IsDisable, MarkerLike;
    if ls != [] {
      EnabledKeepsOrder(ls[1..]);
      EnabledTwice(ls[1..]);
      if !IsDisable(ls[0]) {
        HeadFirst(ls[0], ls, Enabled(ls[1..]));
      }
    }
  }

  lemma Prepend(line: string, ls: seq<string>)
    requires !MarkerLike(line)
    ensures AddressFirst(ls) ==> AddressFirst([line] + ls)
    ensures !IsPush(line) ==> VirtualIp([line] + ls) == VirtualIp(ls)
  {
    hide IsPush, MarkerLike;
    assert ([line] + ls)[1..] == ls;
  }

  lemma EnabledIsMarked(ls: seq<string>)
    requires WellMarked(ls)
    ensures WellMarked(Enabled(ls))
  {
    hide MarkedLine;
    EnabledTwice(ls);
    var e := Enabled(ls);
    forall i | 0 <= i < |e| ensures MarkedLine(e[i]) {
      assert e[i] in ls;
    }
  }

  /** Disabling and enabling never change the client's address, and leave a well-formed file
  well-formed. */
  lemma DisableKeepsAddress(ls: seq<string>, disable: bool)
    ensures var r := WithDisable(Some(ls), disable).value;
      && VirtualIp(r) == VirtualIp(ls)
      && (AddressFirst(ls) ==> AddressFirst(r))
      && (WellMarked(ls) ==> WellMarked(r))
  {
    hide IsPush, IsDisable, MarkerLike, AddressFirst, MarkedLine;
    var e := Enabled(ls);
    EnabledKeepsPushes(ls);
    if AddressFirst(ls) { EnabledKeepsOrder(ls); }
    if WellMarked(ls) { EnabledIsMarked(ls); }
    VirtualIpIs(ls);
    VirtualIpIs(e);
    DisableIsDisable();
    NotMarkers();
    Prepend("disable", e);
    OneBlankLine();
    if disable {
      assert WithDisable(Some(ls), disable).value == ["disable"] + e;
    }
  }

  lemma NotMarkers()
    ensures !MarkerLike("disable") && !MarkerLike("") && MarkedLine("disable") && MarkedLine("")
  {
    NoHashIsPlain("disable");
    NoHashIsPlain("");
    assert "disable"[0] == 'd';
  }

  lemma OneBlankLine()
    ensures AddressFirst([""]) && VirtualIp([""]) == None
  {
    hide IsPush, MarkerLike, VirtualIp, PushesOf, Words, IsDisable;
    DisableIsDisable();
    OneLine("");
    VirtualIpIs([""]);
  }

  // -------------------------------------------------------------- the address

  function AddressLine(ip: string, mask: string): string {
    "ifconfig-push " + ip + " " + mask
  }

  lemma AddressLineStatesIp(ip: string, mask: string)
    requires ip != "" && NoSpace(ip) && mask != "" && NoSpace(mask)
    ensures IsPush(AddressLine(ip, mask)) && Words(AddressLine(ip, mask)) == ["ifconfig-push", ip, mask]
    ensures !MarkerLike(AddressLine(ip, mask))
  {
    hide Words;
    var line := AddressLine(ip, mask);
    assert line == "ifconfig-push" + " " + (ip + " " + mask);
    WordThen("ifconfig-push", ip + " " + mask);
    WordThen(ip, mask);
    WordsOfJoin([mask]);
    assert line[0] == 'i';
  }

  function ReplaceFirst(ls: seq<string>, line: string): seq<string> {
    if ls == [] then [] else if IsPush(ls[0]) then [line] + Others(ls[1..]) else [ls[0]] + ReplaceFirst(ls[1..], line)
  }

  /** The lines before the final trim: the new line stands where the first address line stood, else
  on top, behind a leading `disable`. */
  function Replaced(ls: seq<string>, line: string): seq<string> {
    if PushesOf(ls) != [] then ReplaceFirst(ls, line)
    else if ls != [] && IsDisable(ls[0]) then [ls[0], line] + ls[1..]
    else [line] + ls
  }

  method ReplaceCcdIfconfigPush(ls: seq<string>, ip: string,
      mask: string) returns (prior: Option<string>, r: seq<string>)
    ensures prior == VirtualIp(ls)
    ensures r == TrimEnd(Replaced(ls, AddressLine(ip, mask)))
  {
    hide Words, TrimEnd, IsDisable;
    var line := AddressLine(ip, mask);
    var output: seq<string> := [];
    prior := None;
    var replaced := false;
    for i := 0 to |ls|
      invariant replaced <==> PushesOf(ls[..i]) != []
      invariant prior == VirtualIp(ls[..i])
      invariant output == if replaced then ReplaceFirst(ls[..i], line) else ls[..i]
    {
      LoopStep(ls, i, line);
      var parts := Words(ls[i]);
      if |parts| >= 2 && parts[0] == "ifconfig-push" {
        if prior.None? {
          prior := Some(parts[1]);
        }
        if !replaced {
          output := output + [line];
          replaced := true;
        }
        continue;
      }
      output := output + [ls[i]];
    }
    assert ls[..|ls|] == ls;
    if !replaced {
      if output != [] && IsDisable(output[0]) {
        output := output[..1] + [line] + output[1..];
        assert output == [ls[0], line] + ls[1..];
      } else {
        output := [line] + output;
      }
    }
    r := TrimEnd(output);
  }

  lemma LoopStep(ls: seq<string>, i: nat, line: string)
    requires i < |ls|
    ensures var before, now := ls[..i], ls[i];
      && ls[..i + 1] == before + [now]
      && PushesOf(ls[..i + 1]) == PushesOf(before) + (if IsPush(now) then [now] else [])
      && VirtualIp(ls[..i + 1]) ==
        (if VirtualIp(before).None? && IsPush(now) then Some(Words(now)[1]) else VirtualIp(before))
      && (VirtualIp(before).None? <==> PushesOf(before) == [])
      && ReplaceFirst(ls[..i + 1], line) ==
        (if PushesOf(before) != [] then ReplaceFirst(before, line) + (if IsPush(now) then [] else [now])
         else before + (if IsPush(now) then [line] else [now]))
  {
    hide IsPush, Words;
    var before, now := ls[..i], ls[i];
    assert ls[..i + 1] == before + [now];
    PushesConcat(before, [now]);
    OneLine(now);
    VirtualIpIs(before);
    VirtualIpIs(before + [now]);
    ReplaceFirstStep(before, now, line);
  }

  lemma ReplaceFirstSplit(head: string, rest: seq<string>, line: string)
    ensures ReplaceFirst([head] + rest, line) ==
      if IsPush(head) then [line] + Others(rest) else [head] + ReplaceFirst(rest, line)
    ensures PushesOf([head] + rest) == (if IsPush(head) then [head] else []) + PushesOf(rest)
  {
    hide IsPush;
    assert ([head] + rest)[1..] == rest;
  }

  lemma {:induction false} ReplaceFirstStep(a: seq<string>, now: string, line: string)
    ensures ReplaceFirst(a + [now], line) ==
      if PushesOf(a) != [] then ReplaceFirst(a, line) + (if IsPush(now) then [] else [now])
      else a + (if IsPush(now) then [line] else [now])
  {
    OneLine(now);
    hide IsPush, Others;
    if a == [] {
      assert a + [now] == [now] && [now][1..] == [];
      NoOthers();
    } else {
      hide PushesOf, ReplaceFirst;
      var rest := a[1..];
      assert a == [a[0]] + rest && a + [now] == [a[0]] + (rest + [now]);
      ReplaceFirstSplit(a[0], rest, line);
      ReplaceFirstSplit(a[0], rest + [now], line);
      if IsPush(a[0]) {
        PushesConcat(rest, [now]);
      } else {
        ReplaceFirstStep(rest, now, line);
      }
    }
  }

  lemma NoOthers()
    ensures Others([]) == []
  {
  }

  lemma {:induction false} ReplaceFirstContents(ls: seq<string>, line: string)
    requires IsPush(line) && PushesOf(ls) != []
    ensures PushesOf(ReplaceFirst(ls, line)) == [line] && Others(ReplaceFirst(ls, line)) == Others(ls)
    ensures forall l :: l in ReplaceFirst(ls, line) ==> l == line || l in ls
    decreases |ls|
  {
    hide IsPush;
    OneLine(line);
    OneLine(ls[0]);
    if IsPush(ls[0]) {
      OthersAreOthers(ls[1..]);
      PushesConcat([line], Others(ls[1..]));
    } else {
      ReplaceFirstContents(ls[1..], line);
      PushesConcat([ls[0]], ReplaceFirst(ls[1..], line));
    }
  }

  lemma {:induction false} OthersAreOthers(ls: seq<string>)
    ensures PushesOf(Others(ls)) == [] && Others(Others(ls)) == Others(ls)
    ensures forall l :: l in Others(ls) ==> l in ls
  {
    hide IsPush;
    if ls != [] {
      OthersAreOthers(ls[1..]);
      PushesConcat([ls[0]], Others(ls[1..]));
      OneLine(ls[0]);
      assert [] + Others(ls[1..]) == Others(ls[1..]);
    }
  }

  lemma InsertedContents(a: seq<string>, line: string, b: seq<string>)
    requires IsPush(line) && PushesOf(a + b) == []
    ensures PushesOf(a + [line] + b) == [line] && Others(a + [line] + b) == Others(a + b)
  {
    hide IsPush, PushesOf, Others;
    OneLine(line);
    PushesConcat(a + [line], b);
    PushesConcat(a, [line]);
    PushesConcat(a, b);
  }

  lemma ReplacedLines(ls: seq<string>, line: string)
    requires IsPush(line)
    ensures PushesOf(Replaced(ls, line)) == [line] && Others(Replaced(ls, line)) == Others(ls)
    ensures forall l :: l in Replaced(ls, line) ==> l == line || l in ls
  {
    hide IsPush, IsDisable, ReplaceFirst, PushesOf, Others;
    if PushesOf(ls) != [] {
      ReplaceFirstContents(ls, line);
    } else {
      var k := if ls != [] && IsDisable(ls[0]) then 1 else 0;
      assert ls == ls[..k] + ls[k..] && Replaced(ls, line) == ls[..k] + [line] + ls[k..];
      InsertedContents(ls[..k], line, ls[k..]);
      hide Replaced;
    }
  }

  /** However many address lines the file had, exactly one is left, it states the new address, and all
  other lines keep their order. */
  lemma ReplacedContents(ls: seq<string>, line: string)
    requires IsPush(line)
    ensures PushesOf(Replaced(ls, line)) == [line] && Others(Replaced(ls, line)) == Others(ls)
    ensures VirtualIp(TrimEnd(Replaced(ls, line))) == Some(Words(line)[1])
    ensures |PushesOf(TrimEnd(Replaced(ls, line)))| == 1
    ensures forall l :: l in Replaced(ls, line) ==> l == line || l in ls
  {
    hide Words, TrimEnd, Replaced;
    ReplacedLines(ls, line);
    VirtualIpIs(Replaced(ls, line));
    TrimKeepsVirtualIp(Replaced(ls, line));
  }

  lemma {:induction false} ReplaceFirstOrder(ls: seq<string>, line: string)
    requires AddressFirst(ls) && IsPush(line) && !MarkerLike(line) && PushesOf(ls) != []
    ensures AddressFirst(ReplaceFirst(ls, line))
    decreases |ls|
  {
    hide IsPush, MarkerLike;
    if IsPush(ls[0]) {
      OthersOrder(ls[1..]);
      Prepend(line, Others(ls[1..]));
    } else {
      var rest := ls[1..];
      OneLine(ls[0]);
      PushesConcat([ls[0]], rest);
      assert ls == [ls[0]] + rest;
      ReplaceFirstOrder(rest, line);
      if MarkerLike(ls[0]) {
        assert NoAddress(rest);
        NothingBehind(rest, MeshMarkers(), false);
        HeadIs(PushesOf(rest));
      } else {
        Prepend(ls[0], ReplaceFirst(rest, line));
      }
    }
  }

  lemma HeadIs(s: seq<string>)
    ensures s != [] ==> s[0] in s
  {
  }

  lemma {:induction false} OthersOrder(ls: seq<string>)
    ensures NoAddress(Others(ls)) && AddressFirst(Others(ls))
  {
    hide IsPush, MarkerLike;
    if ls != [] {
      OthersOrder(ls[1..]);
    }
  }

  /** The edit keeps the file well-formed. */
  lemma ReplacedIsWellFormed(ls: seq<string>, line: string)
    requires AddressFirst(ls) && WellMarked(ls) && IsPush(line) && !MarkerLike(line) && MarkedLine(line)
    ensures AddressFirst(TrimEnd(Replaced(ls, line))) && WellMarked(TrimEnd(Replaced(ls, line)))
  {
    hide IsPush, IsDisable, MarkerLike, MarkedLine, Words, TrimEnd, ReplaceFirst;
    var r := Replaced(ls, line);
    ReplacedContents(ls, line);
    forall i | 0 <= i < |r| ensures MarkedLine(r[i]) {
      assert r[i] in r;
    }
    TrimKeepsMarked(r);
    if PushesOf(ls) != [] {
      ReplaceFirstOrder(ls, line);
    } else if ls != [] && IsDisable(ls[0]) {
      DisableIsNoPush(ls[0]);
      Prepend(line, ls[1..]);
      Prepend(ls[0], [line] + ls[1..]);
      assert r == [ls[0]] + ([line] + ls[1..]);
    } else {
      Prepend(line, ls);
    }
    TrimKeepsAddressFirst(r);
  }
}
