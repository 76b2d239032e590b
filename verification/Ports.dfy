/** Destination port texts: what an operator may type, what is stored, and what the kernel reads. A typed
text is a single port, a range written `80:443` or `80-443`, or several of these separated by commas. The
stored text is the canonical one: no blanks, ranges with a colon. */
module Ports {
  import opened Wrappers
  import opened Text

  datatype PortError = BadSyntax(token: string) | OutOfRange(port: nat) | Reversed(lo: nat, hi: nat)

  datatype Range = Range(lo: nat, hi: nat)

  const MAX_PORT: nat := 65535

  /** `80-443` becomes `80:443`; every other token is returned unchanged. */
  function NormalizeRangeToken(token: string): string {
    var i := Find(token, '-');
    if i < |token| && Digits(token[..i]) && Digits(token[i + 1..])
    then token[..i] + ":" + token[i + 1..]
    else token
  }

  /** The numbers a token in iptables notation stands for. */
  function ParseToken(token: string): Option<Range> {
    var i := Find(token, ':');
    if i == |token| then
      if Digits(token) then Some(Range(Decimal(token), Decimal(token))) else None
    else if Digits(token[..i]) && Digits(token[i + 1..]) then
      Some(Range(Decimal(token[..i]), Decimal(token[i + 1..])))
    else None
  }

  function ValidateToken(token: string): Result<string, PortError> {
    var t := NormalizeRangeToken(token);
    match ParseToken(t)
    case None => Err(BadSyntax(t))
    case Some(r) =>
      if !(1 <= r.lo <= MAX_PORT) then Err(OutOfRange(r.lo))
      else if !(1 <= r.hi <= MAX_PORT) then Err(OutOfRange(r.hi))
      else if r.lo > r.hi then Err(Reversed(r.lo, r.hi))
      else Ok(t)
  }

  /** Validated pieces in order; the first bad piece is the error. */
  function ValidatePieces(pieces: seq<string>): Result<seq<string>, PortError> {
    if pieces == [] then Ok([])
    else
      match ValidatePieces(pieces[..|pieces| - 1])
      case Err(e) => Err(e)
      case Ok(done) =>
        var p := Strip(pieces[|pieces| - 1]);
        if p == "" then Ok(done)
        else
          match ValidateToken(p)
          case Err(e) => Err(e)
          case Ok(t) => Ok(done + [t])
  }

  function ValidateText(text: string): Result<string, PortError> {
    if ',' in text then
      match ValidatePieces(Split(text, ','))
      case Err(e) => Err(e)
      case Ok(parts) => Ok(Join(parts, ','))
    else ValidateToken(text)
  }

  /** The field validator of `dest_port`: absent and blank values become absent. */
  function DestPort(v: Option<string>): Result<Option<string>, PortError> {
    match v
    case None => Ok(None)
    case Some(raw) =>
      var text := Strip(raw);
      if text == "" then Ok(None)
      else
        match ValidateText(text)
        case Err(e) => Err(e)
        case Ok(t) => Ok(Some(t))
  }

  method ValidateDestPort(v: Option<string>) returns (r: Result<Option<string>, PortError>)
    ensures r == DestPort(v)
  {
    hide ValidateToken, Strip, Split, Join;
    if v.None? {
      return Ok(None);
    }
    var text := Strip(v.value);
    if text == "" {
      return Ok(None);
    }
    if ',' in text {
      var pieces := Split(text, ',');
      var parts: seq<string> := [];
      for i := 0 to |pieces|
        invariant ValidatePieces(pieces[..i]) == Ok(parts)
      {
        assert pieces[..i + 1][..i] == pieces[..i];
        var p := Strip(pieces[i]);
        if p == "" {
          continue;
        }
        var norm := ValidateToken(p);
        if norm.Err? {
          ErrorPersists(pieces, i + 1);
          return Err(norm.error);
        }
        parts := parts + [norm.value];
      }
      assert pieces[..|pieces|] == pieces;
      return Ok(Some(Join(parts, ',')));
    }
    var t := ValidateToken(text);
    match t {
      case Err(e) => return Err(e);
      case Ok(norm) => return Ok(Some(norm));
    }
  }

  lemma {:induction false} ErrorPersists(pieces: seq<string>, i: nat)
    requires i <= |pieces| && ValidatePieces(pieces[..i]).Err?
    ensures ValidatePieces(pieces) == ValidatePieces(pieces[..i])
  {
    if i < |pieces| {
      var front := pieces[..|pieces| - 1];
      assert front[..i] == pieces[..i];
      ErrorPersists(front, i);
    } else {
      assert pieces[..i] == pieces;
    }
  }

  // ------------------------------------------------------------- meaning

  predicate InRange(r: Option<Range>, port: nat) {
    r.Some? && r.value.lo <= port <= r.value.hi
  }

  /** How an operator reads a text: any of its pieces, in either range notation. */
  predicate OperatorReads(text: string, port: nat) {
    exists p :: p in Split(text, ',') && PieceReads(p, port)
  }

  /** How `--dport` and `--dports` read their argument. */
  predicate KernelReads(text: string, port: nat) {
    exists p :: p in Split(text, ',') && InRange(ParseToken(p), port)
  }

  /** A number, a colon or a dash, and a number. */
  predicate RangeAt(token: string, i: nat) {
    i < |token| && (token[i] == ':' || token[i] == '-') && Digits(token[..i]) && Digits(token[i + 1..])
  }

  /** A token is acceptable: a port or an increasing range, all in 1..65535. */
  predicate GoodToken(token: string) {
    || (Digits(token) && 1 <= Decimal(token) <= MAX_PORT)
    || (exists i :: 0 <= i < |token| && RangeAt(token, i) &&
          1 <= Decimal(token[..i]) <= Decimal(token[i + 1..]) <= MAX_PORT)
  }

  /** The port is the number, or lies between the two numbers. */
  predicate TokenReads(token: string, port: nat) {
    || (Digits(token) && port == Decimal(token))
    || (exists i :: 0 <= i < |token| && RangeAt(token, i) && Decimal(token[..i]) <= port <= Decimal(token[i + 1..]))
  }

  predicate BlankPiece(p: string) {
    Strip(p) == ""
  }

  /** Stored form of one token. */
  predicate CanonicalToken(t: string) {
    t != "" && NoSpace(t) && ',' !in t && '-' !in t && ParseToken(t).Some? && GoodToken(t)
  }

  lemma DigitsHaveNoSeparators(s: string)
    requires Digits(s)
    ensures NoSpace(s) && ',' !in s && '-' !in s && ':' !in s
  {
  }

  lemma NoDashUnchanged(t: string)
    requires '-' !in t
    ensures NormalizeRangeToken(t) == t
  {
    FindAbsent(t, '-');
  }

  lemma ParsedTokenIsClean(t: string)
    requires ParseToken(t).Some?
    ensures t != "" && NoSpace(t) && ',' !in t && '-' !in t
  {
    var i := Find(t, ':');
    if i == |t| {
      DigitsHaveNoSeparators(t);
    } else {
      DigitsHaveNoSeparators(t[..i]);
      DigitsHaveNoSeparators(t[i + 1..]);
      assert t == t[..i] + [':'] + t[i + 1..];
    }
  }

  lemma ValidTokenIsCanonical(token: string)
    ensures ValidateToken(token).Ok? <==> GoodToken(token)
    ensures ValidateToken(token).Ok? ==>
      && CanonicalToken(ValidateToken(token).value)
      && ParseToken(ValidateToken(token).value) == ParseToken(NormalizeRangeToken(token))
      && ValidateToken(ValidateToken(token).value) == ValidateToken(token)
  {
    TokenIs(token);
    hide ParseToken, NormalizeRangeToken, GoodToken, TokenReads, InRange;
    if ValidateToken(token).Ok? {
      var t := NormalizeRangeToken(token);
      ParsedTokenIsClean(t);
      NoDashUnchanged(t);
      TokenIs(t);
    }
  }

  lemma {:induction false} ValidPiecesMeaning(pieces: seq<string>)
    ensures ValidatePieces(pieces).Ok? <==> forall p :: p in pieces ==> BlankPiece(p) || GoodToken(Strip(p))
    ensures ValidatePieces(pieces).Ok? ==>
      && (forall t :: t in ValidatePieces(pieces).value ==> CanonicalToken(t))
      && (ValidatePieces(pieces).value == [] <==> forall p :: p in pieces ==> BlankPiece(p))
  {
    if pieces != [] {
      var front, last := pieces[..|pieces| - 1], pieces[|pieces| - 1];
      ValidPiecesMeaning(front);
      assert pieces == front + [last];
      ValidTokenIsCanonical(Strip(last));
    }
  }

  predicate PieceReads(p: string, port: nat) {
    TokenReads(Strip(p), port)
  }

  lemma DigitsBefore(t: string, i: nat)
    requires RangeAt(t, i)
    ensures Find(t, t[i]) == i && !Digits(t) && forall c :: (c == ':' || c == '-') && c != t[i] ==> c !in t
    ensures forall j :: 0 <= j < |t| && RangeAt(t, j) ==> j == i
  {
    DigitsHaveNoSeparators(t[..i]);
    DigitsHaveNoSeparators(t[i + 1..]);
    assert t == t[..i] + [t[i]] + t[i + 1..];
    forall k | 0 <= k < |t| && k != i ensures IsDigit(t[k]) {
      if k < i { assert t[k] == t[..i][k]; } else { assert t[k] == t[i + 1..][k - i - 1]; }
    }
    FindIs(t, t[i], i);
  }

  /** The two numbers of a range, whichever way it is written. */
  lemma RangeIsParsed(t: string, i: nat)
    requires RangeAt(t, i)
    ensures ParseToken(NormalizeRangeToken(t)) == Some(Range(Decimal(t[..i]), Decimal(t[i + 1..])))
  {
    DigitsBefore(t, i);
    var n := NormalizeRangeToken(t);
    if t[i] == ':' {
      FindAbsent(t, '-');
    } else {
      assert n == t[..i] + ":" + t[i + 1..];
      assert n[..i] == t[..i] && n[i + 1..] == t[i + 1..] && n[i] == ':';
      assert RangeAt(n, i);
      DigitsBefore(n, i);
    }
  }

  lemma NumberIsParsed(t: string)
    requires Digits(t)
    ensures ParseToken(NormalizeRangeToken(t)) == Some(Range(Decimal(t), Decimal(t)))
    ensures forall j :: 0 <= j < |t| ==> !RangeAt(t, j)
  {
    DigitsHaveNoSeparators(t);
    FindAbsent(t, '-');
    FindAbsent(t, ':');
  }

  lemma ParsedIsNumberOrRange(t: string)
    requires ParseToken(NormalizeRangeToken(t)).Some?
    ensures Digits(t) || exists i :: 0 <= i < |t| && RangeAt(t, i)
  {
    var n, d := NormalizeRangeToken(t), Find(t, '-');
    var i := Find(n, ':');
    if n == t {
      if i < |t| { assert RangeAt(t, i); }
    } else {
      assert RangeAt(t, d);
    }
  }

  /** What the two steps of the validator make of a token is what a reader makes of it. */
  lemma TokenIs(t: string)
    ensures var r := ParseToken(NormalizeRangeToken(t));
      && (GoodToken(t) <==> r.Some? && 1 <= r.value.lo <= r.value.hi <= MAX_PORT)
      && forall port :: InRange(r, port) <==> TokenReads(t, port)
  {
    hide ParseToken, NormalizeRangeToken, Digits, RangeAt;
    if Digits(t) {
      NumberIsParsed(t);
    } else if i :| 0 <= i < |t| && RangeAt(t, i) {
      RangeIsParsed(t, i);
      OneRange(t, i);
    } else if ParseToken(NormalizeRangeToken(t)).Some? {
      ParsedIsNumberOrRange(t);
    }
  }

  lemma OneRange(t: string, i: nat)
    requires RangeAt(t, i)
    ensures forall j :: 0 <= j < |t| && RangeAt(t, j) ==> j == i
  {
    DigitsBefore(t, i);
  }

  lemma PieceMeaning(p: string, port: nat)
    ensures BlankPiece(p) ==> !PieceReads(p, port)
    ensures ValidateToken(Strip(p)).Ok? ==>
      (InRange(ParseToken(ValidateToken(Strip(p)).value), port) <==> PieceReads(p, port))
  {
    hide GoodToken, TokenReads, ParseToken, NormalizeRangeToken, Strip;
    ValidTokenIsCanonical(Strip(p));
    TokenIs(Strip(p));
    TokenIs("");
    EmptyReadsNothing();
  }

  lemma EmptyReadsNothing()
    ensures forall port :: !TokenReads("", port)
  {
  }

  lemma {:induction false} ValidPiecesReading(pieces: seq<string>, port: nat)
    requires ValidatePieces(pieces).Ok?
    ensures (exists t :: t in ValidatePieces(pieces).value && InRange(ParseToken(t), port))
       <==> (exists p :: p in pieces && PieceReads(p, port))
  {
    hide ParseToken, ValidateToken, Strip, InRange, PieceReads;
    if pieces != [] {
      var front, last := pieces[..|pieces| - 1], pieces[|pieces| - 1];
      ValidPiecesReading(front, port);
      assert pieces == front + [last];
      PieceMeaning(last, port);
    }
  }

  lemma {:induction false} ValidPiecesAgain(parts: seq<string>)
    requires forall t :: t in parts ==> CanonicalToken(t)
    ensures ValidatePieces(parts) == Ok(parts)
  {
    if parts != [] {
      var front, last := parts[..|parts| - 1], parts[|parts| - 1];
      assert parts == front + [last];
      assert last in parts;
      assert forall t :: t in front ==> t in parts;
      ValidPiecesAgain(front);
      StripOfWord(last);
      CanonicalIsValid(last);
      hide ValidateToken, CanonicalToken, Strip;
    }
  }

  lemma CanonicalIsValid(t: string)
    requires CanonicalToken(t)
    ensures ValidateToken(t) == Ok(t)
  {
    NoDashUnchanged(t);
    TokenIs(t);
  }

  /** Every piece is a port or an increasing range, or blank among commas. */
  predicate ReadableText(raw: string) {
    Strip(raw) == "" || forall p :: p in Split(Strip(raw), ',') ==> GoodToken(Strip(p)) || (BlankPiece(p) && ',' in raw)
  }

  /** A typed text is accepted exactly when it is readable. */
  lemma AcceptedTexts(raw: string)
    ensures DestPort(Some(raw)).Ok? <==> ReadableText(raw)
  {
    if Strip(raw) == "" {
      return;
    }
    var text := Strip(raw);
    StripShape(raw);
    CommaSurvivesStrip(raw);
    if ',' in text {
      ValidPiecesMeaning(Split(text, ','));
    } else {
      NoCommaSplit(text);
      ValidTokenIsCanonical(text);
      assert text in [text];
    }
  }

  lemma NoCommaIn(blank: string)
    requires AllSpace(blank)
    ensures ',' !in blank
  {
  }

  lemma CommaInPart(s: string, k: nat)
    requires k <= |s|
    ensures ',' in s <==> ',' in s[..k] || ',' in s[k..]
  {
    assert s == s[..k] + s[k..];
  }

  lemma CommaSurvivesStrip(raw: string)
    ensures ',' in raw <==> ',' in Strip(raw)
  {
    var k := LeadingSpace(raw);
    var n := TrimmedLength(raw[k..]);
    NoCommaIn(raw[..k]);
    NoCommaIn(raw[k..][n..]);
    hide LeadingSpace, TrimmedLength, AllSpace;
    CommaInPart(raw, k);
    CommaInPart(raw[k..], n);
  }

  lemma NoCommaSplit(text: string)
    requires ',' !in text
    ensures Split(text, ',') == [text]
  {
    FindAbsent(text, ',');
  }

  /** Stored texts are fixed points of the validator, and the kernel reads from them exactly the
  ports the operator typed. The one exception is a text of commas and blanks only: it is stored
  as the empty text, which no longer restricts the port. */
  lemma StoredTextKeepsPorts(raw: string, port: nat)
    requires Strip(raw) != "" && DestPort(Some(raw)).Ok?
    ensures var t := DestPort(Some(raw)).value;
      && t.Some?
      && (t.value == "" <==> forall p :: p in Split(Strip(raw), ',') ==> BlankPiece(p))
      && (t.value != "" ==> DestPort(t) == Ok(t) && Strip(t.value) == t.value)
      && (KernelReads(t.value, port) <==> OperatorReads(Strip(raw), port))
  {
    hide TokenReads, GoodToken, ParseToken, NormalizeRangeToken, InRange, CanonicalToken;
    var text := Strip(raw);
    StripShape(raw);
    if ',' in text {
      var pieces := Split(text, ',');
      var parts := ValidatePieces(pieces).value;
      ValidPiecesMeaning(pieces);
      ValidPiecesReading(pieces, port);
      StoredPartsKeepPorts(parts, port);
    } else {
      OneTokenKeepsPorts(text, port);
    }
  }

  lemma OneTokenKeepsPorts(text: string, port: nat)
    requires ',' !in text && text != "" && Strip(text) == text && ValidateToken(text).Ok?
    ensures var t := ValidateToken(text).value;
      && t != "" && Strip(t) == t && DestPort(Some(t)) == Ok(Some(t))
      && (KernelReads(t, port) <==> OperatorReads(text, port))
    ensures !(forall p :: p in Split(text, ',') ==> BlankPiece(p))
  {
    hide TokenReads, GoodToken, ParseToken, NormalizeRangeToken, InRange;
    NoCommaSplit(text);
    ValidTokenIsCanonical(text);
    var t := ValidateToken(text).value;
    StripOfWord(t);
    NoCommaSplit(t);
    TokenIs(text);
    assert text in [text] && t in [t];
  }

  lemma StoredPartsKeepPorts(parts: seq<string>, port: nat)
    requires forall t :: t in parts ==> CanonicalToken(t)
    ensures Join(parts, ',') == "" <==> parts == []
    ensures parts != [] ==> DestPort(Some(Join(parts, ','))) == Ok(Some(Join(parts, ',')))
    ensures parts != [] ==> Strip(Join(parts, ',')) == Join(parts, ',')
    ensures KernelReads(Join(parts, ','), port) <==> exists t :: t in parts && InRange(ParseToken(t), port)
  {
    var s := Join(parts, ',');
    if parts == [] {
      NoCommaSplit("");
      assert ParseToken("").None?;
    } else {
      assert parts[0] in parts;
      SplitOfJoin(parts, ',');
      JoinHasNoSpace(parts);
      StripOfWord(s);
      ValidPiecesAgain(parts);
      if ',' !in s {
        NoCommaSplit(s);
        assert parts == [s];
        assert s in parts;
        NoDashUnchanged(s);
      }
    }
  }

  lemma {:induction false} JoinHasNoSpace(parts: seq<string>)
    requires forall t :: t in parts ==> NoSpace(t)
    ensures NoSpace(Join(parts, ','))
  {
    if parts != [] {
      assert parts[0] in parts;
      assert forall t :: t in parts[1..] ==> t in parts;
      JoinHasNoSpace(parts[1..]);
    }
  }

  lemma CommaPieces()
    ensures Split(",", ',') == ["", ""] && ValidatePieces(["", ""]) == Ok([])
  {
    assert ","[..0] == "" && ","[1..] == "";
    assert Split("", ',') == [""];
    hide Split;
    StripOfWord("");
    assert ["", ""][..1] == [""] && [""][..0] == [];
    assert ValidatePieces([]) == Ok([]);
    assert ValidatePieces([""]) == Ok([]);
  }

  /** A single comma passes, names no port, and is stored as the empty text. */
  lemma CommaIsStoredEmpty()
    ensures DestPort(Some(",")) == Ok(Some(""))
    ensures forall port :: !OperatorReads(",", port)
  {
    hide Split, ValidatePieces, Strip, PieceReads;
    CommaPieces();
    assert Strip(",") == "," by { StripOfWord(","); }
    forall port ensures !PieceReads("", port) { BlankReadsNothing(port); }
    assert DestPort(Some(",")) == Ok(Some(Join([], ',')));
  }

  lemma BlankReadsNothing(port: nat)
    ensures !PieceReads("", port)
  {
    StripOfWord("");
  }
}
