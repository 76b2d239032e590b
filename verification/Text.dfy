/** The string operations the control plane uses, on ASCII text. */
module Text {

  predicate IsSpace(c: char) {
    c == ' ' || '\t' <= c <= '\r' || '\U{001C}' <= c <= '\U{001F}'
  }

  predicate AllSpace(s: string) {
    forall i :: 0 <= i < |s| ==> IsSpace(s[i])
  }

  predicate NoSpace(s: string) {
    forall i :: 0 <= i < |s| ==> !IsSpace(s[i])
  }

  /** Length of the leading run of whitespace. */
  function LeadingSpace(s: string): (n: nat)
    ensures n <= |s|
    ensures forall k :: 0 <= k < n ==> IsSpace(s[k])
    ensures n < |s| ==> !IsSpace(s[n])
  {
    if s == "" || !IsSpace(s[0]) then 0 else 1 + LeadingSpace(s[1..])
  }

  /** Length of the text once its trailing whitespace is gone. */
  function TrimmedLength(s: string): (n: nat)
    ensures n <= |s|
    ensures forall k :: n <= k < |s| ==> IsSpace(s[k])
    ensures n > 0 ==> !IsSpace(s[n - 1])
  {
    if s == "" then 0 else if !IsSpace(s[|s| - 1]) then |s| else TrimmedLength(s[..|s| - 1])
  }

  function LStrip(s: string): string {
    s[LeadingSpace(s)..]
  }

  function RStrip(s: string): string {
    s[..TrimmedLength(s)]
  }

  function Strip(s: string): string {
    RStrip(LStrip(s))
  }

  lemma TrimmedIsTrimmed(s: string)
    requires s != "" && !IsSpace(s[|s| - 1])
    ensures RStrip(s) == s
  {
  }

  lemma StripShape(s: string)
    ensures Strip(s) == "" <==> AllSpace(s)
    ensures Strip(s) != "" ==> !IsSpace(Strip(s)[0]) && !IsSpace(Strip(s)[|Strip(s)| - 1])
    ensures Strip(Strip(s)) == Strip(s)
  {
    var l := LStrip(s);
    if l != "" {
      assert l[0] == s[LeadingSpace(s)];
      assert TrimmedLength(l) > 0;
      assert RStrip(l)[0] == l[0];
      assert LeadingSpace(RStrip(l)) == 0;
      TrimmedIsTrimmed(RStrip(l));
    }
  }

  function ToLower(c: char): char {
    if 'A' <= c <= 'Z' then (c as int - 'A' as int + 'a' as int) as char else c
  }

  /** ASCII lower case (`lower`, and `casefold` on ASCII). */
  function Lower(s: string): (r: string)
    ensures |r| == |s|
    ensures forall k :: 0 <= k < |s| ==> r[k] == ToLower(s[k])
  {
    seq(|s|, k requires 0 <= k < |s| => ToLower(s[k]))
  }

  /** The pieces that are not blank, stripped. */
  function NonBlanks(pieces: seq<string>): seq<string> {
    if pieces == [] then []
    else
      var p := Strip(pieces[|pieces| - 1]);
      NonBlanks(pieces[..|pieces| - 1]) + (if p == "" then [] else [p])
  }

  predicate EndsWith(s: string, suffix: string) {
    |suffix| <= |s| && s[|s| - |suffix|..] == suffix
  }

  lemma StripOfWord(s: string)
    requires NoSpace(s)
    ensures Strip(s) == s
  {
    if s != "" {
      assert !IsSpace(s[0]) && !IsSpace(s[|s| - 1]);
    }
  }

  /** Index of the first occurrence, or |s|. */
  function Find(s: string, c: char): (i: nat)
    ensures i <= |s|
    ensures i < |s| ==> s[i] == c
    ensures forall k :: 0 <= k < i ==> s[k] != c
  {
    if s == "" then 0 else if s[0] == c then 0 else 1 + Find(s[1..], c)
  }

  lemma FindIs(s: string, c: char, i: nat)
    requires i < |s| && s[i] == c && forall k :: 0 <= k < i ==> s[k] != c
    ensures Find(s, c) == i
  {
    var f := Find(s, c);
  }

  lemma FindAbsent(s: string, c: char)
    requires c !in s
    ensures Find(s, c) == |s|
  {
  }

  // -------------------------------------------------------- split and join

  function Split(s: string, c: char): (parts: seq<string>)
    ensures |parts| >= 1
    decreases |s|
  {
    var i := Find(s, c);
    if i == |s| then [s] else [s[..i]] + Split(s[i + 1..], c)
  }

  function Join(parts: seq<string>, c: char): string {
    if parts == [] then "" else if |parts| == 1 then parts[0] else parts[0] + [c] + Join(parts[1..], c)
  }

  lemma {:induction false} SplitPieces(s: string, c: char)
    ensures forall p :: p in Split(s, c) ==> c !in p
    decreases |s|
  {
    var i := Find(s, c);
    if i < |s| {
      SplitPieces(s[i + 1..], c);
    }
  }

  lemma {:induction false} SplitOfJoin(parts: seq<string>, c: char)
    requires |parts| >= 1
    requires forall p :: p in parts ==> c !in p
    ensures Split(Join(parts, c), c) == parts
  {
    var s := Join(parts, c);
    if |parts| == 1 {
      assert parts[0] in parts;
      assert parts == [parts[0]];
    } else {
      assert parts[0] in parts;
      var k := |parts[0]|;
      assert s[k] == c;
      assert forall j :: 0 <= j < k ==> s[j] == parts[0][j];
      hide Find;
      FindIs(s, c, k);
      assert s[..k] == parts[0] && s[k + 1..] == Join(parts[1..], c);
      SplitOfJoin(parts[1..], c);
      assert parts == [parts[0]] + parts[1..];
    }
  }

  // ---------------------------------------------------------------- decimals

  predicate IsDigit(c: char) {
    '0' <= c <= '9'
  }

  /** A non-empty run of decimal digits (the pattern `\d+`). */
  predicate Digits(s: string) {
    s != "" && forall i :: 0 <= i < |s| ==> IsDigit(s[i])
  }

  function Decimal(s: string): nat
    requires forall i :: 0 <= i < |s| ==> IsDigit(s[i])
  {
    if s == "" then 0 else
      assert IsDigit(s[|s| - 1]);
      10 * Decimal(s[..|s| - 1]) + (s[|s| - 1] as nat - '0' as nat)
  }

  function DecimalText(n: nat): (s: string)
    ensures Digits(s)
  {
    (if n < 10 then "" else DecimalText(n / 10)) + [('0' as int + n % 10) as char]
  }

  lemma {:induction false} DecimalOfText(n: nat)
    ensures Decimal(DecimalText(n)) == n
  {
    var s := DecimalText(n);
    if n >= 10 {
      DecimalOfText(n / 10);
      assert s[..|s| - 1] == DecimalText(n / 10);
    } else {
      assert s[..|s| - 1] == "";
    }
  }

  // ---------------------------------------------------------------- words

  /** Length of the leading run of non-space characters. */
  function WordLength(s: string): (n: nat)
    ensures n <= |s|
    ensures NoSpace(s[..n])
    ensures n < |s| ==> IsSpace(s[n])
  {
    if s == "" || IsSpace(s[0]) then 0
    else
      var n := 1 + WordLength(s[1..]);
      assert s[..n] == [s[0]] + s[1..][..n - 1];
      n
  }

  /** `s.split()`: the maximal runs of non-space characters, in order. */
  function Words(s: string): (ws: seq<string>)
    ensures forall w :: w in ws ==> w != "" && NoSpace(w)
    decreases |s|
  {
    var r := LStrip(s);
    if r == "" then []
    else
      var n := WordLength(r);
      [r[..n]] + Words(r[n..])
  }

  lemma WordsStep(w: string, tail: string)
    requires w != "" && NoSpace(w) && (tail == "" || IsSpace(tail[0]))
    ensures Words(w + tail) == [w] + Words(tail)
  {
    WordLengthOf(w, tail);
    assert LStrip(w + tail) == w + tail by { assert !IsSpace(w[0]); }
    assert (w + tail)[..|w|] == w && (w + tail)[|w|..] == tail;
  }

  lemma {:induction false} WordsOfJoin(ws: seq<string>)
    requires forall w :: w in ws ==> w != "" && NoSpace(w)
    ensures Words(Join(ws, ' ')) == ws
  {
    if ws != [] {
      assert ws[0] in ws;
      var rest := ws[1..];
      assert ws == [ws[0]] + rest;
      if rest == [] {
        WordsStep(ws[0], "");
        assert ws[0] + "" == ws[0];
      } else {
        var tail := [' '] + Join(rest, ' ');
        assert ws[0] + [' '] + Join(rest, ' ') == ws[0] + tail;
        WordsStep(ws[0], tail);
        assert tail[1..] == Join(rest, ' ');
        WordsSkipsLeadingSpace(tail);
        assert forall v :: v in rest ==> v in ws;
        WordsOfJoin(rest);
      }
    }
  }

  lemma WordsSkipsLeadingSpace(s: string)
    requires s != "" && IsSpace(s[0])
    ensures Words(s) == Words(s[1..])
  {
    assert LStrip(s) == LStrip(s[1..]);
  }

  lemma {:induction false} WordLengthOf(w: string, tail: string)
    requires NoSpace(w) && (tail == "" || IsSpace(tail[0]))
    ensures WordLength(w + tail) == |w|
  {
    if w != "" {
      assert (w + tail)[1..] == w[1..] + tail;
      assert !IsSpace(w[0]);
      WordLengthOf(w[1..], tail);
    } else {
      assert w + tail == tail;
    }
  }

  lemma WordThen(w: string, rest: string)
    requires w != "" && NoSpace(w)
    ensures Words(w + " " + rest) == [w] + Words(rest)
  {
    var tail := " " + rest;
    assert w + " " + rest == w + tail && tail[1..] == rest;
    WordsStep(w, tail);
    WordsSkipsLeadingSpace(tail);
  }
}
