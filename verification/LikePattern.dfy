/** SQL LIKE with `ESCAPE '\'`, on ASCII text without regard to case, and the patterns built for it. */
module LikePattern {
  import opened Text

  predicate SameLetter(a: char, b: char) {
    ToLower(a) == ToLower(b)
  }

  /** Does the text match the pattern? `%` stands for any text, `_` for one character, and a backslash
  takes the special meaning from the character after it. */
  predicate Like(p: string, t: string)
    decreases |p| + |t|
  {
    if p == "" then t == ""
    else if p[0] == '\\' then |p| >= 2 && t != "" && SameLetter(p[1], t[0]) && Like(p[2..], t[1..])
    else if p[0] == '%' then Like(p[1..], t) || (t != "" && Like(p, t[1..]))
    else t != "" && (p[0] == '_' || SameLetter(p[0], t[0])) && Like(p[1..], t[1..])
  }

  /** `text.replace(c, subst)` */
  function Replace(s: string, c: char, subst: string): string {
    if s == "" then "" else (if s[0] == c then subst else [s[0]]) + Replace(s[1..], c, subst)
  }

  lemma {:induction false} ReplaceConcat(a: string, b: string, c: char, subst: string)
    ensures Replace(a + b, c, subst) == Replace(a, c, subst) + Replace(b, c, subst)
  {
    if a == "" {
      assert a + b == b;
    } else {
      assert (a + b)[1..] == a[1..] + b;
      ReplaceConcat(a[1..], b, c, subst);
    }
  }

  function Escaped(s: string): string {
    Replace(Replace(Replace(s, '\\', "\\\\"), '%', "\\%"), '_', "\\_")
  }

  /** `_like_pattern` */
  function Pattern(value: string, mode: string): string {
    var e := Escaped(value);
    if mode == "equals" then e
    else if mode == "startsWith" then e + "%"
    else if mode == "endsWith" then "%" + e
    else "%" + e + "%"
  }

  predicate Special(c: char) {
    c == '\\' || c == '%' || c == '_'
  }

  /** The three replacements in a row escape each special character once: none sees what an earlier
  one inserted. */
  lemma {:induction false} EscapedStep(c: char, s: string)
    ensures Escaped([c] + s) == (if Special(c) then ['\\', c] else [c]) + Escaped(s)
  {
    var one := Replace([c], '\\', "\\\\");
    ReplaceShort([c], '\\', "\\\\");
    assert one == if c == '\\' then "\\\\" else [c];
    var two := Replace(one, '%', "\\%");
    assert two == if c == '\\' then "\\\\" else if c == '%' then "\\%" else [c] by { ReplaceShort(one, '%', "\\%"); }
    var three := Replace(two, '_', "\\_");
    assert three == if Special(c) then ['\\', c] else [c] by { ReplaceShort(two, '_', "\\_"); }
    ReplaceConcat([c], s, '\\', "\\\\");
    ReplaceConcat(one, Replace(s, '\\', "\\\\"), '%', "\\%");
    ReplaceConcat(two, Replace(Replace(s, '\\', "\\\\"), '%', "\\%"), '_', "\\_");
  }

  lemma ReplaceShort(s: string, c: char, subst: string)
    requires 1 <= |s| <= 2
    ensures Replace(s, c, subst) ==
      if |s| == 1 then (if s[0] == c then subst else s)
      else (if s[0] == c then subst else [s[0]]) + (if s[1] == c then subst else [s[1]])
  {
    assert s[1..] == if |s| == 1 then "" else [s[1]];
    if |s| == 2 {
      assert s[1..][1..] == "";
    }
  }

  /** The text begins with the value, letters in any case. */
  predicate Starts(v: string, t: string) {
    |v| <= |t| && Lower(t[..|v|]) == Lower(v)
  }

  /** An escaped value matches itself, then the rest of the pattern takes the rest of the text. */
  lemma {:induction false} EscapedMatches(v: string, rest: string, t: string)
    ensures Like(Escaped(v) + rest, t) <==> Starts(v, t) && Like(rest, t[|v|..])
  {
    if v == "" {
      assert Escaped(v) + rest == rest && t[..0] == "" && t[0..] == t;
    } else {
      EscapedStep(v[0], v[1..]);
      assert v == [v[0]] + v[1..];
      var e := Escaped(v[1..]) + rest;
      assert Escaped(v) + rest == (if Special(v[0]) then ['\\', v[0]] else [v[0]]) + e;
      FirstCharacter(v[0], e, t);
      if t != "" {
        EscapedMatches(v[1..], rest, t[1..]);
        StartsStep(v, t);
        if |v| <= |t| {
          assert t[1..][|v| - 1..] == t[|v|..];
        }
      }
    }
  }

  lemma FirstCharacter(c: char, e: string, t: string)
    ensures Like((if Special(c) then ['\\', c] else [c]) + e, t) <==> t != "" && SameLetter(c, t[0]) && Like(e, t[1..])
  {
    var p := (if Special(c) then ['\\', c] else [c]) + e;
    if Special(c) {
      assert p[0] == '\\' && p[1] == c && p[2..] == e;
    } else {
      assert p[0] == c && p[1..] == e;
    }
  }

  lemma StartsStep(v: string, t: string)
    requires v != "" && t != ""
    ensures Starts(v, t) <==> SameLetter(v[0], t[0]) && Starts(v[1..], t[1..])
  {
    if |v| <= |t| {
      var a, b := Lower(t[..|v|]), Lower(v);
      var c, d := Lower(t[1..][..|v| - 1]), Lower(v[1..]);
      assert a == [ToLower(t[0])] + c && b == [ToLower(v[0])] + d;
      assert a[1..] == c && b[1..] == d;
    }
  }

  lemma {:induction false} PercentMatchesAll(t: string)
    ensures Like("%", t)
  {
    assert "%"[1..] == "";
    if t != "" {
      PercentMatchesAll(t[1..]);
    }
  }

  lemma {:induction false} PercentSkips(p: string, t: string)
    ensures Like("%" + p, t) <==> exists i :: 0 <= i <= |t| && Like(p, t[i..])
  {
    assert ("%" + p)[1..] == p;
    assert t[0..] == t;
    if t != "" {
      PercentSkips(p, t[1..]);
      if i :| 0 <= i <= |t[1..]| && Like(p, t[1..][i..]) {
        assert t[1..][i..] == t[i + 1..];
        assert Like(p, t[i + 1..]);
      }
      if i :| 0 <= i <= |t| && Like(p, t[i..]) {
        if i > 0 {
          assert t[1..][i - 1..] == t[i..];
          assert Like(p, t[1..][i - 1..]);
        }
      }
    } else {
      assert forall i :: 0 <= i <= |t| ==> t[i..] == t;
    }
  }

  /** `right in left` */
  predicate Within(right: string, left: string) {
    exists i :: 0 <= i <= |left| - |right| && left[i..][..|right|] == right
  }

  lemma LowerSlice(t: string, i: nat, n: nat)
    requires i + n <= |t|
    ensures Lower(t[i..][..n]) == Lower(t)[i..][..n]
  {
  }

  /** Under LIKE the pattern means literal equality, prefix, suffix or containment, letters in any
  case, whatever wildcards and backslashes the value holds. */
  lemma PatternMeans(v: string, t: string)
    ensures Like(Pattern(v, "equals"), t) <==> Lower(t) == Lower(v)
    ensures Like(Pattern(v, "startsWith"), t) <==> Lower(v) <= Lower(t)
    ensures Like(Pattern(v, "endsWith"), t) <==> EndsWith(Lower(t), Lower(v))
    ensures forall mode ::
      mode !in {"equals", "startsWith", "endsWith"} ==> (Like(Pattern(v, mode), t) <==> Within(Lower(v), Lower(t)))
  {
    hide Escaped, Like;
    EqualsMeans(v, t);
    StartsMeans(v, t);
    EndsMeans(v, t);
    ContainsMeans(v, t);
  }

  lemma EqualsMeans(v: string, t: string)
    ensures Like(Escaped(v), t) <==> Lower(t) == Lower(v)
  {
    hide Escaped;
    EscapedMatches(v, "", t);
    assert Escaped(v) + "" == Escaped(v);
    if |v| == |t| {
      assert t[..|v|] == t;
    }
  }

  lemma StartsMeans(v: string, t: string)
    ensures Like(Escaped(v) + "%", t) <==> Lower(v) <= Lower(t)
  {
    hide Escaped, Like;
    EscapedMatches(v, "%", t);
    if |v| <= |t| {
      PercentMatchesAll(t[|v|..]);
      LowerSlice(t, 0, |v|);
      assert t[0..] == t && Lower(t)[0..] == Lower(t);
    }
  }

  lemma EndsMeans(v: string, t: string)
    ensures Like("%" + Escaped(v), t) <==> EndsWith(Lower(t), Lower(v))
  {
    hide Escaped, Like;
    PercentSkips(Escaped(v), t);
    forall i | 0 <= i <= |t| ensures Like(Escaped(v), t[i..]) <==> Lower(t[i..]) == Lower(v) {
      EqualsMeans(v, t[i..]);
    }
    if |v| <= |t| {
      var k := |t| - |v|;
      LowerSlice(t, k, |v|);
      assert t[k..][..|v|] == t[k..] && Lower(t)[k..][..|v|] == Lower(t)[k..];
    }
  }

  lemma ContainsMeans(v: string, t: string)
    ensures Like("%" + Escaped(v) + "%", t) <==> Within(Lower(v), Lower(t))
  {
    hide Escaped, Like;
    var p := Escaped(v) + "%";
    assert "%" + Escaped(v) + "%" == "%" + p;
    PercentSkips(p, t);
    forall i | 0 <= i <= |t| ensures Like(p, t[i..]) <==> i <= |t| - |v| && Lower(t)[i..][..|v|] == Lower(v) {
      StartsMeans(v, t[i..]);
      if i <= |t| - |v| {
        LowerSlice(t, i, |v|);
        assert Lower(t[i..])[..|v|] == Lower(t[i..][..|v|]);
      }
    }
  }
}
