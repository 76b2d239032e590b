/** Column filters of a grid in their two forms: a predicate on rows, and an SQL condition with bound
parameters. Texts are ASCII. */
module GridFilter {
  import opened Wrappers
  import opened Text
  import opened LikePattern

  // ------------------------------------------------------------ filter models

  /** A column filter as the grid sends it: many values, or one text. `values` is absent when it is no
  list; the absent text of a single filter is the empty one. */
  datatype Model =
    | MultiText(values: Option<seq<string>>, kind: string)
    | SingleText(filter: Option<string>, kind: string)

  type Row = string -> string

  /** `_single_filter_match` for texts */
  predicate SingleMatch(text: string, needle: string, kind: string) {
    if kind == "blank" then text == ""
    else if kind == "notBlank" then text != ""
    else if kind == "equals" then Lower(text) == Lower(needle)
    else if kind == "notEqual" then Lower(text) != Lower(needle)
    else if kind == "notContains" then !Within(Lower(needle), Lower(text))
    else if kind == "startsWith" then Lower(needle) <= Lower(text)
    else if kind == "endsWith" then EndsWith(Lower(text), Lower(needle))
    else Within(Lower(needle), Lower(text))
  }

  predicate AnyMatch(text: string, values: seq<string>, kind: string) {
    exists i :: 0 <= i < |values| && SingleMatch(text, values[i], kind)
  }

  predicate AllMatch(text: string, values: seq<string>, kind: string) {
    forall i :: 0 <= i < |values| ==> SingleMatch(text, values[i], kind)
  }

  /** `_model_match` */
  predicate ModelMatch(text: string, m: Model) {
    match m
    case MultiText(None, _) => true
    case MultiText(Some(raw), kind) =>
      var values := NonBlanks(raw);
      if values == [] then true
      else if kind == "containsAll" then AllMatch(text, values, "contains")
      else if kind == "notContainsAny" then AllMatch(text, values, "notContains")
      else if kind == "equalsAny" then AnyMatch(text, values, "equals")
      else AnyMatch(text, values, "contains")
    case SingleText(needle, kind) =>
      SingleMatch(text, if needle.None? then "" else needle.value, kind)
  }

  // -------------------------------------------------------------- SQL form

  datatype Comparison = Equal | NotEqual | IsLike | NotLike

  datatype Fragment = Fragment(column: string, comparison: Comparison)  // one bound parameter each

  datatype Clause = Clause(or: bool, fragments: seq<Fragment>)

  predicate FragmentHolds(f: Fragment, param: string, row: Row) {
    match f.comparison
    case Equal => Lower(row(f.column)) == Lower(param)
    case NotEqual => Lower(row(f.column)) != Lower(param)
    case IsLike => Like(param, row(f.column))
    case NotLike => !Like(param, row(f.column))
  }

  predicate ClauseHolds(c: Clause, params: seq<string>, row: Row)
    requires |params| == |c.fragments|
  {
    if c.or then exists i :: 0 <= i < |params| && FragmentHolds(c.fragments[i], params[i], row)
    else forall i :: 0 <= i < |params| ==> FragmentHolds(c.fragments[i], params[i], row)
  }

  /** Number of parameters that the clauses bind. */
  function Slots(clauses: seq<Clause>): nat {
    if clauses == [] then 0 else Slots(clauses[..|clauses| - 1]) + |clauses[|clauses| - 1].fragments|
  }

  /** All clauses hold, each with its own stretch of the parameters, bound from left to right. */
  predicate WhereHolds(clauses: seq<Clause>, params: seq<string>, row: Row)
    requires |params| == Slots(clauses)
  {
    clauses == [] ||
    (var k := Slots(clauses[..|clauses| - 1]);
     WhereHolds(clauses[..|clauses| - 1], params[..k], row) && ClauseHolds(clauses[|clauses| - 1], params[k..], row))
  }

  datatype Spec = Spec(values: seq<string>, matchType: string, or: bool)

  /** `multi_text_filter_spec` for one field */
  function FilterSpec(m: Model): Option<Spec> {
    match m
    case MultiText(None, _) => None
    case MultiText(Some(raw), kind) =>
      var values := NonBlanks(raw);
      if values == [] then None
      else if kind == "containsAll" then Some(Spec(values, "contains", false))
      else if kind == "notContainsAny" then Some(Spec(values, "notContains", false))
      else if kind == "equalsAny" then Some(Spec(values, "equals", true))
      else Some(Spec(values, "contains", true))
    case SingleText(None, _) => None
    case SingleText(Some(text), kind) => Some(Spec([text], kind, false))
  }

  function ComparisonOf(matchType: string): Comparison {
    if matchType == "equals" then Equal
    else if matchType == "notEqual" then NotEqual
    else if matchType == "notContains" then NotLike
    else IsLike
  }

  function ParamOf(value: string, matchType: string): string {
    if matchType == "equals" || matchType == "notEqual" then value
    else Pattern(value, if matchType == "notContains" then "contains" else matchType)
  }

  /** What a fragment accepts; the kinds without an operator of their own fall back to containment. */
  predicate Accepts(text: string, value: string, matchType: string) {
    if matchType == "blank" || matchType == "notBlank" then Within(Lower(value), Lower(text))
    else SingleMatch(text, value, matchType)
  }

  lemma FragmentMeans(column: string, value: string, matchType: string, row: Row)
    ensures FragmentHolds(Fragment(column, ComparisonOf(matchType)), ParamOf(value, matchType), row) <==>
      Accepts(row(column), value, matchType)
  {
    hide Like, Pattern;
    PatternMeans(value, row(column));
  }

  /** The rows that a spec is meant to accept. */
  predicate SpecAccepts(spec: Spec, text: string) {
    var values := NonBlanks(spec.values);
    values == [] ||
    (if spec.or then exists i :: 0 <= i < |values| && Accepts(text, values[i], spec.matchType)
     else forall i :: 0 <= i < |values| ==> Accepts(text, values[i], spec.matchType))
  }

  class Query {
    var clauses: seq<Clause>
    var params: seq<string>

    constructor ()
      ensures Bound() && clauses == [] && params == []
    {
      clauses, params := [], [];
    }

    ghost predicate Bound()
      reads this
    {
      |params| == Slots(clauses)
    }

    /** `_append_multi_text_clause`: the condition gains exactly what the spec says, and every earlier
    clause keeps its parameters. */
    method AppendMultiTextClause(column: string, spec: Spec)
      requires Bound()
      modifies this
      ensures Bound()
      ensures forall row: Row ::
        WhereHolds(clauses, params, row) <==>
          WhereHolds(old(clauses), old(params), row) && SpecAccepts(spec, row(column))
    {
      hide NonBlanks, ComparisonOf, ParamOf, Accepts, FragmentHolds;
      var normalized := NonBlanks(spec.values);
      if normalized == [] {
        return;
      }
      var fragments: seq<Fragment> := [];
      var added: seq<string> := [];
      for i := 0 to |normalized|
        invariant |fragments| == |added| == i
        invariant forall k :: 0 <= k < i ==> fragments[k] == Fragment(column, ComparisonOf(spec.matchType))
        invariant forall k :: 0 <= k < i ==> added[k] == ParamOf(normalized[k], spec.matchType)
      {
        fragments := fragments + [Fragment(column, ComparisonOf(spec.matchType))];
        added := added + [ParamOf(normalized[i], spec.matchType)];
      }
      var clause := Clause(spec.or, fragments);
      AppendedClause(clauses, params, clause, added);
      forall row: Row ensures ClauseHolds(clause, added, row) <==> SpecAccepts(spec, row(column)) {
        ClauseMeans(clause, added, column, spec, row);
      }
      forall row: Row
        ensures WhereHolds(clauses + [clause], params + added, row) <==>
          WhereHolds(clauses, params, row) && ClauseHolds(clause, added, row)
      {
        AppendedHolds(clauses, params, clause, added, row);
      }
      clauses := clauses + [clause];
      params := params + added;
    }
  }

  lemma AppendedClause(clauses: seq<Clause>, params: seq<string>, c: Clause, added: seq<string>)
    requires |params| == Slots(clauses) && |added| == |c.fragments|
    ensures |params + added| == Slots(clauses + [c])
  {
    assert (clauses + [c])[..|clauses|] == clauses;
  }

  lemma AppendedHolds(clauses: seq<Clause>, params: seq<string>, c: Clause, added: seq<string>, row: Row)
    requires |params| == Slots(clauses) && |added| == |c.fragments|
    ensures |params + added| == Slots(clauses + [c])
    ensures WhereHolds(clauses + [c], params + added, row) <==>
      WhereHolds(clauses, params, row) && ClauseHolds(c, added, row)
  {
    hide ClauseHolds;
    assert (clauses + [c])[..|clauses|] == clauses;
    assert (params + added)[..|params|] == params && (params + added)[|params|..] == added;
  }

  lemma ClauseMeans(c: Clause, added: seq<string>, column: string, spec: Spec, row: Row)
    requires var values := NonBlanks(spec.values);
      && values != [] && |added| == |c.fragments| == |values| && c.or == spec.or
      && forall k ::
        0 <= k < |values| ==>
          c.fragments[k] == Fragment(column, ComparisonOf(spec.matchType)) &&
          added[k] == ParamOf(values[k], spec.matchType)
    ensures ClauseHolds(c, added, row) <==> SpecAccepts(spec, row(column))
  {
    hide NonBlanks, ComparisonOf, ParamOf, Accepts, FragmentHolds;
    var values := NonBlanks(spec.values);
    forall k | 0 <= k < |values|
      ensures FragmentHolds(c.fragments[k], added[k], row) <==> Accepts(row(column), values[k], spec.matchType)
    {
      FragmentMeans(column, values[k], spec.matchType, row);
    }
  }

  // ------------------------------------------------------- equal in meaning

  lemma {:induction false} NonBlanksTwice(texts: seq<string>)
    ensures NonBlanks(NonBlanks(texts)) == NonBlanks(texts)
  {
    hide Strip;
    if texts != [] {
      var front, last := NonBlanks(texts[..|texts| - 1]), texts[|texts| - 1];
      NonBlanksTwice(texts[..|texts| - 1]);
      StripShape(last);
      if Strip(last) != "" {
        assert (front + [Strip(last)])[..|front|] == front;
      } else {
        assert front + [] == front;
      }
    }
  }

  /** For every many-value filter the SQL condition accepts a row exactly when the predicate does;
  a filter that yields no condition accepts every row. */
  lemma MultiTextTranslates(m: Model, text: string)
    requires m.MultiText?
    ensures match FilterSpec(m) case None => ModelMatch(text, m) case Some(spec) => SpecAccepts(spec, text) <==>
      ModelMatch(text, m)
  {
    hide NonBlanks, SingleMatch;
    if m.values.Some? {
      NonBlanksTwice(m.values.value);
      AcceptsIs(text);
    }
  }

  lemma AcceptsIs(text: string)
    ensures forall v, kind ::
      kind != "blank" && kind != "notBlank" ==> (Accepts(text, v, kind) <==> SingleMatch(text, v, kind))
  {
    hide SingleMatch;
  }

  /** The rows that the SQL form of a model accepts; a model without a condition accepts every row. */
  predicate SqlAccepts(m: Model, text: string) {
    match FilterSpec(m)
    case None => true
    case Some(spec) => SpecAccepts(spec, text)
  }

  predicate SqlMatches(fields: seq<(string, Model)>, row: Row) {
    forall i :: 0 <= i < |fields| ==> SqlAccepts(fields[i].1, row(fields[i].0))
  }

  /** Fields of a filter model, each with its condition appended: the WHERE accepts a row exactly when
  the SQL form of every model does, that is, when the row matches every model if all of them translate. */
  method BuildWhere(fields: seq<(string, Model)>) returns (q: Query)
    ensures fresh(q) && q.Bound()
    ensures forall row: Row :: WhereHolds(q.clauses, q.params, row) <==> SqlMatches(fields, row)
    ensures AllTranslate(fields) ==>
      forall row: Row :: WhereHolds(q.clauses, q.params, row) <==> RowMatches(fields, row)
  {
    hide ModelMatch, FilterSpec, SpecAccepts, Translates;
    q := new Query();
    for i := 0 to |fields|
      invariant fresh(q) && q.Bound()
      invariant forall row: Row :: WhereHolds(q.clauses, q.params, row) <==> SqlMatches(fields[..i], row)
    {
      var (column, model) := fields[i];
      var spec := FilterSpec(model);
      forall row: Row
        ensures SqlMatches(fields[..i + 1], row) <==> SqlMatches(fields[..i], row) && SqlAccepts(model, row(column))
      {
        SqlMatchesStep(fields, i, row);
      }
      if spec.Some? {
        q.AppendMultiTextClause(column, spec.value);
      }
    }
    assert fields[..|fields|] == fields;
    if AllTranslate(fields) {
      forall row: Row ensures SqlMatches(fields, row) <==> RowMatches(fields, row) {
        AllMeanTheSame(fields, row);
      }
    }
  }

  /** `row_matches_filter_model` */
  predicate RowMatches(fields: seq<(string, Model)>, row: Row) {
    forall i :: 0 <= i < |fields| ==> ModelMatch(row(fields[i].0), fields[i].1)
  }

  lemma SqlMatchesStep(fields: seq<(string, Model)>, i: nat, row: Row)
    requires i < |fields|
    ensures SqlMatches(fields[..i + 1], row) <==>
      SqlMatches(fields[..i], row) && SqlAccepts(fields[i].1, row(fields[i].0))
  {
    hide SqlAccepts;
    var a, b := fields[..i + 1], fields[..i];
    assert a == b + [fields[i]];
    if SqlMatches(a, row) {
      assert SqlAccepts(a[i].1, row(a[i].0));
      forall k | 0 <= k < |b| ensures SqlAccepts(b[k].1, row(b[k].0)) { assert SqlAccepts(a[k].1, row(a[k].0)); }
    }
  }

  lemma AllMeanTheSame(fields: seq<(string, Model)>, row: Row)
    requires AllTranslate(fields)
    ensures SqlMatches(fields, row) <==> RowMatches(fields, row)
  {
    hide SqlAccepts, ModelMatch, Translates;
    forall i | 0 <= i < |fields|
      ensures SqlAccepts(fields[i].1, row(fields[i].0)) <==> ModelMatch(row(fields[i].0), fields[i].1)
    {
      ModelTranslates(fields[i].1, row(fields[i].0));
    }
  }

  // ------------------------------------------------ single-text filters

  /** The SQL form strips the text and knows no blank tests; the predicate does neither. */
  predicate Translatable(v: string, kind: string) {
    && kind != "blank" && kind != "notBlank"
    && (if v == "" then kind != "equals" && kind != "notEqual" && kind != "notContains" else Strip(v) == v)
  }

  /** An absent text is the empty one to the predicate, and no condition at all to SQL. */
  predicate Translates(m: Model) {
    match m
    case MultiText(_, _) => true
    case SingleText(None, kind) => Translatable("", kind)
    case SingleText(Some(v), kind) => Translatable(v, kind)
  }

  predicate AllTranslate(fields: seq<(string, Model)>) {
    forall i :: 0 <= i < |fields| ==> Translates(fields[i].1)
  }

  lemma OneNonBlank(v: string)
    ensures NonBlanks([v]) == if Strip(v) == "" then [] else [Strip(v)]
  {
    assert [v][..0] == [];
    assert NonBlanks([]) == [];
  }

  lemma SpecOfOne(v: string, kind: string, text: string)
    ensures SpecAccepts(Spec([v], kind, false), text) <==> Strip(v) == "" || Accepts(text, Strip(v), kind)
  {
    hide Accepts, Strip, NonBlanks;
    OneNonBlank(v);
    var values := NonBlanks([v]);
    if Strip(v) != "" {
      assert values[0] == Strip(v);
    }
  }

  lemma SingleTextTranslates(v: string, kind: string, text: string)
    requires Translatable(v, kind)
    ensures SpecAccepts(Spec([v], kind, false), text) <==> SingleMatch(text, v, kind)
  {
    SpecOfOne(v, kind, text);
    if v == "" {
      assert Lower(text)[0..][..0] == "" && Lower("") == "";
    }
  }

  lemma ShorterHoldsNot(left: string, right: string)
    requires |left| < |right|
    ensures !Within(Lower(right), Lower(left)) && Lower(left) != Lower(right) && !(Lower(right) <= Lower(left))
    ensures !EndsWith(Lower(left), Lower(right))
  {
  }

  lemma HoldsItself(v: string)
    ensures Within(Lower(v), Lower(v)) && Lower(v) <= Lower(v) && EndsWith(Lower(v), Lower(v))
  {
    assert Lower(v)[0..][..|v|] == Lower(v);
  }

  lemma StripIsShorter(v: string)
    ensures |Strip(v)| <= |v| && (|Strip(v)| == |v| ==> Strip(v) == v)
  {
    var l := LStrip(v);
    if LeadingSpace(v) == 0 {
      assert l == v;
    }
    if TrimmedLength(l) == |l| {
      assert RStrip(l) == l;
    }
  }

  /** Any other single text has a row on which the two forms differ. */
  lemma SingleTextDiffers(v: string, kind: string) returns (text: string)
    requires !Translatable(v, kind)
    ensures SpecAccepts(Spec([v], kind, false), text) != SingleMatch(text, v, kind)
  {
    var w := Strip(v);
    StripIsShorter(v);
    StripOfWord("");
    if kind == "blank" || kind == "notBlank" {
      text := BlankTestDiffers(v, kind);
    } else if w == "" {
      text := if kind == "notEqual" || kind == "notContains" then v else if v == "" then "x" else "";
      ShorterHoldsNot("", "x");
      HoldsItself(v);
      if v != "" { ShorterHoldsNot("", v); }
      SpecOfOne(v, kind, text);
    } else {
      text := w;
      ShorterHoldsNot(w, v);
      HoldsItself(w);
      SpecOfOne(v, kind, text);
    }
  }

  lemma BlankTestDiffers(v: string, kind: string) returns (text: string)
    requires kind == "blank" || kind == "notBlank"
    ensures SpecAccepts(Spec([v], kind, false), text) != SingleMatch(text, v, kind)
  {
    var w := Strip(v);
    if w == "" {
      text := if kind == "blank" then "x" else "";
    } else if kind == "blank" {
      text := "";
      ShorterHoldsNot("", w);
    } else {
      text := if |w| > 1 || ToLower(w[0]) == 'b' then "a" else "b";
      if |w| > 1 {
        ShorterHoldsNot(text, w);
      } else {
        OtherLetter(w, text);
      }
    }
    SpecOfOne(v, kind, text);
  }

  lemma OtherLetter(w: string, text: string)
    requires |w| == 1 && |text| == 1 && ToLower(w[0]) != ToLower(text[0])
    ensures !Within(Lower(w), Lower(text))
  {
    assert Lower(text)[0..][..1] == Lower(text);
    assert Lower(text)[0] == ToLower(text[0]) && Lower(w)[0] == ToLower(w[0]);
  }

  /** An absent text is translated as the empty one: both give no condition. */
  lemma AbsentIsEmpty(kind: string, text: string)
    ensures SpecAccepts(Spec([""], kind, false), text)
    ensures ModelMatch(text, SingleText(None, kind)) <==> SingleMatch(text, "", kind)
  {
    StripOfWord("");
    SpecOfOne("", kind, text);
  }

  lemma ModelTranslates(m: Model, text: string)
    requires Translates(m)
    ensures SqlAccepts(m, text) <==> ModelMatch(text, m)
  {
    hide SpecAccepts, SingleMatch, Translatable;
    match m {
      case MultiText(_, _) => MultiTextTranslates(m, text);
      case SingleText(None, kind) =>
        AbsentIsEmpty(kind, text);
        SingleTextTranslates("", kind, text);
      case SingleText(Some(v), kind) => SingleTextTranslates(v, kind, text);
    }
  }

  /** Exactly the translatable models mean the same in SQL and as a predicate, whatever the text. */
  lemma TranslatesExactlyWhen(m: Model)
    ensures (forall text :: SqlAccepts(m, text) <==> ModelMatch(text, m)) <==> Translates(m)
  {
    hide SpecAccepts, SingleMatch, Translatable, SqlAccepts, ModelMatch;
    if Translates(m) {
      forall text ensures SqlAccepts(m, text) <==> ModelMatch(text, m) {
        ModelTranslates(m, text);
      }
    } else {
      var text := ModelDiffers(m);
    }
  }

  /** Any other model has a text on which the two forms differ. */
  lemma ModelDiffers(m: Model) returns (text: string)
    requires !Translates(m)
    ensures SqlAccepts(m, text) != ModelMatch(text, m)
  {
    hide SpecAccepts, SingleMatch, Translatable;
    var v := if m.filter.None? then "" else m.filter.value;
    text := SingleTextDiffers(v, m.kind);
    if m.filter.None? {
      AbsentIsEmpty(m.kind, text);
    }
  }
}
