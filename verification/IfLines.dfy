/** #if lines from end to end: macro expansion, evaluation and the choice of branches. */
module IfLines {
  import opened Options
  import opened CondExpr
  import opened CondExprCorrect
  import opened CondExprPrint
  import opened CondExprStandard
  import M = MacroExpand
  import K = Conditionals
  import B = ConditionalsBalance
  import BC = ConditionalsCorrect

  /** The macro table as the evaluator sees it. */
  function AsMacros(env: M.Env): Macros {
    map x | x in env :: Macro(true, env[x])
  }

  function Expanded(env: M.Env, site: M.Site, text: string): string {
    M.Output(M.ExpandTokens(env, site, M.Tokens(text, 0, M.Opens(env, {})), {}), site)
  }

  /** The value of a condition, its macros expanded first. */
  function IfValue(env: M.Env, site: M.Site, text: string): Result {
    Condition(AsMacros(env), Expanded(env, site, text))
  }

  ghost predicate AllEnabled(defs: seq<M.MacroDef>)
    reads set d | d in defs
  {
    forall d :: d in defs ==> !d.disabled
  }

  lemma NoneDisabled(defs: seq<M.MacroDef>)
    requires AllEnabled(defs)
    ensures M.Disabled(defs) == {}
  {
  }

  /** What the source does on an #if or #elif line whose condition is needed. */
  method EvaluateIf(defs: seq<M.MacroDef>, text: string, site: M.Site) returns (r: Result)
    requires M.TableOk(defs) && AllEnabled(defs)
    modifies set d | d in defs
    ensures AllEnabled(defs)
    ensures r == IfValue(M.EnvOf(defs), site, text)
  {
    NoneDisabled(defs);
    hide M.ExpandTokens, M.Tokens, M.Output, M.EnvOf, Ternary, Skip;
    var env := M.EnvOf(defs);
    var expanded := M.ExpandMacrosText(defs, text, site);
    var i := SkipBlanks(expanded, 0);
    var v := EvalTernary(AsMacros(env), expanded, i);
    if v.Fail? { return v.why; }
    i := SkipBlanks(expanded, v.pos);
    if i < |expanded| { return Fatal; }
    return Truth(v.v != 0);
  }

  /** The text expands to the expression e, with blanks around it. */
  ghost predicate Spells(env: M.Env, site: M.Site, text: string, e: Written) {
    Grammatical(e) && exists before, after :: All(Blank, before) && All(Blank, after) && Expanded(env, site, text) == before + (Text(e) + after)
  }

  /** A condition that expands to e has the strict value of e; where C defines a value for e, its literals are plain and
      the names left read 0, that is C's value exactly if the operands that C leaves out have values. */
  lemma IfCorrect(env: M.Env, site: M.Site, text: string, e: Written)
    requires Spells(env, site, text, e)
    ensures var m := AsMacros(env);
      && IfValue(env, site, text) == Tested(Meaning(m, e))
      && (Spared(m, e) && Standard(m, e).Known? ==> (IfValue(env, site, text) == Tested(Standard(m, e)) <==> Harmless(m, e)))
  {
    hide Condition, Text, Meaning, Standard, Harmless, Expanded, Grammatical, Spared;
    var m := AsMacros(env);
    var before, after :| All(Blank, before) && All(Blank, after) && Expanded(env, site, text) == before + (Text(e) + after);
    ConditionCorrect(m, before, e, after);
    if Spared(m, e) && Standard(m, e).Known? { StandardExact(m, e); }
  }

  /** Why the names matter: with A defined as 1-A, the condition A expands to 1-A; C reads 1 - 0, the evaluator 1 - 1. */
  lemma SelfReference(site: M.Site)
    ensures var env, e := map["A" := "1-A"], Infix(Literal("", "1", ""), "", Sub, "", Name("A"));
      && Spells(env, site, "A", e) && Standard(AsMacros(env), e) == Known(1) && IfValue(env, site, "A") == Known(0)
  {
    var env, e := map["A" := "1-A"], Infix(Literal("", "1", ""), "", Sub, "", Name("A"));
    SelfSpelt(env, site, e);
    SelfValues(AsMacros(env), e);
    hide *;
    IfCorrect(env, site, "A", e);
  }

  lemma SelfSpelt(env: M.Env, site: M.Site, e: Written)
    requires env == map["A" := "1-A"] && e == Infix(Literal("", "1", ""), "", Sub, "", Name("A"))
    ensures Spells(env, site, "A", e)
  {
    SelfExpands(env, site);
    hide Expanded;
    assert Text(e) == "1-A";
    assert "" + (Text(e) + "") == "1-A";
    assert Grammatical(Literal("", "1", "")) && Grammatical(Name("A"));
    assert Grammatical(e);
  }

  lemma SelfValues(m: Macros, e: Written)
    requires "A" in m && m["A"] == Macro(true, "1-A") && e == Infix(Literal("", "1", ""), "", Sub, "", Name("A")) && Grammatical(e)
    ensures Standard(m, e) == Known(1) && Tested(Meaning(m, e)) == Known(0)
  {
    SelfRead(m);
    Digit(m, '1', "");
    LeafIs(m, e.l);
    hide NameValue, Number, LiteralValue;
    assert Meaning(m, e.r) == Known(1) && Standard(m, e.r) == Known(0);
  }

  lemma SelfRead(m: Macros)
    requires "A" in m && m["A"] == Macro(true, "1-A")
    ensures NameValue(m, "A") == Known(1)
  {
    var t := "1-A";
    assert Skip(t, 0) == 0 && At(t, 0) == '1';
    assert Span(Dec, t, 1) == 1;
    assert SpanText(Dec, t, 0) == t[0..1] == "1";
    assert "1"[..0] == "" && Number(Dec, "1") == 1;
  }

  lemma SelfExpands(env: M.Env, site: M.Site)
    requires env == map["A" := "1-A"]
    ensures Expanded(env, site, "A") == "1-A"
  {
    var a, t := "A", "1-A";
    assert Span(Word, a, 0) == 1 by { assert Span(Word, a, 1) == 1; }
    assert a[0..1] == "A" && M.TokenAt(a, 0, false) == M.Name("A") && M.TokenEnd(a, 0, false) == 1;
    assert M.Tokens(a, 1, false) == [];
    assert M.Tokens(a, 0, false) == [M.Name("A")];
    assert Span(Word, t, 2) == 3 by { assert Span(Word, t, 3) == 3; }
    assert t[2..3] == "A" && t[0..1] == "1" && t[1..2] == "-";
    assert M.TokenAt(t, 0, false) == M.Text("1") && M.TokenEnd(t, 0, false) == 1;
    assert M.TokenAt(t, 1, false) == M.Text("-") && M.TokenEnd(t, 1, false) == 2;
    assert M.TokenAt(t, 2, false) == M.Name("A") && M.TokenEnd(t, 2, false) == 3;
    assert M.Tokens(t, 3, false) == [];
    assert M.Tokens(t, 2, false) == [M.Name("A")];
    assert M.Tokens(t, 1, false) == [M.Text("-"), M.Name("A")];
    assert M.Tokens(t, 0, false) == [M.Text("1"), M.Text("-"), M.Name("A")];
    SelfTokens(env, site);
  }

  lemma SelfTokens(env: M.Env, site: M.Site)
    requires env == map["A" := "1-A"] && M.Tokens("A", 0, false) == [M.Name("A")]
    requires M.Tokens("1-A", 0, false) == [M.Text("1"), M.Text("-"), M.Name("A")]
    ensures Expanded(env, site, "A") == "1-A"
  {
    hide M.Tokens;
    var n, x, y := M.Name("A"), M.Text("1"), M.Text("-");
    var own := {"A"};
    assert M.ExpandTokens(env, site, [], own) == [] && M.ExpandTokens(env, site, [], {}) == [];
    assert M.ExpandToken(env, site, n, own) == [M.Tagged(n, own)];
    assert [n][1..] == [] && [y, n][1..] == [n] && [x, y, n][1..] == [y, n];
    assert M.ExpandTokens(env, site, [n], own) == [M.Tagged(n, own)];
    assert M.ExpandTokens(env, site, [y, n], own) == [M.Tagged(y, own), M.Tagged(n, own)];
    var all := [M.Tagged(x, own), M.Tagged(y, own), M.Tagged(n, own)];
    assert M.ExpandTokens(env, site, [x, y, n], own) == all;
    assert {} + own == own;
    M.LeftLess(env, {}, "A");
    assert M.ExpandToken(env, site, n, {}) == all;
    assert M.ExpandTokens(env, site, [n], {}) == all;
    assert all[1..] == [M.Tagged(y, own), M.Tagged(n, own)] && all[1..][1..] == [M.Tagged(n, own)] && all[1..][1..][1..] == [];
    assert M.Output(all[1..][1..][1..], site) == "";
    assert M.Output(all[1..][1..], site) == "A";
    assert M.Output(all[1..], site) == "-A";
    assert M.Output(all, site) == "1-A";
  }

  // ---------------------------------------------------------------- whole inputs

  /** The preprocessor with these conditions. */
  function Real(site: M.Site, active: (string, M.Env) -> Option<(string, M.Env)>): K.Host<M.Env> {
    K.Host((text, env) => var r := IfValue(env, site, text); if r.Known? then Some(r.value != 0) else None,
           (x, env) => x in env,
           active)
  }

  ghost predicate Grown<T>(a: seq<T>, b: seq<T>, good: T -> bool) {
    |a| <= |b| && b[..|a|] == a && forall i :: |a| <= i < |b| ==> good(b[i])
  }

  lemma GrownTrans<T>(a: seq<T>, b: seq<T>, c: seq<T>, good: T -> bool)
    requires Grown(a, b, good) && Grown(b, c, good)
    ensures Grown(a, c, good)
  {
    assert c[..|a|] == c[..|b|][..|a|];
    forall i | |a| <= i < |c| ensures good(c[i]) {
      if i < |b| { assert c[i] == c[..|b|][i]; }
    }
  }

  lemma StepAsks<T(!new)>(h: K.Host<T>, l: K.Line, s: K.State<T>)
    requires K.Step(h, l, s).Some?
    ensures Grown(s.w.asked, K.Step(h, l, s).value.w.asked, (q: (string, T)) => h.truth(q.0, q.1).Some?)
  {
  }

  /** Only conditions that have a value are passed. */
  lemma {:induction false} StepsAsk<T(!new)>(h: K.Host<T>, ls: seq<K.Line>, s: K.State<T>)
    requires K.Steps(h, ls, s).Some?
    ensures Grown(s.w.asked, K.Steps(h, ls, s).value.w.asked, (q: (string, T)) => h.truth(q.0, q.1).Some?)
    decreases |ls|
  {
    if ls != [] {
      StepAsks(h, ls[0], s);
      hide K.Step;
      var t := K.Step(h, ls[0], s).value;
      StepsAsk(h, ls[1..], t);
      GrownTrans(s.w.asked, t.w.asked, K.Steps(h, ls, s).value.w.asked, (q: (string, T)) => h.truth(q.0, q.1).Some?);
    }
  }

  /** The preprocessor accepts exactly the balanced inputs whose meaning is defined with these conditions, and
      every condition it evaluated on the way had a value: none held a zero divisor or a syntax error. */
  lemma RealAccepts(site: M.Site, active: (string, M.Env) -> Option<(string, M.Env)>, ls: seq<K.Line>, w: K.World<M.Env>, w': K.World<M.Env>)
    ensures var h := Real(site, active);
      K.Process(h, ls, w) == Some(w') <==>
      exists items :: K.FlattenAll(items) == ls && K.DepthAll(items) <= 64 && K.MeanAll(h, items, w) == Some(w')
    ensures K.Process(Real(site, active), ls, w) == Some(w') ==>
      |w.asked| <= |w'.asked| && forall i :: |w.asked| <= i < |w'.asked| ==> IfValue(w'.asked[i].1, site, w'.asked[i].0).Known?
  {
    var h := Real(site, active);
    B.AcceptsExactly(h, ls, w, w');
    hide K.Steps, IfValue;
    if K.Process(h, ls, w) == Some(w') {
      StepsAsk(h, ls, K.State([], true, w));
      forall i | |w.asked| <= i < |w'.asked| ensures IfValue(w'.asked[i].1, site, w'.asked[i].0).Known? {
        assert h.truth(w'.asked[i].0, w'.asked[i].1).Some?;
      }
    }
  }

  // ---------------------------------------------------------------- what is emitted

  /** The test holds (v), or does not, under this table: the name is or is not in it, or the condition has that value. */
  ghost predicate Says(env: M.Env, site: M.Site, t: K.Test, v: bool) {
    match t
    case Defined(x) => v == (x in env.Keys)
    case NotDefined(x) => v == (x !in env.Keys)
    case Holds(e) => IfValue(env, site, e) == Known(if v then 1 else 0)
  }

  /** Text and table after some plain lines, each followed by a line end. */
  function Feed(active: (string, M.Env) -> Option<(string, M.Env)>, ts: seq<string>, out: string, env: M.Env): Option<(string, M.Env)> {
    if ts == [] then Some((out, env))
    else
      var r := active(ts[0], env);
      if r.None? then None else Feed(active, ts[1..], out + r.value.0 + "\n", r.value.1)
  }

  function LineEnds(n: nat): string {
    if n == 0 then "" else LineEnds(n - 1) + "\n"
  }

  function Plains(ts: seq<string>): seq<K.Line> {
    if ts == [] then [] else [K.Other(ts[0])] + Plains(ts[1..])
  }

  function Items(ts: seq<string>): seq<K.Item> {
    if ts == [] then [] else [K.Plain(ts[0])] + Items(ts[1..])
  }

  lemma {:induction false} ItemsFlat(ts: seq<string>)
    ensures K.FlattenAll(Items(ts)) == Plains(ts) && |Plains(ts)| == |ts| && K.DepthAll(Items(ts)) == 0
    decreases |ts|
  {
    if ts != [] { ItemsFlat(ts[1..]); }
  }

  /** The world holds this text and this table. */
  ghost predicate Yields(r: Option<K.World<M.Env>>, f: Option<(string, M.Env)>) {
    r.Some? == f.Some? && (r.Some? ==> r.value.out == f.value.0 && r.value.macros == f.value.1)
  }

  lemma {:induction false} ItemsMean(h: K.Host<M.Env>, ts: seq<string>, w: K.World<M.Env>)
    ensures Yields(K.MeanAll(h, Items(ts), w), Feed(h.active, ts, w.out, w.macros))
    decreases |ts|
  {
    if ts != [] {
      var r := h.active(ts[0], w.macros);
      if r.Some? {
        assert w.out + r.value.0 + "\n" == (w.out + r.value.0) + "\n";
        ItemsMean(h, ts[1..], K.NewLine(w.(out := w.out + r.value.0, macros := r.value.1)));
      }
    } else {
      assert w.out + "" == w.out;
    }
  }

  lemma {:induction false} BlankText(n: nat, w: K.World<M.Env>)
    ensures K.Blank(n, w).out == w.out + LineEnds(n) && K.Blank(n, w).macros == w.macros
    decreases n
  {
    if n == 0 {
      assert w.out + "" == w.out;
    } else {
      BlankText(n - 1, K.NewLine(w));
      EndsFirst(n);
      assert (w.out + "\n") + LineEnds(n - 1) == w.out + ("\n" + LineEnds(n - 1));
    }
  }

  lemma {:induction false} EndsFirst(n: nat)
    requires n > 0
    ensures LineEnds(n) == "\n" + LineEnds(n - 1)
    decreases n
  {
    if n > 1 {
      EndsFirst(n - 1);
      assert ("\n" + LineEnds(n - 2)) + "\n" == "\n" + (LineEnds(n - 2) + "\n");
    }
  }

  lemma AskSays(site: M.Site, active: (string, M.Env) -> Option<(string, M.Env)>, t: K.Test, v: bool, w: K.World<M.Env>)
    requires Says(w.macros, site, t, v)
    ensures var a := K.Ask(Real(site, active), t, w); a.Some? && a.value.0 == v && a.value.1.out == w.out && a.value.1.macros == w.macros
  {
  }

  /** A branch: its test, whether that holds, and its lines. */
  datatype Branch = Branch(t: K.Test, v: bool, body: seq<string>)

  /** The directives and lines after the first one of a group. */
  function RestLines(bs: seq<Branch>, no: Option<seq<string>>): seq<K.Line> {
    if bs != [] then [K.Elif(bs[0].t)] + Plains(bs[0].body) + RestLines(bs[1..], no)
    else if no.Some? then [K.Else] + Plains(no.value) + [K.EndIf]
    else [K.EndIf]
  }

  function GroupLines(b: Branch, bs: seq<Branch>, no: Option<seq<string>>): seq<K.Line> {
    [K.If(b.t)] + Plains(b.body) + RestLines(bs, no)
  }

  function Ended(r: Option<(string, M.Env)>, n: nat): Option<(string, M.Env)> {
    if r.None? then None else Some((r.value.0 + LineEnds(n), r.value.1))
  }

  /** The lines of the first branch whose test holds, else those of #else; only line ends for all other lines. */
  function GroupText(active: (string, M.Env) -> Option<(string, M.Env)>, bs: seq<Branch>, no: Option<seq<string>>, out: string, env: M.Env): Option<(string, M.Env)> {
    if bs == [] then
      if no.Some? then Ended(Feed(active, no.value, out + "\n", env), 1) else Some((out + "\n", env))
    else if bs[0].v then Ended(Feed(active, bs[0].body, out + "\n", env), |RestLines(bs[1..], no)|)
    else GroupText(active, bs[1..], no, out + "\n" + LineEnds(|bs[0].body|), env)
  }

  /** The tests up to the first that holds come out as noted. */
  ghost predicate Noted(bs: seq<Branch>, env: M.Env, site: M.Site) {
    bs != [] ==> Says(env, site, bs[0].t, bs[0].v) && (!bs[0].v ==> Noted(bs[1..], env, site))
  }

  function TailOf(bs: seq<Branch>, no: Option<seq<string>>): K.Tail {
    if bs != [] then K.Branch(bs[0].t, Items(bs[0].body), TailOf(bs[1..], no))
    else if no.Some? then K.Otherwise(Items(no.value))
    else K.End
  }

  lemma {:induction false} TailFlat(bs: seq<Branch>, no: Option<seq<string>>)
    ensures K.FlattenTail(TailOf(bs, no)) == RestLines(bs, no) && K.DepthTail(TailOf(bs, no)) == 0
    decreases |bs|
  {
    if bs != [] {
      ItemsFlat(bs[0].body);
      TailFlat(bs[1..], no);
    } else if no.Some? {
      ItemsFlat(no.value);
    }
  }

  lemma ThenEnds(h: K.Host<M.Env>, ts: seq<string>, w: K.World<M.Env>, n: nat)
    ensures Yields(K.Then(K.MeanAll(h, Items(ts), w), n), Ended(Feed(h.active, ts, w.out, w.macros), n))
  {
    ItemsMean(h, ts, w);
    var r := K.MeanAll(h, Items(ts), w);
    hide Feed, K.MeanAll, LineEnds;
    if r.Some? { BlankText(n, r.value); }
  }

  lemma {:induction false} TailText(site: M.Site, active: (string, M.Env) -> Option<(string, M.Env)>, bs: seq<Branch>, no: Option<seq<string>>, w: K.World<M.Env>)
    requires Noted(bs, w.macros, site)
    ensures Yields(K.MeanTail(Real(site, active), TailOf(bs, no), w), GroupText(active, bs, no, w.out, w.macros))
    decreases |bs|
  {
    var h := Real(site, active);
    hide Feed, K.MeanAll, LineEnds, Says, K.Ask, Ended, K.Then, K.Blank, Real;
    RealActive(site, active);
    if bs == [] {
      if no.Some? { ThenEnds(h, no.value, K.NewLine(w), 1); }
    } else {
      var b := bs[0];
      AskSays(site, active, b.t, b.v, w);
      var w1 := K.NewLine(K.Ask(h, b.t, w).value.1);
      ItemsFlat(b.body);
      if b.v {
        TailFlat(bs[1..], no);
        ThenEnds(h, b.body, w1, |RestLines(bs[1..], no)|);
      } else {
        BlankText(|b.body|, w1);
        TailText(site, active, bs[1..], no, K.Blank(|b.body|, w1));
      }
    }
  }

  lemma RealActive(site: M.Site, active: (string, M.Env) -> Option<(string, M.Env)>)
    ensures Real(site, active).active == active
  {
  }

  /** A group with any #elif branches and an optional #else emits exactly the lines of the branch its tests select. */
  lemma GroupEmits(site: M.Site, active: (string, M.Env) -> Option<(string, M.Env)>, b: Branch, bs: seq<Branch>, no: Option<seq<string>>, w: K.World<M.Env>)
    requires Noted([b] + bs, w.macros, site)
    ensures Yields(K.Process(Real(site, active), GroupLines(b, bs, no), w), GroupText(active, [b] + bs, no, w.out, w.macros))
  {
    var h, all := Real(site, active), [b] + bs;
    assert all[1..] == bs;
    var i := K.Group(b.t, Items(b.body), TailOf(bs, no));
    TailText(site, active, all, no, w);
    SameGroup(h, b.t, Items(b.body), TailOf(bs, no), w);
    TailFlat(bs, no);
    ItemsFlat(b.body);
    OneGroup(h, i, w);
  }

  lemma SameGroup(h: K.Host<M.Env>, t: K.Test, body: seq<K.Item>, rest: K.Tail, w: K.World<M.Env>)
    ensures K.Mean(h, K.Group(t, body, rest), w) == K.MeanTail(h, K.Branch(t, body, rest), w)
  {
  }

  /** #ifdef x, lines, #else, other lines, #endif emits the first lines if x is in the table and the others if it is not. */
  lemma IfdefEmits(site: M.Site, active: (string, M.Env) -> Option<(string, M.Env)>, x: string, yes: seq<string>, no: seq<string>, w: K.World<M.Env>)
    ensures var r := K.Process(Real(site, active), [K.If(K.Defined(x))] + Plains(yes) + ([K.Else] + Plains(no) + [K.EndIf]), w);
      if x in w.macros.Keys then Yields(r, Ended(Feed(active, yes, w.out + "\n", w.macros), |no| + 2))
      else Yields(r, Ended(Feed(active, no, w.out + "\n" + LineEnds(|yes|) + "\n", w.macros), 1))
  {
    var b := Branch(K.Defined(x), x in w.macros.Keys, yes);
    OneBranch(site, active, b, no, w);
  }

  /** #ifndef is the reverse. */
  lemma IfndefEmits(site: M.Site, active: (string, M.Env) -> Option<(string, M.Env)>, x: string, yes: seq<string>, no: seq<string>, w: K.World<M.Env>)
    ensures var r := K.Process(Real(site, active), [K.If(K.NotDefined(x))] + Plains(yes) + ([K.Else] + Plains(no) + [K.EndIf]), w);
      if x in w.macros.Keys then Yields(r, Ended(Feed(active, no, w.out + "\n" + LineEnds(|yes|) + "\n", w.macros), 1))
      else Yields(r, Ended(Feed(active, yes, w.out + "\n", w.macros), |no| + 2))
  {
    var b := Branch(K.NotDefined(x), x !in w.macros.Keys, yes);
    OneBranch(site, active, b, no, w);
  }

  lemma OneBranch(site: M.Site, active: (string, M.Env) -> Option<(string, M.Env)>, b: Branch, no: seq<string>, w: K.World<M.Env>)
    requires Says(w.macros, site, b.t, b.v)
    ensures var r := K.Process(Real(site, active), [K.If(b.t)] + Plains(b.body) + ([K.Else] + Plains(no) + [K.EndIf]), w);
      if b.v then Yields(r, Ended(Feed(active, b.body, w.out + "\n", w.macros), |no| + 2))
      else Yields(r, Ended(Feed(active, no, w.out + "\n" + LineEnds(|b.body|) + "\n", w.macros), 1))
  {
    hide GroupText, GroupLines, Feed, Says, K.Process, Real, LineEnds, Ended;
    assert [b][1..] == [] && [b] + [] == [b];
    OneNoted(b, w.macros, site);
    GroupEmits(site, active, b, [], Some(no), w);
    OneText(active, b, no, w.out, w.macros);
    OneLines(b, no);
  }

  lemma OneNoted(b: Branch, env: M.Env, site: M.Site)
    requires Says(env, site, b.t, b.v)
    ensures Noted([b], env, site)
  {
    hide Says;
    assert [b][1..] == [];
  }

  lemma OneLines(b: Branch, no: seq<string>)
    ensures GroupLines(b, [], Some(no)) == [K.If(b.t)] + Plains(b.body) + ([K.Else] + Plains(no) + [K.EndIf])
  {
  }

  lemma OneText(active: (string, M.Env) -> Option<(string, M.Env)>, b: Branch, no: seq<string>, out: string, env: M.Env)
    ensures GroupText(active, [b], Some(no), out, env) ==
      if b.v then Ended(Feed(active, b.body, out + "\n", env), |no| + 2)
      else Ended(Feed(active, no, out + "\n" + LineEnds(|b.body|) + "\n", env), 1)
  {
    hide Feed, LineEnds, Ended;
    ItemsFlat(no);
    assert [b][1..] == [];
    assert |RestLines([], Some(no))| == |no| + 2;
    assert GroupText(active, [], Some(no), out + "\n" + LineEnds(|b.body|), env) == Ended(Feed(active, no, out + "\n" + LineEnds(|b.body|) + "\n", env), 1);
  }

  lemma OneGroup(h: K.Host<M.Env>, i: K.Item, w: K.World<M.Env>)
    requires i.Group? && K.Depth(i) <= K.MAX_COND_DEPTH
    ensures K.Process(h, K.Flatten(i), w) == K.Mean(h, i, w)
  {
    hide K.Steps, K.Mean, K.Flatten, K.Depth;
    var items := [i];
    assert items[1..] == [];
    assert K.FlattenAll([]) == [] && K.DepthAll([]) == 0;
    assert K.FlattenAll(items) == K.Flatten(i) + [] == K.Flatten(i);
    BC.BalancedCorrect(h, items, w);
    MeanOne(h, i, w);
  }

  lemma MeanOne(h: K.Host<M.Env>, i: K.Item, w: K.World<M.Env>)
    ensures K.MeanAll(h, [i], w) == K.Mean(h, i, w)
  {
    assert [i][1..] == [];
  }
}
