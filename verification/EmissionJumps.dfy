/** Every jump of a function has exactly one target. */
module EmissionJumps {
  import opened Options
  import opened Emission
  import opened EmissionStatements
  import opened EmissionShapes
  import opened EmissionLabels
  import opened EmissionTargets

  // ---------------------------------------------------------------- the shape of emitted statements

  function Branch(l: Label, zero: bool, d: nat): seq<Item> {
    [Item(Test, d), Item(Jcc(l, zero), d)]
  }

  lemma {:induction false} IfCode(s: Stmt, d: nat, n: nat, env: Env)
    requires s.If?
    ensures var c := Expression(s.c, d, n + 1);
      var m := n + 1 + |c.depths|;
      var y := Statement(s.yes, d, m, env);
      var r := Statement(s, d, n, env);
      if s.no.Some? then
        var f := Statement(s.no.value, d, m + |y.depths|, env);
        && r.code == ((c.code + Branch(Jump(ElsePart, n), true, d)) + y.code + [Item(Jmp(Jump(EndIf, n)), d), Item(Def(Jump(ElsePart, n)), d)]) + f.code + [Item(Def(Jump(EndIf, n)), d)] + []
        && |r.depths| == 1 + |c.depths| + |y.depths| + |f.depths|
      else
        && r.code == c.code + Branch(Jump(EndIf, n), true, d) + y.code + [Item(Def(Jump(EndIf, n)), d)]
        && |r.depths| == 1 + |c.depths| + |y.depths|
  {
    hide Statement, Expression;
    IfIs(s, d, n, env);
    var c := Expression(s.c, d, n + 1);
    var a := Then(Then(Take(d), c), One(Test, d));
    assert a.code == c.code + [Item(Test, d)] && |a.depths| == 1 + |c.depths|;
    var l := if s.no.Some? then Jump(ElsePart, n) else Jump(EndIf, n);
    var b := Then(One(Jcc(l, true), d), Statement(s.yes, d, n + |a.depths|, env));
    assert Then(a, b).code == c.code + Branch(l, true, d) + Statement(s.yes, d, n + |a.depths|, env).code;
  }

  function Ending(start: LabelKind, end: LabelKind, d: nat, n: nat): seq<Item> {
    [Item(Jmp(Jump(start, n)), d), Item(Def(Jump(end, n)), d), Item(Def(Jump(BreakTo, n)), d)]
  }

  lemma EndingIs(start: LabelKind, end: LabelKind, d: nat, n: nat)
    ensures LoopEnd(start, end, d, n) == Emitted(Ending(start, end, d, n), [])
  {
  }

  lemma {:induction false} WhileCode(s: Stmt, d: nat, n: nat, env: Env)
    requires s.While?
    ensures var c := Expression(s.c, d, n + 1);
      var f := Statement(s.body, d, n + 1 + |c.depths|, InLoop(env, n));
      var r := Statement(s, d, n, env);
      && r.code == [Item(Def(Jump(WhileStart, n)), d), Item(Def(Jump(ContinueTo, n)), d)] + (c.code + Branch(Jump(WhileEnd, n), true, d)) + f.code + Ending(WhileStart, WhileEnd, d, n)
      && |r.depths| == 1 + |c.depths| + |f.depths|
  {
    hide Statement, Expression, LoopEnd, Ending;
    WhileIs(s, d, n, env);
    EndingIs(WhileStart, WhileEnd, d, n);
    var c := Expression(s.c, d, n + 1);
    var b := Then(c, Then(One(Test, d), One(Jcc(Jump(WhileEnd, n), true), d)));
    assert b.code == c.code + Branch(Jump(WhileEnd, n), true, d) && |b.depths| == |c.depths|;
  }

  lemma {:induction false} DoCode(s: Stmt, d: nat, n: nat, env: Env)
    requires s.DoWhile?
    ensures var x := Statement(s.body, d, n + 1, InLoop(env, n));
      var c := Expression(s.c, d, n + 1 + |x.depths|);
      var r := Statement(s, d, n, env);
      && r.code == [Item(Def(Jump(DoStart, n)), d)] + (x.code + [Item(Def(Jump(ContinueTo, n)), d)]) + (c.code + Branch(Jump(DoStart, n), false, d))
                 + [Item(Def(Jump(DoEnd, n)), d), Item(Def(Jump(BreakTo, n)), d)]
      && |r.depths| == 1 + |x.depths| + |c.depths|
  {
    hide Statement, Expression;
    DoIs(s, d, n, env);
    var x := Statement(s.body, d, n + 1, InLoop(env, n));
    var b := Then(x, One(Def(Jump(ContinueTo, n)), d));
    assert b.code == x.code + [Item(Def(Jump(ContinueTo, n)), d)] && |b.depths| == |x.depths|;
    var c := Expression(s.c, d, n + 1 + |b.depths|);
    var f := Then(c, Then(One(Test, d), One(Jcc(Jump(DoStart, n), false), d)));
    assert f.code == c.code + Branch(Jump(DoStart, n), false, d) && |f.depths| == |c.depths|;
  }

  function InitCode(s: Stmt, d: nat, n: nat, env: Env): Emitted
    requires s.For?
  {
    if s.init.Some? then Statement(s.init.value, d, n + 1, InLoop(env, n)) else NOTHING
  }

  function CondTest(s: Stmt, d: nat, n: nat, m: nat): Emitted
    requires s.For?
  {
    if s.cond.Some? then var c := Expression(s.cond.value, d, m); Emitted(c.code + Branch(Jump(ForEnd, n), true, d), c.depths) else NOTHING
  }

  lemma ForCond(s: Stmt, d: nat, n: nat, m: nat)
    requires s.For?
    ensures CondTest(s, d, n, m) ==
      if s.cond.Some? then Then(Expression(s.cond.value, d, m), Then(One(Test, d), One(Jcc(Jump(ForEnd, n), true), d))) else NOTHING
  {
    hide Expression;
  }

  lemma {:induction false} ForCode(s: Stmt, d: nat, n: nat, env: Env)
    requires s.For?
    ensures var i := InitCode(s, d, n, env);
      var m := n + 1 + |i.depths|;
      var b := CondTest(s, d, n, m);
      var x := Statement(s.body, d, m + |b.depths|, InLoop(env, n));
      var g := Maybe(s.step, d, m + |b.depths| + |x.depths|);
      var r := Statement(s, d, n, env);
      && r.code == (i.code + [Item(Def(Jump(ForStart, n)), d)]) + b.code + (x.code + [Item(Def(Jump(ContinueTo, n)), d)]) + (g.code + Ending(ForStart, ForEnd, d, n))
      && |r.depths| == 1 + |i.depths| + |b.depths| + |x.depths| + |g.depths|
  {
    hide Statement, Expression, LoopEnd, Ending, Maybe, CondTest;
    ForIs(s, d, n, env);
    EndingIs(ForStart, ForEnd, d, n);
    var i := InitCode(s, d, n, env);
    var a := Then(Then(Take(d), i), One(Def(Jump(ForStart, n)), d));
    assert a.code == i.code + [Item(Def(Jump(ForStart, n)), d)] && |a.depths| == 1 + |i.depths|;
    var m := n + |a.depths|;
    var b := CondTest(s, d, n, m);
    ForCond(s, d, n, m);
    var x := Statement(s.body, d, m + |b.depths|, InLoop(env, n));
    var f := Then(x, One(Def(Jump(ContinueTo, n)), d));
    assert f.code == x.code + [Item(Def(Jump(ContinueTo, n)), d)] && |f.depths| == |x.depths|;
  }

  function SwitchTail(d: nat, n: nat): seq<Item> {
    [Item(Def(Jump(SwitchEnd, n)), d + 1), Item(Def(Jump(BreakTo, n)), d + 1), Item(Add(1), d + 1)]
  }

  lemma {:induction false} SwitchCode(s: Stmt, d: nat, n: nat, env: Env)
    requires s.Switch?
    ensures var ctx := Collect(s.body, n + 1);
      var m := n + 1 + |ctx|;
      var c := Expression(s.c, d, m);
      var f := Statement(s.body, d + 1, m + |c.depths|, InSwitch(env, n, ctx));
      var r := Statement(s, d, n, env);
      && r.code == (c.code + [Item(Push, d)]) + Dispatch(ctx, s.wide, d + 1, n).code + f.code + SwitchTail(d, n)
      && |r.depths| == 1 + |ctx| + |c.depths| + |f.depths| + |Dispatch(ctx, s.wide, d + 1, n).depths|
  {
    hide Statement, Expression, Dispatch, Collect;
    SwitchIs(s, d, n, env);
    var ctx := Collect(s.body, n + 1);
    var a := Then(Take(d + 1), TakeMany(|ctx|, d + 1));
    assert a.code == [] && |a.depths| == 1 + |ctx|;
    var c := Expression(s.c, d, n + |a.depths|);
    var b := Then(c, One(Push, d));
    assert b.code == c.code + [Item(Push, d)] && |b.depths| == |c.depths|;
    var e := Then(Then(One(Def(Jump(SwitchEnd, n)), d + 1), One(Def(Jump(BreakTo, n)), d + 1)), One(Add(1), d + 1));
    assert e.code == SwitchTail(d, n) && e.depths == [];
  }

  // ---------------------------------------------------------------- fixed pieces

  lemma {:induction false} TwoDefs(k: Label, l: Label, d: nat, n: nat, out: set<Label>)
    requires k != l
    ensures Facts([Item(Def(k), d), Item(Def(l), d)], n, n, {k, l}, out)
  {
    var code := [Item(Def(k), d), Item(Def(l), d)];
    assert code[0].ins == Def(k) && code[1].ins == Def(l);
    FixedFacts(code, n, {k, l}, out);
  }

  lemma {:induction false} EndingFacts(start: LabelKind, end: LabelKind, d: nat, n: nat, m: nat, out: set<Label>)
    requires end != BreakTo && Jump(start, n) in out
    ensures Facts(Ending(start, end, d, n), m, m, {Jump(end, n), Jump(BreakTo, n)}, out)
  {
    var code := Ending(start, end, d, n);
    assert code[1].ins == Def(Jump(end, n)) && code[2].ins == Def(Jump(BreakTo, n));
    FixedFacts(code, m, {Jump(end, n), Jump(BreakTo, n)}, out);
  }

  lemma {:induction false} TailFacts(d: nat, n: nat, m: nat, out: set<Label>)
    ensures Facts(SwitchTail(d, n), m, m, {Jump(SwitchEnd, n), Jump(BreakTo, n)}, out)
  {
    var code := SwitchTail(d, n);
    assert code[0].ins == Def(Jump(SwitchEnd, n)) && code[1].ins == Def(Jump(BreakTo, n));
    FixedFacts(code, m, {Jump(SwitchEnd, n), Jump(BreakTo, n)}, out);
  }

  /** An expression followed by its test. */
  lemma {:induction false} TestedFacts(e: Expr, l: Label, zero: bool, d: nat, n: nat, out: set<Label>)
    requires l in out
    ensures var c := Expression(e, d, n); Facts(c.code + Branch(l, zero, d), n, n + |c.depths|, {}, out)
  {
    hide Facts, Expression;
    ExpressionFacts(e, d, n, out);
    var c := Expression(e, d, n);
    TestFacts(Test, l, zero, d, n + |c.depths|, out);
    assert Old({}, n);
    FactsAppend(c.code, Branch(l, zero, d), n, n + |c.depths|, n + |c.depths|, {}, {}, out);
    var none: set<Label> := {};
    assert none + none == none;
  }

  /** A statement followed by the definition of one label. */
  lemma {:induction false} ThenDef(code: seq<Item>, l: Label, d: nat, lo: nat, hi: nat, x: set<Label>, out: set<Label>)
    requires Facts(code, lo, hi, x, out) && l !in x && Old(x, lo) && Old({l}, lo)
    ensures Facts(code + [Item(Def(l), d)], lo, hi, x + {l}, out)
  {
    hide Facts, Old;
    FactsDef(l, d, hi, out);
    FactsAppend(code, [Item(Def(l), d)], lo, hi, hi, x, {l}, out);
  }

  lemma {:induction false} CasesFacts(ctx: SwitchCtx, wide: bool, d: nat, n: nat, out: set<Label>)
    requires forall i :: 0 <= i < |ctx| ==> Jump(SwitchSec, ctx[i].num) in out
    ensures Facts(Cases(ctx, wide, d).code, n, n, {}, out) && Cases(ctx, wide, d).depths == []
    decreases |ctx|
  {
    hide Facts;
    if ctx == [] {
      FactsNone(n, out);
    } else {
      assert forall i :: 0 <= i < |ctx[1..]| ==> ctx[1..][i] == ctx[i + 1];
      CasesFacts(ctx[1..], wide, d, n, out);
      var l := Jump(SwitchSec, ctx[0].num);
      if ctx[0].value.None? { return; }
      var i := Match(ctx[0].value.value, wide);
      TestFacts(i, l, true, d, n, out);
      var t := Then(One(i, d), One(Jcc(l, true), d));
      assert t.code == [Item(i, d), Item(Jcc(l, true), d)];
      ExprThen(t, Cases(ctx[1..], wide, d), n, out);
    }
  }

  lemma {:induction false} DispatchFacts(ctx: SwitchCtx, wide: bool, d: nat, k: nat, n: nat, out: set<Label>)
    requires (forall i :: 0 <= i < |ctx| ==> Jump(SwitchSec, ctx[i].num) in out) && Jump(SwitchEnd, k) in out
    ensures Facts(Dispatch(ctx, wide, d, k).code, n, n, {}, out) && Dispatch(ctx, wide, d, k).depths == []
  {
    hide Facts, Cases;
    CasesFacts(ctx, wide, d, n, out);
    var def := DefaultOf(ctx);
    if def.Some? { DefaultNumber(ctx); }
    var j := Jmp(if def.Some? then Jump(SwitchSec, def.value) else Jump(SwitchEnd, k));
    FactsOne(j, d, n, out);
    ExprThen(Cases(ctx, wide, d), One(j, d), n, out);
  }

  lemma DefaultNumber(ctx: SwitchCtx)
    requires DefaultOf(ctx).Some?
    ensures exists i :: 0 <= i < |ctx| && ctx[i].num == DefaultOf(ctx).value
  {
  }

  // ---------------------------------------------------------------- statements

  /** What a statement may assume of its surroundings. */
  ghost predicate Placed(s: Stmt, n: nat, env: Env, out: set<Label>) {
    TreeOk(s) && Covered(Nodes(s), env.ctx, n) && OutOk(env, out) && GotosIn(s, out)
  }

  ghost predicate Right(s: Stmt, d: nat, n: nat, env: Env, out: set<Label>) {
    var r := Statement(s, d, n, env);
    Facts(r.code, n, n + |r.depths|, Own(s, env.ctx), out)
  }

  /** A part of s stands in the same surroundings. */
  lemma {:induction false} PartPlaced(s: Stmt, t: Stmt, n: nat, m: nat, env: Env, out: set<Label>, more: set<Label>)
    requires Placed(s, n, env, out) && n <= m && out <= more && TreeOk(t) && Nodes(t) <= Nodes(s) && GotosIn(t, out)
    ensures Placed(t, m, env, more) && Old(Own(t, env.ctx), n) && (forall l :: l in Own(t, env.ctx) ==> l.User? || l.kind == SwitchSec)
  {
    hide TreeOk, GotosIn, Nodes, Users;
    CoveredLess(Nodes(t), Nodes(s), env.ctx, n, m);
    CoveredLess(Nodes(t), Nodes(s), env.ctx, n, n);
    GotosWider(t, out, more);
    OwnOldBy(t, env.ctx, n);
  }

  lemma LoopPlaced(t: Stmt, n: nat, m: nat, env: Env, out: set<Label>)
    requires Placed(t, m, env, out) && Jump(BreakTo, n) in out && Jump(ContinueTo, n) in out
    ensures Placed(t, m, InLoop(env, n), out) && InLoop(env, n).ctx == env.ctx
  {
  }

  lemma {:induction false} StatementFacts(s: Stmt, d: nat, n: nat, env: Env, out: set<Label>)
    requires Placed(s, n, env, out)
    ensures Right(s, d, n, env, out)
    decreases s, 2
  {
    hide Collect, Dispatch, Expression, Maybe, OutOk;
    match s
    case Eval(e) =>
      ExpressionFacts(e, d, n, out);
      OwnNone(s, env.ctx);
    case Return(e) => ReturnFacts(s, d, n, env, out);
    case If(_, _, _) => IfFacts(s, d, n, env, out);
    case While(_, _) => WhileFacts(s, d, n, env, out);
    case DoWhile(_, _) => DoFacts(s, d, n, env, out);
    case For(_, _, _, _) => ForFacts(s, d, n, env, out);
    case Switch(_, _, _) => SwitchFacts(s, d, n, env, out);
    case Section(_, _, _) => SectionFacts(s, d, n, env, out);
    case Labelled(_, _) => LabelledFacts(s, d, n, env, out);
    case Goto(x) =>
      FactsOne(Jmp(User(x)), d, n, out);
      OwnNone(s, env.ctx);
    case Break => JumpFacts(s, d, n, env, out);
    case Continue => JumpFacts(s, d, n, env, out);
    case Block(ss) => StatementsFacts(ss, d, n, env, out);
  }

  lemma OwnNone(s: Stmt, ctx: SwitchCtx)
    requires Nodes(s) == {} && Users(s) == {}
    ensures Own(s, ctx) == {}
  {
  }

  lemma {:induction false} JumpFacts(s: Stmt, d: nat, n: nat, env: Env, out: set<Label>)
    requires Placed(s, n, env, out) && (s.Break? || s.Continue?)
    ensures Right(s, d, n, env, out)
  {
    hide Facts;
    OwnNone(s, env.ctx);
    FactsNone(n, out);
    if s.Break? && env.breaks != [] {
      FactsOne(Jmp(Jump(BreakTo, env.breaks[|env.breaks| - 1].breakLabel)), d, n, out);
    } else if s.Continue? && NearestLoop(env.breaks).Some? {
      FactsOne(Jmp(Jump(ContinueTo, NearestLoop(env.breaks).value)), d, n, out);
    }
  }

  lemma {:induction false} ReturnFacts(s: Stmt, d: nat, n: nat, env: Env, out: set<Label>)
    requires Placed(s, n, env, out) && s.Return?
    ensures Right(s, d, n, env, out)
  {
    hide Facts, Expression;
    OwnNone(s, env.ctx);
    var a := Maybe(s.value, d, n);
    if s.value.Some? { ExpressionFacts(s.value.value, d, n, out); } else { FactsNone(n, out); }
    assert Old({}, n);
    WithSilent(a, One(Ret, d), n, {}, out);
  }

  lemma {:induction false} StatementsFacts(ss: seq<Stmt>, d: nat, n: nat, env: Env, out: set<Label>)
    requires TreesOk(ss) && Covered(NodesAll(ss), env.ctx, n) && OutOk(env, out) && AllGotosIn(ss, out)
    ensures var r := Statements(ss, d, n, env); Facts(r.code, n, n + |r.depths|, OwnAll(ss, env.ctx), out)
    decreases ss, 0
  {
    hide Facts, Statement, TreeOk, GotosIn;
    if ss == [] {
      FactsNone(n, out);
      assert OwnAll(ss, env.ctx) == {};
    } else {
      var s, rest := ss[0], ss[1..];
      CoveredLess(Nodes(s), NodesAll(ss), env.ctx, n, n);
      StatementFacts(s, d, n, env, out);
      var a := Statement(s, d, n, env);
      var m := n + |a.depths|;
      CoveredLess(NodesAll(rest), NodesAll(ss), env.ctx, n, m);
      StatementsFacts(rest, d, m, env, out);
      CoveredLess(NodesAll(rest), NodesAll(ss), env.ctx, n, n);
      SiblingsApart(s, rest, env.ctx, n);
      FactsThen(a, Statements(rest, d, m, env), n, Own(s, env.ctx), OwnAll(rest, env.ctx), out);
      OwnJoin(s, rest, ss, env.ctx);
    }
  }

  lemma SiblingsApart(s: Stmt, rest: seq<Stmt>, ctx: SwitchCtx, n: nat)
    requires Nodes(s) !! NodesAll(rest) && Users(s) !! UsersAll(rest) && Covered(Nodes(s), ctx, n) && Covered(NodesAll(rest), ctx, n)
    ensures Own(s, ctx) !! OwnAll(rest, ctx) && Old(Own(s, ctx), n) && Old(OwnAll(rest, ctx), n)
  {
    SecLabelsApart(Nodes(s), NodesAll(rest), ctx, n);
    SecLabelsApart(NodesAll(rest), Nodes(s), ctx, n);
  }

  lemma OwnJoin(s: Stmt, rest: seq<Stmt>, ss: seq<Stmt>, ctx: SwitchCtx)
    requires ss != [] && ss[0] == s && ss[1..] == rest
    ensures Own(s, ctx) + OwnAll(rest, ctx) == OwnAll(ss, ctx)
  {
    assert NodesAll(ss) == Nodes(s) + NodesAll(rest) && UsersAll(ss) == Users(s) + UsersAll(rest);
  }

  lemma {:induction false} SectionFacts(s: Stmt, d: nat, n: nat, env: Env, out: set<Label>)
    requires Placed(s, n, env, out) && s.Section?
    ensures Right(s, d, n, env, out)
    decreases s, 1
  {
    hide Facts, Old;
    PartPlaced(s, s.s, n, n, env, out, out);
    StatementFacts(s.s, d, n, env, out);
    var i := LookupFinds(env.ctx, s.node);
    var l := SecLabel(env.ctx, s.node);
    FactsDef(l, d, n, out);
    SectionOwn(s, env.ctx, n);
    FactsThen(One(Def(l), d), Statement(s.s, d, n, env), n, {l}, Own(s.s, env.ctx), out);
  }

  lemma SectionOwn(s: Stmt, ctx: SwitchCtx, n: nat)
    requires s.Section? && s.node !in Nodes(s.s) && Covered(Nodes(s), ctx, n)
    ensures {SecLabel(ctx, s.node)} !! Own(s.s, ctx) && {SecLabel(ctx, s.node)} + Own(s.s, ctx) == Own(s, ctx)
    ensures Old({SecLabel(ctx, s.node)}, n) && Old(Own(s.s, ctx), n)
  {
    CoveredLess({s.node}, Nodes(s), ctx, n, n);
    CoveredLess(Nodes(s.s), Nodes(s), ctx, n, n);
    SecLabelsApart({s.node}, Nodes(s.s), ctx, n);
    SecLabelsApart(Nodes(s.s), {s.node}, ctx, n);
    assert SecLabel(ctx, s.node) in (set x | x in {s.node} :: SecLabel(ctx, x));
  }

  lemma {:induction false} LabelledFacts(s: Stmt, d: nat, n: nat, env: Env, out: set<Label>)
    requires Placed(s, n, env, out) && s.Labelled?
    ensures Right(s, d, n, env, out)
    decreases s, 1
  {
    hide Facts;
    PartPlaced(s, s.s, n, n, env, out, out);
    StatementFacts(s.s, d, n, env, out);
    var l := User(s.name);
    FactsDef(l, d, n, out);
    assert {l} + Own(s.s, env.ctx) == Own(s, env.ctx);
    FactsThen(One(Def(l), d), Statement(s.s, d, n, env), n, {l}, Own(s.s, env.ctx), out);
  }

  lemma {:induction false} IfFacts(s: Stmt, d: nat, n: nat, env: Env, out: set<Label>)
    requires Placed(s, n, env, out) && s.If?
    ensures Right(s, d, n, env, out)
    decreases s, 1
  {
    hide Facts, Statement, Expression, Old, Covered, OutOk, Own, Branch;
    IfCode(s, d, n, env);
    var l := if s.no.Some? then Jump(ElsePart, n) else Jump(EndIf, n);
    var own := {l, Jump(EndIf, n)};
    var all := out + own;
    var c := Expression(s.c, d, n + 1);
    var m := n + 1 + |c.depths|;
    TestedFacts(s.c, l, true, d, n + 1, all);
    PartPlaced(s, s.yes, n, m, env, out, all);
    StatementFacts(s.yes, d, m, env, all);
    var y, x := Statement(s.yes, d, m, env), Own(s.yes, env.ctx);
    var m2 := m + |y.depths|;
    NotSec(x, l, Jump(EndIf, n));
    OldLater(x, n, n + 1);
    if s.no.Some? {
      PartPlaced(s, s.no.value, n, m2, env, out, all);
      StatementFacts(s.no.value, d, m2, env, all);
      var f, z := Statement(s.no.value, d, m2, env), Own(s.no.value, env.ctx);
      NotSec(z, l, Jump(EndIf, n));
      OldLater(z, n, n + 1);
      IfOwn(s, env.ctx, n);
      ElseJoin(c.code + Branch(l, true, d), y.code, f.code, d, n, m, m2, m2 + |f.depths|, x, z, out);
    } else {
      IfOnlyOwn(s, env.ctx);
      IfJoin(c.code + Branch(l, true, d), y.code, d, n, m, m2, x, out);
    }
  }

  lemma IfOnlyOwn(s: Stmt, ctx: SwitchCtx)
    requires s.If? && s.no.None?
    ensures Own(s, ctx) == Own(s.yes, ctx)
  {
  }

  lemma {:induction false} IfJoin(c: seq<Item>, y: seq<Item>, d: nat, n: nat, m: nat, m2: nat, x: set<Label>, out: set<Label>)
    requires var all := out + {Jump(EndIf, n), Jump(EndIf, n)}; Facts(c, n + 1, m, {}, all) && Facts(y, m, m2, x, all)
    requires Old(x, n + 1) && Jump(EndIf, n) !in x
    ensures Facts(c + y + [Item(Def(Jump(EndIf, n)), d)], n, m2, x, out)
  {
    hide Facts, Old;
    var l := Jump(EndIf, n);
    var all := out + {l, l};
    OwnOld({l}, n);
    Ordered(c, n + 1, m, {}, all);
    FactsAppend(c, y, n + 1, m, m2, {}, x, all);
    assert {} + x == x;
    ThenDef(c + y, l, d, n + 1, m2, x, all);
    assert {l} == {l, l};
    Absorb(c + y + [Item(Def(l), d)], n, n + 1, m2, x, {l}, out);
  }

  lemma {:induction false} ElseJoin(c: seq<Item>, y: seq<Item>, f: seq<Item>, d: nat, n: nat, m: nat, m2: nat, m3: nat, x: set<Label>, z: set<Label>, out: set<Label>)
    requires var all := out + {Jump(ElsePart, n), Jump(EndIf, n)}; Facts(c, n + 1, m, {}, all) && Facts(y, m, m2, x, all) && Facts(f, m2, m3, z, all)
    requires Old(x, n + 1) && Old(z, n + 1) && x !! z && x !! {Jump(ElsePart, n), Jump(EndIf, n)} && z !! {Jump(ElsePart, n), Jump(EndIf, n)}
    ensures Facts((c + y + [Item(Jmp(Jump(EndIf, n)), d), Item(Def(Jump(ElsePart, n)), d)]) + f + [Item(Def(Jump(EndIf, n)), d)] + [], n, m3, x + z, out)
  {
    hide Facts, Old;
    var l, e := Jump(ElsePart, n), Jump(EndIf, n);
    var all := out + {l, e};
    var j := [Item(Jmp(e), d), Item(Def(l), d)];
    OwnOld({l}, n);
    OwnOld({e}, n);
    JoinFacts(e, l, d, m2, all);
    FactsNone(m2, all);
    Join4(c, y, j, [], n + 1, m, m2, m2, m2, {}, x, {l}, {}, all);
    assert c + y + j + [] == c + y + j;
    assert {} + x + {l} + {} == x + {l};
    OldJoin(x, {l}, n + 1);
    FactsDef(e, d, m3, all);
    FactsNone(m3, all);
    Join4(c + y + j, f, [Item(Def(e), d)], [], n + 1, m2, m3, m3, m3, x + {l}, z, {e}, {}, all);
    assert x + {l} + z + {e} + {} == (x + z) + {l, e};
    Absorb(c + y + j + f + [Item(Def(e), d)] + [], n, n + 1, m3, x + z, {l, e}, out);
  }

  lemma NotSec(x: set<Label>, k: Label, l: Label)
    requires (forall e :: e in x ==> e.User? || e.kind == SwitchSec) && k.Numbered? && k.kind != SwitchSec && l.Numbered? && l.kind != SwitchSec
    ensures k !in x && l !in x && x !! {k} && x !! {l} && x !! {k, l}
  {
  }

  lemma OldLater(x: set<Label>, n: nat, m: nat)
    requires Old(x, n) && n <= m
    ensures Old(x, m)
  {
  }

  lemma OldJoin(x: set<Label>, y: set<Label>, n: nat)
    requires Old(x, n) && Old(y, n)
    ensures Old(x + y, n)
  {
  }

  lemma IfOwn(s: Stmt, ctx: SwitchCtx, n: nat)
    requires s.If? && s.no.Some? && TreeOk(s) && Covered(Nodes(s), ctx, n)
    ensures Own(s.yes, ctx) !! Own(s.no.value, ctx) && Own(s, ctx) == Own(s.yes, ctx) + Own(s.no.value, ctx)
  {
    CoveredLess(Nodes(s.yes), Nodes(s), ctx, n, n);
    CoveredLess(Nodes(s.no.value), Nodes(s), ctx, n, n);
    OwnApart(s.yes, s.no.value, ctx, n);
  }

  lemma {:induction false} WhileFacts(s: Stmt, d: nat, n: nat, env: Env, out: set<Label>)
    requires Placed(s, n, env, out) && s.While?
    ensures Right(s, d, n, env, out)
    decreases s, 1
  {
    hide Facts, Statement, Expression, Old, Covered, OutOk, Ending;
    WhileCode(s, d, n, env);
    var a, b := {Jump(WhileStart, n), Jump(ContinueTo, n)}, {Jump(WhileEnd, n), Jump(BreakTo, n)};
    var own := a + b;
    var all := out + own;
    TwoDefs(Jump(WhileStart, n), Jump(ContinueTo, n), d, n + 1, all);
    TestedFacts(s.c, Jump(WhileEnd, n), true, d, n + 1, all);
    var c := Expression(s.c, d, n + 1);
    var m := n + 1 + |c.depths|;
    PartPlaced(s, s.body, n, m, env, out, all);
    LoopPlaced(s.body, n, m, env, all);
    StatementFacts(s.body, d, m, InLoop(env, n), all);
    var f, x := Statement(s.body, d, m, InLoop(env, n)), Own(s.body, env.ctx);
    var m2 := m + |f.depths|;
    EndingFacts(WhileStart, WhileEnd, d, n, m2, all);
    OldLater(x, n, n + 1);
    OwnOld(a, n);
    OwnOld(b, n);
    NotSec(x, Jump(WhileStart, n), Jump(ContinueTo, n));
    NotSec(x, Jump(WhileEnd, n), Jump(BreakTo, n));
    Join4([Item(Def(Jump(WhileStart, n)), d), Item(Def(Jump(ContinueTo, n)), d)], c.code + Branch(Jump(WhileEnd, n), true, d), f.code, Ending(WhileStart, WhileEnd, d, n),
          n + 1, n + 1, m, m2, m2, a, {}, x, b, all);
    assert a + {} + x + b == x + own;
    assert Own(s, env.ctx) == x;
    Absorb(Statement(s, d, n, env).code, n, n + 1, m2, x, own, out);
  }

  lemma {:induction false} DoFacts(s: Stmt, d: nat, n: nat, env: Env, out: set<Label>)
    requires Placed(s, n, env, out) && s.DoWhile?
    ensures Right(s, d, n, env, out)
    decreases s, 1
  {
    hide Facts, Statement, Expression, Old, Covered, OutOk;
    DoCode(s, d, n, env);
    var g, k, b := Jump(DoStart, n), Jump(ContinueTo, n), {Jump(DoEnd, n), Jump(BreakTo, n)};
    var own := {g, k} + b;
    var all := out + own;
    FactsDef(g, d, n + 1, all);
    PartPlaced(s, s.body, n, n + 1, env, out, all);
    LoopPlaced(s.body, n, n + 1, env, all);
    StatementFacts(s.body, d, n + 1, InLoop(env, n), all);
    var f, x := Statement(s.body, d, n + 1, InLoop(env, n)), Own(s.body, env.ctx);
    var m := n + 1 + |f.depths|;
    OldLater(x, n, n + 1);
    OwnOld({g}, n);
    OwnOld({k}, n);
    OwnOld(b, n);
    NotSec(x, g, k);
    NotSec(x, Jump(DoEnd, n), Jump(BreakTo, n));
    ThenDef(f.code, k, d, n + 1, m, x, all);
    TestedFacts(s.c, g, false, d, m, all);
    var c := Expression(s.c, d, m);
    TwoDefs(Jump(DoEnd, n), Jump(BreakTo, n), d, m + |c.depths|, all);
    OldJoin(x, {k}, n + 1);
    Join4([Item(Def(g), d)], f.code + [Item(Def(k), d)], c.code + Branch(g, false, d), [Item(Def(Jump(DoEnd, n)), d), Item(Def(Jump(BreakTo, n)), d)],
          n + 1, n + 1, m, m + |c.depths|, m + |c.depths|, {g}, x + {k}, {}, b, all);
    assert {g} + (x + {k}) + {} + b == x + own;
    assert Own(s, env.ctx) == x;
    Absorb(Statement(s, d, n, env).code, n, n + 1, m + |c.depths|, x, own, out);
  }

  lemma {:induction false} SwitchFacts(s: Stmt, d: nat, n: nat, env: Env, out: set<Label>)
    requires Placed(s, n, env, out) && s.Switch?
    ensures Right(s, d, n, env, out)
    decreases s, 1
  {
    hide Facts, Statement, Expression, Old, Dispatch, Collect, SwitchTail, Own, Covered, OutOk, TreeOk, GotosIn, Nodes, InSwitch;
    SwitchCode(s, d, n, env);
    var ctx := Collect(s.body, n + 1);
    var m := n + 1 + |ctx|;
    var secs := set i | 0 <= i < |ctx| :: Jump(SwitchSec, ctx[i].num);
    var b := {Jump(SwitchEnd, n), Jump(BreakTo, n)};
    var all := out + (secs + b);
    assert forall i :: 0 <= i < |ctx| ==> Jump(SwitchSec, ctx[i].num) in secs;
    var c := Expression(s.c, d, m);
    ExpressionFacts(s.c, d, m, all);
    PushFacts(c, d, m, all);
    var m1 := m + |c.depths|;
    DispatchFacts(ctx, s.wide, d + 1, n, m1, all);
    SwitchPlaced(s, n, m1, env, out, all);
    StatementFacts(s.body, d + 1, m1, InSwitch(env, n, ctx), all);
    SwitchEnvCtx(env, n, ctx);
    var f, x := Statement(s.body, d + 1, m1, InSwitch(env, n, ctx)), Own(s.body, ctx);
    SwitchOwn(s, n, env.ctx);
    SwitchJoin(c.code + [Item(Push, d)], Dispatch(ctx, s.wide, d + 1, n).code, f.code, d, n, m, m1, m1 + |f.depths|, x, Own(s, env.ctx), secs, out);
  }

  lemma SwitchEnvCtx(env: Env, n: nat, ctx: SwitchCtx)
    ensures InSwitch(env, n, ctx).ctx == ctx
  {
  }

  lemma {:induction false} SwitchJoin(c: seq<Item>, j: seq<Item>, f: seq<Item>, d: nat, n: nat, m: nat, m1: nat, m2: nat, x: set<Label>, mine: set<Label>, secs: set<Label>, out: set<Label>)
    requires n < m && var all := out + (secs + {Jump(SwitchEnd, n), Jump(BreakTo, n)});
      Facts(c, m, m1, {}, all) && Facts(j, m1, m1, {}, all) && Facts(f, m1, m2, x, all)
    requires x == mine + secs && Old(x, m) && x !! {Jump(SwitchEnd, n), Jump(BreakTo, n)} && forall l :: l in secs ==> l.Numbered? && n <= l.id < m
    ensures Facts(c + j + f + SwitchTail(d, n), n, m2, mine, out)
  {
    hide Facts, Old, SwitchTail;
    var b := {Jump(SwitchEnd, n), Jump(BreakTo, n)};
    var all := out + (secs + b);
    TailFacts(d, n, m2, all);
    OwnRange(b, n, m);
    Join4(c, j, f, SwitchTail(d, n), m, m1, m1, m2, m2, {}, {}, x, b, all);
    assert {} + {} + x + b == mine + (secs + b);
    Absorb(c + j + f + SwitchTail(d, n), n, m, m2, mine, secs + b, out);
  }

  lemma OwnRange(b: set<Label>, n: nat, m: nat)
    requires (forall l :: l in b ==> l.Numbered? && l.id == n) && n < m
    ensures Old(b, m) && Old({}, m)
  {
  }

  lemma {:induction false} PushFacts(c: Emitted, d: nat, n: nat, out: set<Label>)
    requires Facts(c.code, n, n + |c.depths|, {}, out)
    ensures Facts(c.code + [Item(Push, d)], n, n + |c.depths|, {}, out)
  {
    hide Facts;
    PushedFacts(c, d, n, out);
  }

  /** The body of a switch stands in the context its pre-walk made. */
  lemma {:induction false} SwitchPlaced(s: Stmt, n: nat, m: nat, env: Env, out: set<Label>, all: set<Label>)
    requires Placed(s, n, env, out) && s.Switch? && n + 1 + |Collect(s.body, n + 1)| <= m && out <= all && Jump(BreakTo, n) in all
    ensures Placed(s.body, m, InSwitch(env, n, Collect(s.body, n + 1)), all)
  {
    hide Collect, Nodes;
    var ctx := Collect(s.body, n + 1);
    CollectExact(s.body, n + 1);
    CollectNumbers(s.body, n + 1);
    GotosWider(s.body, out, all);
    var env1 := InSwitch(env, n, ctx);
    assert env1.breaks[..|env.breaks|] == env.breaks;
  }

  /** The sections of the body are the labels of the pre-walk. */
  lemma {:induction false} SwitchOwn(s: Stmt, n: nat, outer: SwitchCtx)
    requires s.Switch? && TreeOk(s)
    ensures var ctx := Collect(s.body, n + 1);
      var secs := set i | 0 <= i < |ctx| :: Jump(SwitchSec, ctx[i].num);
      var m := n + 1 + |ctx|;
      && Own(s.body, ctx) == Own(s, outer) + secs && Old(Own(s.body, ctx), m)
      && Own(s.body, ctx) !! {Jump(SwitchEnd, n), Jump(BreakTo, n)}
      && (forall l :: l in secs ==> l.Numbered? && n <= l.id < m)
  {
    hide Collect;
    var ctx := Collect(s.body, n + 1);
    var secs := set i | 0 <= i < |ctx| :: Jump(SwitchSec, ctx[i].num);
    CollectExact(s.body, n + 1);
    CollectNumbers(s.body, n + 1);
    var own := set x | x in Nodes(s.body) :: SecLabel(ctx, x);
    forall l | l in secs ensures l in own {
      var i :| 0 <= i < |ctx| && l == Jump(SwitchSec, ctx[i].num);
      LookupAt(ctx, i);
      assert ctx[i].node in NodeSet(ctx);
      assert SecLabel(ctx, ctx[i].node) == l;
    }
    forall x | x in Nodes(s.body) ensures SecLabel(ctx, x) in secs {
      var i := LookupFinds(ctx, x);
    }
    assert own == secs;
    assert Users(s) == Users(s.body) && Nodes(s) == {};
  }

  lemma {:induction false} ForFacts(s: Stmt, d: nat, n: nat, env: Env, out: set<Label>)
    requires Placed(s, n, env, out) && s.For?
    ensures Right(s, d, n, env, out)
    decreases s, 1
  {
    hide Facts, Statement, Expression, Old, Covered, OutOk, Ending, InitCode, CondTest, Maybe, Own;
    ForCode(s, d, n, env);
    var own := {Jump(ForStart, n), Jump(ContinueTo, n), Jump(ForEnd, n), Jump(BreakTo, n)};
    var all := out + own;
    var i := InitCode(s, d, n, env);
    var z := if s.init.Some? then Own(s.init.value, env.ctx) else {};
    ForInit(s, d, n, env, out, all);
    var m := n + 1 + |i.depths|;
    CondTestFacts(s, d, n, m, all);
    var t := CondTest(s, d, n, m);
    var m1 := m + |t.depths|;
    PartPlaced(s, s.body, n, m1, env, out, all);
    LoopPlaced(s.body, n, m1, env, all);
    StatementFacts(s.body, d, m1, InLoop(env, n), all);
    var f, x := Statement(s.body, d, m1, InLoop(env, n)), Own(s.body, env.ctx);
    var m2 := m1 + |f.depths|;
    MaybeFacts(s.step, d, m2, all);
    var p := Maybe(s.step, d, m2);
    ForOwn(s, env.ctx, n);
    OldLater(x, n, n + 1);
    ForJoin(i.code, t.code, f.code, p.code, d, n, m, m1, m2, m2 + |p.depths|, z, x, out);
  }

  ghost predicate Sections(x: set<Label>, n: nat) {
    Old(x, n + 1) && forall l :: l in x ==> l.User? || l.kind == SwitchSec
  }

  lemma {:induction false} ForJoin(i: seq<Item>, t: seq<Item>, f: seq<Item>, p: seq<Item>, d: nat, n: nat, m: nat, m1: nat, m2: nat, m3: nat, z: set<Label>, x: set<Label>, out: set<Label>)
    requires var all := out + {Jump(ForStart, n), Jump(ContinueTo, n), Jump(ForEnd, n), Jump(BreakTo, n)};
      Facts(i, n + 1, m, z, all) && Facts(t, m, m1, {}, all) && Facts(f, m1, m2, x, all) && Facts(p, m2, m3, {}, all)
    requires Sections(z, n) && Sections(x, n) && z !! x
    ensures Facts((i + [Item(Def(Jump(ForStart, n)), d)]) + t + (f + [Item(Def(Jump(ContinueTo, n)), d)]) + (p + Ending(ForStart, ForEnd, d, n)), n, m3, z + x, out)
  {
    hide Facts, Old, Ending;
    var g, k, b := Jump(ForStart, n), Jump(ContinueTo, n), {Jump(ForEnd, n), Jump(BreakTo, n)};
    var own := {Jump(ForStart, n), Jump(ContinueTo, n), Jump(ForEnd, n), Jump(BreakTo, n)};
    var all := out + own;
    Ordered(i, n + 1, m, z, all);
    Ordered(t, m, m1, {}, all);
    Ordered(f, m1, m2, x, all);
    Ordered(p, m2, m3, {}, all);
    OwnOld({g}, n);
    OwnOld({k}, n);
    OwnOld(b, n);
    NotSec(x, g, k);
    NotSec(z, g, k);
    NotSec(x, Jump(ForEnd, n), Jump(BreakTo, n));
    NotSec(z, Jump(ForEnd, n), Jump(BreakTo, n));
    ThenDef(i, g, d, n + 1, m, z, all);
    OldJoin(z, {g}, n + 1);
    OldLater({k}, n + 1, m1);
    OldLater(x, n + 1, m1);
    ThenDef(f, k, d, m1, m2, x, all);
    OldJoin(x, {k}, n + 1);
    EndingFacts(ForStart, ForEnd, d, n, m3, all);
    OldLater(b, n + 1, m2);
    NoneOld(m2);
    FactsAppend(p, Ending(ForStart, ForEnd, d, n), m2, m3, m3, {}, b, all);
    assert {} + b == b;
    var c1, c3, c4 := i + [Item(Def(g), d)], f + [Item(Def(k), d)], p + Ending(ForStart, ForEnd, d, n);
    Join4(c1, t, c3, c4, n + 1, m, m1, m2, m3, z + {g}, {}, x + {k}, b, all);
    assert (z + {g}) + {} + (x + {k}) + b == (z + x) + own;
    Absorb(c1 + t + c3 + c4, n, n + 1, m3, z + x, own, out);
  }

  lemma NoneOld(n: nat)
    ensures Old({}, n)
  {
  }

  lemma {:induction false} ForInit(s: Stmt, d: nat, n: nat, env: Env, out: set<Label>, all: set<Label>)
    requires Placed(s, n, env, out) && s.For? && out <= all && Jump(BreakTo, n) in all && Jump(ContinueTo, n) in all
    ensures var i := InitCode(s, d, n, env);
      var z := if s.init.Some? then Own(s.init.value, env.ctx) else {};
      Facts(i.code, n + 1, n + 1 + |i.depths|, z, all) && Old(z, n + 1) && (forall l :: l in z ==> l.User? || l.kind == SwitchSec)
    decreases s, 0
  {
    hide Facts, Statement, Covered, OutOk;
    if s.init.Some? {
      PartPlaced(s, s.init.value, n, n + 1, env, out, all);
      LoopPlaced(s.init.value, n, n + 1, env, all);
      StatementFacts(s.init.value, d, n + 1, InLoop(env, n), all);
    } else {
      FactsNone(n + 1, all);
    }
  }

  lemma {:induction false} CondTestFacts(s: Stmt, d: nat, n: nat, m: nat, all: set<Label>)
    requires s.For? && Jump(ForEnd, n) in all
    ensures var t := CondTest(s, d, n, m); Facts(t.code, m, m + |t.depths|, {}, all)
  {
    hide Facts, Expression;
    if s.cond.Some? { TestedFacts(s.cond.value, Jump(ForEnd, n), true, d, m, all); } else { FactsNone(m, all); }
  }

  lemma {:induction false} MaybeFacts(e: Option<Expr>, d: nat, n: nat, all: set<Label>)
    ensures var p := Maybe(e, d, n); Facts(p.code, n, n + |p.depths|, {}, all)
  {
    hide Facts, Expression;
    if e.Some? { ExpressionFacts(e.value, d, n, all); } else { FactsNone(n, all); }
  }

  lemma ForOwn(s: Stmt, ctx: SwitchCtx, n: nat)
    requires s.For? && TreeOk(s) && Covered(Nodes(s), ctx, n)
    ensures var z := if s.init.Some? then Own(s.init.value, ctx) else {};
      z !! Own(s.body, ctx) && Own(s, ctx) == z + Own(s.body, ctx)
  {
    CoveredLess(Nodes(s.body), Nodes(s), ctx, n, n);
    if s.init.Some? {
      CoveredLess(Nodes(s.init.value), Nodes(s), ctx, n, n);
      OwnApart(s.init.value, s.body, ctx, n);
    }
  }

  // ---------------------------------------------------------------- functions

  /** In a function whose sections stand in switches, and whose gotos name its labels, every label is
      defined at most once and every jump goes to a label defined exactly once. */
  lemma {:induction false} OneTarget(s: Stmt, n: nat, it: Item, l: Label)
    requires TreeOk(s) && Nodes(s) == {} && GotosIn(s, set x | x in Users(s) :: User(x))
    requires it in Statement(s, 0, n, Env([], [])).code && JumpsTo(it, l)
    ensures Defs(Statement(s, 0, n, Env([], [])).code, l) == 1
  {
    hide Statement;
    var out := set x | x in Users(s) :: User(x);
    assert Placed(s, n, Env([], []), out) by { assert NodeSet([]) == {}; }
    StatementFacts(s, 0, n, Env([], []), out);
    assert Own(s, []) == out;
  }
}
