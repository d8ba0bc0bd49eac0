/** Statements: push_depth counts the enclosing switches, and jumps stay at their depth. */
module EmissionStatements {
  import opened Options
  import opened Emission
  import opened EmissionDepth
  import opened EmissionShapes

  /** What directly encloses a statement, as far as break and continue see it. */
  datatype Inner = Outside | Loop | SwitchBody

  /** No continue leaves a switch, and every goto goes to a label at its own switch depth. */
  predicate NoCross(s: Stmt, d: nat, inner: Inner, usr: map<string, nat>)
    decreases s, 1
  {
    match s
    case If(_, y, m) => NoCross(y, d, inner, usr) && (m.Some? ==> NoCross(m.value, d, inner, usr))
    case While(_, b) => NoCross(b, d, Loop, usr)
    case DoWhile(b, _) => NoCross(b, d, Loop, usr)
    case For(i, _, _, b) => (i.Some? ==> NoCross(i.value, d, Loop, usr)) && NoCross(b, d, Loop, usr)
    case Switch(_, _, b) => NoCross(b, d + 1, SwitchBody, usr)
    case Section(_, _, b) => NoCross(b, d, inner, usr)
    case Labelled(x, b) => x in usr && usr[x] == d && NoCross(b, d, inner, usr)
    case Goto(x) => x in usr && usr[x] == d
    case Continue => inner != SwitchBody
    case Block(ss) => NoCrossAll(ss, d, inner, usr)
    case _ => true
  }

  predicate NoCrossAll(ss: seq<Stmt>, d: nat, inner: Inner, usr: map<string, nat>)
    decreases ss, 0
  {
    ss != [] ==> NoCross(ss[0], d, inner, usr) && NoCrossAll(ss[1..], d, inner, usr)
  }

  /** The innermost targets stand at the current depth. */
  ghost predicate EnvOk(env: Env, d: nat, known: seq<nat>, inner: Inner) {
    && (env.breaks == [] <==> inner == Outside)
    && (env.breaks != [] ==>
         var f := env.breaks[|env.breaks| - 1];
         && f.breakLabel < |known| && known[f.breakLabel] == d && f.continueLabel == (if inner == Loop then Some(f.breakLabel) else None))
    && (forall e :: e in env.ctx ==> e.num < |known| && known[e.num] == d)
  }

  lemma EnvLater(env: Env, d: nat, known: seq<nat>, more: seq<nat>, inner: Inner)
    requires EnvOk(env, d, known, inner)
    ensures EnvOk(env, d, known + more, inner)
  {
  }

  lemma EnvLoop(env: Env, d: nat, known: seq<nat>, inner: Inner)
    requires EnvOk(env, d, known, inner)
    ensures EnvOk(InLoop(env, |known|), d, known + [d], Loop)
  {
  }

  lemma LookupIn(ctx: SwitchCtx, node: nat)
    requires Lookup(ctx, node).Some?
    ensures exists e :: e in ctx && e.node == node && e.num == Lookup(ctx, node).value
  {
  }

  // ---------------------------------------------------------------- pieces

  lemma {:induction false} GoodLabels(i: Ins, j: Ins, d: nat, known: seq<nat>, usr: map<string, nat>)
    requires ItemOk(Item(i, d), known, usr) && ItemOk(Item(j, d), known, usr) && Moved(i, d) == d && Moved(j, d) == d
    ensures Good(Then(One(i, d), One(j, d)), known, d, d, usr)
  {
    GoodTwo(i, d, j, known, usr);
  }

  lemma {:induction false} GoodLoopEnd(start: LabelKind, end: LabelKind, d: nat, n: nat, known: seq<nat>, usr: map<string, nat>)
    requires n < |known| && known[n] == d
    ensures Good(LoopEnd(start, end, d, n), known, d, d, usr)
  {
    hide Good;
    GoodOne(Jmp(Jump(start, n)), d, known, usr);
    GoodLabels(Def(Jump(end, n)), Def(Jump(BreakTo, n)), d, known, usr);
    assert known + One(Jmp(Jump(start, n)), d).depths == known;
    GoodThen(One(Jmp(Jump(start, n)), d), Then(One(Def(Jump(end, n)), d), One(Def(Jump(BreakTo, n)), d)), known, d, d, d, usr);
  }

  /** a; b at one depth. */
  lemma {:induction false} Level(a: Emitted, b: Emitted, d: nat, known: seq<nat>, usr: map<string, nat>) returns (r: Emitted)
    requires Good(a, known, d, d, usr) && Good(b, known + a.depths, d, d, usr)
    ensures r == Then(a, b) && Good(r, known, d, d, usr) && known + r.depths == (known + a.depths) + b.depths
  {
    hide Good;
    GoodThen(a, b, known, d, d, d, usr);
    r := Then(a, b);
  }

  lemma {:induction false} GoodMaybe(e: Option<Expr>, d: nat, known: seq<nat>, usr: map<string, nat>)
    ensures Good(Maybe(e, d, |known|), known, d, d, usr)
  {
    hide Good;
    if e.Some? { GoodExpression(e.value, d, known, usr); } else { GoodNothing(d, known, usr); }
  }

  /** An expression, its test, and a jump on it. */
  lemma {:induction false} GoodTest(e: Expr, d: nat, l: Label, zero: bool, known: seq<nat>, usr: map<string, nat>) returns (r: Emitted)
    requires LabelAt(l, d, known, usr)
    ensures r == Then(Expression(e, d, |known|), Then(One(Test, d), One(Jcc(l, zero), d))) && Good(r, known, d, d, usr)
  {
    hide Good, Expression;
    GoodExpression(e, d, known, usr);
    var a := Expression(e, d, |known|);
    assert LabelAt(l, d, known + a.depths, usr);
    GoodLabels(Test, Jcc(l, zero), d, known + a.depths, usr);
    r := Level(a, Then(One(Test, d), One(Jcc(l, zero), d)), d, known, usr);
  }

  lemma {:induction false} GoodCases(ctx: SwitchCtx, wide: bool, d: nat, known: seq<nat>, usr: map<string, nat>)
    requires forall e :: e in ctx ==> e.num < |known| && known[e.num] == d
    ensures Good(Cases(ctx, wide, d), known, d, d, usr) && Cases(ctx, wide, d).depths == []
    decreases |ctx|
  {
    hide Good;
    if ctx == [] {
      GoodNothing(d, known, usr);
    } else {
      GoodCases(ctx[1..], wide, d, known, usr);
      assert ctx[0] in ctx;
      var l := Jump(SwitchSec, ctx[0].num);
      if ctx[0].value.None? { return; }
      var i := Match(ctx[0].value.value, wide);
      GoodLabels(i, Jcc(l, true), d, known, usr);
      var a := Then(One(i, d), One(Jcc(l, true), d));
      assert known + a.depths == known;
      GoodThen(a, Cases(ctx[1..], wide, d), known, d, d, d, usr);
    }
  }

  lemma DefaultIn(ctx: SwitchCtx)
    requires DefaultOf(ctx).Some?
    ensures exists e :: e in ctx && e.value.None? && e.num == DefaultOf(ctx).value
  {
  }

  lemma {:induction false} GoodDispatch(ctx: SwitchCtx, wide: bool, d: nat, n: nat, known: seq<nat>, usr: map<string, nat>)
    requires forall e :: e in ctx ==> e.num < |known| && known[e.num] == d
    requires n < |known| && known[n] == d
    ensures Good(Dispatch(ctx, wide, d, n), known, d, d, usr) && Dispatch(ctx, wide, d, n).depths == []
  {
    hide Good;
    GoodCases(ctx, wide, d, known, usr);
    var def := DefaultOf(ctx);
    if def.Some? { DefaultIn(ctx); }
    var j := Jmp(if def.Some? then Jump(SwitchSec, def.value) else Jump(SwitchEnd, n));
    GoodOne(j, d, known, usr);
    assert known + Cases(ctx, wide, d).depths == known;
    GoodThen(Cases(ctx, wide, d), One(j, d), known, d, d, d, usr);
  }

  // ---------------------------------------------------------------- statements

  lemma {:induction false} GoodStatement(s: Stmt, d: nat, known: seq<nat>, env: Env, inner: Inner, usr: map<string, nat>)
    requires NoCross(s, d, inner, usr) && EnvOk(env, d, known, inner)
    ensures Good(Statement(s, d, |known|, env), known, d, d, usr)
    decreases s, 2
  {
    hide Good, Expression, EnvOk;
    match s
    case Eval(e) => GoodExpression(e, d, known, usr);
    case Return(e) =>
      GoodMaybe(e, d, known, usr);
      var a := Maybe(e, d, |known|);
      GoodOne(Ret, d, known + a.depths, usr);
      var r := Level(a, One(Ret, d), d, known, usr);
    case If(_, _, _) => GoodIf(s, d, known, env, inner, usr);
    case While(_, _) => GoodWhile(s, d, known, env, inner, usr);
    case DoWhile(_, _) => GoodDo(s, d, known, env, inner, usr);
    case For(_, _, _, _) => GoodFor(s, d, known, env, inner, usr);
    case Switch(_, _, _) => GoodSwitch(s, d, known, env, inner, usr);
    case Section(node, _, b) =>
      GoodStatement(b, d, known, env, inner, usr);
      SectionGood(s, Statement(b, d, |known|, env), d, known, env, inner, usr);
    case Labelled(x, b) =>
      GoodStatement(b, d, known, env, inner, usr);
      GoodOne(Def(User(x)), d, known, usr);
      assert known + One(Def(User(x)), d).depths == known;
      var r := Level(One(Def(User(x)), d), Statement(b, d, |known|, env), d, known, usr);
    case Goto(x) => GoodOne(Jmp(User(x)), d, known, usr);
    case Break => JumpGood(s, d, known, env, inner, usr);
    case Continue => JumpGood(s, d, known, env, inner, usr);
    case Block(ss) => GoodStatements(ss, d, known, env, inner, usr);
  }

  lemma {:induction false} GoodStatements(ss: seq<Stmt>, d: nat, known: seq<nat>, env: Env, inner: Inner, usr: map<string, nat>)
    requires NoCrossAll(ss, d, inner, usr) && EnvOk(env, d, known, inner)
    ensures Good(Statements(ss, d, |known|, env), known, d, d, usr)
    decreases ss, 0
  {
    hide Good, Statement, EnvOk;
    if ss == [] {
      GoodNothing(d, known, usr);
    } else {
      GoodStatement(ss[0], d, known, env, inner, usr);
      var a := Statement(ss[0], d, |known|, env);
      EnvLater(env, d, known, a.depths, inner);
      GoodStatements(ss[1..], d, known + a.depths, env, inner, usr);
      var r := Level(a, Statements(ss[1..], d, |known + a.depths|, env), d, known, usr);
    }
  }

  lemma {:induction false} SectionGood(s: Stmt, b: Emitted, d: nat, known: seq<nat>, env: Env, inner: Inner, usr: map<string, nat>)
    requires s.Section? && EnvOk(env, d, known, inner) && Good(b, known, d, d, usr)
    ensures var l := Lookup(env.ctx, s.node);
      Good(Then(if l.Some? then One(Def(Jump(SwitchSec, l.value)), d) else NOTHING, b), known, d, d, usr)
  {
    hide Good;
    var l := Lookup(env.ctx, s.node);
    assert known + [] == known;
    if l.Some? {
      LookupIn(env.ctx, s.node);
      GoodOne(Def(Jump(SwitchSec, l.value)), d, known, usr);
      var r := Level(One(Def(Jump(SwitchSec, l.value)), d), b, d, known, usr);
    } else {
      GoodNothing(d, known, usr);
      var r := Level(NOTHING, b, d, known, usr);
    }
  }

  lemma {:induction false} JumpGood(s: Stmt, d: nat, known: seq<nat>, env: Env, inner: Inner, usr: map<string, nat>)
    requires (s.Break? || s.Continue?) && NoCross(s, d, inner, usr) && EnvOk(env, d, known, inner)
    ensures Good(Statement(s, d, |known|, env), known, d, d, usr)
  {
    hide Good;
    if env.breaks == [] {
      GoodNothing(d, known, usr);
    } else {
      var f := env.breaks[|env.breaks| - 1];
      GoodOne(Jmp(Jump(if s.Break? then BreakTo else ContinueTo, f.breakLabel)), d, known, usr);
    }
  }

  lemma {:induction false} GoodIf(s: Stmt, d: nat, known: seq<nat>, env: Env, inner: Inner, usr: map<string, nat>)
    requires s.If? && NoCross(s, d, inner, usr) && EnvOk(env, d, known, inner)
    ensures Good(Statement(s, d, |known|, env), known, d, d, usr)
    decreases s, 1
  {
    hide Good, Expression, Statement, EnvOk;
    IfIs(s, d, |known|, env);
    var n := |known|;
    GoodTake(d, d, known, usr);
    GoodExpression(s.c, d, known + [d], usr);
    var t := Level(Take(d), Expression(s.c, d, n + 1), d, known, usr);
    GoodOne(Test, d, known + t.depths, usr);
    var a := Level(t, One(Test, d), d, known, usr);
    var k := known + a.depths;
    assert k[n] == d;
    EnvLater(env, d, known, a.depths, inner);
    GoodStatement(s.yes, d, k, env, inner, usr);
    var l := if s.no.Some? then ElsePart else EndIf;
    GoodOne(Jcc(Jump(l, n), true), d, k, usr);
    assert k + One(Jcc(Jump(l, n), true), d).depths == k;
    var b := Level(One(Jcc(Jump(l, n), true), d), Statement(s.yes, d, |k|, env), d, k, usr);
    var kb := k + b.depths;
    assert kb[n] == d;
    var ab := Level(a, b, d, known, usr);
    GoodOne(Def(Jump(EndIf, n)), d, kb, usr);
    if s.no.Some? {
      EnvLater(env, d, k, b.depths, inner);
      GoodStatement(s.no.value, d, kb, env, inner, usr);
      var f := Statement(s.no.value, d, |kb|, env);
      GoodLabels(Jmp(Jump(EndIf, n)), Def(Jump(ElsePart, n)), d, kb, usr);
      var j := Then(One(Jmp(Jump(EndIf, n)), d), One(Def(Jump(ElsePart, n)), d));
      assert kb + j.depths == kb;
      assert (kb + f.depths)[n] == d;
      GoodOne(Def(Jump(EndIf, n)), d, kb + f.depths, usr);
      var g := Level(f, One(Def(Jump(EndIf, n)), d), d, kb, usr);
      var h := Level(j, g, d, kb, usr);
      var r := Level(ab, h, d, known, usr);
    } else {
      var r := Level(ab, One(Def(Jump(EndIf, n)), d), d, known, usr);
    }
  }

  lemma {:induction false} GoodWhile(s: Stmt, d: nat, known: seq<nat>, env: Env, inner: Inner, usr: map<string, nat>)
    requires s.While? && NoCross(s, d, inner, usr) && EnvOk(env, d, known, inner)
    ensures Good(Statement(s, d, |known|, env), known, d, d, usr)
    decreases s, 1
  {
    hide Good, Expression, Statement, EnvOk, LoopEnd;
    WhileIs(s, d, |known|, env);
    var n, k := |known|, known + [d];
    GoodTake(d, d, known, usr);
    GoodLabels(Def(Jump(WhileStart, n)), Def(Jump(ContinueTo, n)), d, k, usr);
    var a := Level(Take(d), Then(One(Def(Jump(WhileStart, n)), d), One(Def(Jump(ContinueTo, n)), d)), d, known, usr);
    assert known + a.depths == k;
    var b := GoodTest(s.c, d, Jump(WhileEnd, n), true, k, usr);
    var kb := k + b.depths;
    EnvLoop(env, d, known, inner);
    EnvLater(InLoop(env, n), d, k, b.depths, Loop);
    GoodStatement(s.body, d, kb, InLoop(env, n), Loop, usr);
    var f := Statement(s.body, d, |kb|, InLoop(env, n));
    assert (kb + f.depths)[n] == d;
    GoodLoopEnd(WhileStart, WhileEnd, d, n, kb + f.depths, usr);
    var g := Level(f, LoopEnd(WhileStart, WhileEnd, d, n), d, kb, usr);
    var ab := Level(a, b, d, known, usr);
    var r := Level(ab, g, d, known, usr);
  }

  lemma {:induction false} GoodDo(s: Stmt, d: nat, known: seq<nat>, env: Env, inner: Inner, usr: map<string, nat>)
    requires s.DoWhile? && NoCross(s, d, inner, usr) && EnvOk(env, d, known, inner)
    ensures Good(Statement(s, d, |known|, env), known, d, d, usr)
    decreases s, 1
  {
    hide Good, Expression, Statement, EnvOk;
    DoIs(s, d, |known|, env);
    var n, k := |known|, known + [d];
    GoodTake(d, d, known, usr);
    GoodOne(Def(Jump(DoStart, n)), d, k, usr);
    var a := Level(Take(d), One(Def(Jump(DoStart, n)), d), d, known, usr);
    assert known + a.depths == k;
    EnvLoop(env, d, known, inner);
    GoodStatement(s.body, d, k, InLoop(env, n), Loop, usr);
    var x := Statement(s.body, d, |k|, InLoop(env, n));
    GoodOne(Def(Jump(ContinueTo, n)), d, k + x.depths, usr);
    var b := Level(x, One(Def(Jump(ContinueTo, n)), d), d, k, usr);
    var kb := k + b.depths;
    var f := GoodTest(s.c, d, Jump(DoStart, n), false, kb, usr);
    assert (kb + f.depths)[n] == d;
    GoodLabels(Def(Jump(DoEnd, n)), Def(Jump(BreakTo, n)), d, kb + f.depths, usr);
    var g := Level(f, Then(One(Def(Jump(DoEnd, n)), d), One(Def(Jump(BreakTo, n)), d)), d, kb, usr);
    var ab := Level(a, b, d, known, usr);
    var r := Level(ab, g, d, known, usr);
  }

  lemma {:induction false} GoodFor(s: Stmt, d: nat, known: seq<nat>, env: Env, inner: Inner, usr: map<string, nat>)
    requires s.For? && NoCross(s, d, inner, usr) && EnvOk(env, d, known, inner)
    ensures Good(Statement(s, d, |known|, env), known, d, d, usr)
    decreases s, 1
  {
    hide Good, Expression, Statement, EnvOk, LoopEnd;
    ForIs(s, d, |known|, env);
    var n, k, env1 := |known|, known + [d], InLoop(env, |known|);
    EnvLoop(env, d, known, inner);
    GoodTake(d, d, known, usr);
    var i := if s.init.Some? then Statement(s.init.value, d, n + 1, env1) else NOTHING;
    if s.init.Some? { GoodStatement(s.init.value, d, k, env1, Loop, usr); } else { GoodNothing(d, k, usr); }
    var t := Level(Take(d), i, d, known, usr);
    assert (known + t.depths)[n] == d;
    GoodOne(Def(Jump(ForStart, n)), d, known + t.depths, usr);
    var a := Level(t, One(Def(Jump(ForStart, n)), d), d, known, usr);
    var ka := known + a.depths;
    assert ka == k + i.depths;
    var b := NOTHING;
    if s.cond.Some? { b := GoodTest(s.cond.value, d, Jump(ForEnd, n), true, ka, usr); } else { GoodNothing(d, ka, usr); }
    var kb := ka + b.depths;
    assert kb == k + (i.depths + b.depths);
    EnvLater(env1, d, k, i.depths + b.depths, Loop);
    GoodStatement(s.body, d, kb, env1, Loop, usr);
    var x := Statement(s.body, d, |kb|, env1);
    assert (kb + x.depths)[n] == d;
    GoodOne(Def(Jump(ContinueTo, n)), d, kb + x.depths, usr);
    var f := Level(x, One(Def(Jump(ContinueTo, n)), d), d, kb, usr);
    var kf := kb + f.depths;
    GoodMaybe(s.step, d, kf, usr);
    var g := Maybe(s.step, d, |kf|);
    assert (kf + g.depths)[n] == d;
    GoodLoopEnd(ForStart, ForEnd, d, n, kf + g.depths, usr);
    var h := Level(g, LoopEnd(ForStart, ForEnd, d, n), d, kf, usr);
    var ab := Level(a, b, d, known, usr);
    var abf := Level(ab, f, d, known, usr);
    var r := Level(abf, h, d, known, usr);
  }

  lemma {:induction false} CollectNumbers(s: Stmt, n: nat)
    ensures forall i :: 0 <= i < |Collect(s, n)| ==> Collect(s, n)[i].num == n + i
    decreases s, 1
  {
    match s
    case Section(_, _, b) => CollectNumbers(b, n + 1);
    case If(_, y, m) =>
      CollectNumbers(y, n);
      if m.Some? { CollectNumbers(m.value, n + |Collect(y, n)|); }
    case While(_, b) => CollectNumbers(b, n);
    case DoWhile(b, _) => CollectNumbers(b, n);
    case For(i, _, _, b) =>
      if i.Some? { CollectNumbers(i.value, n); }
      CollectNumbers(b, n + if i.Some? then |Collect(i.value, n)| else 0);
    case Labelled(_, b) => CollectNumbers(b, n);
    case Block(ss) => CollectAllNumbers(ss, n);
    case _ =>
  }

  lemma {:induction false} CollectAllNumbers(ss: seq<Stmt>, n: nat)
    ensures forall i :: 0 <= i < |CollectAll(ss, n)| ==> CollectAll(ss, n)[i].num == n + i
    decreases ss, 0
  {
    if ss != [] {
      CollectNumbers(ss[0], n);
      CollectAllNumbers(ss[1..], n + |Collect(ss[0], n)|);
    }
  }

  lemma {:induction false} EnvSwitch(env: Env, body: Stmt, d: nat, known: seq<nat>, inner: Inner)
    requires EnvOk(env, d, known, inner)
    ensures var ctx := Collect(body, |known| + 1);
      EnvOk(InSwitch(env, |known|, ctx), d + 1, known + [d + 1] + seq(|ctx|, i => d + 1), SwitchBody)
  {
    var ctx := Collect(body, |known| + 1);
    CollectNumbers(body, |known| + 1);
  }

  lemma {:induction false} GoodSwitch(s: Stmt, d: nat, known: seq<nat>, env: Env, inner: Inner, usr: map<string, nat>)
    requires s.Switch? && NoCross(s, d, inner, usr) && EnvOk(env, d, known, inner)
    ensures Good(Statement(s, d, |known|, env), known, d, d, usr)
    decreases s, 1
  {
    hide Good, Expression, Statement, EnvOk, Dispatch, Collect;
    SwitchIs(s, d, |known|, env);
    var n, ctx := |known|, Collect(s.body, |known| + 1);
    var a := Then(Take(d + 1), TakeMany(|ctx|, d + 1));
    assert Good(a, known, d, d, usr) by { GoodTaken(a, known, d, usr); }
    var k := known + a.depths;
    assert k == known + [d + 1] + seq(|ctx|, i => d + 1);
    GoodExpression(s.c, d, k, usr);
    var x := Expression(s.c, d, |k|);
    AndPush(x, d, k, usr);
    var b := Then(x, One(Push, d));
    GoodThen(a, b, known, d, d, d + 1, usr);
    var kb := k + b.depths;
    var e1 := InSwitch(env, n, ctx);
    EnvSwitch(env, s.body, d, known, inner);
    EnvLater(e1, d + 1, k, b.depths, SwitchBody);
    SwitchLabels(e1, d + 1, kb, n);
    GoodDispatch(ctx, s.wide, d + 1, n, kb, usr);
    GoodStatement(s.body, d + 1, kb, e1, SwitchBody, usr);
    var f := Statement(s.body, d + 1, |kb|, e1);
    assert kb + Dispatch(ctx, s.wide, d + 1, n).depths == kb;
    assert (kb + f.depths)[n] == d + 1;
    SwitchDone(a, b, Dispatch(ctx, s.wide, d + 1, n), f, d, n, known, usr);
  }

  lemma GoodTaken(a: Emitted, known: seq<nat>, d: nat, usr: map<string, nat>)
    requires a.code == []
    ensures Good(a, known, d, d, usr)
  {
  }

  lemma SwitchLabels(env: Env, d: nat, known: seq<nat>, n: nat)
    requires EnvOk(env, d, known, SwitchBody) && env.breaks != [] && env.breaks[|env.breaks| - 1].breakLabel == n
    ensures n < |known| && known[n] == d && forall e :: e in env.ctx ==> e.num < |known| && known[e.num] == d
  {
  }

  lemma {:induction false} SwitchDone(a: Emitted, b: Emitted, j: Emitted, f: Emitted, d: nat, n: nat, known: seq<nat>, usr: map<string, nat>)
    requires Good(Then(a, b), known, d, d + 1, usr) && j.depths == []
    requires var k := known + a.depths + b.depths;
      Good(j, k, d + 1, d + 1, usr) && Good(f, k, d + 1, d + 1, usr) && n < |k + f.depths| && (k + f.depths)[n] == d + 1
    ensures Good(Then(Then(Then(a, b), j), Then(f, Then(Then(One(Def(Jump(SwitchEnd, n)), d + 1), One(Def(Jump(BreakTo, n)), d + 1)), One(Add(1), d + 1)))), known, d, d, usr)
  {
    hide Good;
    var k, ab := known + a.depths + b.depths, Then(a, b);
    assert known + ab.depths == k;
    GoodThen(ab, j, known, d, d + 1, d + 1, usr);
    assert known + Then(ab, j).depths == k;
    var kf := k + f.depths;
    GoodLabels(Def(Jump(SwitchEnd, n)), Def(Jump(BreakTo, n)), d + 1, kf, usr);
    var e := Then(One(Def(Jump(SwitchEnd, n)), d + 1), One(Def(Jump(BreakTo, n)), d + 1));
    GoodOne(Add(1), d + 1, kf, usr);
    assert kf + e.depths == kf;
    GoodThen(e, One(Add(1), d + 1), kf, d + 1, d + 1, d, usr);
    GoodThen(f, Then(e, One(Add(1), d + 1)), k, d + 1, d + 1, d, usr);
    GoodThen(Then(ab, j), Then(f, Then(e, One(Add(1), d + 1))), known, d, d + 1, d, usr);
  }
}
