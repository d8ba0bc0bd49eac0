/** What the emission functions give for each construct, one level unfolded. */
module EmissionShapes {
  import opened Emission

  lemma BinaryIs(e: Expr, d: nat, n: nat)
    requires e.Binary?
    ensures Expression(e, d, n) ==
      var a := Then(Expression(e.l, d, n), One(Push, d));
      Then(Then(a, Expression(e.r, d + 1, n + |a.depths|)), Then(One(Pop, d + 1), One(Plain, d)))
  {
    hide Then;
  }

  lemma ShortIs(e: Expr, d: nat, n: nat, skip: LabelKind, end: LabelKind)
    requires (e.And? && skip == AndFalse && end == AndEnd) || (e.Or? && skip == OrTrue && end == OrEnd)
    ensures Expression(e, d, n) ==
      var a := Then(Then(Take(d), Expression(e.l, d, n + 1)), Then(One(Test, d), One(Jcc(Jump(skip, n), skip == AndFalse), d)));
      Then(Then(a, Expression(e.r, d, n + |a.depths|)), ShortEnd(skip, end, d, n))
  {
    hide Then, ShortEnd;
  }

  lemma CondIs(e: Expr, d: nat, n: nat)
    requires e.Cond?
    ensures Expression(e, d, n) ==
      var a := Then(Then(Take(d), Expression(e.c, d, n + 1)), Then(One(Test, d), One(Jcc(Jump(CondFalse, n), true), d)));
      var b := Then(Expression(e.y, d, n + |a.depths|), Then(One(Jmp(Jump(CondEnd, n)), d), One(Def(Jump(CondFalse, n)), d)));
      var f := Expression(e.n, d, n + |a.depths| + |b.depths|);
      Then(Then(a, b), Then(f, One(Def(Jump(CondEnd, n)), d)))
  {
    hide Then;
  }

  lemma IndirectIs(e: Expr, d: nat, n: nat)
    requires e.Indirect? || e.IndirectLaidOut?
    ensures Expression(e, d, n) ==
      var a := Then(Expression(e.f, d, n), One(Push, d));
      if e.IndirectLaidOut? then
        var region := Region(d + 1, e.stackBytes);
        Then(a, Then(LaidOut(e.slots, false, e.stackBytes, d + 1, n + |a.depths|), One(Add(region + 1), d + 1 + region)))
      else if |e.args| <= 6 then
        Then(a, Then(Then(PushAll(e.args, d + 1, n + |a.depths|), PopAll(|e.args|, d + 1 + |e.args|)), Then(One(Pop, d + 1), PaddedCall(d))))
      else
        var k := |e.args| - 6;
        var pad := (d + 1 + k) % 2;
        Then(a, Then(PushMany(e.args, d + 1, n + |a.depths|), One(Add(k + pad + 1), d + 1 + k + pad)))
  {
    hide Then, PushAll, PopAll, PushMany, LaidOut, PaddedCall;
  }

  lemma IfIs(s: Stmt, d: nat, n: nat, env: Env)
    requires s.If?
    ensures Statement(s, d, n, env) ==
      var a := Then(Then(Take(d), Expression(s.c, d, n + 1)), One(Test, d));
      if s.no.Some? then
        var b := Then(One(Jcc(Jump(ElsePart, n), true), d), Statement(s.yes, d, n + |a.depths|, env));
        var f := Statement(s.no.value, d, n + |a.depths| + |b.depths|, env);
        Then(Then(a, b), Then(Then(One(Jmp(Jump(EndIf, n)), d), One(Def(Jump(ElsePart, n)), d)), Then(f, One(Def(Jump(EndIf, n)), d))))
      else
        var b := Then(One(Jcc(Jump(EndIf, n), true), d), Statement(s.yes, d, n + |a.depths|, env));
        Then(Then(a, b), One(Def(Jump(EndIf, n)), d))
  {
    hide Then, Expression;
  }

  lemma WhileIs(s: Stmt, d: nat, n: nat, env: Env)
    requires s.While?
    ensures Statement(s, d, n, env) ==
      var a := Then(Take(d), Then(One(Def(Jump(WhileStart, n)), d), One(Def(Jump(ContinueTo, n)), d)));
      var b := Then(Expression(s.c, d, n + 1), Then(One(Test, d), One(Jcc(Jump(WhileEnd, n), true), d)));
      var f := Statement(s.body, d, n + 1 + |b.depths|, InLoop(env, n));
      Then(Then(a, b), Then(f, LoopEnd(WhileStart, WhileEnd, d, n)))
  {
    hide Then, Expression, LoopEnd;
  }

  lemma DoIs(s: Stmt, d: nat, n: nat, env: Env)
    requires s.DoWhile?
    ensures Statement(s, d, n, env) ==
      var a := Then(Take(d), One(Def(Jump(DoStart, n)), d));
      var b := Then(Statement(s.body, d, n + 1, InLoop(env, n)), One(Def(Jump(ContinueTo, n)), d));
      var f := Then(Expression(s.c, d, n + 1 + |b.depths|), Then(One(Test, d), One(Jcc(Jump(DoStart, n), false), d)));
      Then(Then(a, b), Then(f, Then(One(Def(Jump(DoEnd, n)), d), One(Def(Jump(BreakTo, n)), d))))
  {
    hide Then, Expression;
  }

  lemma ForIs(s: Stmt, d: nat, n: nat, env: Env)
    requires s.For?
    ensures Statement(s, d, n, env) ==
      var env1 := InLoop(env, n);
      var a := Then(Then(Take(d), if s.init.Some? then Statement(s.init.value, d, n + 1, env1) else NOTHING), One(Def(Jump(ForStart, n)), d));
      var b := if s.cond.Some? then Then(Expression(s.cond.value, d, n + |a.depths|), Then(One(Test, d), One(Jcc(Jump(ForEnd, n), true), d))) else NOTHING;
      var f := Then(Statement(s.body, d, n + |a.depths| + |b.depths|, env1), One(Def(Jump(ContinueTo, n)), d));
      var g := Maybe(s.step, d, n + |a.depths| + |b.depths| + |f.depths|);
      Then(Then(Then(a, b), f), Then(g, LoopEnd(ForStart, ForEnd, d, n)))
  {
    hide Then, Expression, LoopEnd;
  }

  lemma SwitchIs(s: Stmt, d: nat, n: nat, env: Env)
    requires s.Switch?
    ensures Statement(s, d, n, env) ==
      var ctx := Collect(s.body, n + 1);
      var a := Then(Take(d + 1), TakeMany(|ctx|, d + 1));
      var b := Then(Expression(s.c, d, n + |a.depths|), One(Push, d));
      var f := Statement(s.body, d + 1, n + |a.depths| + |b.depths|, InSwitch(env, n, ctx));
      Then(Then(Then(a, b), Dispatch(ctx, s.wide, d + 1, n)),
           Then(f, Then(Then(One(Def(Jump(SwitchEnd, n)), d + 1), One(Def(Jump(BreakTo, n)), d + 1)), One(Add(1), d + 1))))
  {
    hide Then, Expression, Dispatch, Collect;
  }
}
