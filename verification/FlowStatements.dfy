/** The code of a statement goes where structured execution goes, and does the same work. */
module FlowStatements {
  import opened Options
  import opened Emission
  import opened EmissionLabels
  import opened EmissionTargets
  import opened EmissionJumps
  import opened Flow
  import opened FlowMachine
  import opened FlowExpressions
  import opened FlowDispatch

  // ---------------------------------------------------------------- surroundings

  /** Every label of the surroundings stands in the code. */
  ghost predicate Found(code: seq<Item>, out: set<Label>) {
    forall l :: l in out ==> Find(code, l, 0).Some?
  }

  ghost predicate Fit(code: seq<Item>, p: nat, s: Stmt, d: nat, n: nat, env: Env, out: set<Label>) {
    && Once(code) && Here(code, p, Statement(s, d, n, env).code)
    && Placed(s, n, env, out) && Found(code, out) && Proper(s, env.breaks != [], NearestLoop(env.breaks).Some?)
  }

  ghost predicate FitAll(code: seq<Item>, p: nat, ss: seq<Stmt>, d: nat, n: nat, env: Env, out: set<Label>) {
    && Once(code) && Here(code, p, Statements(ss, d, n, env).code)
    && Placed(Block(ss), n, env, out) && Found(code, out) && ProperAll(ss, env.breaks != [], NearestLoop(env.breaks).Some?)
  }

  /** Where an entry of s stands. */
  ghost predicate Starts(code: seq<Item>, p: nat, s: Stmt, n: nat, ctx: SwitchCtx, at: Entry, pc: nat) {
    match at
    case Top => pc == p
    case Again => Find(code, Jump(if s.For? then ForStart else ContinueTo, n), 0) == Some(pc)
    case AtNode(x) => Find(code, SecLabel(ctx, x), 0) == Some(pc)
    case AtName(x) => Find(code, User(x), 0) == Some(pc)
  }

  /** The run from st reaches t, where the outcome leads; without an outcome it has gone on for as long as the fuel. */
  ghost predicate Reaches(code: seq<Item>, o: Values, st: State, k: nat, t: State, r: Done, env: Env, end: nat, fuel: nat) {
    && Arrives(code, o, st, k, t) && (r.out.OutOfFuel? || t.h == r.h)
    && match r.out
       case Normal => t.pc == end
       case Broke => k >= 1 && env.breaks != [] && Find(code, Jump(BreakTo, env.breaks[|env.breaks| - 1].breakLabel), 0) == Some(t.pc)
       case Continued => k >= 1 && NearestLoop(env.breaks).Some? && Find(code, Jump(ContinueTo, NearestLoop(env.breaks).value), 0) == Some(t.pc)
       case Returned => t.pc < |code| && code[t.pc].ins == Ret
       case Left(x) => k >= 1 && Find(code, User(x), 0) == Some(t.pc)
       case OutOfFuel => k >= fuel
  }

  // ---------------------------------------------------------------- composing runs

  /** What came before. */
  lemma Before(code: seq<Item>, o: Values, st: State, j: nat, u: State, k: nat, t: State, r: Done, env: Env, end: nat, less: nat, fuel: nat)
    requires Arrives(code, o, st, j, u) && Reaches(code, o, u, k, t, r, env, end, less) && fuel <= less + j
    ensures Reaches(code, o, st, j + k, t, r, env, end, fuel)
  {
    hide Run, Find;
    ArrivesOn(code, o, st, j, u, k, t);
  }

  /** A normal end is followed by more code. */
  lemma After(code: seq<Item>, o: Values, st: State, j: nat, u: State, k: nat, t: State, r: Done, env: Env, mid: nat, end: nat, fuel: nat)
    requires Reaches(code, o, st, j, u, r, env, mid, fuel) && r.out.Normal? && Arrives(code, o, u, k, t) && t.h == u.h && t.pc == end
    ensures Reaches(code, o, st, j + k, t, r, env, end, fuel)
  {
    hide Run, Find;
    ArrivesOn(code, o, st, j, u, k, t);
  }

  lemma NowThere(code: seq<Item>, o: Values, st: State, k: nat, t: State, env: Env, end: nat, fuel: nat)
    requires Arrives(code, o, st, k, t) && t.pc == end
    ensures Reaches(code, o, st, k, t, Done(Normal, t.h), env, end, fuel)
  {
    hide Run;
  }

  lemma RanOut(code: seq<Item>, o: Values, st: State, k: nat, t: State, h: History, env: Env, end: nat)
    requires Arrives(code, o, st, k, t)
    ensures Reaches(code, o, st, k, t, Done(OutOfFuel, h), env, end, 0)
  {
    hide Run;
  }

  /** One more instruction that does nothing. */
  lemma ThenQuiet(code: seq<Item>, o: Values, st: State, j: nat, u: State) returns (k: nat, t: State)
    requires Arrives(code, o, st, j, u) && u.pc < |code| && (code[u.pc].ins.Def? || code[u.pc].ins.Push? || code[u.pc].ins.Add?)
    ensures Arrives(code, o, st, k, t) && k == j + 1 && t.pc == u.pc + 1 && t.h == u.h
    ensures code[u.pc].ins == Push ==> TopOf(t.stack) == o(u.h)
  {
    t := QuietStep(code, o, u);
    hide Run, Step;
    ArrivesOn(code, o, st, j, u, 1, t);
    k := j + 1;
  }

  lemma ThenJump(code: seq<Item>, o: Values, st: State, j: nat, u: State) returns (k: nat, t: State)
    requires Arrives(code, o, st, j, u) && u.pc < |code| && code[u.pc].ins.Jmp? && Find(code, code[u.pc].ins.l, 0).Some?
    ensures Arrives(code, o, st, k, t) && k == j + 1 && Some(t.pc) == Find(code, code[u.pc].ins.l, 0) && t.h == u.h
  {
    t := JumpStep(code, o, u);
    hide Run, Step;
    ArrivesOn(code, o, st, j, u, 1, t);
    k := j + 1;
  }

  // ---------------------------------------------------------------- statements

  lemma {:induction false} StmtRuns(code: seq<Item>, o: Values, p: nat, s: Stmt, d: nat, n: nat, env: Env, out: set<Label>, at: Entry, st: State, fuel: nat) returns (k: nat, t: State)
    requires Fit(code, p, s, d, n, env, out) && Within(s, at) && Starts(code, p, s, n, env.ctx, at, st.pc)
    ensures Reaches(code, o, st, k, t, Exec(s, at, st.h, o, fuel), env, p + |Statement(s, d, n, env).code|, fuel)
    decreases fuel, s, 9
  {
    hide Here, Once, Run, Found, Placed, Expression, Trace, Find, Fit, Reaches, Statement, Exec;
    match s
    case Eval(e) => k, t := EvalRuns(code, o, p, s, d, n, env, out, st, at, fuel);
    case Return(e) => k, t := ReturnRuns(code, o, p, s, d, n, env, out, st, at, fuel);
    case If(_, _, _) => k, t := IfRuns(code, o, p, s, d, n, env, out, at, st, fuel);
    case While(_, _) => k, t := WhileRuns(code, o, p, s, d, n, env, out, at, st, fuel);
    case DoWhile(_, _) => k, t := DoRuns(code, o, p, s, d, n, env, out, at, st, fuel);
    case For(_, _, _, _) => k, t := ForRuns(code, o, p, s, d, n, env, out, at, st, fuel);
    case Switch(_, _, _) => k, t := SwitchRuns(code, o, p, s, d, n, env, out, at, st, fuel);
    case Section(_, _, _) => k, t := SectionRuns(code, o, p, s, d, n, env, out, at, st, fuel);
    case Labelled(_, _) => k, t := LabelledRuns(code, o, p, s, d, n, env, out, at, st, fuel);
    case Goto(_) => k, t := JumpRuns(code, o, p, s, d, n, env, out, at, st, fuel);
    case Break => k, t := JumpRuns(code, o, p, s, d, n, env, out, at, st, fuel);
    case Continue => k, t := JumpRuns(code, o, p, s, d, n, env, out, at, st, fuel);
    case Block(ss) => k, t := BlockRuns(code, o, p, s, d, n, env, out, at, st, fuel);
  }

  lemma EvalRuns(code: seq<Item>, o: Values, p: nat, s: Stmt, d: nat, n: nat, env: Env, out: set<Label>, st: State, at: Entry, fuel: nat) returns (k: nat, t: State)
    requires Fit(code, p, s, d, n, env, out) && s.Eval? && Within(s, at) && Starts(code, p, s, n, env.ctx, at, st.pc)
    ensures Reaches(code, o, st, k, t, Exec(s, at, st.h, o, fuel), env, p + |Statement(s, d, n, env).code|, fuel)
  {
    hide Here, Once, Run, Found, Placed, Expression, Trace, Find;
    k, t := ExprRuns(code, o, p, s.e, d, n, st);
  }

  lemma MaybeRuns(code: seq<Item>, o: Values, p: nat, e: Option<Expr>, d: nat, n: nat, st: State, j: nat, u: State) returns (k: nat, t: State)
    requires Once(code) && Here(code, p, Maybe(e, d, n).code) && Arrives(code, o, st, j, u) && u.pc == p
    ensures Arrives(code, o, st, k, t) && k >= j && t.pc == p + |Maybe(e, d, n).code| && t.h == MaybeTrace(e, u.h, o)
  {
    hide Here, Once, Run, Expression, Trace;
    if e.Some? {
      var i;
      i, t := ExprRuns(code, o, p, e.value, d, n, u);
      ArrivesOn(code, o, st, j, u, i, t);
      k := j + i;
    } else {
      k, t := j, u;
    }
  }

  lemma ReturnRuns(code: seq<Item>, o: Values, p: nat, s: Stmt, d: nat, n: nat, env: Env, out: set<Label>, st: State, at: Entry, fuel: nat) returns (k: nat, t: State)
    requires Fit(code, p, s, d, n, env, out) && s.Return? && Within(s, at) && Starts(code, p, s, n, env.ctx, at, st.pc)
    ensures Reaches(code, o, st, k, t, Exec(s, at, st.h, o, fuel), env, p + |Statement(s, d, n, env).code|, fuel)
  {
    hide Here, Once, Run, Found, Placed, Expression, Trace, Find, Maybe, MaybeTrace;
    HereParts(code, p, Maybe(s.value, d, n).code, [Item(Ret, d)]);
    HereAt(code, p + |Maybe(s.value, d, n).code|, [Item(Ret, d)], 0);
    Still(code, o, st);
    k, t := MaybeRuns(code, o, p, s.value, d, n, st, 0, st);
  }

  lemma JumpRuns(code: seq<Item>, o: Values, p: nat, s: Stmt, d: nat, n: nat, env: Env, out: set<Label>, at: Entry, st: State, fuel: nat) returns (k: nat, t: State)
    requires Fit(code, p, s, d, n, env, out) && (s.Goto? || s.Break? || s.Continue?) && Within(s, at) && Starts(code, p, s, n, env.ctx, at, st.pc)
    ensures Reaches(code, o, st, k, t, Exec(s, at, st.h, o, fuel), env, p + |Statement(s, d, n, env).code|, fuel)
  {
    hide Here, Once, Run, Covered, Find;
    var l := if s.Goto? then User(s.name) else if s.Break? then Jump(BreakTo, env.breaks[|env.breaks| - 1].breakLabel) else Jump(ContinueTo, NearestLoop(env.breaks).value);
    assert Statement(s, d, n, env).code == [Item(Jmp(l), d)];
    HereAt(code, p, [Item(Jmp(l), d)], 0);
    Still(code, o, st);
    k, t := ThenJump(code, o, st, 0, st);
  }

  // ---------------------------------------------------------------- if

  /** Where the parts of an if stand. */
  ghost predicate IfParts(code: seq<Item>, p: nat, s: Stmt, d: nat, n: nat, env: Env, out: set<Label>)
    requires s.If?
  {
    var c := Expression(s.c, d, n + 1);
    var m := n + 1 + |c.depths|;
    var y := Statement(s.yes, d, m, env);
    var p1 := p + |c.code|;
    var p2 := p1 + 2 + |y.code|;
    var end := p + |Statement(s, d, n, env).code|;
    && Once(code) && Here(code, p, c.code) && Fit(code, p1 + 2, s.yes, d, m, env, out)
    && (if s.no.Some? then
          var m2 := m + |y.depths|;
          var p3 := p2 + 2 + |Statement(s.no.value, d, m2, env).code|;
          && Here(code, p1, Branch(Jump(ElsePart, n), true, d)) && Find(code, Jump(ElsePart, n), 0) == Some(p2 + 1)
          && p2 + 1 < |code| && code[p2].ins == Jmp(Jump(EndIf, n)) && code[p2 + 1].ins.Def? && Fit(code, p2 + 2, s.no.value, d, m2, env, out)
          && p3 < |code| && code[p3].ins.Def? && Find(code, Jump(EndIf, n), 0) == Some(p3) && end == p3 + 1
        else
          && Here(code, p1, Branch(Jump(EndIf, n), true, d)) && Find(code, Jump(EndIf, n), 0) == Some(p2)
          && p2 < |code| && code[p2].ins.Def? && end == p2 + 1)
  }

  /** A part of s that stands in the same surroundings. */
  lemma PartFit(code: seq<Item>, p: nat, s: Stmt, n: nat, env: Env, out: set<Label>, q: nat, t: Stmt, d: nat, m: nat)
    requires Once(code) && Placed(s, n, env, out) && Found(code, out) && n <= m && TreeOk(t) && Nodes(t) <= Nodes(s) && GotosIn(t, out)
    requires Here(code, q, Statement(t, d, m, env).code) && Proper(t, env.breaks != [], NearestLoop(env.breaks).Some?)
    ensures Fit(code, q, t, d, m, env, out)
  {
    hide Here, Once, Found, Statement, Find, Own, Old, TreeOk, Nodes, GotosIn, Proper;
    PartPlaced(s, t, n, m, env, out, out);
  }

  lemma IfHere(code: seq<Item>, p: nat, s: Stmt, d: nat, n: nat, env: Env, out: set<Label>)
    requires Fit(code, p, s, d, n, env, out) && s.If?
    ensures IfParts(code, p, s, d, n, env, out)
  {
    hide Here, Once, Found, Statement, Expression, Find;
    IfCode(s, d, n, env);
    var c := Expression(s.c, d, n + 1);
    var m := n + 1 + |c.depths|;
    var y := Statement(s.yes, d, m, env);
    var p1 := p + |c.code|;
    var p2 := p1 + 2 + |y.code|;
    if s.no.Some? {
      var f := Statement(s.no.value, d, m + |y.depths|, env);
      var b, mid, last := Branch(Jump(ElsePart, n), true, d), [Item(Jmp(Jump(EndIf, n)), d), Item(Def(Jump(ElsePart, n)), d)], [Item(Def(Jump(EndIf, n)), d)];
      Here4(code, p, (c.code + b) + y.code + mid, f.code, last, []);
      Here3(code, p, c.code + b, y.code, mid);
      HereParts(code, p, c.code, b);
      PartFit(code, p, s, n, env, out, p1 + 2, s.yes, d, m);
      PartFit(code, p, s, n, env, out, p2 + 2, s.no.value, d, m + |y.depths|);
      HereAt(code, p2, mid, 0);
      HereAt(code, p2, mid, 1);
      HereAt(code, p2 + 2 + |f.code|, last, 0);
      FindIs(code, Jump(ElsePart, n), p2 + 1);
      FindIs(code, Jump(EndIf, n), p2 + 2 + |f.code|);
    } else {
      var b, last := Branch(Jump(EndIf, n), true, d), [Item(Def(Jump(EndIf, n)), d)];
      Here4(code, p, c.code, b, y.code, last);
      PartFit(code, p, s, n, env, out, p1 + 2, s.yes, d, m);
      HereAt(code, p2, last, 0);
      FindIs(code, Jump(EndIf, n), p2);
    }
  }

  /** After the first branch. */
  lemma YesEnd(code: seq<Item>, o: Values, p: nat, s: Stmt, d: nat, n: nat, env: Env, out: set<Label>, st: State, j: nat, u: State, r: Done, fuel: nat) returns (k: nat, t: State)
    requires s.If? && IfParts(code, p, s, d, n, env, out)
    requires var c := Expression(s.c, d, n + 1);
      Reaches(code, o, st, j, u, r, env, p + |c.code| + 2 + |Statement(s.yes, d, n + 1 + |c.depths|, env).code|, fuel)
    ensures Reaches(code, o, st, k, t, r, env, p + |Statement(s, d, n, env).code|, fuel)
  {
    hide Here, Once, Statement, Expression, Find, Fit, Run;
    if r.out.Normal? {
      var i, v := j, u;
      if s.no.Some? { i, v := ThenJump(code, o, st, j, u); }
      k, t := ThenQuiet(code, o, st, i, v);
    } else {
      k, t := j, u;
    }
  }

  lemma NoEnd(code: seq<Item>, o: Values, p: nat, s: Stmt, d: nat, n: nat, env: Env, out: set<Label>, st: State, j: nat, u: State, r: Done, end: nat, fuel: nat) returns (k: nat, t: State)
    requires s.If? && s.no.Some? && IfParts(code, p, s, d, n, env, out) && Reaches(code, o, st, j, u, r, env, end, fuel)
    requires end + 1 == p + |Statement(s, d, n, env).code|
    ensures Reaches(code, o, st, k, t, r, env, p + |Statement(s, d, n, env).code|, fuel)
  {
    hide Here, Once, Statement, Expression, Find, Fit, Run;
    if r.out.Normal? {
      k, t := ThenQuiet(code, o, st, j, u);
    } else {
      k, t := j, u;
    }
  }

  lemma {:induction false} IfRuns(code: seq<Item>, o: Values, p: nat, s: Stmt, d: nat, n: nat, env: Env, out: set<Label>, at: Entry, st: State, fuel: nat) returns (k: nat, t: State)
    requires Fit(code, p, s, d, n, env, out) && s.If? && Within(s, at) && Starts(code, p, s, n, env.ctx, at, st.pc)
    ensures Reaches(code, o, st, k, t, Exec(s, at, st.h, o, fuel), env, p + |Statement(s, d, n, env).code|, fuel)
    decreases fuel, s, 8
  {
    hide Here, Once, Found, Statement, Expression, Find, Fit, Run, Reaches, Trace, Branch;
    IfHere(code, p, s, d, n, env, out);
    var c := Expression(s.c, d, n + 1);
    var m := n + 1 + |c.depths|;
    var y := Statement(s.yes, d, m, env);
    var p1 := p + |c.code|;
    var p2 := p1 + 2 + |y.code|;
    var i, v := 0, st;
    Still(code, o, st);
    if at.Top? {
      var j, u := ExprRuns(code, o, p, s.c, d, n + 1, st);
      i, v := IfTested(code, o, p1, if s.no.Some? then ElsePart else EndIf, d, n, st, j, u, if s.no.Some? then p2 + 1 else p2);
      if o(u.h) == 0 {
        i, v := ThenQuiet(code, o, st, i, v);
        if s.no.None? {
          k, t := i, v;
          NowThere(code, o, st, k, t, env, p + |Statement(s, d, n, env).code|, fuel);
          return;
        }
      }
    }
    var x := Exec(s, at, st.h, o, fuel);
    if (at.Top? && v.pc == p1 + 2 && o(v.h) != 0) || (!at.Top? && Within(s.yes, at)) {
      var i2, w := StmtRuns(code, o, p1 + 2, s.yes, d, m, env, out, at, v, fuel);
      Before(code, o, st, i, v, i2, w, x, env, p2, fuel, fuel);
      k, t := YesEnd(code, o, p, s, d, n, env, out, st, i + i2, w, x, fuel);
    } else {
      var m2 := m + |y.depths|;
      var i2, w := StmtRuns(code, o, p2 + 2, s.no.value, d, m2, env, out, at, v, fuel);
      Before(code, o, st, i, v, i2, w, x, env, p2 + 2 + |Statement(s.no.value, d, m2, env).code|, fuel, fuel);
      k, t := NoEnd(code, o, p, s, d, n, env, out, st, i + i2, w, x, p2 + 2 + |Statement(s.no.value, d, m2, env).code|, fuel);
    }
  }

  /** The test of a condition: on from here if it is not zero, to the label if it is. */
  lemma IfTested(code: seq<Item>, o: Values, p: nat, kind: LabelKind, d: nat, n: nat, st: State, j: nat, u: State, target: nat) returns (k: nat, t: State)
    requires Here(code, p, Branch(Jump(kind, n), true, d)) && u.pc == p && Find(code, Jump(kind, n), 0) == Some(target) && Arrives(code, o, st, j, u)
    ensures Arrives(code, o, st, k, t) && t.h == u.h && t.pc == if o(u.h) == 0 then target else p + 2
  {
    hide Here, Find, Run;
    k, t := TestRuns(code, o, p, Jump(kind, n), true, d, st, j, u, target);
  }

  // ---------------------------------------------------------------- loops

  /** The body of a loop. */
  lemma LoopFit(code: seq<Item>, s: Stmt, n: nat, env: Env, out: set<Label>, q: nat, t: Stmt, d: nat, m: nat)
    requires Once(code) && Placed(s, n, env, out) && Found(code, out) && n <= m && TreeOk(t) && Nodes(t) <= Nodes(s) && GotosIn(t, out)
    requires Here(code, q, Statement(t, d, m, InLoop(env, n)).code) && Proper(t, true, true)
    requires Find(code, Jump(BreakTo, n), 0).Some? && Find(code, Jump(ContinueTo, n), 0).Some?
    ensures Fit(code, q, t, d, m, InLoop(env, n), out + {Jump(BreakTo, n), Jump(ContinueTo, n)})
  {
    hide Here, Once, Statement, Find, Own, Old, TreeOk, Nodes, GotosIn, Proper, Covered;
    var all := out + {Jump(BreakTo, n), Jump(ContinueTo, n)};
    PartPlaced(s, t, n, m, env, out, all);
    LoopPlaced(t, n, m, env, all);
  }

  ghost predicate WhileParts(code: seq<Item>, p: nat, s: Stmt, d: nat, n: nat, env: Env, out: set<Label>)
    requires s.While?
  {
    var c := Expression(s.c, d, n + 1);
    var m := n + 1 + |c.depths|;
    var p1 := p + 2 + |c.code|;
    var p2 := p1 + 2 + |Statement(s.body, d, m, InLoop(env, n)).code|;
    && Once(code) && p2 + 3 <= |code| && code[p].ins.Def? && code[p + 1].ins.Def?
    && Find(code, Jump(WhileStart, n), 0) == Some(p) && Find(code, Jump(ContinueTo, n), 0) == Some(p + 1)
    && Here(code, p + 2, c.code) && Here(code, p1, Branch(Jump(WhileEnd, n), true, d))
    && Fit(code, p1 + 2, s.body, d, m, InLoop(env, n), out + {Jump(BreakTo, n), Jump(ContinueTo, n)})
    && code[p2].ins == Jmp(Jump(WhileStart, n)) && code[p2 + 1].ins.Def? && code[p2 + 2].ins.Def?
    && Find(code, Jump(WhileEnd, n), 0) == Some(p2 + 1) && Find(code, Jump(BreakTo, n), 0) == Some(p2 + 2)
    && p + |Statement(s, d, n, env).code| == p2 + 3
  }

  /** Where the end of a loop stands. */
  lemma EndingHere(code: seq<Item>, p: nat, start: LabelKind, end: LabelKind, d: nat, n: nat)
    requires Once(code) && Here(code, p, Ending(start, end, d, n))
    ensures p + 3 <= |code| && code[p].ins == Jmp(Jump(start, n)) && code[p + 1].ins.Def? && code[p + 2].ins.Def?
    ensures Find(code, Jump(end, n), 0) == Some(p + 1) && Find(code, Jump(BreakTo, n), 0) == Some(p + 2)
  {
    hide Here, Once, Find;
    HereAt(code, p, Ending(start, end, d, n), 0);
    HereAt(code, p, Ending(start, end, d, n), 1);
    HereAt(code, p, Ending(start, end, d, n), 2);
    FindIs(code, Jump(end, n), p + 1);
    FindIs(code, Jump(BreakTo, n), p + 2);
  }

  lemma DefHere(code: seq<Item>, p: nat, l: Label, d: nat)
    requires Once(code) && Here(code, p, [Item(Def(l), d)])
    ensures p < |code| && code[p].ins == Def(l) && Find(code, l, 0) == Some(p)
  {
    hide Here, Once, Find;
    HereAt(code, p, [Item(Def(l), d)], 0);
    FindIs(code, l, p);
  }

  lemma WhileHere(code: seq<Item>, p: nat, s: Stmt, d: nat, n: nat, env: Env, out: set<Label>)
    requires Fit(code, p, s, d, n, env, out) && s.While?
    ensures WhileParts(code, p, s, d, n, env, out)
  {
    hide Here, Once, Found, Statement, Expression, Find, Ending, Branch, Covered;
    WhileCode(s, d, n, env);
    var c := Expression(s.c, d, n + 1);
    var m := n + 1 + |c.depths|;
    var f := Statement(s.body, d, m, InLoop(env, n));
    var b := Branch(Jump(WhileEnd, n), true, d);
    BranchSize(Jump(WhileEnd, n), true, d);
    var first := [Item(Def(Jump(WhileStart, n)), d), Item(Def(Jump(ContinueTo, n)), d)];
    var p1 := p + 2 + |c.code|;
    var p2 := p1 + 2 + |f.code|;
    Here4(code, p, first, c.code + b, f.code, Ending(WhileStart, WhileEnd, d, n));
    HereParts(code, p + 2, c.code, b);
    assert first == [first[0]] + [first[1]];
    HereParts(code, p, [first[0]], [first[1]]);
    DefHere(code, p, Jump(WhileStart, n), d);
    DefHere(code, p + 1, Jump(ContinueTo, n), d);
    EndingHere(code, p2, WhileStart, WhileEnd, d, n);
    EndingSize(WhileStart, WhileEnd, d, n);
    LoopFit(code, s, n, env, out, p1 + 2, s.body, d, m);
  }

  lemma BranchSize(l: Label, zero: bool, d: nat)
    ensures |Branch(l, zero, d)| == 2
  {
  }

  lemma EndingSize(start: LabelKind, end: LabelKind, d: nat, n: nat)
    ensures |Ending(start, end, d, n)| == 3
  {
  }

  /** What a while loop does after its body. */
  function WhileNext(s: Stmt, r: Done, o: Values, fuel: nat): Done
    requires s.While?
  {
    if r.out.Normal? || r.out.Continued? then if fuel == 0 then Done(OutOfFuel, r.h) else Exec(s, Again, r.h, o, fuel - 1) else Leave(r)
  }

  lemma {:induction false} WhileNextRuns(code: seq<Item>, o: Values, p: nat, s: Stmt, d: nat, n: nat, env: Env, out: set<Label>, st: State, j: nat, u: State, r: Done, fuel: nat) returns (k: nat, t: State)
    requires Fit(code, p, s, d, n, env, out) && s.While? && WhileParts(code, p, s, d, n, env, out)
    requires Reaches(code, o, st, j, u, r, InLoop(env, n), p + |Statement(s, d, n, env).code| - 3, fuel)
    ensures Reaches(code, o, st, k, t, WhileNext(s, r, o, fuel), env, p + |Statement(s, d, n, env).code|, fuel)
    decreases fuel, s, 7
  {
    hide Here, Once, Found, Statement, Expression, Find, Run, Exec, Fit;
    LoopTargets(env, n);
    k, t := j, u;
    if r.out.Normal? {
      k, t := ThenJump(code, o, st, k, t);
      k, t := ThenQuiet(code, o, st, k, t);
    }
    if r.out.Normal? || r.out.Continued? {
      if fuel == 0 {
        RanOut(code, o, st, k, t, r.h, env, p + |Statement(s, d, n, env).code|);
      } else {
        var i, w := StmtRuns(code, o, p, s, d, n, env, out, Again, t, fuel - 1);
        Before(code, o, st, k, t, i, w, Exec(s, Again, t.h, o, fuel - 1), env, p + |Statement(s, d, n, env).code|, fuel - 1, fuel);
        k, t := k + i, w;
      }
    } else if r.out.Broke? {
      k, t := ThenQuiet(code, o, st, k, t);
    }
  }

  lemma LoopTargets(env: Env, n: nat)
    ensures var b := InLoop(env, n).breaks; b != [] && b[|b| - 1].breakLabel == n && NearestLoop(b) == Some(n)
  {
  }

  lemma {:induction false} WhileRuns(code: seq<Item>, o: Values, p: nat, s: Stmt, d: nat, n: nat, env: Env, out: set<Label>, at: Entry, st: State, fuel: nat) returns (k: nat, t: State)
    requires Fit(code, p, s, d, n, env, out) && s.While? && Within(s, at) && Starts(code, p, s, n, env.ctx, at, st.pc)
    ensures Reaches(code, o, st, k, t, Exec(s, at, st.h, o, fuel), env, p + |Statement(s, d, n, env).code|, fuel)
    decreases fuel, s, 8
  {
    hide Here, Once, Found, Statement, Expression, Find, Fit, Run, Reaches, Trace, Branch;
    WhileHere(code, p, s, d, n, env, out);
    var c := Expression(s.c, d, n + 1);
    var m := n + 1 + |c.depths|;
    var p1 := p + 2 + |c.code|;
    var f := Statement(s.body, d, m, InLoop(env, n));
    var end := p1 + 2 + |f.code|;
    var i, v := 0, st;
    Still(code, o, st);
    if at.Top? || at.Again? {
      if at.Top? { i, v := ThenQuiet(code, o, st, i, v); }
      i, v := ThenQuiet(code, o, st, i, v);
      var j, u := ExprRuns(code, o, p + 2, s.c, d, n + 1, v);
      ArrivesOn(code, o, st, i, v, j, u);
      i, v := IfTested(code, o, p1, WhileEnd, d, n, st, i + j, u, end + 1);
      if o(u.h) == 0 {
        k, t := ThenQuiet(code, o, st, i, v);
        k, t := ThenQuiet(code, o, st, k, t);
        NowThere(code, o, st, k, t, env, p + |Statement(s, d, n, env).code|, fuel);
        return;
      }
    }
    var entry := if at.Again? then Top else at;
    var r := Exec(s.body, entry, v.h, o, fuel);
    var i2, w := StmtRuns(code, o, p1 + 2, s.body, d, m, InLoop(env, n), out + {Jump(BreakTo, n), Jump(ContinueTo, n)}, entry, v, fuel);
    Before(code, o, st, i, v, i2, w, r, InLoop(env, n), end, fuel, fuel);
    k, t := WhileNextRuns(code, o, p, s, d, n, env, out, st, i + i2, w, r, fuel);
  }

  ghost predicate DoParts(code: seq<Item>, p: nat, s: Stmt, d: nat, n: nat, env: Env, out: set<Label>)
    requires s.DoWhile?
  {
    var x := Statement(s.body, d, n + 1, InLoop(env, n));
    var c := Expression(s.c, d, n + 1 + |x.depths|);
    var p1 := p + 1 + |x.code|;
    var p2 := p1 + 1 + |c.code|;
    && Once(code) && p2 + 4 <= |code| && code[p].ins.Def? && code[p1].ins.Def?
    && Find(code, Jump(DoStart, n), 0) == Some(p) && Find(code, Jump(ContinueTo, n), 0) == Some(p1)
    && Fit(code, p + 1, s.body, d, n + 1, InLoop(env, n), out + {Jump(BreakTo, n), Jump(ContinueTo, n)})
    && Here(code, p1 + 1, c.code) && Here(code, p2, Branch(Jump(DoStart, n), false, d))
    && code[p2 + 2].ins.Def? && code[p2 + 3].ins.Def? && Find(code, Jump(BreakTo, n), 0) == Some(p2 + 3)
    && p + |Statement(s, d, n, env).code| == p2 + 4
  }

  lemma DoHere(code: seq<Item>, p: nat, s: Stmt, d: nat, n: nat, env: Env, out: set<Label>)
    requires Fit(code, p, s, d, n, env, out) && s.DoWhile?
    ensures DoParts(code, p, s, d, n, env, out)
  {
    hide Here, Once, Found, Statement, Expression, Find, Branch, Covered;
    DoCode(s, d, n, env);
    var x := Statement(s.body, d, n + 1, InLoop(env, n));
    var c := Expression(s.c, d, n + 1 + |x.depths|);
    var p1 := p + 1 + |x.code|;
    var p2 := p1 + 1 + |c.code|;
    var b := Branch(Jump(DoStart, n), false, d);
    BranchSize(Jump(DoStart, n), false, d);
    var first, mid, last := [Item(Def(Jump(DoStart, n)), d)], [Item(Def(Jump(ContinueTo, n)), d)], [Item(Def(Jump(DoEnd, n)), d), Item(Def(Jump(BreakTo, n)), d)];
    Here4(code, p, first, x.code + mid, c.code + b, last);
    HereParts(code, p + 1, x.code, mid);
    HereParts(code, p1 + 1, c.code, b);
    DefHere(code, p, Jump(DoStart, n), d);
    DefHere(code, p1, Jump(ContinueTo, n), d);
    assert last == [last[0]] + [last[1]];
    HereParts(code, p2 + 2, [last[0]], [last[1]]);
    DefHere(code, p2 + 2, Jump(DoEnd, n), d);
    DefHere(code, p2 + 3, Jump(BreakTo, n), d);
    LoopFit(code, s, n, env, out, p + 1, s.body, d, n + 1);
  }

  lemma {:induction false} DoRuns(code: seq<Item>, o: Values, p: nat, s: Stmt, d: nat, n: nat, env: Env, out: set<Label>, at: Entry, st: State, fuel: nat) returns (k: nat, t: State)
    requires Fit(code, p, s, d, n, env, out) && s.DoWhile? && Within(s, at) && Starts(code, p, s, n, env.ctx, at, st.pc)
    ensures Reaches(code, o, st, k, t, Exec(s, at, st.h, o, fuel), env, p + |Statement(s, d, n, env).code|, fuel)
    decreases fuel, s, 8
  {
    hide Here, Once, Found, Statement, Expression, Find, Fit, Run, Reaches, Trace, Branch;
    DoHere(code, p, s, d, n, env, out);
    var x := Statement(s.body, d, n + 1, InLoop(env, n));
    var i, v := 0, st;
    Still(code, o, st);
    if at.Top? { i, v := ThenQuiet(code, o, st, i, v); }
    var r := Exec(s.body, at, v.h, o, fuel);
    var i2, w := StmtRuns(code, o, p + 1, s.body, d, n + 1, InLoop(env, n), out + {Jump(BreakTo, n), Jump(ContinueTo, n)}, at, v, fuel);
    Before(code, o, st, i, v, i2, w, r, InLoop(env, n), p + 1 + |x.code|, fuel, fuel);
    k, t := DoNextRuns(code, o, p, s, d, n, env, out, st, i + i2, w, r, fuel);
  }

  /** What a do loop does after its body. */
  function DoNext(s: Stmt, r: Done, o: Values, fuel: nat): Done
    requires s.DoWhile?
  {
    if r.out.Normal? || r.out.Continued? then
      var a := Trace(s.c, r.h, o);
      if o(a) == 0 then Done(Normal, a) else if fuel == 0 then Done(OutOfFuel, a) else Exec(s, Top, a, o, fuel - 1)
    else Leave(r)
  }

  lemma {:induction false} DoNextRuns(code: seq<Item>, o: Values, p: nat, s: Stmt, d: nat, n: nat, env: Env, out: set<Label>, st: State, j: nat, u: State, r: Done, fuel: nat) returns (k: nat, t: State)
    requires Fit(code, p, s, d, n, env, out) && s.DoWhile? && DoParts(code, p, s, d, n, env, out)
    requires Reaches(code, o, st, j, u, r, InLoop(env, n), p + 1 + |Statement(s.body, d, n + 1, InLoop(env, n)).code|, fuel)
    ensures Reaches(code, o, st, k, t, DoNext(s, r, o, fuel), env, p + |Statement(s, d, n, env).code|, fuel)
    decreases fuel, s, 7
  {
    hide Here, Once, Found, Statement, Expression, Find, Run, Exec, Fit, Trace, Branch;
    LoopTargets(env, n);
    var x := Statement(s.body, d, n + 1, InLoop(env, n));
    var c := Expression(s.c, d, n + 1 + |x.depths|);
    var p1 := p + 1 + |x.code|;
    var p2 := p1 + 1 + |c.code|;
    var end := p + |Statement(s, d, n, env).code|;
    k, t := j, u;
    if r.out.Normal? || r.out.Continued? {
      k, t := ThenQuiet(code, o, st, k, t);
      var i, v := ExprRuns(code, o, p1 + 1, s.c, d, n + 1 + |x.depths|, t);
      ArrivesOn(code, o, st, k, t, i, v);
      k, t := DoTested(code, o, p2, d, n, st, k + i, v, p);
      if o(v.h) == 0 {
        k, t := ThenQuiet(code, o, st, k, t);
        k, t := ThenQuiet(code, o, st, k, t);
        NowThere(code, o, st, k, t, env, end, fuel);
      } else if fuel == 0 {
        RanOut(code, o, st, k, t, v.h, env, end);
      } else {
        var i2, w := StmtRuns(code, o, p, s, d, n, env, out, Top, t, fuel - 1);
        Before(code, o, st, k, t, i2, w, Exec(s, Top, t.h, o, fuel - 1), env, end, fuel - 1, fuel);
        k, t := k + i2, w;
      }
    } else if r.out.Broke? {
      k, t := ThenQuiet(code, o, st, k, t);
    }
  }

  /** The test of a do loop jumps back where it is not zero. */
  lemma DoTested(code: seq<Item>, o: Values, p: nat, d: nat, n: nat, st: State, j: nat, u: State, target: nat) returns (k: nat, t: State)
    requires Here(code, p, Branch(Jump(DoStart, n), false, d)) && u.pc == p && Find(code, Jump(DoStart, n), 0) == Some(target) && Arrives(code, o, st, j, u)
    ensures Arrives(code, o, st, k, t) && k >= 1 && t.h == u.h && t.pc == if o(u.h) == 0 then p + 2 else target
  {
    hide Here, Find, Run;
    k, t := TestRuns(code, o, p, Jump(DoStart, n), false, d, st, j, u, target);
  }

  // ---------------------------------------------------------------- for

  ghost predicate ForParts(code: seq<Item>, p: nat, s: Stmt, d: nat, n: nat, env: Env, out: set<Label>)
    requires s.For?
  {
    var i := InitCode(s, d, n, env);
    var m := n + 1 + |i.depths|;
    var b := CondTest(s, d, n, m);
    var m1 := m + |b.depths|;
    var x := Statement(s.body, d, m1, InLoop(env, n));
    var g := Maybe(s.step, d, m1 + |x.depths|);
    var p1 := p + |i.code|;
    var p2 := p1 + 1 + |b.code|;
    var p3 := p2 + |x.code|;
    var p4 := p3 + 1 + |g.code|;
    var all := out + {Jump(BreakTo, n), Jump(ContinueTo, n)};
    && Once(code) && p4 + 3 <= |code|
    && (s.init.Some? ==> Fit(code, p, s.init.value, d, n + 1, InLoop(env, n), all))
    && code[p1].ins.Def? && Find(code, Jump(ForStart, n), 0) == Some(p1)
    && Here(code, p1 + 1, b.code) && Fit(code, p2, s.body, d, m1, InLoop(env, n), all)
    && code[p3].ins.Def? && Find(code, Jump(ContinueTo, n), 0) == Some(p3) && Here(code, p3 + 1, g.code)
    && code[p4].ins == Jmp(Jump(ForStart, n)) && code[p4 + 1].ins.Def? && code[p4 + 2].ins.Def?
    && Find(code, Jump(ForEnd, n), 0) == Some(p4 + 1) && Find(code, Jump(BreakTo, n), 0) == Some(p4 + 2)
    && p + |Statement(s, d, n, env).code| == p4 + 3
  }

  lemma ForHere(code: seq<Item>, p: nat, s: Stmt, d: nat, n: nat, env: Env, out: set<Label>)
    requires Fit(code, p, s, d, n, env, out) && s.For?
    ensures ForParts(code, p, s, d, n, env, out)
  {
    hide Here, Once, Found, Statement, Expression, Find, Ending, Covered, CondTest, Maybe, Users, OutOk, InitCode;
    ForCode(s, d, n, env);
    var i := InitCode(s, d, n, env);
    var m := n + 1 + |i.depths|;
    var b := CondTest(s, d, n, m);
    var m1 := m + |b.depths|;
    var x := Statement(s.body, d, m1, InLoop(env, n));
    var g := Maybe(s.step, d, m1 + |x.depths|);
    var p1 := p + |i.code|;
    var p2 := p1 + 1 + |b.code|;
    var p3 := p2 + |x.code|;
    var p4 := p3 + 1 + |g.code|;
    var first, mid := [Item(Def(Jump(ForStart, n)), d)], [Item(Def(Jump(ContinueTo, n)), d)];
    Here4(code, p, i.code + first, b.code, x.code + mid, g.code + Ending(ForStart, ForEnd, d, n));
    HereParts(code, p, i.code, first);
    HereParts(code, p2, x.code, mid);
    HereParts(code, p3 + 1, g.code, Ending(ForStart, ForEnd, d, n));
    DefHere(code, p1, Jump(ForStart, n), d);
    DefHere(code, p3, Jump(ContinueTo, n), d);
    EndingHere(code, p4, ForStart, ForEnd, d, n);
    EndingSize(ForStart, ForEnd, d, n);
    LoopFit(code, s, n, env, out, p2, s.body, d, m1);
    if s.init.Some? { InitFit(code, p, s, d, n, env, out); }
  }

  lemma InitFit(code: seq<Item>, p: nat, s: Stmt, d: nat, n: nat, env: Env, out: set<Label>)
    requires Once(code) && s.For? && s.init.Some? && Placed(s, n, env, out) && Found(code, out) && Proper(s, env.breaks != [], NearestLoop(env.breaks).Some?)
    requires Here(code, p, InitCode(s, d, n, env).code) && Find(code, Jump(BreakTo, n), 0).Some? && Find(code, Jump(ContinueTo, n), 0).Some?
    ensures Fit(code, p, s.init.value, d, n + 1, InLoop(env, n), out + {Jump(BreakTo, n), Jump(ContinueTo, n)})
  {
    hide Here, Once, Found, Statement, Find, Covered, Users, OutOk, NearestLoop;
    LoopFit(code, s, n, env, out, p, s.init.value, d, n + 1);
  }

  /** From the start label of a for loop. */
  lemma {:induction false} ForTestRuns(code: seq<Item>, o: Values, p: nat, s: Stmt, d: nat, n: nat, env: Env, out: set<Label>, st: State, j: nat, u: State, fuel: nat) returns (k: nat, t: State)
    requires Fit(code, p, s, d, n, env, out) && s.For? && ForParts(code, p, s, d, n, env, out)
    requires Arrives(code, o, st, j, u) && Find(code, Jump(ForStart, n), 0) == Some(u.pc)
    ensures Reaches(code, o, st, k, t, ForTest(s, u.h, o, fuel), env, p + |Statement(s, d, n, env).code|, fuel)
    decreases fuel, s, 7
  {
    hide Here, Once, Found, Statement, Expression, Find, Fit, Run, Reaches, Trace, Exec, ForNext, Maybe, CondTest;
    var end := p + |Statement(s, d, n, env).code|;
    var i := InitCode(s, d, n, env);
    var m := n + 1 + |i.depths|;
    var b := CondTest(s, d, n, m);
    var x := Statement(s.body, d, m + |b.depths|, InLoop(env, n));
    var p2 := p + |i.code| + 1 + |b.code|;
    var p4 := end - 3;
    k, t := ThenQuiet(code, o, st, j, u);
    k, t := CondRunsHere(code, o, p + |i.code| + 1, s, d, n, m, st, k, t, p4 + 1);
    var a := MaybeTrace(s.cond, u.h, o);
    if s.cond.Some? && o(a) == 0 {
      k, t := ThenQuiet(code, o, st, k, t);
      k, t := ThenQuiet(code, o, st, k, t);
      NowThere(code, o, st, k, t, env, end, fuel);
    } else {
      var r := Exec(s.body, Top, a, o, fuel);
      var i2, w := StmtRuns(code, o, p2, s.body, d, m + |b.depths|, InLoop(env, n), out + {Jump(BreakTo, n), Jump(ContinueTo, n)}, Top, t, fuel);
      Before(code, o, st, k, t, i2, w, r, InLoop(env, n), p2 + |x.code|, fuel, fuel);
      k, t := ForNextRuns(code, o, p, s, d, n, env, out, st, k + i2, w, r, p2 + |x.code|, fuel);
    }
  }

  lemma CondRunsHere(code: seq<Item>, o: Values, p: nat, s: Stmt, d: nat, n: nat, m: nat, st: State, j: nat, u: State, target: nat) returns (k: nat, t: State)
    requires Once(code) && s.For? && Here(code, p, CondTest(s, d, n, m).code) && Find(code, Jump(ForEnd, n), 0) == Some(target)
    requires Arrives(code, o, st, j, u) && u.pc == p
    ensures var a := MaybeTrace(s.cond, u.h, o);
      Arrives(code, o, st, k, t) && k >= j && t.h == a && t.pc == if s.cond.Some? && o(a) == 0 then target else p + |CondTest(s, d, n, m).code|
  {
    hide Here, Once, Expression, Find, Run, Trace, Branch;
    if s.cond.Some? {
      var c := Expression(s.cond.value, d, m);
      BranchSize(Jump(ForEnd, n), true, d);
      HereParts(code, p, c.code, Branch(Jump(ForEnd, n), true, d));
      var i, v := ExprRuns(code, o, p, s.cond.value, d, m, u);
      ArrivesOn(code, o, st, j, u, i, v);
      k, t := ForTested(code, o, p + |c.code|, d, n, st, j + i, v, target);
    } else {
      k, t := j, u;
    }
  }

  lemma ForTested(code: seq<Item>, o: Values, p: nat, d: nat, n: nat, st: State, j: nat, u: State, target: nat) returns (k: nat, t: State)
    requires Here(code, p, Branch(Jump(ForEnd, n), true, d)) && u.pc == p && Find(code, Jump(ForEnd, n), 0) == Some(target) && Arrives(code, o, st, j, u)
    ensures Arrives(code, o, st, k, t) && k >= j && t.h == u.h && t.pc == if o(u.h) == 0 then target else p + 2
  {
    hide Here, Find, Run;
    k, t := TestRuns(code, o, p, Jump(ForEnd, n), true, d, st, j, u, target);
  }

  /** What follows the body of a for loop. */
  lemma {:induction false} ForNextRuns(code: seq<Item>, o: Values, p: nat, s: Stmt, d: nat, n: nat, env: Env, out: set<Label>, st: State, j: nat, u: State, r: Done, mid: nat, fuel: nat) returns (k: nat, t: State)
    requires Fit(code, p, s, d, n, env, out) && s.For? && ForParts(code, p, s, d, n, env, out)
    requires Reaches(code, o, st, j, u, r, InLoop(env, n), mid, fuel) && (r.out.Normal? ==> Find(code, Jump(ContinueTo, n), 0) == Some(mid))
    ensures Reaches(code, o, st, k, t, ForNext(s, r, o, fuel), env, p + |Statement(s, d, n, env).code|, fuel)
    decreases fuel, s, 6
  {
    hide Here, Once, Found, Statement, Expression, Find, Run, Exec, Fit, Trace, MaybeTrace, Maybe, CondTest;
    LoopTargets(env, n);
    var i := InitCode(s, d, n, env);
    var m := n + 1 + |i.depths|;
    var b := CondTest(s, d, n, m);
    var m1 := m + |b.depths|;
    var x := Statement(s.body, d, m1, InLoop(env, n));
    var g := Maybe(s.step, d, m1 + |x.depths|);
    var end := p + |Statement(s, d, n, env).code|;
    k, t := j, u;
    if r.out.Normal? || r.out.Continued? {
      k, t := ThenQuiet(code, o, st, k, t);
      k, t := MaybeRuns(code, o, end - 3 - |g.code|, s.step, d, m1 + |x.depths|, st, k, t);
      k, t := ThenJump(code, o, st, k, t);
      if fuel == 0 {
        RanOut(code, o, st, k, t, t.h, env, end);
      } else {
        var i2, w := StmtRuns(code, o, p, s, d, n, env, out, Again, t, fuel - 1);
        Before(code, o, st, k, t, i2, w, Exec(s, Again, t.h, o, fuel - 1), env, end, fuel - 1, fuel);
        k, t := k + i2, w;
      }
    } else if r.out.Broke? {
      k, t := ThenQuiet(code, o, st, k, t);
    }
  }

  lemma {:induction false} ForRuns(code: seq<Item>, o: Values, p: nat, s: Stmt, d: nat, n: nat, env: Env, out: set<Label>, at: Entry, st: State, fuel: nat) returns (k: nat, t: State)
    requires Fit(code, p, s, d, n, env, out) && s.For? && Within(s, at) && Starts(code, p, s, n, env.ctx, at, st.pc)
    ensures Reaches(code, o, st, k, t, Exec(s, at, st.h, o, fuel), env, p + |Statement(s, d, n, env).code|, fuel)
    decreases fuel, s, 8
  {
    hide Here, Once, Found, Statement, Expression, Find, Fit, Run, Reaches, Trace, ForTest, ForNext, Maybe, CondTest, Nodes, Users;
    ForHere(code, p, s, d, n, env, out);
    var all := out + {Jump(BreakTo, n), Jump(ContinueTo, n)};
    var i := InitCode(s, d, n, env);
    var m := n + 1 + |i.depths|;
    var b := CondTest(s, d, n, m);
    var x := Statement(s.body, d, m + |b.depths|, InLoop(env, n));
    var p1 := p + |i.code|;
    Still(code, o, st);
    if at.Again? || (at.Top? && s.init.None?) {
      k, t := ForTestRuns(code, o, p, s, d, n, env, out, st, 0, st, fuel);
    } else if s.init.Some? && Within(s.init.value, at) {
      var r := Exec(s.init.value, at, st.h, o, fuel);
      var j, u := StmtRuns(code, o, p, s.init.value, d, n + 1, InLoop(env, n), all, at, st, fuel);
      if r.out.Normal? {
        ReachedNormally(code, o, st, j, u, r, InLoop(env, n), p1, fuel);
        k, t := ForTestRuns(code, o, p, s, d, n, env, out, st, j, u, fuel);
      } else {
        k, t := ForNextRuns(code, o, p, s, d, n, env, out, st, j, u, r, p1, fuel);
      }
    } else {
      BodyEntry(s, at);
      var r := Exec(s.body, at, st.h, o, fuel);
      var p2 := p1 + 1 + |b.code|;
      var j, u := StmtRuns(code, o, p2, s.body, d, m + |b.depths|, InLoop(env, n), all, at, st, fuel);
      k, t := ForNextRuns(code, o, p, s, d, n, env, out, st, j, u, r, p2 + |x.code|, fuel);
    }
  }

  lemma BodyEntry(s: Stmt, at: Entry)
    requires s.For? && Within(s, at) && !at.Again? && !(s.init.Some? && Within(s.init.value, at))
    ensures Within(s.body, at)
  {
  }

  lemma ReachedNormally(code: seq<Item>, o: Values, st: State, k: nat, t: State, r: Done, env: Env, end: nat, fuel: nat)
    requires Reaches(code, o, st, k, t, r, env, end, fuel) && r.out.Normal?
    ensures Arrives(code, o, st, k, t) && t.h == r.h && t.pc == end
  {
    hide Run;
  }

  // ---------------------------------------------------------------- switch

  ghost predicate SwitchParts(code: seq<Item>, p: nat, s: Stmt, d: nat, n: nat, env: Env, out: set<Label>)
    requires s.Switch?
  {
    var ctx := Collect(s.body, n + 1);
    var m := n + 1 + |ctx|;
    var c := Expression(s.c, d, m);
    var j := Dispatch(ctx, s.wide, d + 1, n);
    var p1 := p + |c.code|;
    var p2 := p1 + 1 + |j.code|;
    var p3 := p2 + |Statement(s.body, d + 1, m + |c.depths|, InSwitch(env, n, ctx)).code|;
    && Once(code) && p3 + 3 <= |code| && Here(code, p, c.code) && code[p1].ins == Push && Here(code, p1 + 1, j.code)
    && Fit(code, p2, s.body, d + 1, m + |c.depths|, InSwitch(env, n, ctx), out + {Jump(BreakTo, n)})
    && code[p3].ins.Def? && code[p3 + 1].ins.Def? && code[p3 + 2].ins.Add?
    && Find(code, Jump(SwitchEnd, n), 0) == Some(p3) && Find(code, Jump(BreakTo, n), 0) == Some(p3 + 1)
    && SectionsFound(code, ctx) && DistinctNodes(ctx)
    && p + |Statement(s, d, n, env).code| == p3 + 3
  }

  lemma {:induction false} DefsFound(code: seq<Item>, p: nat, piece: seq<Item>, l: Label)
    requires Here(code, p, piece) && Defs(piece, l) >= 1
    ensures Find(code, l, 0).Some?
    decreases |piece|
  {
    hide Find;
    assert piece == [piece[0]] + piece[1..];
    HereAt(code, p, piece, 0);
    if piece[0].ins == Def(l) {
      FindSome(code, l, 0, p);
    } else {
      HereParts(code, p, [piece[0]], piece[1..]);
      hide Here;
      DefsFound(code, p + 1, piece[1..], l);
    }
  }

  /** The sections of a switch stand in its body. */
  lemma SectionsStand(code: seq<Item>, p: nat, b: Stmt, d: nat, n: nat, m: nat, env: Env, out: set<Label>)
    requires Placed(b, m, env, out) && env.ctx == Collect(b, n) && Here(code, p, Statement(b, d, m, env).code)
    ensures SectionsFound(code, env.ctx) && DistinctNodes(env.ctx)
  {
    hide Here, Statement, Find, Collect, Covered, OutOk, GotosIn, Defs, Users, TreeOk;
    var ctx := env.ctx;
    var f := Statement(b, d, m, env);
    CollectExact(b, n);
    StatementFacts(b, d, m, env, out);
    forall i | 0 <= i < |ctx|
      ensures Find(code, Jump(SwitchSec, ctx[i].num), 0).Some?
    {
      LookupAt(ctx, i);
      assert ctx[i].node in NodeSet(ctx);
      assert SecLabel(ctx, ctx[i].node) in Own(b, ctx);
      DefsFound(code, p, f.code, SecLabel(ctx, ctx[i].node));
    }
  }

  lemma SwitchHere(code: seq<Item>, p: nat, s: Stmt, d: nat, n: nat, env: Env, out: set<Label>)
    requires Fit(code, p, s, d, n, env, out) && s.Switch?
    ensures SwitchParts(code, p, s, d, n, env, out)
  {
    hide Here, Once, Statement, Expression, Find, Covered, Collect, Dispatch, InSwitch, NearestLoop, TreeOk, GotosIn, OutOk, SectionsFound, DistinctNodes;
    SwitchCode(s, d, n, env);
    var ctx := Collect(s.body, n + 1);
    var m := n + 1 + |ctx|;
    var c := Expression(s.c, d, m);
    var j := Dispatch(ctx, s.wide, d + 1, n);
    var env1 := InSwitch(env, n, ctx);
    var f := Statement(s.body, d + 1, m + |c.depths|, env1);
    var p1 := p + |c.code|;
    var p2 := p1 + 1 + |j.code|;
    var p3 := p2 + |f.code|;
    Here4(code, p, c.code + [Item(Push, d)], j.code, f.code, SwitchTail(d, n));
    HereParts(code, p, c.code, [Item(Push, d)]);
    HereAt(code, p1, [Item(Push, d)], 0);
    HereAt(code, p3, SwitchTail(d, n), 0);
    HereAt(code, p3, SwitchTail(d, n), 1);
    HereAt(code, p3, SwitchTail(d, n), 2);
    FindIs(code, Jump(SwitchEnd, n), p3);
    FindIs(code, Jump(BreakTo, n), p3 + 1);
    SwitchEnvCtx(env, n, ctx);
    SwitchTargets(env, n, ctx);
    SwitchPlaced(s, n, m + |c.depths|, env, out, out + {Jump(BreakTo, n)});
    SectionsStand(code, p2, s.body, d + 1, n + 1, m + |c.depths|, env1, out + {Jump(BreakTo, n)});
  }

  lemma SwitchTargets(env: Env, n: nat, ctx: SwitchCtx)
    ensures var b := InSwitch(env, n, ctx).breaks; b != [] && b[|b| - 1].breakLabel == n && NearestLoop(b) == NearestLoop(env.breaks)
  {
    var b := InSwitch(env, n, ctx).breaks;
    assert b[..|b| - 1] == env.breaks;
  }

  /** Leaving the body of a switch. */
  lemma SwitchEndRuns(code: seq<Item>, o: Values, p: nat, s: Stmt, d: nat, n: nat, env: Env, out: set<Label>, st: State, j: nat, u: State, r: Done, fuel: nat) returns (k: nat, t: State)
    requires s.Switch? && SwitchParts(code, p, s, d, n, env, out)
    requires Reaches(code, o, st, j, u, r, InSwitch(env, n, Collect(s.body, n + 1)), p + |Statement(s, d, n, env).code| - 3, fuel)
    ensures Reaches(code, o, st, k, t, Leave(r), env, p + |Statement(s, d, n, env).code|, fuel)
  {
    hide Here, Once, Statement, Expression, Find, Run, Fit, Collect, Dispatch, InSwitch, NearestLoop, SectionsFound, DistinctNodes;
    SwitchTargets(env, n, Collect(s.body, n + 1));
    k, t := j, u;
    if r.out.Normal? { k, t := ThenQuiet(code, o, st, k, t); }
    if r.out.Normal? || r.out.Broke? {
      k, t := ThenQuiet(code, o, st, k, t);
      k, t := ThenQuiet(code, o, st, k, t);
    }
  }

  lemma {:induction false} SwitchRuns(code: seq<Item>, o: Values, p: nat, s: Stmt, d: nat, n: nat, env: Env, out: set<Label>, at: Entry, st: State, fuel: nat) returns (k: nat, t: State)
    requires Fit(code, p, s, d, n, env, out) && s.Switch? && Within(s, at) && Starts(code, p, s, n, env.ctx, at, st.pc)
    ensures Reaches(code, o, st, k, t, Exec(s, at, st.h, o, fuel), env, p + |Statement(s, d, n, env).code|, fuel)
    decreases fuel, s, 8
  {
    hide Here, Once, Found, Statement, Expression, Find, Fit, Run, Reaches, Trace, Collect, Dispatch, Chosen, SectionsFound, DistinctNodes, TopOf, SecLabel, InSwitch, Leave;
    SwitchHere(code, p, s, d, n, env, out);
    var ctx := Collect(s.body, n + 1);
    SwitchEnvCtx(env, n, ctx);
    var m := n + 1 + |ctx|;
    var c := Expression(s.c, d, m);
    var p1 := p + |c.code|;
    var p2 := p1 + 1 + |Dispatch(ctx, s.wide, d + 1, n).code|;
    var p3 := p + |Statement(s, d, n, env).code| - 3;
    var env1, all := InSwitch(env, n, ctx), out + {Jump(BreakTo, n)};
    var i, v := 0, st;
    var entry := at;
    Still(code, o, st);
    if at.Top? {
      i, v := ExprRuns(code, o, p, s.c, d, m, st);
      var val := o(v.h);
      i, v := ThenQuiet(code, o, st, i, v);
      var j, u := DispatchRuns(code, o, p1 + 1, s.body, s.wide, n + 1, d + 1, n, v, val);
      ArrivesOn(code, o, st, i, v, j, u);
      i, v := i + j, u;
      var x := Chosen(s.body, s.wide, val);
      if x.None? {
        k, t := ThenQuiet(code, o, st, i, v);
        k, t := ThenQuiet(code, o, st, k, t);
        k, t := ThenQuiet(code, o, st, k, t);
        NowThere(code, o, st, k, t, env, p3 + 3, fuel);
        return;
      }
      entry := AtNode(x.value);
    }
    var r := Exec(s.body, entry, v.h, o, fuel);
    var i2, w := StmtRuns(code, o, p2, s.body, d + 1, m + |c.depths|, env1, all, entry, v, fuel);
    Before(code, o, st, i, v, i2, w, r, env1, p3, fuel, fuel);
    k, t := SwitchEndRuns(code, o, p, s, d, n, env, out, st, i + i2, w, r, fuel);
  }

  // ---------------------------------------------------------------- sections, labels and blocks

  lemma CoveredSection(x: nat, ctx: SwitchCtx, n: nat)
    requires Covered({x}, ctx, n)
    ensures Lookup(ctx, x).Some?
  {
    assert x in {x};
    var i := LookupFinds(ctx, x);
  }

  lemma {:induction false} SectionRuns(code: seq<Item>, o: Values, p: nat, s: Stmt, d: nat, n: nat, env: Env, out: set<Label>, at: Entry, st: State, fuel: nat) returns (k: nat, t: State)
    requires Fit(code, p, s, d, n, env, out) && s.Section? && Within(s, at) && Starts(code, p, s, n, env.ctx, at, st.pc)
    ensures Reaches(code, o, st, k, t, Exec(s, at, st.h, o, fuel), env, p + |Statement(s, d, n, env).code|, fuel)
    decreases fuel, s, 8
  {
    hide Here, Once, Found, Find, Run, Reaches, OutOk;
    CoveredSection(s.node, env.ctx, n);
    var l := SecLabel(env.ctx, s.node);
    var b := Statement(s.s, d, n, env);
    assert Statement(s, d, n, env).code == [Item(Def(l), d)] + b.code;
    hide Statement;
    HereParts(code, p, [Item(Def(l), d)], b.code);
    DefHere(code, p, l, d);
    PartFit(code, p, s, n, env, out, p + 1, s.s, d, n);
    k, t := LabelRuns(code, o, p, s, s.s, d, n, env, out, at, at.Top? || at == AtNode(s.node), st, fuel);
  }

  /** The statement behind a label, entered at the label or inside. */
  lemma {:induction false} LabelRuns(code: seq<Item>, o: Values, p: nat, s: Stmt, b: Stmt, d: nat, n: nat, env: Env, out: set<Label>, at: Entry, front: bool, st: State, fuel: nat) returns (k: nat, t: State)
    requires (s.Section? || s.Labelled?) && b == s.s && Fit(code, p + 1, b, d, n, env, out) && p < |code| && code[p].ins.Def?
    requires if front then st.pc == p else !at.Top? && !at.Again? && Within(b, at) && Starts(code, p + 1, b, n, env.ctx, at, st.pc)
    ensures Reaches(code, o, st, k, t, Exec(b, if front then Top else at, st.h, o, fuel), env, p + 1 + |Statement(b, d, n, env).code|, fuel)
    decreases fuel, s, 7
  {
    hide Run, Reaches, Statement, Fit;
    var end := p + 1 + |Statement(b, d, n, env).code|;
    if front {
      Still(code, o, st);
      var j, u := ThenQuiet(code, o, st, 0, st);
      var i, v := StmtRuns(code, o, p + 1, b, d, n, env, out, Top, u, fuel);
      Before(code, o, st, j, u, i, v, Exec(b, Top, u.h, o, fuel), env, end, fuel, fuel);
      k, t := j + i, v;
    } else {
      k, t := StmtRuns(code, o, p + 1, b, d, n, env, out, at, st, fuel);
    }
  }

  lemma {:induction false} LabelledRuns(code: seq<Item>, o: Values, p: nat, s: Stmt, d: nat, n: nat, env: Env, out: set<Label>, at: Entry, st: State, fuel: nat) returns (k: nat, t: State)
    requires Fit(code, p, s, d, n, env, out) && s.Labelled? && Within(s, at) && Starts(code, p, s, n, env.ctx, at, st.pc)
    ensures Reaches(code, o, st, k, t, Exec(s, at, st.h, o, fuel), env, p + |Statement(s, d, n, env).code|, fuel)
    decreases fuel, s, 8
  {
    hide Here, Once, Found, Find, Run, Reaches, OutOk, Covered;
    var l := User(s.name);
    var b := Statement(s.s, d, n, env);
    assert Statement(s, d, n, env).code == [Item(Def(l), d)] + b.code;
    hide Statement;
    HereParts(code, p, [Item(Def(l), d)], b.code);
    DefHere(code, p, l, d);
    PartFit(code, p, s, n, env, out, p + 1, s.s, d, n);
    k, t := LabelRuns(code, o, p, s, s.s, d, n, env, out, at, at.Top? || at == AtName(s.name), st, fuel);
  }

  lemma {:induction false} BlockRuns(code: seq<Item>, o: Values, p: nat, s: Stmt, d: nat, n: nat, env: Env, out: set<Label>, at: Entry, st: State, fuel: nat) returns (k: nat, t: State)
    requires Fit(code, p, s, d, n, env, out) && s.Block? && Within(s, at) && Starts(code, p, s, n, env.ctx, at, st.pc)
    ensures Reaches(code, o, st, k, t, Exec(s, at, st.h, o, fuel), env, p + |Statement(s, d, n, env).code|, fuel)
    decreases fuel, s, 8
  {
    hide Here, Once, Found, Find, Run, Reaches, Placed;
    assert FitAll(code, p, s.ss, d, n, env, out);
    k, t := AllRuns(code, o, p, s.ss, d, n, env, out, at, st, fuel);
  }

  /** The first of several statements, and the others. */
  lemma AllHere(code: seq<Item>, p: nat, ss: seq<Stmt>, d: nat, n: nat, env: Env, out: set<Label>)
    requires FitAll(code, p, ss, d, n, env, out) && ss != []
    ensures var a := Statement(ss[0], d, n, env);
      && Fit(code, p, ss[0], d, n, env, out) && FitAll(code, p + |a.code|, ss[1..], d, n + |a.depths|, env, out)
      && |Statements(ss, d, n, env).code| == |a.code| + |Statements(ss[1..], d, n + |a.depths|, env).code|
  {
    hide Here, Once, Found, Find, Statement, Own, Old, OutOk;
    var a := Statement(ss[0], d, n, env);
    var n1 := n + |a.depths|;
    HereParts(code, p, a.code, Statements(ss[1..], d, n1, env).code);
    hide Statements;
    assert TreesOk(ss) && AllGotosIn(ss, out);
    assert TreesOk(ss[1..]) && AllGotosIn(ss[1..], out);
    PartFit(code, p, Block(ss), n, env, out, p, ss[0], d, n);
    PartPlaced(Block(ss), Block(ss[1..]), n, n1, env, out, out);
  }

  lemma {:induction false} AllRuns(code: seq<Item>, o: Values, p: nat, ss: seq<Stmt>, d: nat, n: nat, env: Env, out: set<Label>, at: Entry, st: State, fuel: nat) returns (k: nat, t: State)
    requires FitAll(code, p, ss, d, n, env, out) && WithinAll(ss, at) && Starts(code, p, Block(ss), n, env.ctx, at, st.pc)
    ensures Reaches(code, o, st, k, t, ExecAll(ss, at, st.h, o, fuel), env, p + |Statements(ss, d, n, env).code|, fuel)
    decreases fuel, ss, 0
  {
    hide Here, Once, Found, Find, Run, Reaches, Statement, Fit, FitAll, Exec;
    Still(code, o, st);
    if ss == [] {
      k, t := 0, st;
      NowThere(code, o, st, k, t, env, p, fuel);
    } else {
      AllHere(code, p, ss, d, n, env, out);
      var a := Statement(ss[0], d, n, env);
      var p1, n1 := p + |a.code|, n + |a.depths|;
      var end := p1 + |Statements(ss[1..], d, n1, env).code|;
      hide Statements;
      if Within(ss[0], at) {
        var r := Exec(ss[0], at, st.h, o, fuel);
        var j, u := StmtRuns(code, o, p, ss[0], d, n, env, out, at, st, fuel);
        if r.out.Normal? {
          ReachedNormally(code, o, st, j, u, r, env, p1, fuel);
          var i, v := AllRuns(code, o, p1, ss[1..], d, n1, env, out, Top, u, fuel);
          Before(code, o, st, j, u, i, v, ExecAll(ss[1..], Top, u.h, o, fuel), env, end, fuel, fuel);
          k, t := j + i, v;
        } else {
          k, t := j, u;
          OtherEnd(code, o, st, k, t, r, env, p1, end, fuel);
        }
      } else {
        k, t := AllRuns(code, o, p1, ss[1..], d, n1, env, out, at, st, fuel);
      }
    }
  }

  lemma OtherEnd(code: seq<Item>, o: Values, st: State, k: nat, t: State, r: Done, env: Env, mid: nat, end: nat, fuel: nat)
    requires Reaches(code, o, st, k, t, r, env, mid, fuel) && !r.out.Normal?
    ensures Reaches(code, o, st, k, t, r, env, end, fuel)
  {
    hide Run, Find;
  }
}
