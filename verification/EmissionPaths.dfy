/** Every path through the emitted code of a function. */
module EmissionPaths {
  import opened Options
  import opened Emission
  import opened EmissionDepth
  import opened EmissionStatements
  import opened EmissionShapes

  /** A point of a path: the instruction reached and the words then below the frame. */
  datatype Point = Point(pc: nat, words: int)

  /** Where control can go; a label is reached at any place that defines it. */
  predicate Leads(code: seq<Item>, i: nat, j: nat)
    requires i < |code|
  {
    match code[i].ins
    case Ret => false
    case Jmp(l) => j < |code| && code[j].ins == Def(l)
    case Jcc(l, _) => j == i + 1 || (j < |code| && code[j].ins == Def(l))
    case _ => j == i + 1
  }

  predicate Goes(code: seq<Item>, p: Point, q: Point) {
    p.pc < |code| && q.words == Moved(code[p.pc].ins, p.words) && Leads(code, p.pc, q.pc)
  }

  ghost predicate Path(code: seq<Item>, ps: seq<Point>) {
    ps != [] && ps[0] == Point(0, 0) && forall k :: 0 < k < |ps| ==> Goes(code, ps[k - 1], ps[k])
  }

  /** The depth before position i, or the final one. */
  function DepthAt(code: seq<Item>, i: nat, y: int): int
    requires i <= |code|
  {
    if i < |code| then code[i].d else y
  }

  lemma {:induction false} ChainAt(code: seq<Item>, x: int, y: int, ids: seq<nat>, usr: map<string, nat>, i: nat)
    requires Chain(code, x, y, ids, usr) && i < |code|
    ensures ItemOk(code[i], ids, usr) && DepthAt(code, i + 1, y) == Moved(code[i].ins, code[i].d) && DepthAt(code, 0, y) == x
    decreases i
  {
    if i > 0 {
      ChainAt(code[1..], Moved(code[0].ins, x), y, ids, usr, i - 1);
    } else if |code| > 1 {
      assert code[1..][0] == code[1];
    }
  }

  /** On every path the words below the frame are those the generator counted. */
  lemma {:induction false} PathDepth(code: seq<Item>, y: int, ids: seq<nat>, usr: map<string, nat>, ps: seq<Point>, k: nat)
    requires Chain(code, 0, y, ids, usr) && Path(code, ps) && k < |ps|
    ensures ps[k].pc <= |code| && ps[k].words == DepthAt(code, ps[k].pc, y)
    decreases k
  {
    if k == 0 {
      if code != [] { ChainAt(code, 0, y, ids, usr, 0); }
    } else {
      PathDepth(code, y, ids, usr, ps, k - 1);
      var p, q := ps[k - 1], ps[k];
      assert Goes(code, p, q);
      ChainAt(code, 0, y, ids, usr, p.pc);
      if q.pc < |code| { ChainAt(code, 0, y, ids, usr, q.pc); }
    }
  }

  /** The code of a function body when n label numbers are already taken. */
  function Body(s: Stmt, n: nat): seq<Item> {
    Statement(s, 0, n, Env([], [])).code
  }

  function Rsp(rbp: int, frame: int, words: int): int {
    rbp - frame - 8 * words
  }

  /** In a function with an aligned frame, rsp is at every point of every path where push_depth puts it,
      a multiple of 16 at every call, and back at the frame when the body is left. */
  lemma {:induction false} FunctionAligned(s: Stmt, n: nat, usr: map<string, nat>, ps: seq<Point>, k: nat, rbp: int, frame: int)
    requires NoCross(s, 0, Outside, usr) && Path(Body(s, n), ps) && k < |ps| && rbp % 16 == 0 && frame % 16 == 0
    ensures ps[k].pc <= |Body(s, n)| && ps[k].words == DepthAt(Body(s, n), ps[k].pc, 0)
    ensures ps[k].pc < |Body(s, n)| && Body(s, n)[ps[k].pc].ins == Call ==> Rsp(rbp, frame, ps[k].words) % 16 == 0
    ensures ps[k].pc == |Body(s, n)| ==> Rsp(rbp, frame, ps[k].words) == rbp - frame
  {
    hide Statement, NoCross, Chain, Path;
    var ids := Consistent(s, n, usr);
    ChainAligned(Body(s, n), ids, usr, ps, k, rbp, frame);
  }

  lemma {:induction false} ChainAligned(code: seq<Item>, ids: seq<nat>, usr: map<string, nat>, ps: seq<Point>, k: nat, rbp: int, frame: int)
    requires Chain(code, 0, 0, ids, usr) && Path(code, ps) && k < |ps| && rbp % 16 == 0 && frame % 16 == 0
    ensures ps[k].pc <= |code| && ps[k].words == DepthAt(code, ps[k].pc, 0)
    ensures ps[k].pc < |code| && code[ps[k].pc].ins == Call ==> Rsp(rbp, frame, ps[k].words) % 16 == 0
    ensures ps[k].pc == |code| ==> Rsp(rbp, frame, ps[k].words) == rbp - frame
  {
    hide Chain, Path;
    PathDepth(code, 0, ids, usr, ps, k);
    if ps[k].pc < |code| { ChainAt(code, 0, 0, ids, usr, ps[k].pc); }
  }

  lemma {:induction false} Consistent(s: Stmt, n: nat, usr: map<string, nat>) returns (ids: seq<nat>)
    requires NoCross(s, 0, Outside, usr)
    ensures Chain(Body(s, n), 0, 0, ids, usr)
  {
    hide Statement, NoCross, Chain;
    var known := seq(n, i => 0);
    GoodStatement(s, 0, known, Env([], []), Outside, usr);
    ids := known + Statement(s, 0, n, Env([], [])).depths;
  }

  // ---------------------------------------------------------------- the condition is needed

  ghost predicate AllOk(code: seq<Item>, ids: seq<nat>, usr: map<string, nat>) {
    forall it :: it in code ==> ItemOk(it, ids, usr)
  }

  lemma AllOkParts(a: Emitted, b: Emitted, ids: seq<nat>, usr: map<string, nat>)
    requires AllOk(Then(a, b).code, ids, usr)
    ensures AllOk(a.code, ids, usr) && AllOk(b.code, ids, usr)
  {
    assert forall it :: it in a.code ==> it in Then(a, b).code;
    assert forall it :: it in b.code ==> it in Then(a, b).code;
  }

  lemma ChainAllOk(code: seq<Item>, x: int, y: int, ids: seq<nat>, usr: map<string, nat>)
    requires Chain(code, x, y, ids, usr)
    ensures AllOk(code, ids, usr)
  {
    forall it | it in code ensures ItemOk(it, ids, usr) {
      var i :| 0 <= i < |code| && code[i] == it;
      ChainAt(code, x, y, ids, usr, i);
    }
  }

  /** The parser accepts continue only inside a loop. */
  predicate ContinuesInLoops(s: Stmt, inside: bool)
    decreases s, 1
  {
    match s
    case If(_, y, m) => ContinuesInLoops(y, inside) && (m.Some? ==> ContinuesInLoops(m.value, inside))
    case While(_, b) => ContinuesInLoops(b, true)
    case DoWhile(b, _) => ContinuesInLoops(b, true)
    case For(i, _, _, b) => (i.Some? ==> ContinuesInLoops(i.value, true)) && ContinuesInLoops(b, true)
    case Switch(_, _, b) => ContinuesInLoops(b, inside)
    case Section(_, _, b) => ContinuesInLoops(b, inside)
    case Labelled(_, b) => ContinuesInLoops(b, inside)
    case Continue => inside
    case Block(ss) => AllContinuesInLoops(ss, inside)
    case _ => true
  }

  predicate AllContinuesInLoops(ss: seq<Stmt>, inside: bool)
    decreases ss, 0
  {
    ss != [] ==> ContinuesInLoops(ss[0], inside) && AllContinuesInLoops(ss[1..], inside)
  }

  /** The nearest loop is shallower than the statement exactly when a switch stands between them. */
  ghost predicate LoopDepth(env: Env, d: nat, inner: Inner, ids: seq<nat>) {
    var l := NearestLoop(env.breaks);
    l.Some? ==> l.value < |ids| && ids[l.value] <= d && (inner == SwitchBody ==> ids[l.value] < d)
  }

  lemma {:induction false} Needed(s: Stmt, d: nat, n: nat, env: Env, inner: Inner, ids: seq<nat>, usr: map<string, nat>)
    requires ContinuesInLoops(s, NearestLoop(env.breaks).Some?) && AllOk(Statement(s, d, n, env).code, ids, usr)
    requires LoopDepth(env, d, inner, ids)
    ensures NoCross(s, d, inner, usr)
    decreases s, 1
  {
    hide Expression, AllOk, Dispatch, LoopEnd, Collect;
    match s
    case If(_, _, _) => NeededIf(s, d, n, env, inner, ids, usr);
    case While(_, _) => NeededWhile(s, d, n, env, ids, usr);
    case DoWhile(_, _) => NeededDo(s, d, n, env, ids, usr);
    case For(_, _, _, _) => NeededFor(s, d, n, env, ids, usr);
    case Switch(_, _, _) => NeededSwitch(s, d, n, env, inner, ids, usr);
    case Section(node, _, b) =>
      var l := Lookup(env.ctx, node);
      AllOkParts(if l.Some? then One(Def(Jump(SwitchSec, l.value)), d) else NOTHING, Statement(b, d, n, env), ids, usr);
      Needed(b, d, n, env, inner, ids, usr);
    case Labelled(x, b) =>
      AllOkParts(One(Def(User(x)), d), Statement(b, d, n, env), ids, usr);
      OneOk(Def(User(x)), d, ids, usr);
      Needed(b, d, n, env, inner, ids, usr);
    case Goto(x) => OneOk(Jmp(User(x)), d, ids, usr);
    case Continue => OneOk(Jmp(Jump(ContinueTo, NearestLoop(env.breaks).value)), d, ids, usr);
    case Block(ss) => NeededAll(ss, d, n, env, inner, ids, usr);
    case _ =>
  }

  lemma OneOk(ins: Ins, d: nat, ids: seq<nat>, usr: map<string, nat>)
    requires AllOk(One(ins, d).code, ids, usr)
    ensures ItemOk(Item(ins, d), ids, usr)
  {
    assert Item(ins, d) in One(ins, d).code;
  }

  lemma {:induction false} NeededAll(ss: seq<Stmt>, d: nat, n: nat, env: Env, inner: Inner, ids: seq<nat>, usr: map<string, nat>)
    requires AllContinuesInLoops(ss, NearestLoop(env.breaks).Some?) && AllOk(Statements(ss, d, n, env).code, ids, usr)
    requires LoopDepth(env, d, inner, ids)
    ensures NoCrossAll(ss, d, inner, usr)
    decreases ss, 0
  {
    hide AllOk, Statement;
    if ss != [] {
      var a := Statement(ss[0], d, n, env);
      AllOkParts(a, Statements(ss[1..], d, n + |a.depths|, env), ids, usr);
      Needed(ss[0], d, n, env, inner, ids, usr);
      NeededAll(ss[1..], d, n + |a.depths|, env, inner, ids, usr);
    }
  }

  lemma {:induction false} NeededIf(s: Stmt, d: nat, n: nat, env: Env, inner: Inner, ids: seq<nat>, usr: map<string, nat>)
    requires s.If? && ContinuesInLoops(s, NearestLoop(env.breaks).Some?) && AllOk(Statement(s, d, n, env).code, ids, usr)
    requires LoopDepth(env, d, inner, ids)
    ensures NoCross(s, d, inner, usr)
    decreases s, 0
  {
    hide Expression, AllOk;
    var a := Then(Then(Take(d), Expression(s.c, d, n + 1)), One(Test, d));
    var y := Statement(s.yes, d, n + |a.depths|, env);
    if s.no.Some? {
      var b := Then(One(Jcc(Jump(ElsePart, n), true), d), y);
      var f := Statement(s.no.value, d, n + |a.depths| + |b.depths|, env);
      var j := Then(One(Jmp(Jump(EndIf, n)), d), One(Def(Jump(ElsePart, n)), d));
      var g := Then(f, One(Def(Jump(EndIf, n)), d));
      AllOkParts(Then(a, b), Then(j, g), ids, usr);
      AllOkParts(a, b, ids, usr);
      AllOkParts(One(Jcc(Jump(ElsePart, n), true), d), y, ids, usr);
      AllOkParts(j, g, ids, usr);
      AllOkParts(f, One(Def(Jump(EndIf, n)), d), ids, usr);
      Needed(s.no.value, d, n + |a.depths| + |b.depths|, env, inner, ids, usr);
    } else {
      var b := Then(One(Jcc(Jump(EndIf, n), true), d), y);
      AllOkParts(Then(a, b), One(Def(Jump(EndIf, n)), d), ids, usr);
      AllOkParts(a, b, ids, usr);
      AllOkParts(One(Jcc(Jump(EndIf, n), true), d), y, ids, usr);
    }
    Needed(s.yes, d, n + |a.depths|, env, inner, ids, usr);
  }

  lemma LoopEntered(env: Env, d: nat, n: nat, ids: seq<nat>)
    requires n < |ids| && ids[n] == d
    ensures NearestLoop(InLoop(env, n).breaks) == Some(n) && LoopDepth(InLoop(env, n), d, Loop, ids)
  {
  }

  lemma {:induction false} NeededWhile(s: Stmt, d: nat, n: nat, env: Env, ids: seq<nat>, usr: map<string, nat>)
    requires s.While? && ContinuesInLoops(s, NearestLoop(env.breaks).Some?) && AllOk(Statement(s, d, n, env).code, ids, usr)
    ensures NoCross(s.body, d, Loop, usr)
    decreases s, 0
  {
    hide Expression, AllOk, LoopEnd;
    var l := Then(One(Def(Jump(WhileStart, n)), d), One(Def(Jump(ContinueTo, n)), d));
    var a := Then(Take(d), l);
    var b := Then(Expression(s.c, d, n + 1), Then(One(Test, d), One(Jcc(Jump(WhileEnd, n), true), d)));
    var f := Statement(s.body, d, n + 1 + |b.depths|, InLoop(env, n));
    AllOkParts(Then(a, b), Then(f, LoopEnd(WhileStart, WhileEnd, d, n)), ids, usr);
    AllOkParts(a, b, ids, usr);
    AllOkParts(f, LoopEnd(WhileStart, WhileEnd, d, n), ids, usr);
    AllOkParts(Take(d), l, ids, usr);
    AllOkParts(One(Def(Jump(WhileStart, n)), d), One(Def(Jump(ContinueTo, n)), d), ids, usr);
    OneOk(Def(Jump(ContinueTo, n)), d, ids, usr);
    LoopEntered(env, d, n, ids);
    Needed(s.body, d, n + 1 + |b.depths|, InLoop(env, n), Loop, ids, usr);
  }

  lemma {:induction false} NeededDo(s: Stmt, d: nat, n: nat, env: Env, ids: seq<nat>, usr: map<string, nat>)
    requires s.DoWhile? && ContinuesInLoops(s, NearestLoop(env.breaks).Some?) && AllOk(Statement(s, d, n, env).code, ids, usr)
    ensures NoCross(s.body, d, Loop, usr)
    decreases s, 0
  {
    hide Expression, AllOk;
    var a := Then(Take(d), One(Def(Jump(DoStart, n)), d));
    var x := Statement(s.body, d, n + 1, InLoop(env, n));
    var b := Then(x, One(Def(Jump(ContinueTo, n)), d));
    var f := Then(Expression(s.c, d, n + 1 + |b.depths|), Then(One(Test, d), One(Jcc(Jump(DoStart, n), false), d)));
    AllOkParts(Then(a, b), Then(f, Then(One(Def(Jump(DoEnd, n)), d), One(Def(Jump(BreakTo, n)), d))), ids, usr);
    AllOkParts(a, b, ids, usr);
    AllOkParts(x, One(Def(Jump(ContinueTo, n)), d), ids, usr);
    OneOk(Def(Jump(ContinueTo, n)), d, ids, usr);
    LoopEntered(env, d, n, ids);
    Needed(s.body, d, n + 1, InLoop(env, n), Loop, ids, usr);
  }

  lemma {:induction false} NeededFor(s: Stmt, d: nat, n: nat, env: Env, ids: seq<nat>, usr: map<string, nat>)
    requires s.For? && ContinuesInLoops(s, NearestLoop(env.breaks).Some?) && AllOk(Statement(s, d, n, env).code, ids, usr)
    ensures (s.init.Some? ==> NoCross(s.init.value, d, Loop, usr)) && NoCross(s.body, d, Loop, usr)
    decreases s, 0
  {
    hide Expression, AllOk, LoopEnd;
    var env1 := InLoop(env, n);
    var i := if s.init.Some? then Statement(s.init.value, d, n + 1, env1) else NOTHING;
    var a := Then(Then(Take(d), i), One(Def(Jump(ForStart, n)), d));
    var b := if s.cond.Some? then Then(Expression(s.cond.value, d, n + |a.depths|), Then(One(Test, d), One(Jcc(Jump(ForEnd, n), true), d))) else NOTHING;
    var m := n + |a.depths| + |b.depths|;
    var x := Statement(s.body, d, m, env1);
    var f := Then(x, One(Def(Jump(ContinueTo, n)), d));
    var g := Maybe(s.step, d, m + |f.depths|);
    AllOkParts(Then(Then(a, b), f), Then(g, LoopEnd(ForStart, ForEnd, d, n)), ids, usr);
    AllOkParts(Then(a, b), f, ids, usr);
    AllOkParts(a, b, ids, usr);
    AllOkParts(Then(Take(d), i), One(Def(Jump(ForStart, n)), d), ids, usr);
    AllOkParts(Take(d), i, ids, usr);
    AllOkParts(x, One(Def(Jump(ContinueTo, n)), d), ids, usr);
    OneOk(Def(Jump(ContinueTo, n)), d, ids, usr);
    LoopEntered(env, d, n, ids);
    if s.init.Some? { Needed(s.init.value, d, n + 1, env1, Loop, ids, usr); }
    Needed(s.body, d, m, env1, Loop, ids, usr);
  }

  lemma {:induction false} NeededSwitch(s: Stmt, d: nat, n: nat, env: Env, inner: Inner, ids: seq<nat>, usr: map<string, nat>)
    requires s.Switch? && ContinuesInLoops(s, NearestLoop(env.breaks).Some?) && AllOk(Statement(s, d, n, env).code, ids, usr)
    requires LoopDepth(env, d, inner, ids)
    ensures NoCross(s.body, d + 1, SwitchBody, usr)
    decreases s, 0
  {
    hide Expression, AllOk, Dispatch, Collect;
    var ctx := Collect(s.body, n + 1);
    var a := Then(Take(d + 1), TakeMany(|ctx|, d + 1));
    var b := Then(Expression(s.c, d, n + |a.depths|), One(Push, d));
    var m, env1 := n + |a.depths| + |b.depths|, InSwitch(env, n, ctx);
    var f := Statement(s.body, d + 1, m, env1);
    var e := Then(Then(One(Def(Jump(SwitchEnd, n)), d + 1), One(Def(Jump(BreakTo, n)), d + 1)), One(Add(1), d + 1));
    AllOkParts(Then(Then(a, b), Dispatch(ctx, s.wide, d + 1, n)), Then(f, e), ids, usr);
    AllOkParts(f, e, ids, usr);
    assert env1.breaks[..|env.breaks|] == env.breaks;
    assert NearestLoop(env1.breaks) == NearestLoop(env.breaks);
    Needed(s.body, d + 1, m, env1, SwitchBody, ids, usr);
  }

  /** Some assignment of depths to labels fits the code. */
  ghost predicate Fits(code: seq<Item>, usr: map<string, nat>) {
    exists ids :: Chain(code, 0, 0, ids, usr)
  }

  /** The depths of the emitted code are consistent if and only if no continue leaves a switch and no goto changes the switch depth. */
  lemma {:induction false} DepthExact(s: Stmt, n: nat, usr: map<string, nat>)
    requires ContinuesInLoops(s, false)
    ensures Fits(Body(s, n), usr) <==> NoCross(s, 0, Outside, usr)
  {
    hide Body, Chain, NoCross;
    if NoCross(s, 0, Outside, usr) {
      var ids := Consistent(s, n, usr);
    }
    if Fits(Body(s, n), usr) {
      var ids :| Chain(Body(s, n), 0, 0, ids, usr);
      CrossShows(s, n, ids, usr);
    }
  }

  lemma CrossShows(s: Stmt, n: nat, ids: seq<nat>, usr: map<string, nat>)
    requires ContinuesInLoops(s, false) && Chain(Body(s, n), 0, 0, ids, usr)
    ensures NoCross(s, 0, Outside, usr)
  {
    hide AllOk, Chain, ContinuesInLoops, NoCross, Statement;
    ChainAllOk(Body(s, n), 0, 0, ids, usr);
    Needed(s, 0, n, Env([], []), Outside, ids, usr);
  }

  const DRIFTING := Switch(Leaf(1), false, Section(0, None, Continue))

  /** A loop that calls a function and continues from inside a switch. */
  const DRIFTS := While(Leaf(0), Block([Eval(CallPlain([])), DRIFTING]))

  const IN_LOOP := Env([BreakFrame(0, Some(0))], [])

  lemma DriftSection()
    ensures Collect(Section(0, None, Continue), 2) == [SwitchLabel(0, None, 2)]
    ensures Dispatch([SwitchLabel(0, None, 2)], false, 1, 1) == Emitted([Item(Jmp(Jump(SwitchSec, 2)), 1)], [])
    ensures Statement(Section(0, None, Continue), 1, 3, InSwitch(IN_LOOP, 1, [SwitchLabel(0, None, 2)]))
         == Emitted([Item(Def(Jump(SwitchSec, 2)), 1), Item(Jmp(Jump(ContinueTo, 0)), 1)], [])
  {
    assert Collect(Continue, 3) == [];
    var ctx := [SwitchLabel(0, None, 2)];
    assert Cases(ctx[1..], false, 1) == NOTHING;
    var env := InSwitch(IN_LOOP, 1, ctx);
    assert env.breaks == [BreakFrame(0, Some(0)), BreakFrame(1, None)];
    assert env.breaks[..1] == IN_LOOP.breaks;
    assert NearestLoop(IN_LOOP.breaks) == Some(0);
    assert NearestLoop(env.breaks) == Some(0);
    assert Statement(Continue, 1, 3, env) == One(Jmp(Jump(ContinueTo, 0)), 1);
    assert Lookup(ctx, 0) == Some(2);
  }

  lemma LeafIs(id: nat, d: nat, n: nat)
    ensures Expression(Leaf(id), d, n) == One(Work(id), d)
  {
  }

  lemma DriftSwitch()
    ensures Statement(DRIFTING, 0, 1, IN_LOOP).code == [Item(Work(1), 0), Item(Push, 0), Item(Jmp(Jump(SwitchSec, 2)), 1), Item(Def(Jump(SwitchSec, 2)), 1),
      Item(Jmp(Jump(ContinueTo, 0)), 1), Item(Def(Jump(SwitchEnd, 1)), 1), Item(Def(Jump(BreakTo, 1)), 1), Item(Add(1), 1)]
  {
    hide Dispatch, Collect, Lookup, NearestLoop, Statement, Expression, InSwitch;
    DriftSection();
    SwitchIs(DRIFTING, 0, 1, IN_LOOP);
    LeafIs(1, 0, 3);
    var a := Then(Take(1), TakeMany(1, 1));
    assert |a.depths| == 2 && a.code == [];
    var b := Then(One(Work(1), 0), One(Push, 0));
    assert b.code == [Item(Work(1), 0), Item(Push, 0)] && b.depths == [];
  }

  lemma BlockIs(s: Stmt, t: Stmt, d: nat, n: nat, env: Env)
    ensures Statement(Block([s, t]), d, n, env).code ==
      var a := Statement(s, d, n, env); a.code + Statement(t, d, n + |a.depths|, env).code
  {
    hide Expression;
    var a := Statement(s, d, n, env);
    var m := n + |a.depths|;
    var b := Statement(t, d, m, env);
    assert [s, t][1..] == [t] && [t][1..] == [];
    assert Statements([], d, m + |b.depths|, env) == NOTHING;
    assert Statements([t], d, m, env).code == b.code;
  }

  lemma CallIs()
    ensures Statement(Eval(CallPlain([])), 0, 1, IN_LOOP) == Emitted([Item(Call, 0)], [])
  {
    assert PushAll([], 0, 1) == NOTHING && PopAll(0, 0) == NOTHING;
    assert Expression(CallPlain([]), 0, 1) == Then(Then(NOTHING, NOTHING), One(Call, 0));
  }

  lemma DriftCode()
    ensures Body(DRIFTS, 0) == [
      Item(Def(Jump(WhileStart, 0)), 0), Item(Def(Jump(ContinueTo, 0)), 0), Item(Work(0), 0), Item(Test, 0), Item(Jcc(Jump(WhileEnd, 0), true), 0),
      Item(Call, 0), Item(Work(1), 0), Item(Push, 0), Item(Jmp(Jump(SwitchSec, 2)), 1), Item(Def(Jump(SwitchSec, 2)), 1), Item(Jmp(Jump(ContinueTo, 0)), 1),
      Item(Def(Jump(SwitchEnd, 1)), 1), Item(Def(Jump(BreakTo, 1)), 1), Item(Add(1), 1),
      Item(Jmp(Jump(WhileStart, 0)), 0), Item(Def(Jump(WhileEnd, 0)), 0), Item(Def(Jump(BreakTo, 0)), 0)]
  {
    hide Statements, Statement, Expression;
    DriftSwitch();
    CallIs();
    var call := Eval(CallPlain([]));
    BlockIs(call, DRIFTING, 0, 1, IN_LOOP);
    assert InLoop(Env([], []), 0) == IN_LOOP;
    WhileIs(DRIFTS, 0, 0, Env([], []));
    LeafIs(0, 0, 1);
  }

  lemma PathGrows(code: seq<Item>, ps: seq<Point>, q: Point)
    requires Path(code, ps) && Goes(code, ps[|ps| - 1], q)
    ensures Path(code, ps + [q])
  {
    forall k | 0 < k < |ps + [q]| ensures Goes(code, (ps + [q])[k - 1], (ps + [q])[k]) {
      if k < |ps| { assert Goes(code, ps[k - 1], ps[k]); }
    }
  }

  /** Straight-line steps at constant depth. */
  lemma {:induction false} WalkTo(code: seq<Item>, ps: seq<Point>, j: nat) returns (qs: seq<Point>)
    requires ps != [] && Path(code, ps) && ps[|ps| - 1].pc <= j <= |code|
    requires forall i :: ps[|ps| - 1].pc <= i < j ==> (code[i].ins.Plain? || code[i].ins.Work? || code[i].ins.Test? || code[i].ins.Def? || code[i].ins.Jcc? || code[i].ins.Call?)
    ensures qs != [] && Path(code, qs) && qs[|qs| - 1] == Point(j, ps[|ps| - 1].words)
    decreases j - ps[|ps| - 1].pc
  {
    var p := ps[|ps| - 1];
    if p.pc == j {
      qs := ps;
    } else {
      var q := Point(p.pc + 1, p.words);
      PathGrows(code, ps, q);
      assert (ps + [q])[|ps|] == q;
      qs := WalkTo(code, ps + [q], j);
    }
  }

  /** continue out of a switch drifts rsp: the second call of this path happens at an odd depth. */
  lemma ContinueDrifts() returns (ps: seq<Point>, k: nat)
    ensures Path(Body(DRIFTS, 0), ps) && k < |ps| && ps[k].pc < |Body(DRIFTS, 0)| && Body(DRIFTS, 0)[ps[k].pc].ins == Call
    ensures Rsp(0, 0, ps[k].words) % 16 != 0
  {
    hide Body, Path, Leads, Moved;
    DriftCode();
    var code := Body(DRIFTS, 0);
    PathStart(code);
    ps := WalkTo(code, [Point(0, 0)], 7);
    ps := OneStep(code, ps, Point(8, 1));
    ps := OneStep(code, ps, Point(9, 1));
    ps := OneStep(code, ps, Point(10, 1));
    ps := OneStep(code, ps, Point(1, 1));
    ps := WalkTo(code, ps, 5);
    k := |ps| - 1;
  }

  lemma PathStart(code: seq<Item>)
    ensures Path(code, [Point(0, 0)])
  {
  }

  /** A push, or a jump to a place that defines its label. */
  lemma OneStep(code: seq<Item>, ps: seq<Point>, q: Point) returns (qs: seq<Point>)
    requires ps != [] && Path(code, ps) && ps[|ps| - 1].pc < |code|
    requires var p := ps[|ps| - 1]; var ins := code[p.pc].ins;
      || (ins == Push && q == Point(p.pc + 1, p.words + 1))
      || (ins.Jmp? && q.pc < |code| && code[q.pc].ins == Def(ins.l) && q.words == p.words)
      || (ins.Def? && q == Point(p.pc + 1, p.words))
    ensures qs != [] && Path(code, qs) && qs[|qs| - 1] == q
  {
    PathGrows(code, ps, q);
    qs := ps + [q];
  }
}
