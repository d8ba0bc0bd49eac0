/** The code of an expression does its work in the order of C. */
module FlowExpressions {
  import opened Options
  import opened Emission
  import opened EmissionShapes
  import opened EmissionLabels
  import opened Flow
  import opened FlowMachine

  // ---------------------------------------------------------------- pieces

  lemma Here3(code: seq<Item>, p: nat, a: seq<Item>, b: seq<Item>, c: seq<Item>)
    requires Here(code, p, a + b + c)
    ensures Here(code, p, a) && Here(code, p + |a|, b) && Here(code, p + |a| + |b|, c)
  {
    hide Here;
    HereParts(code, p, a + b, c);
    HereParts(code, p, a, b);
  }

  lemma Here4(code: seq<Item>, p: nat, a: seq<Item>, b: seq<Item>, c: seq<Item>, e: seq<Item>)
    requires Here(code, p, a + b + c + e)
    ensures Here(code, p, a) && Here(code, p + |a|, b) && Here(code, p + |a| + |b|, c) && Here(code, p + |a| + |b| + |c|, e)
  {
    hide Here;
    HereParts(code, p, a + b + c, e);
    Here3(code, p, a, b, c);
  }

  function OneEffect(it: Item): History {
    if Effect(it.ins) then [it.ins] else []
  }

  lemma EffectsFirst(a: seq<Item>)
    requires a != []
    ensures Effects(a) == OneEffect(a[0]) + Effects(a[1..])
  {
  }

  lemma {:induction false} EffectsAppend(a: seq<Item>, b: seq<Item>)
    ensures Effects(a + b) == Effects(a) + Effects(b)
    decreases |a|
  {
    if a == [] {
      assert a + b == b;
    } else {
      hide Effects, OneEffect;
      assert (a + b)[0] == a[0] && (a + b)[1..] == a[1..] + b;
      EffectsFirst(a);
      EffectsFirst(a + b);
      EffectsAppend(a[1..], b);
    }
  }

  lemma EffectsOne(ins: Ins, d: nat)
    ensures Effects(One(ins, d).code) == if Effect(ins) then [ins] else []
  {
    var c := One(ins, d).code;
    assert c[1..] == [] && Effects(c[1..]) == [];
  }

  lemma {:induction false} PopsStraight(k: nat, d: nat)
    requires k <= d
    ensures Straight(PopAll(k, d).code) && Effects(PopAll(k, d).code) == []
    decreases k
  {
    if k > 0 {
      PopsStraight(k - 1, d - 1);
      EffectsOne(Pop, d);
      EffectsAppend(One(Pop, d).code, PopAll(k - 1, d - 1).code);
    }
  }

  lemma PaddedStraight(d: nat)
    ensures Straight(PaddedCall(d).code) && Effects(PaddedCall(d).code) == [Call]
  {
    EffectsOne(Sub(1), d);
    EffectsOne(Call, d + 1);
    EffectsOne(Call, d);
    EffectsOne(Add(1), d + 1);
    EffectsAppend(One(Sub(1), d).code, One(Call, d + 1).code);
    EffectsAppend(Then(One(Sub(1), d), One(Call, d + 1)).code, One(Add(1), d + 1).code);
    hide Effects;
  }

  lemma RoomStraight(k: nat, d: nat)
    ensures Straight(SubIf(k, d).code) && Effects(SubIf(k, d).code) == []
    ensures Straight(AddIf(k, d).code) && Effects(AddIf(k, d).code) == []
  {
    EffectsOne(Sub(k), d);
    EffectsOne(Add(k), d);
  }

  lemma SpillStraight(c: Class, d: nat)
    ensures Straight(Spill(c, d).code) && Effects(Spill(c, d).code) == if c == Xmm then [Plain] else []
  {
    EffectsOne(Push, d);
    EffectsOne(Push, d + 1);
    EffectsOne(Sub(1), d);
    EffectsOne(Plain, d + 1);
    EffectsAppend(One(Push, d).code, One(Push, d + 1).code);
    EffectsAppend(One(Sub(1), d).code, One(Plain, d + 1).code);
    hide Effects;
  }

  /** Straight code after other code. */
  lemma ThenStraight(code: seq<Item>, o: Values, p: nat, st: State, j: nat, u: State, piece: seq<Item>, x: History) returns (k: nat, t: State)
    requires Arrives(code, o, st, j, u) && u.pc == p && Here(code, p, piece) && Straight(piece) && Effects(piece) == x
    ensures Arrives(code, o, st, k, t) && t.pc == p + |piece| && t.h == u.h + x
  {
    hide Run, Straight, Effects;
    t := StraightRuns(code, o, p, piece, u);
    k := j + |piece|;
    ArrivesOn(code, o, st, j, u, |piece|, t);
  }

  lemma ThenOne(code: seq<Item>, o: Values, p: nat, st: State, j: nat, u: State, ins: Ins, d: nat) returns (k: nat, t: State)
    requires Arrives(code, o, st, j, u) && u.pc == p && Here(code, p, [Item(ins, d)]) && !ins.Jmp? && !ins.Jcc? && !ins.Ret?
    ensures Arrives(code, o, st, k, t) && t.pc == p + 1 && t.h == u.h + if Effect(ins) then [ins] else []
  {
    EffectsOne(ins, d);
    k, t := ThenStraight(code, o, p, st, j, u, [Item(ins, d)], if Effect(ins) then [ins] else []);
  }

  /** What a piece of expression code must do. */
  predicate Does(code: seq<Item>, o: Values, p: nat, st: State, k: nat, t: State, piece: seq<Item>, h: History) {
    Arrives(code, o, st, k, t) && t.pc == p + |piece| && t.h == h
  }

  // ---------------------------------------------------------------- expressions

  lemma {:induction false} ExprRuns(code: seq<Item>, o: Values, p: nat, e: Expr, d: nat, n: nat, st: State) returns (k: nat, t: State)
    requires Once(code) && Here(code, p, Expression(e, d, n).code) && st.pc == p
    ensures Does(code, o, p, st, k, t, Expression(e, d, n).code, Trace(e, st.h, o))
    decreases e, 3
  {
    hide Once, Here, Run;
    match e
    case Leaf(id) =>
      assert Arrives(code, o, st, 0, st) by { Still(code, o, st); }
      k, t := ThenOne(code, o, p, st, 0, st, Work(id), d);
    case Unary(a) =>
      HereParts(code, p, Expression(a, d, n).code, [Item(Plain, d)]);
      var j, u := ExprRuns(code, o, p, a, d, n, st);
      k, t := ThenOne(code, o, p + |Expression(a, d, n).code|, st, j, u, Plain, d);
    case Binary(_, _) => k, t := BinaryRuns(code, o, p, e, d, n, st);
    case And(_, _) => k, t := ShortRuns(code, o, p, e, d, n, st);
    case Or(_, _) => k, t := ShortRuns(code, o, p, e, d, n, st);
    case Cond(_, _, _) => k, t := CondRuns(code, o, p, e, d, n, st);
    case CallPlain(_) => k, t := CallRuns(code, o, p, e, d, n, st);
    case CallLaidOut(_, _, _) => k, t := CallLaidRuns(code, o, p, e, d, n, st);
    case Indirect(_, _) => k, t := IndirectRuns(code, o, p, e, d, n, st);
    case IndirectLaidOut(_, _, _) => k, t := IndirectLaidRuns(code, o, p, e, d, n, st);
  }

  lemma Still(code: seq<Item>, o: Values, st: State)
    ensures Arrives(code, o, st, 0, st)
  {
  }

  /** Evaluate and push. */
  lemma {:induction false} PushedRuns(code: seq<Item>, o: Values, p: nat, e: Expr, d: nat, n: nat, st: State) returns (k: nat, t: State)
    requires Once(code) && Here(code, p, Then(Expression(e, d, n), One(Push, d)).code) && st.pc == p
    ensures Does(code, o, p, st, k, t, Then(Expression(e, d, n), One(Push, d)).code, Trace(e, st.h, o))
    decreases e, 4
  {
    hide Once, Here, Run, Expression, Trace;
    HereParts(code, p, Expression(e, d, n).code, [Item(Push, d)]);
    var j, u := ExprRuns(code, o, p, e, d, n, st);
    k, t := ThenOne(code, o, p + |Expression(e, d, n).code|, st, j, u, Push, d);
    assert u.h + [] == u.h;
  }

  lemma {:induction false} BinaryRuns(code: seq<Item>, o: Values, p: nat, e: Expr, d: nat, n: nat, st: State) returns (k: nat, t: State)
    requires Once(code) && Here(code, p, Expression(e, d, n).code) && st.pc == p && e.Binary?
    ensures Does(code, o, p, st, k, t, Expression(e, d, n).code, Trace(e, st.h, o))
    decreases e, 2
  {
    hide Once, Here, Run, Expression;
    BinaryIs(e, d, n);
    var a := Then(Expression(e.l, d, n), One(Push, d));
    var b := Expression(e.r, d + 1, n + |a.depths|);
    var c := Then(One(Pop, d + 1), One(Plain, d));
    Here3(code, p, a.code, b.code, c.code);
    var j, u := PushedRuns(code, o, p, e.l, d, n, st);
    var p1 := p + |a.code|;
    var i, v := ExprRuns(code, o, p1, e.r, d + 1, n + |a.depths|, u);
    ArrivesOn(code, o, st, j, u, i, v);
    PopPlain(d);
    k, t := ThenStraight(code, o, p1 + |b.code|, st, j + i, v, c.code, [Plain]);
  }

  lemma PopPlain(d: nat)
    ensures var c := Then(One(Pop, d + 1), One(Plain, d)); Straight(c.code) && Effects(c.code) == [Plain]
  {
    EffectsOne(Pop, d + 1);
    EffectsOne(Plain, d);
    EffectsAppend(One(Pop, d + 1).code, One(Plain, d).code);
    hide Effects;
  }

  /** A comparison with zero and the jump on it. */
  lemma {:induction false} TestRuns(code: seq<Item>, o: Values, p: nat, l: Label, zero: bool, d: nat, st: State, j: nat, u: State, target: nat) returns (k: nat, t: State)
    requires Here(code, p, [Item(Test, d), Item(Jcc(l, zero), d)]) && u.pc == p && Find(code, l, 0) == Some(target) && Arrives(code, o, st, j, u)
    ensures Arrives(code, o, st, k, t) && k == j + 2 && t.h == u.h && t.pc == if (o(u.h) == 0) == zero then target else p + 2
  {
    var piece := [Item(Test, d), Item(Jcc(l, zero), d)];
    HereAt(code, p, piece, 0);
    HereAt(code, p, piece, 1);
    hide Run, Here;
    var v := QuietStep(code, o, u);
    t := BranchStep(code, o, v);
    ArrivesOn(code, o, st, j, u, 1, v);
    ArrivesOn(code, o, st, j + 1, v, 1, t);
    k := j + 2;
  }

  lemma {:induction false} ShortRuns(code: seq<Item>, o: Values, p: nat, e: Expr, d: nat, n: nat, st: State) returns (k: nat, t: State)
    requires Once(code) && Here(code, p, Expression(e, d, n).code) && st.pc == p && (e.And? || e.Or?)
    ensures Does(code, o, p, st, k, t, Expression(e, d, n).code, Trace(e, st.h, o))
    decreases e, 2
  {
    hide Once, Here, Run, Expression, ShortEnd;
    var skip, end := if e.And? then AndFalse else OrTrue, if e.And? then AndEnd else OrEnd;
    ShortCode(e, d, n, skip, end);
    var l := Expression(e.l, d, n + 1);
    var m := n + 1 + |l.depths|;
    var r := Expression(e.r, d, m);
    var test := [Item(Test, d), Item(Jcc(Jump(skip, n), skip == AndFalse), d)];
    Here4(code, p, l.code, test, r.code, ShortEnd(skip, end, d, n).code);
    var p1 := p + |l.code|;
    var p3 := p1 + 2 + |r.code|;
    ShortEndHere(code, p3, skip, end, d, n);
    var j, u := ExprRuns(code, o, p, e.l, d, n + 1, st);
    var i, v := TestRuns(code, o, p1, Jump(skip, n), skip == AndFalse, d, st, j, u, p3 + 2);
    if v.pc == p3 + 2 && ((o(u.h) == 0) == e.And?) {
      k, t := ShortSkips(code, o, p3, skip, end, d, n, st, i, v);
    } else {
      var i2, w := ExprRuns(code, o, p1 + 2, e.r, d, m, v);
      ArrivesOn(code, o, st, i, v, i2, w);
      k, t := ShortFalls(code, o, p3, skip, end, d, n, st, i + i2, w);
    }
  }

  /** Where the parts of the end of a short-circuit operator stand. */
  ghost predicate ShortParts(code: seq<Item>, p: nat, skip: LabelKind, end: LabelKind, d: nat, n: nat) {
    && p + 5 <= |code| && |ShortEnd(skip, end, d, n).code| == 5
    && code[p] == Item(Plain, d) && code[p + 1] == Item(Jmp(Jump(end, n)), d) && code[p + 2] == Item(Def(Jump(skip, n)), d)
    && code[p + 3] == Item(Plain, d) && code[p + 4] == Item(Def(Jump(end, n)), d)
    && Find(code, Jump(skip, n), 0) == Some(p + 2) && Find(code, Jump(end, n), 0) == Some(p + 4)
  }

  lemma ShortEndHere(code: seq<Item>, p: nat, skip: LabelKind, end: LabelKind, d: nat, n: nat)
    requires Once(code) && Here(code, p, ShortEnd(skip, end, d, n).code)
    ensures ShortParts(code, p, skip, end, d, n)
  {
    hide Once, Here, Find;
    var c := ShortEnd(skip, end, d, n).code;
    assert c == [Item(Plain, d), Item(Jmp(Jump(end, n)), d), Item(Def(Jump(skip, n)), d), Item(Plain, d), Item(Def(Jump(end, n)), d)];
    HereAt(code, p, c, 0);
    HereAt(code, p, c, 1);
    HereAt(code, p, c, 2);
    HereAt(code, p, c, 3);
    HereAt(code, p, c, 4);
    FindIs(code, Jump(skip, n), p + 2);
    FindIs(code, Jump(end, n), p + 4);
  }

  lemma ShortFalls(code: seq<Item>, o: Values, p: nat, skip: LabelKind, end: LabelKind, d: nat, n: nat, st: State, j: nat, u: State) returns (k: nat, t: State)
    requires ShortParts(code, p, skip, end, d, n) && Arrives(code, o, st, j, u) && u.pc == p
    ensures Arrives(code, o, st, k, t) && t.pc == p + 5 && t.h == u.h + [Plain]
  {
    hide Run, Find;
    var v := WorkStep(code, o, u);
    var w := JumpStep(code, o, v);
    t := QuietStep(code, o, w);
    ArrivesOn(code, o, st, j, u, 1, v);
    ArrivesOn(code, o, st, j + 1, v, 1, w);
    ArrivesOn(code, o, st, j + 2, w, 1, t);
    k := j + 3;
  }

  lemma ShortSkips(code: seq<Item>, o: Values, p: nat, skip: LabelKind, end: LabelKind, d: nat, n: nat, st: State, j: nat, u: State) returns (k: nat, t: State)
    requires ShortParts(code, p, skip, end, d, n) && Arrives(code, o, st, j, u) && u.pc == p + 2
    ensures Arrives(code, o, st, k, t) && t.pc == p + 5 && t.h == u.h + [Plain]
  {
    hide Run, Find;
    var v := QuietStep(code, o, u);
    var w := WorkStep(code, o, v);
    t := QuietStep(code, o, w);
    ArrivesOn(code, o, st, j, u, 1, v);
    ArrivesOn(code, o, st, j + 1, v, 1, w);
    ArrivesOn(code, o, st, j + 2, w, 1, t);
    k := j + 3;
  }

  lemma {:induction false} CondRuns(code: seq<Item>, o: Values, p: nat, e: Expr, d: nat, n: nat, st: State) returns (k: nat, t: State)
    requires Once(code) && Here(code, p, Expression(e, d, n).code) && st.pc == p && e.Cond?
    ensures Does(code, o, p, st, k, t, Expression(e, d, n).code, Trace(e, st.h, o))
    decreases e, 2
  {
    hide Once, Here, Run, Expression;
    CondCode(e, d, n);
    var f, g := Jump(CondFalse, n), Jump(CondEnd, n);
    var c := Expression(e.c, d, n + 1);
    var y := Expression(e.y, d, n + 1 + |c.depths|);
    var z := Expression(e.n, d, n + 1 + |c.depths| + |y.depths|);
    var test, mid := [Item(Test, d), Item(Jcc(f, true), d)], [Item(Jmp(g), d), Item(Def(f), d)];
    Here4(code, p, c.code + test + y.code + mid, z.code, [Item(Def(g), d)], []);
    Here4(code, p, c.code, test, y.code, mid);
    var p1 := p + |c.code|;
    var p2 := p1 + 2 + |y.code|;
    var p3 := p2 + 2 + |z.code|;
    HereAt(code, p2, mid, 0);
    HereAt(code, p2, mid, 1);
    HereAt(code, p3, [Item(Def(g), d)], 0);
    FindIs(code, f, p2 + 1);
    FindIs(code, g, p3);
    var j, u := ExprRuns(code, o, p, e.c, d, n + 1, st);
    var i, v := TestRuns(code, o, p1, f, true, d, st, j, u, p2 + 1);
    var w;
    if o(u.h) == 0 {
      var x := QuietStep(code, o, v);
      ArrivesOn(code, o, st, i, v, 1, x);
      var i2;
      i2, w := ExprRuns(code, o, p2 + 2, e.n, d, n + 1 + |c.depths| + |y.depths|, x);
      ArrivesOn(code, o, st, i + 1, x, i2, w);
      k := i + 1 + i2;
    } else {
      var i2, x := ExprRuns(code, o, p1 + 2, e.y, d, n + 1 + |c.depths|, v);
      ArrivesOn(code, o, st, i, v, i2, x);
      w := JumpStep(code, o, x);
      ArrivesOn(code, o, st, i + i2, x, 1, w);
      k := i + i2 + 1;
    }
    t := QuietStep(code, o, w);
    ArrivesOn(code, o, st, k, w, 1, t);
    k := k + 1;
  }

  // ---------------------------------------------------------------- calls

  lemma {:induction false} PushAllRuns(code: seq<Item>, o: Values, p: nat, es: seq<Expr>, d: nat, n: nat, st: State) returns (k: nat, t: State)
    requires Once(code) && Here(code, p, PushAll(es, d, n).code) && st.pc == p
    ensures Does(code, o, p, st, k, t, PushAll(es, d, n).code, Forward(es, st.h, o))
    decreases es, 0
  {
    hide Once, Here, Run, Expression, Trace;
    if es == [] {
      Still(code, o, st);
      k, t := 0, st;
    } else {
      var a := Then(Expression(es[0], d, n), One(Push, d));
      var m := n + |Expression(es[0], d, n).depths|;
      HereParts(code, p, a.code, PushAll(es[1..], d + 1, m).code);
      var j, u := PushedRuns(code, o, p, es[0], d, n, st);
      var i;
      i, t := PushAllRuns(code, o, p + |a.code|, es[1..], d + 1, m, u);
      ArrivesOn(code, o, st, j, u, i, t);
      k := j + i;
    }
  }

  lemma {:induction false} PushBackRuns(code: seq<Item>, o: Values, p: nat, es: seq<Expr>, d: nat, n: nat, st: State) returns (k: nat, t: State)
    requires Once(code) && Here(code, p, PushBack(es, d, n).code) && st.pc == p
    ensures Does(code, o, p, st, k, t, PushBack(es, d, n).code, Backward(es, st.h, o))
    decreases es, 0
  {
    hide Once, Here, Run, Expression, Trace;
    if es == [] {
      Still(code, o, st);
      k, t := 0, st;
    } else {
      var last := |es| - 1;
      var a := Then(Expression(es[last], d, n), One(Push, d));
      var m := n + |Expression(es[last], d, n).depths|;
      HereParts(code, p, a.code, PushBack(es[..last], d + 1, m).code);
      var j, u := PushedRuns(code, o, p, es[last], d, n, st);
      var i;
      i, t := PushBackRuns(code, o, p + |a.code|, es[..last], d + 1, m, u);
      ArrivesOn(code, o, st, j, u, i, t);
      k := j + i;
    }
  }

  lemma {:induction false} PushManyRuns(code: seq<Item>, o: Values, p: nat, es: seq<Expr>, d: nat, n: nat, st: State) returns (k: nat, t: State)
    requires Once(code) && |es| > 6 && Here(code, p, PushMany(es, d, n).code) && st.pc == p
    ensures Does(code, o, p, st, k, t, PushMany(es, d, n).code, Arguments(es, st.h, o) + [Call])
    decreases es, 1
  {
    hide Once, Here, Run, PushBack, PushAll, PopAll, Forward, Backward;
    var q := |es| - 6;
    var pad := (d + q) % 2;
    var x := SubIf(pad, d);
    var y := PushBack(es[6..], d + pad, n);
    var a := Then(x, y);
    var b := PushAll(es[..6], d + pad + q, n + |a.depths|);
    var c := Then(PopAll(6, d + pad + q + 6), One(Call, d + pad + q));
    Here3(code, p, a.code, b.code, c.code);
    HereParts(code, p, x.code, y.code);
    RoomStraight(pad, d);
    Still(code, o, st);
    var j, u := ThenStraight(code, o, p, st, 0, st, x.code, []);
    var p1 := p + |x.code|;
    var i, v := PushBackRuns(code, o, p1, es[6..], d + pad, n, u);
    ArrivesOn(code, o, st, j, u, i, v);
    var p2 := p1 + |y.code|;
    var i2, w := PushAllRuns(code, o, p2, es[..6], d + pad + q, n + |a.depths|, v);
    ArrivesOn(code, o, st, j + i, v, i2, w);
    CallAfterPops(6, d + pad + q);
    k, t := ThenStraight(code, o, p2 + |b.code|, st, j + i + i2, w, c.code, [Call]);
    assert st.h + [] == st.h;
  }

  lemma CallAfterPops(k: nat, d: nat)
    ensures var c := Then(PopAll(k, d + k), One(Call, d)); Straight(c.code) && Effects(c.code) == [Call]
  {
    hide PopAll, Effects;
    PopsStraight(k, d + k);
    EffectsOne(Call, d);
    EffectsAppend(PopAll(k, d + k).code, One(Call, d).code);
  }

  lemma {:induction false} CallRuns(code: seq<Item>, o: Values, p: nat, e: Expr, d: nat, n: nat, st: State) returns (k: nat, t: State)
    requires Once(code) && Here(code, p, Expression(e, d, n).code) && st.pc == p && e.CallPlain?
    ensures Does(code, o, p, st, k, t, Expression(e, d, n).code, Trace(e, st.h, o))
    decreases e, 2
  {
    hide Once, Here, Run, PushAll, PopAll, PaddedCall, PushMany;
    var es := e.args;
    if |es| <= 6 {
      var a, b, c := PushAll(es, d, n), PopAll(|es|, d + |es|), PaddedCall(d);
      Here3(code, p, a.code, b.code, c.code);
      var j, u := PushAllRuns(code, o, p, es, d, n, st);
      PopsStraight(|es|, d + |es|);
      PaddedStraight(d);
      var i, v := ThenStraight(code, o, p + |a.code|, st, j, u, b.code, []);
      k, t := ThenStraight(code, o, p + |a.code| + |b.code|, st, i, v, c.code, [Call]);
      assert u.h + [] == u.h;
    } else {
      var q := |es| - 6;
      var pad := (d + q) % 2;
      HereParts(code, p, PushMany(es, d, n).code, [Item(Add(q + pad), d + q + pad)]);
      var j, u := PushManyRuns(code, o, p, es, d, n, st);
      k, t := ThenOne(code, o, p + |PushMany(es, d, n).code|, st, j, u, Add(q + pad), d + q + pad);
      assert u.h + [] == u.h;
    }
  }

  lemma {:induction false} StoreRuns(code: seq<Item>, o: Values, p: nat, slots: seq<Arg>, d: nat, n: nat, st: State) returns (k: nat, t: State)
    requires Once(code) && Here(code, p, StoreArgs(slots, d, n).code) && st.pc == p
    ensures Does(code, o, p, st, k, t, StoreArgs(slots, d, n).code, Stored(slots, st.h, o))
    decreases slots, 0
  {
    hide Once, Here, Run, StoreArg, StoredOne;
    Still(code, o, st);
    if slots == [] {
      k, t := 0, st;
    } else {
      var a := StoreArg(slots[0], d, n);
      HereParts(code, p, a.code, StoreArgs(slots[1..], d, n + |a.depths|).code);
      var j, u := StoreOneRuns(code, o, p, slots[0], d, n, st);
      var i;
      i, t := StoreRuns(code, o, p + |a.code|, slots[1..], d, n + |a.depths|, u);
      ArrivesOn(code, o, st, j, u, i, t);
      k := j + i;
    }
  }

  lemma {:induction false} StoreOneRuns(code: seq<Item>, o: Values, p: nat, a: Arg, d: nat, n: nat, st: State) returns (k: nat, t: State)
    requires Once(code) && Here(code, p, StoreArg(a, d, n).code) && st.pc == p
    ensures Does(code, o, p, st, k, t, StoreArg(a, d, n).code, StoredOne(a, st.h, o))
    decreases a, 4
  {
    hide Once, Here, Run, Expression, Trace;
    Still(code, o, st);
    match a case Arg(e, c) =>
    if c == OnStack {
      HereParts(code, p, Expression(e, d, n).code, [Item(Plain, d)]);
      var j, u := ExprRuns(code, o, p, e, d, n, st);
      k, t := ThenOne(code, o, p + |Expression(e, d, n).code|, st, j, u, Plain, d);
    } else {
      k, t := 0, st;
    }
  }

  lemma {:induction false} SpillRuns(code: seq<Item>, o: Values, p: nat, slots: seq<Arg>, d: nat, n: nat, st: State) returns (k: nat, t: State)
    requires Once(code) && Here(code, p, SpillArgs(slots, d, n).code) && st.pc == p
    ensures Does(code, o, p, st, k, t, SpillArgs(slots, d, n).code, Spilled(slots, st.h, o))
    decreases slots, 0
  {
    hide Once, Here, Run, SpillArg, SpilledOne;
    Still(code, o, st);
    if slots == [] {
      k, t := 0, st;
    } else {
      var a := SpillArg(slots[0], d, n);
      var d1 := d + SpillCount(slots[0].c);
      HereParts(code, p, a.code, SpillArgs(slots[1..], d1, n + |a.depths|).code);
      var j, u := SpillOneRuns(code, o, p, slots[0], d, n, st);
      var i;
      i, t := SpillRuns(code, o, p + |a.code|, slots[1..], d1, n + |a.depths|, u);
      ArrivesOn(code, o, st, j, u, i, t);
      k := j + i;
    }
  }

  lemma {:induction false} SpillOneRuns(code: seq<Item>, o: Values, p: nat, a: Arg, d: nat, n: nat, st: State) returns (k: nat, t: State)
    requires Once(code) && Here(code, p, SpillArg(a, d, n).code) && st.pc == p
    ensures Does(code, o, p, st, k, t, SpillArg(a, d, n).code, SpilledOne(a, st.h, o))
    decreases a, 4
  {
    hide Once, Here, Run, Expression, Trace, Spill;
    Still(code, o, st);
    match a case Arg(e, c) =>
    if c == OnStack {
      k, t := 0, st;
    } else {
      HereParts(code, p, Expression(e, d, n).code, Spill(c, d).code);
      var j, u := ExprRuns(code, o, p, e, d, n, st);
      SpillStraight(c, d);
      k, t := ThenStraight(code, o, p + |Expression(e, d, n).code|, st, j, u, Spill(c, d).code, if c == Xmm then [Plain] else []);
      assert u.h + [] == u.h;
    }
  }

  /** The hidden pointer. */
  lemma HiddenStraight(sret: bool, d: nat)
    ensures var s := if sret then Then(One(Plain, d), One(Push, d)) else NOTHING;
      Straight(s.code) && Effects(s.code) == if sret then [Plain] else []
  {
    EffectsOne(Plain, d);
    EffectsOne(Push, d);
    EffectsAppend(One(Plain, d).code, One(Push, d).code);
  }

  lemma ReloadStraight(k: nat, d: nat)
    ensures var c := Then(Then(One(Plain, d + k), AddIf(k, d + k)), One(Call, d)); Straight(c.code) && Effects(c.code) == [Plain, Call]
  {
    hide AddIf, Effects, SubIf;
    EffectsOne(Plain, d + k);
    EffectsOne(Call, d);
    RoomStraight(k, d + k);
    EffectsAppend(One(Plain, d + k).code, AddIf(k, d + k).code);
    EffectsAppend(Then(One(Plain, d + k), AddIf(k, d + k)).code, One(Call, d).code);
  }

  lemma {:induction false} LaidOutRuns(code: seq<Item>, o: Values, p: nat, slots: seq<Arg>, sret: bool, stackBytes: nat, d: nat, n: nat, st: State) returns (k: nat, t: State)
    requires Once(code) && Here(code, p, LaidOut(slots, sret, stackBytes, d, n).code) && st.pc == p
    ensures Does(code, o, p, st, k, t, LaidOut(slots, sret, stackBytes, d, n).code, LaidOutTrace(slots, sret, st.h, o))
    decreases slots, 1
  {
    hide Once, Here, Run, StoreArgs, SpillArgs, Region, SubIf, AddIf, Stored, Spilled, Effects, Straight;
    var region := Region(d, stackBytes);
    var d1 := d + region;
    var x, y := SubIf(region, d), StoreArgs(slots, d1, n);
    var a := Then(x, y);
    var s := if sret then Then(One(Plain, d1), One(Push, d1)) else NOTHING;
    var h := if sret then 1 else 0;
    var b := SpillArgs(slots, d1 + h, n + |a.depths|);
    var q := h + Spills(slots);
    var c := Then(Then(One(Plain, d1 + q), AddIf(q, d1 + q)), One(Call, d1));
    Here3(code, p, a.code, (s.code + b.code), c.code);
    HereParts(code, p, x.code, y.code);
    var p1 := p + |x.code|;
    var p2 := p1 + |y.code|;
    HereParts(code, p2, s.code, b.code);
    RoomStraight(region, d);
    Still(code, o, st);
    var j, u := ThenStraight(code, o, p, st, 0, st, x.code, []);
    assert st.h + [] == st.h;
    var i, v := StoreRuns(code, o, p1, slots, d1, n, u);
    ArrivesOn(code, o, st, j, u, i, v);
    HiddenStraight(sret, d1);
    var i2, w := ThenStraight(code, o, p2, st, j + i, v, s.code, if sret then [Plain] else []);
    assert v.h + [] == v.h;
    var p3 := p2 + |s.code|;
    var i3, z := SpillRuns(code, o, p3, slots, d1 + h, n + |a.depths|, w);
    ArrivesOn(code, o, st, i2, w, i3, z);
    ReloadStraight(q, d1);
    k, t := ThenStraight(code, o, p3 + |b.code|, st, i2 + i3, z, c.code, [Plain, Call]);
  }

  lemma {:induction false} CallLaidRuns(code: seq<Item>, o: Values, p: nat, e: Expr, d: nat, n: nat, st: State) returns (k: nat, t: State)
    requires Once(code) && Here(code, p, Expression(e, d, n).code) && st.pc == p && e.CallLaidOut?
    ensures Does(code, o, p, st, k, t, Expression(e, d, n).code, Trace(e, st.h, o))
    decreases e, 2
  {
    hide Once, Here, Run, LaidOut, Region, AddIf, SubIf, LaidOutTrace;
    var region := Region(d, e.stackBytes);
    var a := LaidOut(e.slots, e.sret, e.stackBytes, d, n);
    var x := AddIf(region, d + region);
    HereParts(code, p, a.code, x.code + [Item(Plain, d)]);
    var p1 := p + |a.code|;
    HereParts(code, p1, x.code, [Item(Plain, d)]);
    var j, u := LaidOutRuns(code, o, p, e.slots, e.sret, e.stackBytes, d, n, st);
    RoomStraight(region, d + region);
    var i, v := ThenStraight(code, o, p1, st, j, u, x.code, []);
    assert u.h + [] == u.h;
    k, t := ThenOne(code, o, p1 + |x.code|, st, i, v, Plain, d);
  }

  /** The argument code of an indirect call and what follows it. */
  function IndirectTail(es: seq<Expr>, d: nat, m: nat): Emitted {
    if |es| <= 6 then
      Then(Then(PushAll(es, d + 1, m), PopAll(|es|, d + 1 + |es|)), Then(One(Pop, d + 1), PaddedCall(d)))
    else
      var q := |es| - 6;
      var pad := (d + 1 + q) % 2;
      Then(PushMany(es, d + 1, m), One(Add(q + pad + 1), d + 1 + q + pad))
  }

  lemma IndirectCode(e: Expr, d: nat, n: nat)
    requires e.Indirect?
    ensures var a := Then(Expression(e.f, d, n), One(Push, d));
      Expression(e, d, n).code == a.code + IndirectTail(e.args, d, n + |a.depths|).code
  {
    IndirectIs(e, d, n);
    hide PushAll, PopAll, PaddedCall, PushMany, Expression;
  }

  lemma {:induction false} IndirectRuns(code: seq<Item>, o: Values, p: nat, e: Expr, d: nat, n: nat, st: State) returns (k: nat, t: State)
    requires Once(code) && Here(code, p, Expression(e, d, n).code) && st.pc == p && e.Indirect?
    ensures Does(code, o, p, st, k, t, Expression(e, d, n).code, Trace(e, st.h, o))
    decreases e, 2
  {
    hide Once, Here, Run, Expression, Arguments, IndirectTail;
    IndirectCode(e, d, n);
    var a := Then(Expression(e.f, d, n), One(Push, d));
    var m := n + |a.depths|;
    var b := IndirectTail(e.args, d, m);
    HereParts(code, p, a.code, b.code);
    var j, u := PushedRuns(code, o, p, e.f, d, n, st);
    var i;
    i, t := IndirectTailRuns(code, o, p + |a.code|, e.args, d, m, u);
    ArrivesOn(code, o, st, j, u, i, t);
    k := j + i;
  }

  lemma {:induction false} IndirectTailRuns(code: seq<Item>, o: Values, p: nat, es: seq<Expr>, d: nat, m: nat, st: State) returns (k: nat, t: State)
    requires Once(code) && Here(code, p, IndirectTail(es, d, m).code) && st.pc == p
    ensures Does(code, o, p, st, k, t, IndirectTail(es, d, m).code, Arguments(es, st.h, o) + [Call])
    decreases es, 2
  {
    hide Once, Here, Run, PushAll, PopAll, PaddedCall, PushMany, Forward, Backward;
    if |es| <= 6 {
      var x, y, c := PushAll(es, d + 1, m), PopAll(|es|, d + 1 + |es|), Then(One(Pop, d + 1), PaddedCall(d));
      Here3(code, p, x.code, y.code, c.code);
      var j, u := PushAllRuns(code, o, p, es, d + 1, m, st);
      PopsStraight(|es|, d + 1 + |es|);
      var i, v := ThenStraight(code, o, p + |x.code|, st, j, u, y.code, []);
      assert u.h + [] == u.h;
      PopThenPadded(d);
      k, t := ThenStraight(code, o, p + |x.code| + |y.code|, st, i, v, c.code, [Call]);
    } else {
      var q := |es| - 6;
      var pad := (d + 1 + q) % 2;
      var b, last := PushMany(es, d + 1, m), Item(Add(q + pad + 1), d + 1 + q + pad);
      HereParts(code, p, b.code, [last]);
      var j, u := PushManyRuns(code, o, p, es, d + 1, m, st);
      k, t := ThenOne(code, o, p + |b.code|, st, j, u, last.ins, last.d);
      assert u.h + [] == u.h;
    }
  }

  lemma PopThenPadded(d: nat)
    ensures var c := Then(One(Pop, d + 1), PaddedCall(d)); Straight(c.code) && Effects(c.code) == [Call]
  {
    hide Effects, PaddedCall;
    EffectsOne(Pop, d + 1);
    PaddedStraight(d);
    EffectsAppend(One(Pop, d + 1).code, PaddedCall(d).code);
  }

  lemma {:induction false} IndirectLaidRuns(code: seq<Item>, o: Values, p: nat, e: Expr, d: nat, n: nat, st: State) returns (k: nat, t: State)
    requires Once(code) && Here(code, p, Expression(e, d, n).code) && st.pc == p && e.IndirectLaidOut?
    ensures Does(code, o, p, st, k, t, Expression(e, d, n).code, Trace(e, st.h, o))
    decreases e, 2
  {
    hide Once, Here, Run, LaidOut, Region, Expression, LaidOutTrace;
    IndirectIs(e, d, n);
    var a := Then(Expression(e.f, d, n), One(Push, d));
    var region, m := Region(d + 1, e.stackBytes), n + |a.depths|;
    var b, last := LaidOut(e.slots, false, e.stackBytes, d + 1, m), Item(Add(region + 1), d + 1 + region);
    HereParts(code, p, a.code, b.code + [last]);
    var p1 := p + |a.code|;
    HereParts(code, p1, b.code, [last]);
    var j, u := PushedRuns(code, o, p, e.f, d, n, st);
    var i, v := LaidOutRuns(code, o, p1, e.slots, false, e.stackBytes, d + 1, m, u);
    ArrivesOn(code, o, st, j, u, i, v);
    k, t := ThenOne(code, o, p1 + |b.code|, st, j + i, v, last.ins, last.d);
    assert v.h + [] == v.h;
  }
}
