/** The generator itself: output, push_depth, label_count, break_stack and switch_stack as it updates them
    (codegen_expression and codegen_statement in src/codegen.c). */
module EmissionCode {
  import opened Options
  import opened Emission
  import opened EmissionShapes
  import opened EmissionTargets

  /** What one stretch of generation appended and took. */
  ghost predicate Grew(o: seq<Item>, o': seq<Item>, n: nat, n': nat, r: Emitted) {
    o' == o + r.code && n' == n + |r.depths|
  }

  lemma GrewThen(o: seq<Item>, o1: seq<Item>, o2: seq<Item>, n: nat, n1: nat, n2: nat, a: Emitted, b: Emitted)
    requires Grew(o, o1, n, n1, a) && Grew(o1, o2, n1, n2, b)
    ensures Grew(o, o2, n, n2, Then(a, b))
  {
    assert o + Then(a, b).code == (o + a.code) + b.code;
  }

  lemma GrewNothing(o: seq<Item>, n: nat)
    ensures Grew(o, o, n, n, NOTHING)
  {
  }

  lemma GrewTake(o: seq<Item>, n: nat, d: nat)
    ensures Grew(o, o, n, n + 1, Take(d))
  {
  }

  lemma {:induction false} PopLast(k: nat, d: nat)
    requires k < d
    ensures PopAll(k + 1, d) == Then(PopAll(k, d), One(Pop, d - k))
    decreases k
  {
    if k > 0 {
      PopLast(k - 1, d - 1);
      var a, b, c := One(Pop, d), PopAll(k - 1, d - 1), One(Pop, d - k);
      assert Then(a, Then(b, c)) == Then(Then(a, b), c);
    }
  }

  /** Entries added to the innermost switch context, one label number each. */
  ghost predicate Recorded(w: seq<SwitchCtx>, w': seq<SwitchCtx>, n: nat, n': nat, c: SwitchCtx) {
    w != [] && w' == w[|w| - 1 := w[|w| - 1] + c] && n' == n + |c|
  }

  lemma RecordedNone(w: seq<SwitchCtx>, n: nat)
    requires w != []
    ensures Recorded(w, w, n, n, [])
  {
    assert w[|w| - 1] + [] == w[|w| - 1];
  }

  lemma RecordedSize(w: seq<SwitchCtx>, w': seq<SwitchCtx>, n: nat, n': nat, c: SwitchCtx)
    requires Recorded(w, w', n, n', c)
    ensures |w'| == |w| && w' != [] && n' == n + |c|
  {
  }

  lemma RecordedThen(w: seq<SwitchCtx>, w1: seq<SwitchCtx>, w2: seq<SwitchCtx>, n: nat, n1: nat, n2: nat, a: SwitchCtx, b: SwitchCtx)
    requires Recorded(w, w1, n, n1, a) && Recorded(w1, w2, n1, n2, b)
    ensures Recorded(w, w2, n, n2, a + b)
  {
    assert w[|w| - 1] + (a + b) == (w[|w| - 1] + a) + b;
  }

  class CodeGen {
    var output: seq<Item>
    var pushDepth: nat
    var labelCount: nat
    var breakStack: seq<BreakFrame>
    var switchStack: seq<SwitchCtx>

    constructor ()
      ensures output == [] && pushDepth == 0 && labelCount == 0 && breakStack == [] && switchStack == []
    {
      output, pushDepth, labelCount, breakStack, switchStack := [], 0, 0, [], [];
    }

    function Innermost(): Env
      reads this
    {
      Env(breakStack, if switchStack == [] then [] else switchStack[|switchStack| - 1])
    }

    /** Writes one instruction; pad counts words that push_depth does not. */
    method Emit(ins: Ins, pad: nat)
      modifies this`output
      ensures Grew(old(output), output, labelCount, labelCount, One(ins, pushDepth + pad))
    {
      output := output + [Item(ins, pushDepth + pad)];
    }

    method EmitTwo(i: Ins, j: Ins)
      modifies this`output
      ensures Grew(old(output), output, labelCount, labelCount, Then(One(i, pushDepth), One(j, pushDepth)))
    {
      Emit(i, 0);
      ghost var o := output;
      Emit(j, 0);
      GrewThen(old(output), o, output, labelCount, labelCount, labelCount, One(i, pushDepth), One(j, pushDepth));
    }

    method PushRax()
      modifies this`output, this`pushDepth
      ensures Grew(old(output), output, labelCount, labelCount, One(Push, old(pushDepth))) && pushDepth == old(pushDepth) + 1
    {
      Emit(Push, 0);
      pushDepth := pushDepth + 1;
    }

    method SubRsp(k: nat)
      modifies this`output, this`pushDepth
      ensures Grew(old(output), output, labelCount, labelCount, SubIf(k, old(pushDepth))) && pushDepth == old(pushDepth) + k
    {
      GrewNothing(output, labelCount);
      if k > 0 {
        Emit(Sub(k), 0);
        pushDepth := pushDepth + k;
      }
    }

    method AddRsp(k: nat)
      requires k <= pushDepth
      modifies this`output, this`pushDepth
      ensures Grew(old(output), output, labelCount, labelCount, AddIf(k, old(pushDepth))) && pushDepth == old(pushDepth) - k
    {
      GrewNothing(output, labelCount);
      if k > 0 {
        Emit(Add(k), 0);
        pushDepth := pushDepth - k;
      }
    }

    method PopMany(k: nat)
      requires k <= pushDepth
      modifies this`output, this`pushDepth
      ensures Grew(old(output), output, labelCount, labelCount, PopAll(k, old(pushDepth))) && pushDepth == old(pushDepth) - k
    {
      GrewNothing(output, labelCount);
      var i := 0;
      ghost var o, d, n := output, pushDepth, labelCount;
      while i < k
        invariant 0 <= i <= k && pushDepth == d - i
        invariant Grew(o, output, n, n, PopAll(i, d))
      {
        ghost var before := output;
        Emit(Pop, 0);
        GrewThen(o, before, output, n, n, n, PopAll(i, d), One(Pop, d - i));
        PopLast(i, d);
        pushDepth := pushDepth - 1;
        i := i + 1;
      }
    }

    method PadAndCall()
      modifies this`output
      ensures Grew(old(output), output, labelCount, labelCount, PaddedCall(pushDepth))
    {
      if pushDepth % 2 != 0 {
        Emit(Sub(1), 0);
        ghost var o1 := output;
        Emit(Call, 1);
        ghost var o2 := output;
        Emit(Add(1), 1);
        ghost var d, n := pushDepth, labelCount;
        GrewThen(old(output), o1, o2, n, n, n, One(Sub(1), d), One(Call, d + 1));
        GrewThen(old(output), o2, output, n, n, n, Then(One(Sub(1), d), One(Call, d + 1)), One(Add(1), d + 1));
      } else {
        Emit(Call, 0);
      }
    }

    /** Evaluates and pushes arguments from i on, left to right. */
    method PushArgs(es: seq<Expr>)
      modifies this`output, this`pushDepth, this`labelCount
      ensures Grew(old(output), output, old(labelCount), labelCount, PushAll(es, old(pushDepth), old(labelCount)))
      ensures pushDepth == old(pushDepth) + |es|
      decreases es, 0
    {
      ghost var o, d, n := output, pushDepth, labelCount;
      GrewNothing(o, n);
      if es != [] {
        Expression(es[0]);
        ghost var o1, n1 := output, labelCount;
        PushRax();
        ghost var o2 := output;
        PushArgs(es[1..]);
        ghost var a := Emission.Expression(es[0], d, n);
        GrewThen(o, o1, o2, n, n1, n1, a, One(Push, d));
        GrewThen(o, o2, output, n, n1, labelCount, Then(a, One(Push, d)), PushAll(es[1..], d + 1, n1));
      }
    }

    method PushArgsBack(es: seq<Expr>)
      modifies this`output, this`pushDepth, this`labelCount
      ensures Grew(old(output), output, old(labelCount), labelCount, PushBack(es, old(pushDepth), old(labelCount)))
      ensures pushDepth == old(pushDepth) + |es|
      decreases es, 0
    {
      ghost var o, d, n := output, pushDepth, labelCount;
      GrewNothing(o, n);
      if es != [] {
        var last := |es| - 1;
        Expression(es[last]);
        ghost var o1, n1 := output, labelCount;
        PushRax();
        ghost var o2 := output;
        PushArgsBack(es[..last]);
        ghost var a := Emission.Expression(es[last], d, n);
        GrewThen(o, o1, o2, n, n1, n1, a, One(Push, d));
        GrewThen(o, o2, output, n, n1, labelCount, Then(a, One(Push, d)), PushBack(es[..last], d + 1, n1));
      }
    }

    method StoreStackArgs(slots: seq<Arg>)
      modifies this`output, this`pushDepth, this`labelCount
      ensures Grew(old(output), output, old(labelCount), labelCount, StoreArgs(slots, old(pushDepth), old(labelCount)))
      ensures pushDepth == old(pushDepth)
      decreases slots, 0
    {
      ghost var o, d, n := output, pushDepth, labelCount;
      GrewNothing(o, n);
      if slots != [] {
        StoreStackArg(slots[0]);
        ghost var o1, n1 := output, labelCount;
        StoreStackArgs(slots[1..]);
        GrewThen(o, o1, output, n, n1, labelCount, StoreArg(slots[0], d, n), StoreArgs(slots[1..], d, n1));
      }
    }

    method StoreStackArg(a: Arg)
      modifies this`output, this`pushDepth, this`labelCount
      ensures Grew(old(output), output, old(labelCount), labelCount, StoreArg(a, old(pushDepth), old(labelCount)))
      ensures pushDepth == old(pushDepth)
      decreases a, 3
    {
      ghost var o, d, n := output, pushDepth, labelCount;
      match a case Arg(e, c) =>
      if c == OnStack {
        Expression(e);
        ghost var o1 := output;
        Emit(Plain, 0);
        GrewThen(o, o1, output, n, labelCount, labelCount, Emission.Expression(e, d, n), One(Plain, d));
      } else {
        GrewNothing(o, n);
      }
    }

    method SpillRegisterArgs(slots: seq<Arg>)
      modifies this`output, this`pushDepth, this`labelCount
      ensures Grew(old(output), output, old(labelCount), labelCount, SpillArgs(slots, old(pushDepth), old(labelCount)))
      ensures pushDepth == old(pushDepth) + Spills(slots)
      decreases slots, 0
    {
      ghost var o, d, n := output, pushDepth, labelCount;
      GrewNothing(o, n);
      if slots != [] {
        SpillRegisterArg(slots[0]);
        ghost var o1, n1 := output, labelCount;
        SpillRegisterArgs(slots[1..]);
        GrewThen(o, o1, output, n, n1, labelCount, SpillArg(slots[0], d, n), SpillArgs(slots[1..], d + SpillCount(slots[0].c), n1));
      }
    }

    method SpillRegisterArg(a: Arg)
      modifies this`output, this`pushDepth, this`labelCount
      ensures Grew(old(output), output, old(labelCount), labelCount, SpillArg(a, old(pushDepth), old(labelCount)))
      ensures pushDepth == old(pushDepth) + SpillCount(a.c)
      decreases a, 3
    {
      ghost var o, d, n := output, pushDepth, labelCount;
      match a case Arg(e, c) =>
      if c == OnStack {
        GrewNothing(o, n);
      } else {
        Expression(e);
        ghost var o1 := output;
        SpillValue(c);
        GrewThen(o, o1, output, n, labelCount, labelCount, Emission.Expression(e, d, n), Spill(c, d));
      }
    }

    method SpillValue(c: Class)
      modifies this`output, this`pushDepth
      ensures Grew(old(output), output, labelCount, labelCount, Spill(c, old(pushDepth))) && pushDepth == old(pushDepth) + SpillCount(c)
    {
      ghost var o, d, n := output, pushDepth, labelCount;
      GrewNothing(o, n);
      match c
      case OnStack =>
      case OneGp => PushRax();
      case TwoGp =>
        PushRax();
        ghost var o1 := output;
        PushRax();
        GrewThen(o, o1, output, n, n, n, One(Push, d), One(Push, d + 1));
      case Xmm =>
        SubRsp(1);
        ghost var o1 := output;
        Emit(Plain, 0);
        GrewThen(o, o1, output, n, n, n, One(Sub(1), d), One(Plain, d + 1));
    }

    method PushManyArgs(es: seq<Expr>)
      requires |es| > 6
      modifies this`output, this`pushDepth, this`labelCount
      ensures Grew(old(output), output, old(labelCount), labelCount, PushMany(es, old(pushDepth), old(labelCount)))
      ensures var k := |es| - 6; pushDepth == old(pushDepth) + k + (old(pushDepth) + k) % 2
      decreases es, 1
    {
      hide PushBack, PushAll, PopAll;
      ghost var o, d, n := output, pushDepth, labelCount;
      var k := |es| - 6;
      var pad := (pushDepth + k) % 2;
      SubRsp(pad);
      ghost var o1 := output;
      PushArgsBack(es[6..]);
      ghost var o2, n2 := output, labelCount;
      ghost var a := Then(SubIf(pad, d), PushBack(es[6..], d + pad, n));
      GrewThen(o, o1, o2, n, n, n2, SubIf(pad, d), PushBack(es[6..], d + pad, n));
      PushArgs(es[..6]);
      ghost var o3, n3 := output, labelCount;
      ghost var b := PushAll(es[..6], d + pad + k, n2);
      GrewThen(o, o2, o3, n, n2, n3, a, b);
      PopMany(6);
      ghost var o4 := output;
      Emit(Call, 0);
      GrewThen(o3, o4, output, n3, n3, n3, PopAll(6, d + pad + k + 6), One(Call, d + pad + k));
      GrewThen(o, o3, output, n, n3, n3, Then(a, b), Then(PopAll(6, d + pad + k + 6), One(Call, d + pad + k)));
    }

    method CallLaidOutArgs(slots: seq<Arg>, sret: bool, stackBytes: nat)
      modifies this`output, this`pushDepth, this`labelCount
      ensures Grew(old(output), output, old(labelCount), labelCount, LaidOut(slots, sret, stackBytes, old(pushDepth), old(labelCount)))
      ensures pushDepth == old(pushDepth) + Region(old(pushDepth), stackBytes)
      decreases slots, 1
    {
      hide StoreArgs, SpillArgs, Region, SubIf, AddIf, Grew, Then;
      ghost var o, d, n := output, pushDepth, labelCount;
      var region := Region(pushDepth, stackBytes);
      SubRsp(region);
      ghost var o1 := output;
      StoreStackArgs(slots);
      ghost var o2, n2, d1 := output, labelCount, pushDepth;
      ghost var a := Then(SubIf(region, d), StoreArgs(slots, d1, n));
      GrewThen(o, o1, o2, n, n, n2, SubIf(region, d), StoreArgs(slots, d1, n));
      SpillHidden(sret);
      ghost var o3 := output;
      SpillRegisterArgs(slots);
      ghost var o4, n4 := output, labelCount;
      ghost var s := if sret then Then(One(Plain, d1), One(Push, d1)) else NOTHING;
      ghost var b := SpillArgs(slots, d1 + if sret then 1 else 0, n2);
      GrewThen(o2, o3, o4, n2, n2, n4, s, b);
      GrewThen(o, o2, o4, n, n2, n4, a, Then(s, b));
      var k := (if sret then 1 else 0) + Spills(slots);
      Emit(Plain, 0);
      ghost var o5 := output;
      AddRsp(k);
      ghost var o6 := output;
      Emit(Call, 0);
      GrewThen(o4, o5, o6, n4, n4, n4, One(Plain, d1 + k), AddIf(k, d1 + k));
      GrewThen(o4, o6, output, n4, n4, n4, Then(One(Plain, d1 + k), AddIf(k, d1 + k)), One(Call, d1));
      GrewThen(o, o4, output, n, n4, n4, Then(a, Then(s, b)), Then(Then(One(Plain, d1 + k), AddIf(k, d1 + k)), One(Call, d1)));
    }

    method SpillHidden(sret: bool)
      modifies this`output, this`pushDepth
      ensures Grew(old(output), output, labelCount, labelCount, if sret then Then(One(Plain, old(pushDepth)), One(Push, old(pushDepth))) else NOTHING)
      ensures pushDepth == old(pushDepth) + if sret then 1 else 0
    {
      ghost var o, d, n := output, pushDepth, labelCount;
      if sret {
        Emit(Plain, 0);
        ghost var o1 := output;
        PushRax();
        GrewThen(o, o1, output, n, n, n, One(Plain, d), One(Push, d));
      } else {
        GrewNothing(o, n);
      }
    }

    /** Emits exactly the specified code and leaves push_depth as it found it. */
    method Expression(e: Expr)
      modifies this`output, this`pushDepth, this`labelCount
      ensures Grew(old(output), output, old(labelCount), labelCount, Emission.Expression(e, old(pushDepth), old(labelCount)))
      ensures pushDepth == old(pushDepth)
      decreases e, 2
    {
      hide Grew;
      ghost var o, d, n := output, pushDepth, labelCount;
      match e
      case Leaf(id) => Emit(Work(id), 0);
      case Unary(a) =>
        Expression(a);
        ghost var o1 := output;
        Emit(Plain, 0);
        GrewThen(o, o1, output, n, labelCount, labelCount, Emission.Expression(a, d, n), One(Plain, d));
      case Binary(_, _) => BinaryExpression(e);
      case And(_, _) => ShortCircuit(e);
      case Or(_, _) => ShortCircuit(e);
      case Cond(_, _, _) => Conditional(e);
      case CallPlain(_) => PlainCall(e);
      case CallLaidOut(_, _, _) => LaidOutCall(e);
      case Indirect(_, _) => IndirectCall(e);
      case IndirectLaidOut(_, _, _) => IndirectCall(e);
    }

    method LaidOutCall(e: Expr)
      requires e.CallLaidOut?
      modifies this`output, this`pushDepth, this`labelCount
      ensures Grew(old(output), output, old(labelCount), labelCount, Emission.Expression(e, old(pushDepth), old(labelCount)))
      ensures pushDepth == old(pushDepth)
      decreases e, 1
    {
      hide Grew, Region, LaidOut;
      ghost var o, d, n := output, pushDepth, labelCount;
      var region := Region(pushDepth, e.stackBytes);
      CallLaidOutArgs(e.slots, e.sret, e.stackBytes);
      ghost var o1, n1 := output, labelCount;
      AddRsp(region);
      ghost var o2 := output;
      Emit(Plain, 0);
      GrewThen(o1, o2, output, n1, n1, n1, AddIf(region, d + region), One(Plain, d));
      GrewThen(o, o1, output, n, n1, n1, LaidOut(e.slots, e.sret, e.stackBytes, d, n), Then(AddIf(region, d + region), One(Plain, d)));
    }

    method BinaryExpression(e: Expr)
      requires e.Binary?
      modifies this`output, this`pushDepth, this`labelCount
      ensures Grew(old(output), output, old(labelCount), labelCount, Emission.Expression(e, old(pushDepth), old(labelCount)))
      ensures pushDepth == old(pushDepth)
      decreases e, 1
    {
      hide Grew;
      ghost var o, d, n := output, pushDepth, labelCount;
      Expression(e.l);
      ghost var o1, n1 := output, labelCount;
      PushRax();
      ghost var o2 := output;
      ghost var l, r := Emission.Expression(e.l, d, n), Emission.Expression(e.r, d + 1, n1);
      GrewThen(o, o1, o2, n, n1, n1, l, One(Push, d));
      Expression(e.r);
      ghost var o3, n3 := output, labelCount;
      Count(o, o2, n, n1, Then(l, One(Push, d)));
      GrewThen(o, o2, o3, n, n1, n3, Then(l, One(Push, d)), r);
      Emit(Pop, 0);
      ghost var o4 := output;
      pushDepth := pushDepth - 1;
      Emit(Plain, 0);
      GrewThen(o3, o4, output, n3, n3, n3, One(Pop, d + 1), One(Plain, d));
      GrewThen(o, o3, output, n, n3, n3, Then(Then(l, One(Push, d)), r), Then(One(Pop, d + 1), One(Plain, d)));
    }

    method ShortCircuit(e: Expr)
      requires e.And? || e.Or?
      modifies this`output, this`pushDepth, this`labelCount
      ensures Grew(old(output), output, old(labelCount), labelCount, Emission.Expression(e, old(pushDepth), old(labelCount)))
      ensures pushDepth == old(pushDepth)
      decreases e, 1
    {
      hide Grew, ShortEnd, Then, Emission.Expression;
      ghost var o, d, n := output, pushDepth, labelCount;
      var id := labelCount;
      var skip, end := if e.And? then AndFalse else OrTrue, if e.And? then AndEnd else OrEnd;
      ShortIs(e, d, n, skip, end);
      labelCount := labelCount + 1;
      GrewTake(o, n, d);
      Expression(e.l);
      ghost var o1, n1 := output, labelCount;
      ghost var l := Emission.Expression(e.l, d, n + 1);
      GrewThen(o, o, o1, n, n + 1, n1, Take(d), l);
      EmitTwo(Test, Jcc(Jump(skip, id), skip == AndFalse));
      ghost var o2 := output;
      ghost var t := Then(One(Test, d), One(Jcc(Jump(skip, n), skip == AndFalse), d));
      GrewThen(o, o1, o2, n, n1, n1, Then(Take(d), l), t);
      ghost var a := Then(Then(Take(d), l), t);
      Count(o, o2, n, n1, a);
      Expression(e.r);
      ghost var o3, n3 := output, labelCount;
      ghost var r := Emission.Expression(e.r, d, n1);
      GrewThen(o, o2, o3, n, n1, n3, a, r);
      EndShort(skip, end, id);
      GrewThen(o, o3, output, n, n3, n3, Then(a, r), ShortEnd(skip, end, d, n));
    }

    method EndShort(skip: LabelKind, end: LabelKind, id: nat)
      modifies this`output
      ensures Grew(old(output), output, labelCount, labelCount, ShortEnd(skip, end, pushDepth, id))
    {
      hide Grew;
      ghost var o, d, n := output, pushDepth, labelCount;
      EmitTwo(Plain, Jmp(Jump(end, id)));
      ghost var o1 := output;
      Emit(Def(Jump(skip, id)), 0);
      ghost var o2 := output;
      EmitTwo(Plain, Def(Jump(end, id)));
      ghost var a, b := Then(One(Plain, d), One(Jmp(Jump(end, id)), d)), Then(One(Plain, d), One(Def(Jump(end, id)), d));
      GrewThen(o1, o2, output, n, n, n, One(Def(Jump(skip, id)), d), b);
      GrewThen(o, o1, output, n, n, n, a, Then(One(Def(Jump(skip, id)), d), b));
    }

    method Conditional(e: Expr)
      requires e.Cond?
      modifies this`output, this`pushDepth, this`labelCount
      ensures Grew(old(output), output, old(labelCount), labelCount, Emission.Expression(e, old(pushDepth), old(labelCount)))
      ensures pushDepth == old(pushDepth)
      decreases e, 1
    {
      hide Grew, Then, Emission.Expression;
      ghost var o, d, n := output, pushDepth, labelCount;
      CondIs(e, d, n);
      var id := labelCount;
      labelCount := labelCount + 1;
      GrewTake(o, n, d);
      Expression(e.c);
      ghost var o1, n1 := output, labelCount;
      ghost var c := Emission.Expression(e.c, d, n + 1);
      GrewThen(o, o, o1, n, n + 1, n1, Take(d), c);
      EmitTwo(Test, Jcc(Jump(CondFalse, id), true));
      ghost var o2 := output;
      ghost var t := Then(One(Test, d), One(Jcc(Jump(CondFalse, n), true), d));
      ghost var a := Then(Then(Take(d), c), t);
      GrewThen(o, o1, o2, n, n1, n1, Then(Take(d), c), t);
      Count(o, o2, n, n1, a);
      Expression(e.y);
      ghost var o3, n3 := output, labelCount;
      EmitTwo(Jmp(Jump(CondEnd, id)), Def(Jump(CondFalse, id)));
      ghost var o4 := output;
      ghost var y, j := Emission.Expression(e.y, d, n1), Then(One(Jmp(Jump(CondEnd, n)), d), One(Def(Jump(CondFalse, n)), d));
      GrewThen(o2, o3, o4, n1, n3, n3, y, j);
      ghost var b := Then(y, j);
      Count(o2, o4, n1, n3, b);
      GrewThen(o, o2, o4, n, n1, n3, a, b);
      Expression(e.n);
      ghost var o5, n5 := output, labelCount;
      Emit(Def(Jump(CondEnd, id)), 0);
      ghost var f := Emission.Expression(e.n, d, n3);
      GrewThen(o4, o5, output, n3, n5, n5, f, One(Def(Jump(CondEnd, n)), d));
      GrewThen(o, o4, output, n, n3, n5, Then(a, b), Then(f, One(Def(Jump(CondEnd, n)), d)));
    }

    method PlainCall(e: Expr)
      requires e.CallPlain?
      modifies this`output, this`pushDepth, this`labelCount
      ensures Grew(old(output), output, old(labelCount), labelCount, Emission.Expression(e, old(pushDepth), old(labelCount)))
      ensures pushDepth == old(pushDepth)
      decreases e, 1
    {
      hide Grew, PushAll, PopAll, PushMany, PaddedCall;
      ghost var o, d, n := output, pushDepth, labelCount;
      if |e.args| <= 6 {
        PushArgs(e.args);
        ghost var o1, n1 := output, labelCount;
        PopMany(|e.args|);
        ghost var o2 := output;
        GrewThen(o, o1, o2, n, n1, n1, PushAll(e.args, d, n), PopAll(|e.args|, d + |e.args|));
        PadAndCall();
        GrewThen(o, o2, output, n, n1, n1, Then(PushAll(e.args, d, n), PopAll(|e.args|, d + |e.args|)), PaddedCall(d));
      } else {
        var k := |e.args| - 6;
        var pad := (pushDepth + k) % 2;
        PushManyArgs(e.args);
        ghost var o1, n1 := output, labelCount;
        AddRsp(k + pad);
        GrewThen(o, o1, output, n, n1, n1, PushMany(e.args, d, n), One(Add(k + pad), d + k + pad));
      }
    }

    method IndirectCall(e: Expr)
      requires e.Indirect? || e.IndirectLaidOut?
      modifies this`output, this`pushDepth, this`labelCount
      ensures Grew(old(output), output, old(labelCount), labelCount, Emission.Expression(e, old(pushDepth), old(labelCount)))
      ensures pushDepth == old(pushDepth)
      decreases e, 1
    {
      hide Grew, PushAll, PopAll, PushMany, PaddedCall, LaidOut, Region, Then, Emission.Expression;
      ghost var o, d, n := output, pushDepth, labelCount;
      IndirectIs(e, d, n);
      Expression(e.f);
      ghost var o1, n1 := output, labelCount;
      PushRax();
      ghost var o2 := output;
      ghost var f := Emission.Expression(e.f, d, n);
      GrewThen(o, o1, o2, n, n1, n1, f, One(Push, d));
      ghost var a := Then(f, One(Push, d));
      Count(o, o2, n, n1, a);
      if e.IndirectLaidOut? {
        var region := Region(pushDepth, e.stackBytes);
        CallLaidOutArgs(e.slots, false, e.stackBytes);
        ghost var o3, n3 := output, labelCount;
        AddRsp(region + 1);
        GrewThen(o2, o3, output, n1, n3, n3, LaidOut(e.slots, false, e.stackBytes, d + 1, n1), One(Add(region + 1), d + 1 + region));
        GrewThen(o, o2, output, n, n1, n3, a, Then(LaidOut(e.slots, false, e.stackBytes, d + 1, n1), One(Add(region + 1), d + 1 + region)));
      } else if |e.args| <= 6 {
        FewIndirect(e.args);
        GrewThen(o, o2, output, n, n1, labelCount, a, Then(Then(PushAll(e.args, d + 1, n1), PopAll(|e.args|, d + 1 + |e.args|)), Then(One(Pop, d + 1), PaddedCall(d))));
      } else {
        var k := |e.args| - 6;
        var pad := (pushDepth + k) % 2;
        PushManyArgs(e.args);
        ghost var o3, n3 := output, labelCount;
        AddRsp(k + pad + 1);
        GrewThen(o2, o3, output, n1, n3, n3, PushMany(e.args, d + 1, n1), One(Add(k + pad + 1), d + 1 + k + pad));
        GrewThen(o, o2, output, n, n1, n3, a, Then(PushMany(e.args, d + 1, n1), One(Add(k + pad + 1), d + 1 + k + pad)));
      }
    }

    method FewIndirect(args: seq<Expr>)
      requires |args| <= 6 && pushDepth > 0
      modifies this`output, this`pushDepth, this`labelCount
      ensures var d, n := old(pushDepth), old(labelCount);
        Grew(old(output), output, n, labelCount, Then(Then(PushAll(args, d, n), PopAll(|args|, d + |args|)), Then(One(Pop, d), PaddedCall(d - 1))))
      ensures pushDepth == old(pushDepth) - 1
      decreases args, 1
    {
      hide Grew, PushAll, PopAll, PaddedCall;
      ghost var o, d, n := output, pushDepth, labelCount;
      PushArgs(args);
      ghost var o1, n1 := output, labelCount;
      PopMany(|args|);
      ghost var o2 := output;
      ghost var b := Then(PushAll(args, d, n), PopAll(|args|, d + |args|));
      GrewThen(o, o1, o2, n, n1, n1, PushAll(args, d, n), PopAll(|args|, d + |args|));
      Emit(Pop, 0);
      ghost var o3 := output;
      pushDepth := pushDepth - 1;
      PadAndCall();
      GrewThen(o2, o3, output, n1, n1, n1, One(Pop, d), PaddedCall(d - 1));
      GrewThen(o, o2, output, n, n1, n1, b, Then(One(Pop, d), PaddedCall(d - 1)));
    }

    // -------------------------------------------------------------- statements

    /** Records every section below s in the innermost switch context. */
    method CollectSwitchLabels(s: Stmt)
      requires switchStack != []
      modifies this`labelCount, this`switchStack
      ensures Recorded(old(switchStack), switchStack, old(labelCount), labelCount, Collect(s, old(labelCount)))
      decreases s, 1
    {
      hide Recorded;
      ghost var w, n := switchStack, labelCount;
      RecordedNone(w, n);
      match s
      case Section(x, v, b) =>
        AddEntry(x, v);
        ghost var w1 := switchStack;
        RecordedSize(w, w1, n, labelCount, [SwitchLabel(x, v, n)]);
        CollectSwitchLabels(b);
        RecordedThen(w, w1, switchStack, n, n + 1, labelCount, [SwitchLabel(x, v, n)], Collect(b, n + 1));
      case If(_, y, m) =>
        CollectSwitchLabels(y);
        ghost var w1, n1 := switchStack, labelCount;
        RecordedSize(w, w1, n, n1, Collect(y, n));
        if m.Some? {
          CollectSwitchLabels(m.value);
          RecordedThen(w, w1, switchStack, n, n1, labelCount, Collect(y, n), Collect(m.value, n1));
        }
      case While(_, b) => CollectSwitchLabels(b);
      case DoWhile(b, _) => CollectSwitchLabels(b);
      case For(i, _, _, b) =>
        if i.Some? { CollectSwitchLabels(i.value); }
        ghost var w1, n1 := switchStack, labelCount;
        ghost var c := if i.Some? then Collect(i.value, n) else [];
        RecordedSize(w, w1, n, n1, c);
        CollectSwitchLabels(b);
        RecordedThen(w, w1, switchStack, n, n1, labelCount, c, Collect(b, n1));
      case Labelled(_, b) => CollectSwitchLabels(b);
      case Block(ss) => CollectAllLabels(ss);
      case _ =>
    }

    method AddEntry(x: nat, v: Option<int>)
      requires switchStack != []
      modifies this`labelCount, this`switchStack
      ensures Recorded(old(switchStack), switchStack, old(labelCount), labelCount, [SwitchLabel(x, v, old(labelCount))])
    {
      var top := |switchStack| - 1;
      switchStack := switchStack[top := switchStack[top] + [SwitchLabel(x, v, labelCount)]];
      labelCount := labelCount + 1;
    }

    method CollectAllLabels(ss: seq<Stmt>)
      requires switchStack != []
      modifies this`labelCount, this`switchStack
      ensures Recorded(old(switchStack), switchStack, old(labelCount), labelCount, CollectAll(ss, old(labelCount)))
      decreases ss, 0
    {
      hide Recorded, Collect;
      ghost var w, n := switchStack, labelCount;
      RecordedNone(w, n);
      if ss != [] {
        CollectSwitchLabels(ss[0]);
        ghost var w1, n1 := switchStack, labelCount;
        RecordedSize(w, w1, n, n1, Collect(ss[0], n));
        CollectAllLabels(ss[1..]);
        RecordedThen(w, w1, switchStack, n, n1, labelCount, Collect(ss[0], n), CollectAll(ss[1..], n1));
      }
    }

    method EmitMaybe(e: Option<Expr>)
      modifies this`output, this`pushDepth, this`labelCount
      ensures Grew(old(output), output, old(labelCount), labelCount, Maybe(e, old(pushDepth), old(labelCount)))
      ensures pushDepth == old(pushDepth)
    {
      GrewNothing(output, labelCount);
      if e.Some? { Expression(e.value); }
    }

    /** An expression, its test and a conditional jump. */
    method EmitTest(e: Expr, l: Label, zero: bool)
      modifies this`output, this`pushDepth, this`labelCount
      ensures Grew(old(output), output, old(labelCount), labelCount,
                   Then(Emission.Expression(e, old(pushDepth), old(labelCount)), Then(One(Test, old(pushDepth)), One(Jcc(l, zero), old(pushDepth)))))
      ensures pushDepth == old(pushDepth)
    {
      hide Grew, Then, Emission.Expression;
      ghost var o, d, n := output, pushDepth, labelCount;
      Expression(e);
      ghost var o1 := output;
      EmitTwo(Test, Jcc(l, zero));
      GrewThen(o, o1, output, n, labelCount, labelCount, Emission.Expression(e, d, n), Then(One(Test, d), One(Jcc(l, zero), d)));
    }

    method EndLoop(start: LabelKind, end: LabelKind, id: nat)
      modifies this`output
      ensures Grew(old(output), output, labelCount, labelCount, LoopEnd(start, end, pushDepth, id))
    {
      hide Grew, Then;
      ghost var o, d, n := output, pushDepth, labelCount;
      Emit(Jmp(Jump(start, id)), 0);
      ghost var o1 := output;
      EmitTwo(Def(Jump(end, id)), Def(Jump(BreakTo, id)));
      GrewThen(o, o1, output, n, n, n, One(Jmp(Jump(start, id)), d), Then(One(Def(Jump(end, id)), d), One(Def(Jump(BreakTo, id)), d)));
    }

    method Statement(s: Stmt)
      modifies this
      ensures Grew(old(output), output, old(labelCount), labelCount, Emission.Statement(s, old(pushDepth), old(labelCount), old(Innermost())))
      ensures pushDepth == old(pushDepth) && breakStack == old(breakStack) && switchStack == old(switchStack)
      decreases s, 2
    {
      hide Grew, Emission.Expression;
      ghost var o, d, n, env := output, pushDepth, labelCount, Innermost();
      match s
      case Eval(e) => Expression(e);
      case Return(e) =>
        EmitMaybe(e);
        ghost var o1 := output;
        Emit(Ret, 0);
        GrewThen(o, o1, output, n, labelCount, labelCount, Maybe(e, d, n), One(Ret, d));
      case If(_, _, _) => IfStatement(s);
      case While(_, _) => WhileStatement(s);
      case DoWhile(_, _) => DoStatement(s);
      case For(_, _, _, _) => ForStatement(s);
      case Switch(_, _, _) => SwitchStatement(s);
      case Section(node, _, b) =>
        GrewNothing(o, n);
        var l := SwitchLookupLabel(Innermost().ctx, node);
        if l.Some? { Emit(Def(Jump(SwitchSec, l.value)), 0); }
        ghost var o1 := output;
        Statement(b);
        GrewThen(o, o1, output, n, n, labelCount, if l.Some? then One(Def(Jump(SwitchSec, l.value)), d) else NOTHING, Emission.Statement(b, d, n, env));
      case Labelled(x, b) =>
        Emit(Def(User(x)), 0);
        ghost var o1 := output;
        Statement(b);
        GrewThen(o, o1, output, n, n, labelCount, One(Def(User(x)), d), Emission.Statement(b, d, n, env));
      case Goto(x) => Emit(Jmp(User(x)), 0);
      case Break =>
        GrewNothing(o, n);
        if breakStack != [] { Emit(Jmp(Jump(BreakTo, breakStack[|breakStack| - 1].breakLabel)), 0); }
      case Continue =>
        GrewNothing(o, n);
        var l := FindLoop();
        if l.Some? { Emit(Jmp(Jump(ContinueTo, l.value)), 0); }
      case Block(ss) => AllStatements(ss);
    }

    /** Walks down the break stack to the nearest loop. */
    method FindLoop() returns (r: Option<nat>)
      ensures r == NearestLoop(breakStack)
    {
      var i := |breakStack|;
      assert breakStack[..i] == breakStack;
      while i > 0
        invariant 0 <= i <= |breakStack| && NearestLoop(breakStack[..i]) == NearestLoop(breakStack)
      {
        i := i - 1;
        assert breakStack[..i + 1][..i] == breakStack[..i];
        if breakStack[i].continueLabel.Some? { return breakStack[i].continueLabel; }
      }
      return None;
    }

    method AllStatements(ss: seq<Stmt>)
      modifies this
      ensures Grew(old(output), output, old(labelCount), labelCount, Emission.Statements(ss, old(pushDepth), old(labelCount), old(Innermost())))
      ensures pushDepth == old(pushDepth) && breakStack == old(breakStack) && switchStack == old(switchStack)
      decreases ss, 0
    {
      hide Emission.Statement;
      ghost var o, d, n, env := output, pushDepth, labelCount, Innermost();
      GrewNothing(o, n);
      if ss != [] {
        Statement(ss[0]);
        ghost var o1, n1 := output, labelCount;
        AllStatements(ss[1..]);
        GrewThen(o, o1, output, n, n1, labelCount, Emission.Statement(ss[0], d, n, env), Emission.Statements(ss[1..], d, n1, env));
      }
    }

    method IfStatement(s: Stmt)
      requires s.If?
      modifies this
      ensures Grew(old(output), output, old(labelCount), labelCount, Emission.Statement(s, old(pushDepth), old(labelCount), old(Innermost())))
      ensures pushDepth == old(pushDepth) && breakStack == old(breakStack) && switchStack == old(switchStack)
      decreases s, 1
    {
      hide Grew, Then, Emission.Expression, Emission.Statement;
      ghost var o, d, n, env := output, pushDepth, labelCount, Innermost();
      IfIs(s, d, n, env);
      var id := labelCount;
      labelCount := labelCount + 1;
      GrewTake(o, n, d);
      Expression(s.c);
      ghost var o1, n1 := output, labelCount;
      ghost var c := Emission.Expression(s.c, d, n + 1);
      GrewThen(o, o, o1, n, n + 1, n1, Take(d), c);
      Emit(Test, 0);
      ghost var o2 := output;
      ghost var a := Then(Then(Take(d), c), One(Test, d));
      GrewThen(o, o1, o2, n, n1, n1, Then(Take(d), c), One(Test, d));
      Count(o, o2, n, n1, a);
      var l := if s.no.Some? then ElsePart else EndIf;
      Emit(Jcc(Jump(l, id), true), 0);
      ghost var o3 := output;
      Statement(s.yes);
      ghost var o4, n4 := output, labelCount;
      ghost var b := Then(One(Jcc(Jump(l, n), true), d), Emission.Statement(s.yes, d, n1, env));
      GrewThen(o2, o3, o4, n1, n1, n4, One(Jcc(Jump(l, n), true), d), Emission.Statement(s.yes, d, n1, env));
      Count(o2, o4, n1, n4, b);
      GrewThen(o, o2, o4, n, n1, n4, a, b);
      if s.no.Some? {
        EmitTwo(Jmp(Jump(EndIf, id)), Def(Jump(ElsePart, id)));
        ghost var o5 := output;
        Statement(s.no.value);
        ghost var o6, n6 := output, labelCount;
        Emit(Def(Jump(EndIf, id)), 0);
        ghost var f := Emission.Statement(s.no.value, d, n4, env);
        ghost var j := Then(One(Jmp(Jump(EndIf, n)), d), One(Def(Jump(ElsePart, n)), d));
        GrewThen(o5, o6, output, n4, n6, n6, f, One(Def(Jump(EndIf, n)), d));
        GrewThen(o4, o5, output, n4, n4, n6, j, Then(f, One(Def(Jump(EndIf, n)), d)));
        GrewThen(o, o4, output, n, n4, n6, Then(a, b), Then(j, Then(f, One(Def(Jump(EndIf, n)), d))));
      } else {
        Emit(Def(Jump(EndIf, id)), 0);
        GrewThen(o, o4, output, n, n4, n4, Then(a, b), One(Def(Jump(EndIf, n)), d));
      }
    }

    method WhileStatement(s: Stmt)
      requires s.While?
      modifies this
      ensures Grew(old(output), output, old(labelCount), labelCount, Emission.Statement(s, old(pushDepth), old(labelCount), old(Innermost())))
      ensures pushDepth == old(pushDepth) && breakStack == old(breakStack) && switchStack == old(switchStack)
      decreases s, 1
    {
      hide Grew, Then, Emission.Expression, Emission.Statement, LoopEnd;
      ghost var o, d, n, env := output, pushDepth, labelCount, Innermost();
      WhileIs(s, d, n, env);
      var id, saved := labelCount, breakStack;
      labelCount := labelCount + 1;
      breakStack := breakStack + [BreakFrame(id, Some(id))];
      GrewTake(o, n, d);
      EmitTwo(Def(Jump(WhileStart, id)), Def(Jump(ContinueTo, id)));
      ghost var o1 := output;
      ghost var t := Then(One(Def(Jump(WhileStart, n)), d), One(Def(Jump(ContinueTo, n)), d));
      GrewThen(o, o, o1, n, n + 1, n + 1, Take(d), t);
      EmitTest(s.c, Jump(WhileEnd, id), true);
      ghost var o2, n2 := output, labelCount;
      ghost var b := Then(Emission.Expression(s.c, d, n + 1), Then(One(Test, d), One(Jcc(Jump(WhileEnd, n), true), d)));
      Count(o1, o2, n + 1, n2, b);
      GrewThen(o, o1, o2, n, n + 1, n2, Then(Take(d), t), b);
      Statement(s.body);
      ghost var o3, n3 := output, labelCount;
      EndLoop(WhileStart, WhileEnd, id);
      ghost var f := Emission.Statement(s.body, d, n2, InLoop(env, n));
      GrewThen(o2, o3, output, n2, n3, n3, f, LoopEnd(WhileStart, WhileEnd, d, n));
      GrewThen(o, o2, output, n, n2, n3, Then(Then(Take(d), t), b), Then(f, LoopEnd(WhileStart, WhileEnd, d, n)));
      breakStack := saved;
    }

    method DoStatement(s: Stmt)
      requires s.DoWhile?
      modifies this
      ensures Grew(old(output), output, old(labelCount), labelCount, Emission.Statement(s, old(pushDepth), old(labelCount), old(Innermost())))
      ensures pushDepth == old(pushDepth) && breakStack == old(breakStack) && switchStack == old(switchStack)
      decreases s, 1
    {
      hide Grew, Then, Emission.Expression, Emission.Statement;
      ghost var o, d, n, env := output, pushDepth, labelCount, Innermost();
      DoIs(s, d, n, env);
      var id, saved := labelCount, breakStack;
      labelCount := labelCount + 1;
      breakStack := breakStack + [BreakFrame(id, Some(id))];
      GrewTake(o, n, d);
      Emit(Def(Jump(DoStart, id)), 0);
      ghost var o1 := output;
      ghost var a := Then(Take(d), One(Def(Jump(DoStart, n)), d));
      GrewThen(o, o, o1, n, n + 1, n + 1, Take(d), One(Def(Jump(DoStart, n)), d));
      Statement(s.body);
      ghost var o2, n2 := output, labelCount;
      Emit(Def(Jump(ContinueTo, id)), 0);
      ghost var o3 := output;
      ghost var x := Emission.Statement(s.body, d, n + 1, InLoop(env, n));
      ghost var b := Then(x, One(Def(Jump(ContinueTo, n)), d));
      GrewThen(o1, o2, o3, n + 1, n2, n2, x, One(Def(Jump(ContinueTo, n)), d));
      Count(o1, o3, n + 1, n2, b);
      GrewThen(o, o1, o3, n, n + 1, n2, a, b);
      EmitTest(s.c, Jump(DoStart, id), false);
      ghost var o4, n4 := output, labelCount;
      EmitTwo(Def(Jump(DoEnd, id)), Def(Jump(BreakTo, id)));
      ghost var f := Then(Emission.Expression(s.c, d, n2), Then(One(Test, d), One(Jcc(Jump(DoStart, n), false), d)));
      ghost var e := Then(One(Def(Jump(DoEnd, n)), d), One(Def(Jump(BreakTo, n)), d));
      GrewThen(o3, o4, output, n2, n4, n4, f, e);
      GrewThen(o, o3, output, n, n2, n4, Then(a, b), Then(f, e));
      breakStack := saved;
    }

    method ForStatement(s: Stmt)
      requires s.For?
      modifies this
      ensures Grew(old(output), output, old(labelCount), labelCount, Emission.Statement(s, old(pushDepth), old(labelCount), old(Innermost())))
      ensures pushDepth == old(pushDepth) && breakStack == old(breakStack) && switchStack == old(switchStack)
      decreases s, 1
    {
      hide Grew, Then, Emission.Expression, Emission.Statement, LoopEnd, Maybe;
      ghost var o, d, n, env := output, pushDepth, labelCount, Innermost();
      ForIs(s, d, n, env);
      var id, saved := labelCount, breakStack;
      labelCount := labelCount + 1;
      breakStack := breakStack + [BreakFrame(id, Some(id))];
      ghost var env1 := InLoop(env, n);
      GrewTake(o, n, d);
      GrewNothing(o, n + 1);
      if s.init.Some? { Statement(s.init.value); }
      ghost var o1, n1 := output, labelCount;
      ghost var i := if s.init.Some? then Emission.Statement(s.init.value, d, n + 1, env1) else NOTHING;
      GrewThen(o, o, o1, n, n + 1, n1, Take(d), i);
      Emit(Def(Jump(ForStart, id)), 0);
      ghost var o2 := output;
      ghost var a := Then(Then(Take(d), i), One(Def(Jump(ForStart, n)), d));
      GrewThen(o, o1, o2, n, n1, n1, Then(Take(d), i), One(Def(Jump(ForStart, n)), d));
      Count(o, o2, n, n1, a);
      GrewNothing(o2, n1);
      if s.cond.Some? { EmitTest(s.cond.value, Jump(ForEnd, id), true); }
      ghost var o3, n3 := output, labelCount;
      ghost var b := if s.cond.Some? then Then(Emission.Expression(s.cond.value, d, n1), Then(One(Test, d), One(Jcc(Jump(ForEnd, n), true), d))) else NOTHING;
      Count(o2, o3, n1, n3, b);
      GrewThen(o, o2, o3, n, n1, n3, a, b);
      Statement(s.body);
      ghost var o4, n4 := output, labelCount;
      Emit(Def(Jump(ContinueTo, id)), 0);
      ghost var o5 := output;
      ghost var x := Emission.Statement(s.body, d, n3, env1);
      ghost var f := Then(x, One(Def(Jump(ContinueTo, n)), d));
      GrewThen(o3, o4, o5, n3, n4, n4, x, One(Def(Jump(ContinueTo, n)), d));
      Count(o3, o5, n3, n4, f);
      GrewThen(o, o3, o5, n, n3, n4, Then(a, b), f);
      EmitMaybe(s.step);
      ghost var o6, n6 := output, labelCount;
      EndLoop(ForStart, ForEnd, id);
      ghost var g := Maybe(s.step, d, n4);
      GrewThen(o5, o6, output, n4, n6, n6, g, LoopEnd(ForStart, ForEnd, d, n));
      GrewThen(o, o5, output, n, n4, n6, Then(Then(a, b), f), Then(g, LoopEnd(ForStart, ForEnd, d, n)));
      breakStack := saved;
    }

    /** Compare and branch for every recorded section, then the default or the end. */
    method EmitDispatch(ctx: SwitchCtx, wide: bool, id: nat)
      modifies this`output
      ensures Grew(old(output), output, labelCount, labelCount, Dispatch(ctx, wide, pushDepth, id))
    {
      hide Grew, Then;
      ghost var o, d, n := output, pushDepth, labelCount;
      EmitCases(ctx, wide);
      ghost var o1 := output;
      var def := DefaultOf(ctx);
      var l := if def.Some? then Jump(SwitchSec, def.value) else Jump(SwitchEnd, id);
      Emit(Jmp(l), 0);
      GrewThen(o, o1, output, n, n, n, Cases(ctx, wide, d), One(Jmp(l), d));
    }

    method EmitCases(ctx: SwitchCtx, wide: bool)
      modifies this`output
      ensures Grew(old(output), output, labelCount, labelCount, Cases(ctx, wide, pushDepth))
      decreases |ctx|
    {
      hide Grew, Then;
      ghost var o, d, n := output, pushDepth, labelCount;
      GrewNothing(o, n);
      if ctx != [] {
        if ctx[0].value.None? {
          EmitCases(ctx[1..], wide);
        } else {
          EmitTwo(Match(ctx[0].value.value, wide), Jcc(Jump(SwitchSec, ctx[0].num), true));
          ghost var o1 := output;
          EmitCases(ctx[1..], wide);
          GrewThen(o, o1, output, n, n, n, Then(One(Match(ctx[0].value.value, wide), d), One(Jcc(Jump(SwitchSec, ctx[0].num), true), d)), Cases(ctx[1..], wide, d));
        }
      }
    }

    method SwitchStatement(s: Stmt)
      requires s.Switch?
      modifies this
      ensures Grew(old(output), output, old(labelCount), labelCount, Emission.Statement(s, old(pushDepth), old(labelCount), old(Innermost())))
      ensures pushDepth == old(pushDepth) && breakStack == old(breakStack) && switchStack == old(switchStack)
      decreases s, 1
    {
      hide Grew, Then, Emission.Expression, Emission.Statement, Dispatch, Collect;
      ghost var o, d, n, env := output, pushDepth, labelCount, Innermost();
      SwitchIs(s, d, n, env);
      var id, breaks, switches := labelCount, breakStack, switchStack;
      labelCount := labelCount + 1;
      switchStack := switchStack + [[]];
      CollectSwitchLabels(s.body);
      var ctx := switchStack[|switchStack| - 1];
      ghost var sections := Collect(s.body, n + 1);
      assert ctx == [] + sections && [] + sections == sections;
      ghost var n1 := labelCount;
      ghost var a := Then(Take(d + 1), TakeMany(|ctx|, d + 1));
      Taken(o, n, |ctx|, d);
      Expression(s.c);
      ghost var o2, n2 := output, labelCount;
      PushRax();
      ghost var o3 := output;
      ghost var b := Then(Emission.Expression(s.c, d, n1), One(Push, d));
      GrewThen(o, o2, o3, n1, n2, n2, Emission.Expression(s.c, d, n1), One(Push, d));
      Count(o, o3, n1, n2, b);
      GrewThen(o, o, o3, n, n1, n2, a, b);
      EmitDispatch(ctx, s.wide, id);
      ghost var o4 := output;
      GrewThen(o, o3, o4, n, n2, n2, Then(a, b), Dispatch(ctx, s.wide, d + 1, n));
      breakStack := breakStack + [BreakFrame(id, None)];
      assert Innermost() == InSwitch(env, n, ctx);
      Statement(s.body);
      ghost var o5, n5 := output, labelCount;
      switchStack := switches;
      breakStack := breaks;
      EmitTwo(Def(Jump(SwitchEnd, id)), Def(Jump(BreakTo, id)));
      ghost var o6 := output;
      AddRsp(1);
      ghost var f := Emission.Statement(s.body, d + 1, n2, InSwitch(env, n, ctx));
      ghost var e := Then(One(Def(Jump(SwitchEnd, n)), d + 1), One(Def(Jump(BreakTo, n)), d + 1));
      GrewThen(o5, o6, output, n5, n5, n5, e, One(Add(1), d + 1));
      GrewThen(o4, o5, output, n2, n5, n5, f, Then(e, One(Add(1), d + 1)));
      GrewThen(o, o4, output, n, n2, n5, Then(Then(a, b), Dispatch(ctx, s.wide, d + 1, n)), Then(f, Then(e, One(Add(1), d + 1))));
    }
  }

  lemma Taken(o: seq<Item>, n: nat, k: nat, d: nat)
    ensures var a := Then(Take(d + 1), TakeMany(k, d + 1)); Grew(o, o, n, n + 1 + k, a) && |a.depths| == 1 + k
  {
  }

  lemma Count(o: seq<Item>, o': seq<Item>, n: nat, n': nat, r: Emitted)
    requires Grew(o, o', n, n', r)
    ensures n' == n + |r.depths|
  {
  }
}
