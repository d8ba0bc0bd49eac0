/** Folding leaves nothing that it could still fold, and computes every expression whose operands are known. */
module OptimizerNormal {
  import opened Options
  import opened Words
  import opened Stores
  import opened Optimizer
  import opened OptimizerCorrect
  import C = Codegen

  // ---------------------------------------------------------------- expressions that no rule changes

  ghost predicate Power(v: int) {
    exists n: nat :: v == Pow2(n)
  }

  ghost predicate ZeroOrPower(e: Expr) {
    e.Lit? && (e.v == 0 || Power(e.v))
  }

  predicate SameName(l: Expr, r: Expr) {
    l.Ref? && r == l
  }

  ghost predicate PlainBinary(op: C.BinaryOp, l: Expr, r: Expr) {
    && (l.Lit? && r.Lit? ==> (op == C.OpDiv || op == C.OpMod) && r.v == 0)
    && match op
       case OpAdd => l != Lit(0) && r != Lit(0)
       case OpSub => r != Lit(0) && !SameName(l, r)
       case OpMul => !ZeroOrPower(l) && !ZeroOrPower(r)
       case OpDiv => l != Lit(0) && r != Lit(1)
       case OpAnd => l != Lit(0) && r != Lit(0) && l != Lit(-1) && r != Lit(-1)
       case OpOr => l != Lit(0) && r != Lit(0)
       case OpXor => !SameName(l, r)
       case _ => true
  }

  /** No name is recorded, no operator has only literals (but for divisions by zero), no identity, zero or strength
      rule applies, no condition is a literal, and no cast keeps the value of a literal. */
  ghost predicate Plain(e: Expr, t: Table) {
    match e
    case Lit(_) => true
    case Ref(x) => forall i :: 0 <= i < |t| ==> t[i].name != x
    case Unary(op, a) => Plain(a, t) && !a.Lit? && !(a.Unary? && a.uop == op && (op == C.LogNot || op == C.Minus))
    case Binary(op, l, r) => Plain(l, t) && Plain(r, t) && PlainBinary(op, l, r)
    case AndAlso(l, r) => Plain(l, t) && Plain(r, t) && l != Lit(0) && !r.Lit?
    case OrElse(l, r) => Plain(l, t) && Plain(r, t) && (l.Lit? ==> l.v == 0) && !r.Lit?
    case Cond(c, y, n) => Plain(c, t) && Plain(y, t) && Plain(n, t) && !c.Lit?
    case Cast(to, a) => Plain(a, t) && (a.Lit? ==> Convert(a.v, to) != a.v)
    case Assign(_, a) => Plain(a, t)
  }

  lemma PowerTest(v: int)
    requires Long64(v)
    ensures v > 1 ==> (IsPow2(v) <==> Power(v))
    ensures v <= 1 ==> !IsPow2(v) && (Power(v) <==> v == 1)
  {
    if v > 1 {
      PowerFound(v);
      if Power(v) {
        var n: nat :| v == Pow2(n);
        Log2Power(n);
      }
    } else {
      if Power(v) {
        var n: nat :| v == Pow2(n);
        Pow2AtLeast(0, n);
      }
      assert 1 == Pow2(0);
    }
  }

  /** The value of an operator on two literals, but for division by zero. */
  lemma LiteralsFold(op: C.BinaryOp, a: int, b: int)
    ensures FoldBinary(op, a, b).NoFold? <==> (op == C.OpDiv || op == C.OpMod) && b == 0
  {
    LongValue(op, a, b);
    hide C.BinaryValue, TruncDiv, TruncMod, Pow2, C.BitsOf;
  }

  lemma LiteralTest(e: Expr)
    requires LitsOk(e) && e.Lit? && e.v != 0 && e.v != 1
    ensures IsPow2(e.v) <==> ZeroOrPower(e)
  {
    PowerTest(e.v);
    hide IsPow2, Power;
  }

  lemma MulStays(l: Expr, r: Expr)
    requires LitsOk(l) && LitsOk(r) && l != Lit(0) && r != Lit(0) && l != Lit(1) && r != Lit(1) && !(l.Lit? && r.Lit?)
    ensures var e := Reduce(C.OpMul, l, r);
      if ZeroOrPower(r) then e.Binary? && e.op == C.OpShl && e.left == l && e.right.Lit?
      else if ZeroOrPower(l) then e.Binary? && e.op == C.OpShl && e.left == r && e.right.Lit?
      else e == Binary(C.OpMul, l, r)
  {
    if l.Lit? { LiteralTest(l); }
    if r.Lit? { LiteralTest(r); }
    hide IsPow2, ZeroOrPower, Log2, LitsOk;
  }

  lemma DivStays(l: Expr, r: Expr)
    requires LitsOk(r) && (l.Lit? && r.Lit? ==> r.v == 0)
    ensures Reduce(C.OpDiv, l, r) == Binary(C.OpDiv, l, r)
  {
    if r.Lit? { PowerTest(r.v); }
    hide IsPow2, Power, Log2, Pow2;
  }

  lemma OtherStays(op: C.BinaryOp, l: Expr, r: Expr)
    requires op != C.OpMul && op != C.OpDiv
    ensures Reduce(op, l, r) == Binary(op, l, r)
  {
    hide IsPow2, Log2;
  }

  /** No literal rule, identity or zero rule applies. */
  ghost predicate Reaches(op: C.BinaryOp, l: Expr, r: Expr) {
    && Identity(op, l, r).None? && !Vanishes(op, l, r)
    && (l.Lit? && r.Lit? ==> (op == C.OpDiv || op == C.OpMod) && r.v == 0)
  }

  lemma ReachesMul(l: Expr, r: Expr)
    ensures Reaches(C.OpMul, l, r) <==> l != Lit(0) && r != Lit(0) && l != Lit(1) && r != Lit(1) && !(l.Lit? && r.Lit?)
  {
  }

  lemma ReachesOther(op: C.BinaryOp, l: Expr, r: Expr)
    requires op != C.OpMul
    ensures Reaches(op, l, r) <==> PlainBinary(op, l, r)
  {
  }

  /** Strength reduction leaves an operator that stays. */
  lemma ReducePlain(op: C.BinaryOp, l: Expr, r: Expr)
    requires LitsOk(l) && LitsOk(r) && Reaches(op, l, r)
    ensures var e := Reduce(op, l, r); e.Binary? && PlainBinary(e.op, e.left, e.right) && (e.left == l || e.left == r) && (e.right == r || e.right.Lit?)
  {
    hide Reduce, Power, Reaches;
    if op == C.OpMul {
      ReachesMul(l, r);
      MulStays(l, r);
    } else {
      ReachesOther(op, l, r);
      if op == C.OpDiv { DivStays(l, r); } else { OtherStays(op, l, r); }
    }
  }

  /** A simplified operator is a literal, one of its operands, or an operator that no rule reaches. */
  lemma SimplifyCases(op: C.BinaryOp, l: Expr, r: Expr)
    requires SimplifyBinary(op, l, r).Some?
    ensures var e := SimplifyBinary(op, l, r).value;
      e.Lit? || e == l || e == r || (Reaches(op, l, r) && e == Reduce(op, l, r))
  {
    hide FoldBinary, Identity, Vanishes, Reduce;
    if l.Lit? && r.Lit? { LiteralsFold(op, l.v, r.v); }
    IdentityKeeps(op, l, r);
  }

  lemma BinaryPlain(op: C.BinaryOp, l: Expr, r: Expr, t: Table)
    requires Plain(l, t) && Plain(r, t) && LitsOk(l) && LitsOk(r) && SimplifyBinary(op, l, r).Some?
    ensures Plain(SimplifyBinary(op, l, r).value, t)
  {
    hide Reaches, SimplifyBinary, Reduce, PlainBinary, Plain, LitsOk;
    SimplifyCases(op, l, r);
    var e := SimplifyBinary(op, l, r).value;
    if e.Lit? {
      LitPlain(e, t);
    } else if Reaches(op, l, r) {
      ReducePlain(op, l, r);
      var q := Reduce(op, l, r);
      if q.right.Lit? { LitPlain(q.right, t); }
      PlainJoin(q.op, q.left, q.right, t);
    }
  }

  lemma LitPlain(e: Expr, t: Table)
    requires e.Lit?
    ensures Plain(e, t)
  {
  }

  lemma PlainJoin(op: C.BinaryOp, l: Expr, r: Expr, t: Table)
    requires Plain(l, t) && Plain(r, t) && PlainBinary(op, l, r)
    ensures Plain(Binary(op, l, r), t)
  {
    hide PlainBinary;
  }

  lemma IdentityKeeps(op: C.BinaryOp, l: Expr, r: Expr)
    ensures Identity(op, l, r).Some? ==> Identity(op, l, r).value == l || Identity(op, l, r).value == r
  {
  }

  lemma OneIsPower()
    ensures Power(1)
  {
    assert 1 == Pow2(0);
  }

  lemma BinaryFixed(op: C.BinaryOp, l: Expr, r: Expr)
    requires LitsOk(l) && LitsOk(r) && PlainBinary(op, l, r)
    ensures SimplifyBinary(op, l, r) == Some(Binary(op, l, r))
  {
    hide FoldBinary, Power, Identity, Vanishes, Reduce;
    OneIsPower();
    if op == C.OpMul {
      ReachesMul(l, r);
      MulStays(l, r);
    } else {
      ReachesOther(op, l, r);
      if op == C.OpDiv { DivStays(l, r); } else { OtherStays(op, l, r); }
    }
    hide PlainBinary;
    if l.Lit? && r.Lit? { LiteralsFold(op, l.v, r.v); }
  }

  lemma UnaryPlain(op: C.UnaryOp, a: Expr, t: Table)
    requires Plain(a, t)
    ensures Plain(SimplifyUnary(op, a), t)
  {
    hide C.UnaryValue, Power;
    if a.Unary? {
      assert Plain(a.arg, t) && !a.arg.Lit?;
      assert Plain(Lit(0), t) && PlainBinary(C.OpNe, a.arg, Lit(0));
    }
  }

  lemma LogicPlain(l: Expr, r: Expr, t: Table)
    requires Plain(l, t) && Plain(r, t)
    ensures Plain(SimplifyAnd(l, r), t) && Plain(SimplifyOr(l, r), t)
  {
    hide Power;
    assert Plain(Lit(0), t) && Plain(Lit(1), t);
  }

  lemma {:induction false} NothingRecorded(e: Expr)
    ensures SparesConsts(e, [])
    decreases e
  {
    match e
    case Unary(_, a) => NothingRecorded(a);
    case Binary(_, l, r) => NothingRecorded(l); NothingRecorded(r);
    case AndAlso(l, r) => NothingRecorded(l); NothingRecorded(r);
    case OrElse(l, r) => NothingRecorded(l); NothingRecorded(r);
    case Cond(c, y, n) => NothingRecorded(c); NothingRecorded(y); NothingRecorded(n);
    case Cast(_, a) => NothingRecorded(a);
    case Assign(_, a) => NothingRecorded(a);
    case _ =>
  }

  /** Folding introduces no literal outside long. */
  lemma {:induction false} OptimizedLits(e: Expr, t: Table)
    requires LitsOk(e) && TableOk(t) && Optimize(e, t).Some?
    ensures LitsOk(Optimize(e, t).value)
    decreases e
  {
    hide SimplifyBinary, SimplifyUnary, SimplifyAnd, SimplifyOr, CastSafe, SparesConsts;
    match e
    case Unary(op, a) =>
      OptimizedLits(a, t);
      NothingRecorded(Optimize(a, t).value);
      UnaryTidy(op, Optimize(a, t).value, []);
    case Binary(op, l, r) =>
      OptimizedLits(l, t);
      OptimizedLits(r, t);
      NothingRecorded(Optimize(l, t).value);
      NothingRecorded(Optimize(r, t).value);
      BinaryTidy(op, Optimize(l, t).value, Optimize(r, t).value, []);
    case AndAlso(l, r) => OptimizedLits(l, t); OptimizedLits(r, t); LogicLits(Optimize(l, t).value, Optimize(r, t).value);
    case OrElse(l, r) => OptimizedLits(l, t); OptimizedLits(r, t); LogicLits(Optimize(l, t).value, Optimize(r, t).value);
    case Cond(c, y, n) => OptimizedLits(c, t); OptimizedLits(y, t); OptimizedLits(n, t);
    case Cast(to, a) => OptimizedLits(a, t);
    case Assign(x, a) => OptimizedLits(a, t);
    case _ =>
  }

  lemma LogicLits(l: Expr, r: Expr)
    requires LitsOk(l) && LitsOk(r)
    ensures LitsOk(SimplifyAnd(l, r)) && LitsOk(SimplifyOr(l, r))
  {
    hide SimplifyAnd, SimplifyOr, SparesConsts;
    NothingRecorded(l);
    NothingRecorded(r);
    LogicTidy(l, r, []);
  }

  /** What folding returns, it cannot fold further. */
  lemma {:induction false} OptimizePlain(e: Expr, t: Table)
    requires LitsOk(e) && TableOk(t) && Optimize(e, t).Some?
    ensures Plain(Optimize(e, t).value, t)
    decreases e
  {
    hide SimplifyBinary, SimplifyUnary, SimplifyAnd, SimplifyOr, PlainBinary, Power, TableOk, Convert, CastSafe;
    match e
    case Lit(_) =>
    case Ref(x) => if Lookup(t, x).None? { assert forall i :: 0 <= i < |t| ==> t[i] in t; }
    case Unary(op, a) =>
      OptimizePlain(a, t);
      UnaryPlain(op, Optimize(a, t).value, t);
    case Binary(op, l, r) =>
      OptimizePlain(l, t);
      OptimizePlain(r, t);
      OptimizedLits(l, t);
      OptimizedLits(r, t);
      BinaryPlain(op, Optimize(l, t).value, Optimize(r, t).value, t);
    case AndAlso(l, r) =>
      OptimizePlain(l, t);
      OptimizePlain(r, t);
      LogicPlain(Optimize(l, t).value, Optimize(r, t).value, t);
    case OrElse(l, r) =>
      OptimizePlain(l, t);
      OptimizePlain(r, t);
      LogicPlain(Optimize(l, t).value, Optimize(r, t).value, t);
    case Cond(c, y, n) => OptimizePlain(c, t); OptimizePlain(y, t); OptimizePlain(n, t);
    case Cast(to, a) =>
      OptimizePlain(a, t);
      OptimizedLits(a, t);
      var o := Optimize(a, t).value;
      if o.Lit? { CastExact(o.v, to); }
    case Assign(_, a) => OptimizePlain(a, t);
  }

  lemma {:induction false} PlainFixed(e: Expr, t: Table)
    requires LitsOk(e) && Plain(e, t)
    ensures Optimize(e, t) == Some(e)
    decreases e
  {
    hide SimplifyBinary, PlainBinary, Power, Convert, CastSafe, C.UnaryValue;
    match e
    case Lit(_) =>
    case Ref(x) => if Lookup(t, x).Some? { LookupSome(t, x); }
    case Unary(_, a) => PlainFixed(a, t);
    case Binary(op, l, r) =>
      PlainFixed(l, t);
      PlainFixed(r, t);
      BinaryFixed(op, l, r);
    case AndAlso(l, r) => PlainFixed(l, t); PlainFixed(r, t);
    case OrElse(l, r) => PlainFixed(l, t); PlainFixed(r, t);
    case Cond(c, y, n) => PlainFixed(c, t); PlainFixed(y, t); PlainFixed(n, t);
    case Cast(to, a) =>
      PlainFixed(a, t);
      if a.Lit? { CastExact(a.v, to); }
    case Assign(_, a) => PlainFixed(a, t);
  }

  lemma LookupSome(t: Table, x: string)
    requires Lookup(t, x).Some?
    ensures exists i :: 0 <= i < |t| && t[i].name == x
  {
    var e :| e in t && e.name == x;
  }

  /** Folding returns an expression as it is exactly if no rule applies anywhere in it; a second pass changes nothing. */
  lemma FixedExact(e: Expr, t: Table)
    requires LitsOk(e) && TableOk(t)
    ensures Optimize(e, t) == Some(e) <==> Plain(e, t)
    ensures Optimize(e, t).Some? ==> Optimize(Optimize(e, t).value, t) == Optimize(e, t)
  {
    hide Plain, Optimize;
    if Optimize(e, t).Some? {
      OptimizePlain(e, t);
      OptimizedLits(e, t);
      PlainFixed(Optimize(e, t).value, t);
    }
    if Plain(e, t) { PlainFixed(e, t); }
  }

  // ---------------------------------------------------------------- expressions whose operands are known

  /** Every name is recorded, and nothing is assigned. */
  predicate Known(e: Expr, t: Table) {
    match e
    case Lit(_) => true
    case Ref(x) => Lookup(t, x).Some?
    case Unary(_, a) => Known(a, t)
    case Binary(_, l, r) => Known(l, t) && Known(r, t)
    case AndAlso(l, r) => Known(l, t) && Known(r, t)
    case OrElse(l, r) => Known(l, t) && Known(r, t)
    case Cond(c, y, n) => Known(c, t) && Known(y, t) && Known(n, t)
    case Cast(_, a) => Known(a, t)
    case Assign(_, _) => false
  }

  /** Every cast that is evaluated keeps the value. */
  predicate CastsKeep(e: Expr, st: Store) {
    match e
    case Unary(_, a) => CastsKeep(a, st)
    case Binary(_, l, r) => CastsKeep(l, st) && CastsKeep(r, st)
    case AndAlso(l, r) => CastsKeep(l, st) && (Eval(l, st).Val? && Eval(l, st).v != 0 ==> CastsKeep(r, st))
    case OrElse(l, r) => CastsKeep(l, st) && (Eval(l, st).Val? && Eval(l, st).v == 0 ==> CastsKeep(r, st))
    case Cond(c, y, n) => CastsKeep(c, st) && (Eval(c, st).Val? ==> CastsKeep(if Eval(c, st).v != 0 then y else n, st))
    case Cast(to, a) => CastsKeep(a, st) && (Eval(a, st).Val? ==> Convert(Eval(a, st).v, to) == Eval(a, st).v)
    case _ => true
  }

  lemma {:induction false} KnownKeepsStore(e: Expr, t: Table, st: Store)
    requires Known(e, t) && Eval(e, st).Val?
    ensures Eval(e, st).st == st
    decreases e
  {
    hide C.BinaryValue, C.UnaryValue, Convert, Lookup;
    match e
    case Unary(_, a) => KnownKeepsStore(a, t, st);
    case Binary(_, l, r) => KnownKeepsStore(l, t, st); KnownKeepsStore(r, t, st);
    case AndAlso(l, r) => KnownKeepsStore(l, t, st); if Eval(l, st).v != 0 { KnownKeepsStore(r, t, st); }
    case OrElse(l, r) => KnownKeepsStore(l, t, st); if Eval(l, st).v == 0 { KnownKeepsStore(r, t, st); }
    case Cond(c, y, n) => KnownKeepsStore(c, t, st); if Eval(c, st).v != 0 { KnownKeepsStore(y, t, st); } else { KnownKeepsStore(n, t, st); }
    case Cast(_, a) => KnownKeepsStore(a, t, st);
    case _ =>
  }

  /** An expression over literals and recorded constants that has a value becomes that value. */
  lemma {:induction false} KnownFolds(e: Expr, t: Table, st: Store)
    requires LitsOk(e) && Known(e, t) && StoreOk(st) && Agrees(t, st) && CastsKeep(e, st) && Eval(e, st).Val? && Optimize(e, t).Some?
    ensures Optimize(e, t) == Some(Lit(Eval(e, st).v))
    decreases e
  {
    hide C.BinaryValue, C.UnaryValue, Convert, CastSafe, StoreOk, Agrees, FoldBinary, Identity, Vanishes, Reduce;
    match e
    case Lit(_) =>
    case Ref(x) => RefFolds(x, t, st);
    case Unary(op, a) => KnownFolds(a, t, st);
    case Binary(op, l, r) =>
      KnownKeepsStore(l, t, st);
      KnownFolds(l, t, st);
      KnownFolds(r, t, st);
      OperandsFold(op, l, r, t, st);
    case AndAlso(l, r) =>
      KnownKeepsStore(l, t, st);
      KnownFolds(l, t, st);
      if Eval(l, st).v != 0 { KnownFolds(r, t, st); }
    case OrElse(l, r) =>
      KnownKeepsStore(l, t, st);
      KnownFolds(l, t, st);
      if Eval(l, st).v == 0 { KnownFolds(r, t, st); }
    case Cond(c, y, n) =>
      KnownKeepsStore(c, t, st);
      KnownFolds(c, t, st);
      if Eval(c, st).v != 0 { KnownFolds(y, t, st); } else { KnownFolds(n, t, st); }
    case Cast(to, a) =>
      KnownFolds(a, t, st);
      ValueInRange(a, t, st);
      CastExact(Eval(a, st).v, to);
  }

  lemma RefFolds(x: string, t: Table, st: Store)
    requires Lookup(t, x).Some? && Agrees(t, st) && Eval(Ref(x), st).Val?
    ensures Eval(Ref(x), st).v == Lookup(t, x).value
  {
  }

  lemma {:induction false} KnownSpares(e: Expr, t: Table)
    requires Known(e, t)
    ensures SparesConsts(e, t)
    decreases e
  {
    hide Lookup;
    match e
    case Unary(_, a) => KnownSpares(a, t);
    case Binary(_, l, r) => KnownSpares(l, t); KnownSpares(r, t);
    case AndAlso(l, r) => KnownSpares(l, t); KnownSpares(r, t);
    case OrElse(l, r) => KnownSpares(l, t); KnownSpares(r, t);
    case Cond(c, y, n) => KnownSpares(c, t); KnownSpares(y, t); KnownSpares(n, t);
    case Cast(_, a) => KnownSpares(a, t);
    case _ =>
  }

  lemma ValueInRange(e: Expr, t: Table, st: Store)
    requires LitsOk(e) && Known(e, t) && StoreOk(st) && Agrees(t, st) && Eval(e, st).Val?
    ensures Long64(Eval(e, st).v)
  {
    hide StoreOk, Agrees, Long64, Eval;
    KnownSpares(e, t);
    EvalSettled(e, t, st);
  }

  lemma OperandsFold(op: C.BinaryOp, l: Expr, r: Expr, t: Table, st: Store)
    requires LitsOk(l) && LitsOk(r) && Known(l, t) && Known(r, t) && StoreOk(st) && Agrees(t, st)
    requires Eval(Binary(op, l, r), st).Val? && Eval(l, st).Val? && Eval(l, st).st == st
    requires Optimize(l, t) == Some(Lit(Eval(l, st).v)) && Eval(r, st).Val? && Optimize(r, t) == Some(Lit(Eval(r, st).v))
    ensures Optimize(Binary(op, l, r), t) == Some(Lit(Eval(Binary(op, l, r), st).v))
  {
    hide StoreOk, Agrees, C.BinaryValue, FoldBinary, Identity, Vanishes, Reduce;
    ValueInRange(l, t, st);
    ValueInRange(r, t, st);
    var a, b := Eval(l, st).v, Eval(r, st).v;
    FoldCorrect(op, a, b);
  }

  // ---------------------------------------------------------------- conversions

  predicate InKind(v: int, to: Kind) {
    match to
    case Bool => v == 0 || v == 1
    case Char(u) => if u then 0 <= v <= 255 else -128 <= v <= 127
    case Short(u) => if u then 0 <= v <= 65535 else -32768 <= v <= 32767
    case Int(u) => if u then 0 <= v <= 4294967295 else -2147483648 <= v <= 2147483647
    case Long => true
  }

  function Modulus(to: Kind): nat
    requires !to.Bool? && !to.Long?
  {
    match to case Char(_) => 256 case Short(_) => 65536 case Int(_) => 4294967296
  }

  /** A converted value lies in the type; to _Bool it tells zero from the rest, elsewhere it differs by a multiple of the
      number of values, and so a cast whose operand lies in the type keeps it. */
  lemma ConvertExact(v: int, to: Kind)
    ensures InKind(Convert(v, to), to) && (InKind(v, to) ==> Convert(v, to) == v)
    ensures to.Bool? ==> (Convert(v, to) == 0 <==> v == 0)
    ensures !to.Bool? && !to.Long? ==> (v - Convert(v, to)) % Modulus(to) == 0
  {
    match to
    case Bool =>
    case Char(u) => NarrowByte(v);
    case Short(u) => NarrowHalf(v);
    case Int(u) => NarrowWord(v);
    case Long =>
  }

  lemma NarrowByte(v: int)
    ensures (v - Residue(v, 256)) % 256 == 0 && (v - Wrap(v, 256)) % 256 == 0
    ensures 0 <= v < 256 ==> Residue(v, 256) == v
    ensures -128 <= v < 128 ==> Wrap(v, 256) == v
  {
  }

  lemma NarrowHalf(v: int)
    ensures (v - Residue(v, 65536)) % 65536 == 0 && (v - Wrap(v, 65536)) % 65536 == 0
    ensures 0 <= v < 65536 ==> Residue(v, 65536) == v
    ensures -32768 <= v < 32768 ==> Wrap(v, 65536) == v
  {
  }

  lemma NarrowWord(v: int)
    ensures (v - Residue(v, 4294967296)) % 4294967296 == 0 && (v - Wrap(v, 4294967296)) % 4294967296 == 0
    ensures 0 <= v < 4294967296 ==> Residue(v, 4294967296) == v
    ensures -2147483648 <= v < 2147483648 ==> Wrap(v, 4294967296) == v
  {
  }
}
