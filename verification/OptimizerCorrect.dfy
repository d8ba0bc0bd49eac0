/** Folding preserves meaning. */
module OptimizerCorrect {
  import opened Options
  import opened Words
  import opened Stores
  import opened Optimizer
  import C = Codegen

  // ---------------------------------------------------------------- values stay in range

  ghost predicate Long64(v: int) {
    InRange(v, W64)
  }

  ghost predicate StoreOk(st: Store) {
    forall x :: Get(st, x).Some? ==> Long64(Get(st, x).value)
  }

  /** Literals are values of type long. */
  ghost predicate LitsOk(e: Expr) {
    match e
    case Lit(v) => Long64(v)
    case Ref(_) => true
    case Unary(_, a) => LitsOk(a)
    case Binary(_, l, r) => LitsOk(l) && LitsOk(r)
    case AndAlso(l, r) => LitsOk(l) && LitsOk(r)
    case OrElse(l, r) => LitsOk(l) && LitsOk(r)
    case Cond(c, y, n) => LitsOk(c) && LitsOk(y) && LitsOk(n)
    case Cast(_, a) => LitsOk(a)
    case Assign(_, a) => LitsOk(a)
  }

  /** Each recorded constant is a variable in scope, and its value once it has one. */
  ghost predicate Agrees(t: Table, st: Store) {
    forall x :: Lookup(t, x).Some? ==> Find(st, x).Some? && (Get(st, x).Some? ==> Get(st, x) == Lookup(t, x))
  }

  ghost predicate TableOk(t: Table) {
    forall x :: Lookup(t, x).Some? ==> Long64(Lookup(t, x).value)
  }

  /** Recorded names are const, so nothing assigns to them. */
  predicate SparesConsts(e: Expr, t: Table) {
    match e
    case Unary(_, a) => SparesConsts(a, t)
    case Binary(_, l, r) => SparesConsts(l, t) && SparesConsts(r, t)
    case AndAlso(l, r) => SparesConsts(l, t) && SparesConsts(r, t)
    case OrElse(l, r) => SparesConsts(l, t) && SparesConsts(r, t)
    case Cond(c, y, n) => SparesConsts(c, t) && SparesConsts(y, t) && SparesConsts(n, t)
    case Cast(_, a) => SparesConsts(a, t)
    case Assign(x, a) => Lookup(t, x).None? && SparesConsts(a, t)
    case _ => true
  }

  lemma ConvertInRange(v: int, to: Kind)
    requires Long64(v)
    ensures Long64(Convert(v, to))
  {
  }

  /** The operators at type long. */
  lemma LongValue(op: C.BinaryOp, a: int, b: int)
    ensures Pow2(64) == W64
    ensures C.BinaryValue(op, C.Long, a, b) ==
      match op
      case OpAdd => C.Number(Wrap(a + b, W64))
      case OpSub => C.Number(Wrap(a - b, W64))
      case OpMul => C.Number(Wrap(a * b, W64))
      case OpDiv => if b == 0 || !InRange(TruncDiv(a, b), W64) then C.Traps else C.Number(TruncDiv(a, b))
      case OpMod => if b == 0 || !InRange(TruncDiv(a, b), W64) then C.Traps else C.Number(TruncMod(a, b))
      case OpAnd => C.Number(C.BitsOf(AndBits, a, b, W64, 64))
      case OpXor => C.Number(C.BitsOf(XorBits, a, b, W64, 64))
      case OpOr => C.Number(C.BitsOf(OrBits, a, b, W64, 64))
      case OpShl => if 0 <= b < 64 then C.Number(Wrap(a * Pow2(b), W64)) else C.NoMeaning
      case OpShr => if 0 <= b < 64 then C.Number(a / Pow2(b)) else C.NoMeaning
      case OpEq => C.Number(C.Truth(a == b))
      case OpNe => C.Number(C.Truth(a != b))
      case OpLt => C.Number(C.Truth(a < b))
      case OpLe => C.Number(C.Truth(a <= b))
      case OpGt => C.Number(C.Truth(a > b))
      case OpGe => C.Number(C.Truth(a >= b))
  {
    Pow2Values();
    hide Wrap, TruncDiv, TruncMod, C.BitsOf, Pow2, InRange;
  }

  lemma BinaryInRange(op: C.BinaryOp, a: int, b: int)
    requires Long64(a) && Long64(b)
    ensures var s := C.BinaryValue(op, C.Long, a, b); s.Number? ==> Long64(s.n)
  {
    LongValue(op, a, b);
    hide C.BinaryValue, TruncDiv, TruncMod, Pow2, Residue, Bitwise;
    if op.OpShr? && 0 <= b < 64 {
      ShiftInRange(a, b);
    } else if (op.OpDiv? || op.OpMod?) && b != 0 {
      TruncDivRange(a, b, W64);
    }
  }

  lemma ShiftInRange(a: int, b: nat)
    requires Long64(a)
    ensures Long64(a / Pow2(b))
  {
    var d := Pow2(b);
    QuotientRemainder(a, d);
    var q := a / d;
    if q >= 0 {
      MulMonotone(1, d, q);
    } else {
      MulMonotone(1, d, -q - 1);
      assert d * (-q - 1) == -(d * q) - d;
    }
  }

  lemma UnaryInRange(op: C.UnaryOp, a: int)
    requires Long64(a)
    ensures Long64(C.UnaryValue(op, C.Long, a))
  {
  }

  ghost predicate Settled(r: Result, t: Table) {
    r.Val? ==> Long64(r.v) && StoreOk(r.st) && Agrees(t, r.st)
  }

  /** Evaluation keeps values in range and the recorded constants unchanged. */
  lemma {:induction false} EvalSettled(e: Expr, t: Table, st: Store)
    requires LitsOk(e) && StoreOk(st) && Agrees(t, st) && SparesConsts(e, t)
    ensures Settled(Eval(e, st), t)
    decreases e
  {
    hide StoreOk, Agrees, Long64, C.BinaryValue, C.UnaryValue, Convert;
    match e
    case Lit(_) =>
      assert Long64(e.v);
    case Ref(x) => if Get(st, x).Some? { ValueAt(st, x); }
    case Unary(op, a) =>
      EvalSettled(a, t, st);
      if Eval(a, st).Val? { UnaryInRange(op, Eval(a, st).v); }
    case Binary(op, l, r) =>
      EvalSettled(l, t, st);
      if Eval(l, st).Val? {
        EvalSettled(r, t, Eval(l, st).st);
        var rr := Eval(r, Eval(l, st).st);
        if rr.Val? { BinaryInRange(op, Eval(l, st).v, rr.v); }
      }
    case AndAlso(l, r) =>
      SmallInRange();
      EvalSettled(l, t, st);
      if Eval(l, st).Val? { EvalSettled(r, t, Eval(l, st).st); }
    case OrElse(l, r) =>
      SmallInRange();
      EvalSettled(l, t, st);
      if Eval(l, st).Val? { EvalSettled(r, t, Eval(l, st).st); }
    case Cond(c, y, n) =>
      EvalSettled(c, t, st);
      if Eval(c, st).Val? {
        EvalSettled(y, t, Eval(c, st).st);
        EvalSettled(n, t, Eval(c, st).st);
      }
    case Cast(to, a) =>
      EvalSettled(a, t, st);
      if Eval(a, st).Val? { ConvertInRange(Eval(a, st).v, to); }
    case Assign(x, a) =>
      EvalSettled(a, t, st);
      if Eval(e, st).Val? { AssignSettled(t, x, Eval(a, st).v, Eval(a, st).st); }
  }

  lemma SmallInRange()
    ensures Long64(0) && Long64(1)
  {
  }

  lemma ValueAt(st: Store, x: string)
    requires StoreOk(st) && Get(st, x).Some?
    ensures Long64(Get(st, x).value)
  {
  }

  lemma AssignSettled(t: Table, x: string, v: int, st: Store)
    requires Long64(v) && StoreOk(st) && Agrees(t, st) && Lookup(t, x).None? && Find(st, x).Some?
    ensures StoreOk(Set(st, x, v)) && Agrees(t, Set(st, x, v))
  {
    hide Set;
    forall y ensures Find(Set(st, x, v), y) == Find(st, y) && Get(Set(st, x, v), y) == if y == x then Some(v) else Get(st, y) {
      SetGet(st, x, v, y);
    }
  }

  // ---------------------------------------------------------------- powers of two

  /** The test and the loop of strength reduction find the exact exponent. */
  lemma PowerFound(v: int)
    requires Long64(v) && v > 1
    ensures IsPow2(v) <==> v == Pow2(Log2(v))
    ensures IsPow2(v) ==> Log2(v) < 63
  {
    Pow2Values();
    var m := C.BitsOf(AndBits, v, v - 1, W64, 64);
    ModUnique(v, 0, v, W64);
    ModUnique(v - 1, 0, v - 1, W64);
    PowerOfTwoTest(v, 64);
    if n: nat :| v == Pow2(n) {
      Log2Power(n);
      if n >= 63 {
        Pow2AtLeast(63, n);
      }
    }
  }

  lemma Pow2AtLeast(m: nat, n: nat)
    requires m <= n
    ensures Pow2(m) <= Pow2(n)
  {
    if m < n {
      Pow2Monotone(m, n);
    }
  }

  lemma {:induction false} Log2Power(n: nat)
    ensures Log2(Pow2(n)) == n
  {
    if n != 0 {
      Log2Power(n - 1);
      assert Pow2(n) / 2 == Pow2(n - 1);
    }
  }

  // ---------------------------------------------------------------- single rules

  lemma FoldCorrect(op: C.BinaryOp, a: int, b: int)
    requires Long64(a) && Long64(b)
    ensures var f, s := FoldBinary(op, a, b), C.BinaryValue(op, C.Long, a, b);
            && (f.Folded? && s.Number? ==> f.v == s.n)
            && (f.Crash? ==> s.Traps?)
            && (f.NoFold? ==> !s.Number?)
  {
    if op.OpDiv? || op.OpMod? {
      if b != 0 {
        TruncDivRange(a, b, W64);
      }
    } else if op.OpShl? || op.OpShr? {
      if 0 <= b < 64 {
        assert b % 64 == b;
      }
    }
  }

  lemma ZeroWord()
    ensures Residue(0, W64) == 0 && Residue(-1, W64) == W64 - 1
  {
    ModUnique(-1, -1, W64 - 1, W64);
  }

  lemma BitsIdentity(x: int)
    requires Long64(x)
    ensures Pow2(64) == W64
    ensures C.BitsOf(OrBits, x, 0, W64, 64) == x && C.BitsOf(OrBits, 0, x, W64, 64) == x
    ensures C.BitsOf(AndBits, x, -1, W64, 64) == x && C.BitsOf(AndBits, -1, x, W64, 64) == x
    ensures C.BitsOf(AndBits, x, 0, W64, 64) == 0 && C.BitsOf(AndBits, 0, x, W64, 64) == 0
    ensures C.BitsOf(XorBits, x, x, W64, 64) == 0
  {
    Pow2Values();
    ZeroWord();
    var u := Residue(x, W64);
    WrapInRange(x, W64);
    BitwiseIdentities(u, 64);
    BitwiseAllOnes(u, 64);
    hide Bitwise, Pow2;
  }

  lemma DivideIdentities(x: int)
    ensures TruncDiv(x, 1) == x && (x != 0 ==> TruncDiv(0, x) == 0)
  {
    assert Abs(x) / 1 == Abs(x);
    if x != 0 {
      assert 0 / Abs(x) == 0;
    }
  }

  /** The value of the operator when an identity rule applies is the kept operand's value. */
  lemma IdentityValue(op: C.BinaryOp, a: int, b: int, left: bool)
    requires Long64(a) && Long64(b) && C.BinaryValue(op, C.Long, a, b).Number?
    requires if left then (b == 0 && op in {C.OpAdd, C.OpSub, C.OpOr}) || (b == 1 && op in {C.OpMul, C.OpDiv}) || (b == -1 && op == C.OpAnd)
             else (a == 0 && op in {C.OpAdd, C.OpOr}) || (a == 1 && op == C.OpMul) || (a == -1 && op == C.OpAnd)
    ensures C.BinaryValue(op, C.Long, a, b).n == if left then a else b
  {
    LongValue(op, a, b);
    hide C.BinaryValue, C.BitsOf, Wrap, TruncDiv, Pow2;
    if op in {C.OpOr, C.OpAnd} {
      BitsIdentity(if left then a else b);
    } else if op == C.OpDiv {
      DivideIdentities(a);
    } else {
      WrapInRange(if left then a else b, W64);
    }
  }

  lemma VanishValue(op: C.BinaryOp, a: int, b: int)
    requires Long64(a) && Long64(b) && C.BinaryValue(op, C.Long, a, b).Number?
    requires ((a == 0 || b == 0) && op in {C.OpMul, C.OpAnd}) || (a == 0 && op == C.OpDiv) || (a == b && op in {C.OpSub, C.OpXor})
    ensures C.BinaryValue(op, C.Long, a, b).n == 0
  {
    LongValue(op, a, b);
    hide C.BinaryValue, C.BitsOf, Wrap, TruncDiv, Pow2;
    if op in {C.OpAnd, C.OpXor} {
      BitsIdentity(if a == 0 then b else a);
    } else if op == C.OpDiv {
      DivideIdentities(b);
    } else {
      assert op == C.OpMul ==> a * b == 0;
      WrapInRange(0, W64);
    }
  }

  /** Multiplying by 2^n is shifting left by n, modulo 2^64. */
  lemma ShiftValue(a: int, p: int)
    requires Long64(a) && Long64(p) && IsPow2(p)
    ensures C.BinaryValue(C.OpShl, C.Long, a, Log2(p)) == C.BinaryValue(C.OpMul, C.Long, a, p)
    ensures C.BinaryValue(C.OpShl, C.Long, a, Log2(p)) == C.BinaryValue(C.OpMul, C.Long, p, a)
  {
    PowerFound(p);
    assert a * p == p * a;
  }

  lemma HalveValue(a: int, p: int)
    requires Long64(a) && Long64(p) && IsPow2(p) && a >= 0
    ensures C.BinaryValue(C.OpDiv, C.Long, a, p) == C.BinaryValue(C.OpShr, C.Long, a, Log2(p))
  {
    hide C.BitsOf;
    PowerFound(p);
    BinaryInRange(C.OpDiv, a, p);
    TruncDivRange(a, p, W64);
  }

  // ---------------------------------------------------------------- rules on expressions

  ghost predicate Evals(e: Expr, st: Store, v: int, st': Store) {
    Eval(e, st) == Val(v, st')
  }

  lemma SimplifyBinaryCorrect(op: C.BinaryOp, l: Expr, r: Expr, st: Store, a: int, st1: Store, b: int, st2: Store)
    requires Evals(l, st, a, st1) && Evals(r, st1, b, st2) && Long64(a) && Long64(b)
    requires C.BinaryValue(op, C.Long, a, b).Number? && SimplifyBinary(op, l, r).Some?
    requires Vanishes(op, l, r) ==> st2 == st
    ensures Evals(SimplifyBinary(op, l, r).value, st, C.BinaryValue(op, C.Long, a, b).n, st2)
  {
    hide C.BinaryValue, FoldBinary, Reduce;
    var v := C.BinaryValue(op, C.Long, a, b).n;
    var f := if l.Lit? && r.Lit? then FoldBinary(op, l.v, r.v) else NoFold;
    if l.Lit? && r.Lit? {
      FoldCorrect(op, a, b);
    }
    if f.NoFold? {
      var k := Identity(op, l, r);
      if k.Some? {
        KeptOperand(op, l, r, st, a, st1, b, st2);
      } else if Vanishes(op, l, r) {
        VanishValue(op, a, b);
      } else {
        ReduceCorrect(op, l, r, st, a, st1, b, st2);
      }
    }
  }

  lemma KeptOperand(op: C.BinaryOp, l: Expr, r: Expr, st: Store, a: int, st1: Store, b: int, st2: Store)
    requires Evals(l, st, a, st1) && Evals(r, st1, b, st2) && Long64(a) && Long64(b)
    requires C.BinaryValue(op, C.Long, a, b).Number? && Identity(op, l, r).Some?
    ensures Evals(Identity(op, l, r).value, st, C.BinaryValue(op, C.Long, a, b).n, st2)
  {
    hide C.BinaryValue;
    if r.Lit? && r.v == (if op in {C.OpMul, C.OpDiv} then 1 else if op == C.OpAnd then -1 else 0) {
      IdentityValue(op, a, b, true);
    } else {
      IdentityValue(op, a, b, false);
    }
  }

  lemma EvalsBinary(op: C.BinaryOp, l: Expr, r: Expr, st: Store, a: int, st1: Store, b: int, st2: Store)
    requires Evals(l, st, a, st1) && Evals(r, st1, b, st2) && C.BinaryValue(op, C.Long, a, b).Number?
    ensures Evals(Binary(op, l, r), st, C.BinaryValue(op, C.Long, a, b).n, st2)
  {
    hide C.BinaryValue;
  }

  lemma EvalsLit(v: int, st: Store)
    ensures Evals(Lit(v), st, v, st)
  {
  }

  lemma ReduceCorrect(op: C.BinaryOp, l: Expr, r: Expr, st: Store, a: int, st1: Store, b: int, st2: Store)
    requires Evals(l, st, a, st1) && Evals(r, st1, b, st2) && Long64(a) && Long64(b)
    requires C.BinaryValue(op, C.Long, a, b).Number?
    ensures Evals(Reduce(op, l, r), st, C.BinaryValue(op, C.Long, a, b).n, st2)
  {
    LitEvals(l, st, a, st1);
    LitEvals(r, st1, b, st2);
    hide C.BinaryValue, IsPow2, Log2, Evals;
    if op == C.OpMul && r.Lit? && IsPow2(r.v) {
      ShiftValue(a, b);
      EvalsLit(Log2(b), st1);
      EvalsBinary(C.OpShl, l, Lit(Log2(b)), st, a, st1, Log2(b), st1);
    } else if op == C.OpMul && l.Lit? && IsPow2(l.v) {
      ShiftValue(b, a);
      EvalsLit(Log2(a), st2);
      EvalsBinary(C.OpShl, r, Lit(Log2(a)), st, b, st2, Log2(a), st2);
    } else if op == C.OpDiv && r.Lit? && IsPow2(r.v) && l.Lit? && l.v >= 0 {
      HalveValue(a, b);
      EvalsLit(Log2(b), st1);
      EvalsBinary(C.OpShr, l, Lit(Log2(b)), st, a, st1, Log2(b), st1);
    } else {
      EvalsBinary(op, l, r, st, a, st1, b, st2);
    }
  }

  lemma LitEvals(e: Expr, st: Store, v: int, st': Store)
    requires Evals(e, st, v, st')
    ensures e.Lit? ==> e.v == v && st' == st
  {
  }

  lemma SimplifyUnaryCorrect(op: C.UnaryOp, a: Expr, st: Store, v: int, st1: Store)
    requires Evals(a, st, v, st1) && Long64(v)
    requires a.Unary? ==> Eval(a.arg, st).Val? && Long64(Eval(a.arg, st).v)
    ensures Evals(SimplifyUnary(op, a), st, C.UnaryValue(op, C.Long, v), st1)
  {
    if a.Unary? && a.uop == C.Minus && op == C.Minus {
      NegTwice(Eval(a.arg, st).v);
    }
  }

  lemma NegTwice(x: int)
    requires Long64(x)
    ensures Wrap(-Wrap(-x, W64), W64) == x
  {
    WrapCongruent(-x, W64);
    CongruentOps(0, 0, Wrap(-x, W64), -x, W64);
    CongruentWrap(0 - Wrap(-x, W64), 0 - -x, W64);
    WrapInRange(x, W64);
  }

  lemma CastExact(v: int, to: Kind)
    requires Long64(v)
    ensures CastSafe(v, to) <==> Convert(v, to) == v
  {
    match to
    case Bool =>
    case Char(u) => NarrowExact(v, W8);
    case Short(u) => NarrowExact(v, W16);
    case Int(u) => NarrowExact(v, W32);
    case Long =>
  }

  lemma NarrowExact(v: int, m: nat)
    requires m > 0 && m % 2 == 0
    ensures Residue(v, m) == v <==> 0 <= v < m
    ensures Wrap(v, m) == v <==> InRange(v, m)
  {
    if 0 <= v < m {
      ModUnique(v, 0, v, m);
    }
    if InRange(v, m) {
      WrapInRange(v, m);
    }
  }

  // ---------------------------------------------------------------- side effects

  /** No assignment anywhere in e. */
  predicate Pure(e: Expr) {
    match e
    case Unary(_, a) => Pure(a)
    case Binary(_, l, r) => Pure(l) && Pure(r)
    case AndAlso(l, r) => Pure(l) && Pure(r)
    case OrElse(l, r) => Pure(l) && Pure(r)
    case Cond(c, y, n) => Pure(c) && Pure(y) && Pure(n)
    case Cast(_, a) => Pure(a)
    case Assign(_, _) => false
    case _ => true
  }

  lemma {:induction false} PureKeepsStore(e: Expr, st: Store)
    requires Pure(e) && Eval(e, st).Val?
    ensures Eval(e, st).st == st
  {
    hide C.BinaryValue, C.UnaryValue, Convert;
    match e
    case Unary(_, a) => PureKeepsStore(a, st);
    case Binary(_, l, r) => PureKeepsStore(l, st); PureKeepsStore(r, st);
    case AndAlso(l, r) => PureKeepsStore(l, st); if Eval(l, st).v != 0 { PureKeepsStore(r, st); }
    case OrElse(l, r) => PureKeepsStore(l, st); if Eval(l, st).v == 0 { PureKeepsStore(r, st); }
    case Cond(c, y, n) => PureKeepsStore(c, st); if Eval(c, st).v != 0 { PureKeepsStore(y, st); } else { PureKeepsStore(n, st); }
    case Cast(_, a) => PureKeepsStore(a, st);
    case _ =>
  }

  /** The rules that drop an operand which would have been evaluated. */
  predicate Drops(e: Expr, t: Table)
    requires Optimize(e, t).Some?
  {
    match e
    case Binary(op, l, r) => Vanishes(op, Optimize(l, t).value, Optimize(r, t).value)
    case AndAlso(l, r) => IsLit(Optimize(r, t).value, 0) && !Optimize(l, t).value.Lit?
    case OrElse(l, r) => Optimize(r, t).value.Lit? && Optimize(r, t).value.v != 0 && !Optimize(l, t).value.Lit?
    case _ => false
  }

  /** Nothing that a rule drops contains an assignment. */
  predicate DropsOnlyPure(e: Expr, t: Table)
    requires Optimize(e, t).Some?
  {
    && (Drops(e, t) ==> Pure(e))
    && match e
       case Unary(_, a) => DropsOnlyPure(a, t)
       case Binary(_, l, r) => DropsOnlyPure(l, t) && DropsOnlyPure(r, t)
       case AndAlso(l, r) => DropsOnlyPure(l, t) && DropsOnlyPure(r, t)
       case OrElse(l, r) => DropsOnlyPure(l, t) && DropsOnlyPure(r, t)
       case Cond(c, y, n) => DropsOnlyPure(c, t) && DropsOnlyPure(y, t) && DropsOnlyPure(n, t)
       case Cast(_, a) => DropsOnlyPure(a, t)
       case Assign(_, a) => DropsOnlyPure(a, t)
       case _ => true
  }

  lemma {:induction false} PureDropsOnlyPure(e: Expr, t: Table)
    requires Optimize(e, t).Some? && Pure(e)
    ensures DropsOnlyPure(e, t)
  {
    hide SimplifyBinary, SimplifyAnd, SimplifyOr, SimplifyUnary, Vanishes;
    match e
    case Unary(_, a) => PureDropsOnlyPure(a, t);
    case Binary(_, l, r) => PureDropsOnlyPure(l, t); PureDropsOnlyPure(r, t);
    case AndAlso(l, r) => PureDropsOnlyPure(l, t); PureDropsOnlyPure(r, t);
    case OrElse(l, r) => PureDropsOnlyPure(l, t); PureDropsOnlyPure(r, t);
    case Cond(c, y, n) => PureDropsOnlyPure(c, t); PureDropsOnlyPure(y, t); PureDropsOnlyPure(n, t);
    case Cast(_, a) => PureDropsOnlyPure(a, t);
    case _ =>
  }

  /** Why: `(x = 5) * 0` assigns, its folding does not. */
  lemma DroppedAssignment()
    ensures var e, st := Binary(C.OpMul, Assign("x", Lit(5)), Lit(0)), [map["x" := Some(1)]];
            && Optimize(e, []) == Some(Lit(0)) && !DropsOnlyPure(e, [])
            && Eval(e, st).Val? && Get(Eval(e, st).st, "x") == Some(5) && Get(Eval(Lit(0), st).st, "x") == Some(1)
  {
    hide C.BitsOf, Convert, FoldBinary, Reduce, SimplifyUnary;
    LongValue(C.OpMul, 5, 0);
    WrapInRange(0, W64);
    hide C.BinaryValue;
    var e, a, st := Binary(C.OpMul, Assign("x", Lit(5)), Lit(0)), Assign("x", Lit(5)), [map["x" := Some(1)]];
    SetGet(st, "x", 5, "x");
    assert Find(st, "x") == Some(0);
    assert Eval(a, st) == Val(5, Set(st, "x", 5));
    assert Eval(e, st) == Val(0, Set(st, "x", 5));
    assert Optimize(a, []) == Some(a);
  }

  /** Throwing away both operands keeps the meaning exactly if evaluating them changes no variable. */
  lemma VanishExact(op: C.BinaryOp, l: Expr, r: Expr, st: Store)
    requires Vanishes(op, l, r) && LitsOk(l) && LitsOk(r) && StoreOk(st) && Eval(Binary(op, l, r), st).Val?
    ensures Eval(Lit(0), st) == Eval(Binary(op, l, r), st) <==> Eval(Binary(op, l, r), st).st == st
  {
    NoConsts(l, st);
    NoConsts(r, st);
    EvalSettled(l, [], st);
    var rl := Eval(l, st);
    NoConsts(r, rl.st);
    EvalSettled(r, [], rl.st);
    var rr := Eval(r, rl.st);
    hide StoreOk, LitsOk, C.BinaryValue;
    assert SameVar(l, r) ==> rl.v == rr.v;
    VanishValue(op, rl.v, rr.v);
  }

  lemma {:induction false} NoConsts(e: Expr, st: Store)
    ensures Agrees([], st) && SparesConsts(e, [])
    decreases e
  {
    match e
    case Unary(_, a) => NoConsts(a, st);
    case Binary(_, l, r) => NoConsts(l, st); NoConsts(r, st);
    case AndAlso(l, r) => NoConsts(l, st); NoConsts(r, st);
    case OrElse(l, r) => NoConsts(l, st); NoConsts(r, st);
    case Cond(c, y, n) => NoConsts(c, st); NoConsts(y, st); NoConsts(n, st);
    case Cast(_, a) => NoConsts(a, st);
    case Assign(_, a) => NoConsts(a, st);
    case _ =>
  }

  // ---------------------------------------------------------------- the theorem

  ghost predicate Sound(e: Expr, t: Table, st: Store) {
    LitsOk(e) && StoreOk(st) && Agrees(t, st) && TableOk(t) && SparesConsts(e, t) && Optimize(e, t).Some? && DropsOnlyPure(e, t)
  }

  lemma FoldInRange(op: C.BinaryOp, a: int, b: int)
    requires Long64(a) && Long64(b)
    ensures FoldBinary(op, a, b).Folded? ==> Long64(FoldBinary(op, a, b).v)
  {
    hide C.BinaryValue, Pow2, TruncDiv, TruncMod;
    if op.OpShr? {
      ShiftInRange(a, b % 64);
    } else if op.OpDiv? || op.OpMod? {
      if b != 0 {
        TruncDivRange(a, b, W64);
      }
    } else if !op.OpShl? {
      BinaryInRange(op, a, b);
    }
  }

  ghost predicate Tidy(e: Expr, t: Table) {
    LitsOk(e) && SparesConsts(e, t)
  }

  lemma TidyParts(op: C.BinaryOp, l: Expr, r: Expr, v: int, t: Table)
    ensures Tidy(Binary(op, l, r), t) <==> Tidy(l, t) && Tidy(r, t)
    ensures Tidy(Lit(v), t) <==> Long64(v)
  {
  }

  lemma BinaryTidy(op: C.BinaryOp, l: Expr, r: Expr, t: Table)
    requires Tidy(l, t) && Tidy(r, t) && SimplifyBinary(op, l, r).Some?
    ensures Tidy(SimplifyBinary(op, l, r).value, t)
  {
    TidyParts(op, l, r, 0, t);
    if l.Lit? { TidyParts(op, l, r, l.v, t); }
    if r.Lit? { TidyParts(op, l, r, r.v, t); }
    hide FoldBinary, Tidy, Reduce, IsPow2;
    if l.Lit? && r.Lit? {
      FoldInRange(op, l.v, r.v);
      var f := FoldBinary(op, l.v, r.v);
      if f.Folded? { TidyParts(op, l, r, f.v, t); }
    }
    ReduceTidy(op, l, r, t);
  }

  lemma ReduceTidy(op: C.BinaryOp, l: Expr, r: Expr, t: Table)
    requires Tidy(l, t) && Tidy(r, t)
    ensures Tidy(Reduce(op, l, r), t)
  {
    if r.Lit? { TidyParts(op, l, r, r.v, t); }
    if l.Lit? { TidyParts(op, l, r, l.v, t); }
    hide IsPow2, Log2, Tidy;
    TidyParts(op, l, r, 0, t);
    if r.Lit? && IsPow2(r.v) {
      PowerFound(r.v);
      TidyParts(C.OpShl, l, Lit(Log2(r.v)), Log2(r.v), t);
      TidyParts(C.OpShr, l, Lit(Log2(r.v)), Log2(r.v), t);
    }
    if l.Lit? && IsPow2(l.v) {
      PowerFound(l.v);
      TidyParts(C.OpShl, r, Lit(Log2(l.v)), Log2(l.v), t);
    }
  }

  lemma UnaryTidy(op: C.UnaryOp, a: Expr, t: Table)
    requires Tidy(a, t)
    ensures Tidy(SimplifyUnary(op, a), t)
  {
    hide C.UnaryValue;
    if a.Lit? {
      UnaryInRange(op, a.v);
    } else if a.Unary? {
      TidyParts(C.OpNe, a.arg, Lit(0), 0, t);
    }
  }

  lemma LogicTidy(l: Expr, r: Expr, t: Table)
    requires Tidy(l, t) && Tidy(r, t)
    ensures Tidy(SimplifyAnd(l, r), t) && Tidy(SimplifyOr(l, r), t)
  {
    TidyParts(C.OpNe, l, Lit(0), 0, t);
    TidyParts(C.OpNe, l, r, 1, t);
  }

  /** Folding introduces no literal outside long and no assignment. */
  lemma {:induction false} OptimizedTidy(e: Expr, t: Table)
    requires Tidy(e, t) && TableOk(t) && Optimize(e, t).Some?
    ensures Tidy(Optimize(e, t).value, t)
    decreases e
  {
    hide SimplifyBinary, SimplifyUnary, SimplifyAnd, SimplifyOr;
    match e
    case Unary(op, a) =>
      OptimizedTidy(a, t);
      UnaryTidy(op, Optimize(a, t).value, t);
    case Binary(op, l, r) =>
      OptimizedTidy(l, t);
      OptimizedTidy(r, t);
      BinaryTidy(op, Optimize(l, t).value, Optimize(r, t).value, t);
    case AndAlso(l, r) =>
      OptimizedTidy(l, t);
      OptimizedTidy(r, t);
      LogicTidy(Optimize(l, t).value, Optimize(r, t).value, t);
    case OrElse(l, r) =>
      OptimizedTidy(l, t);
      OptimizedTidy(r, t);
      LogicTidy(Optimize(l, t).value, Optimize(r, t).value, t);
    case Cond(c, y, n) => OptimizedTidy(c, t); OptimizedTidy(y, t); OptimizedTidy(n, t);
    case Cast(to, a) => OptimizedTidy(a, t);
    case Assign(x, a) => OptimizedTidy(a, t);
    case _ =>
  }

  ghost predicate Kept(e: Expr, t: Table, st: Store) {
    Optimize(e, t).Some? && (Eval(e, st).Val? ==> Eval(Optimize(e, t).value, st) == Eval(e, st))
  }

  lemma UnaryStep(e: Expr, t: Table, st: Store)
    requires e.Unary? && Sound(e, t, st) && Kept(e.arg, t, st)
    ensures Kept(e, t, st)
  {
    var r, oa := Eval(e.arg, st), Optimize(e.arg, t).value;
    EvalSettled(e.arg, t, st);
    OptimizedTidy(e.arg, t);
    if oa.Unary? { EvalSettled(oa.arg, t, st); }
    hide C.UnaryValue, SimplifyUnary, LitsOk, SparesConsts, StoreOk, Agrees, DropsOnlyPure;
    if r.Val? {
      if oa.Unary? { assert Eval(oa.arg, st).Val?; }
      SimplifyUnaryCorrect(e.uop, oa, st, r.v, r.st);
    }
  }

  lemma BinaryStep(e: Expr, t: Table, st: Store)
    requires e.Binary? && Sound(e, t, st) && Kept(e.left, t, st)
    requires Eval(e.left, st).Val? ==> Kept(e.right, t, Eval(e.left, st).st)
    ensures Kept(e, t, st)
  {
    var rl := Eval(e.left, st);
    EvalSettled(e.left, t, st);
    if rl.Val? {
      var rr := Eval(e.right, rl.st);
      EvalSettled(e.right, t, rl.st);
      if Eval(e, st).Val? {
        if Drops(e, t) { DroppedPure(e, t, st); }
        hide C.BinaryValue, SimplifyBinary, LitsOk, SparesConsts, StoreOk, Agrees, DropsOnlyPure;
        SimplifyBinaryCorrect(e.op, Optimize(e.left, t).value, Optimize(e.right, t).value, st, rl.v, rl.st, rr.v, rr.st);
      }
    }
  }

  lemma DroppedPure(e: Expr, t: Table, st: Store)
    requires (e.Binary? || e.AndAlso? || e.OrElse?) && Optimize(e, t).Some? && DropsOnlyPure(e, t) && Drops(e, t)
    requires Eval(e, st).Val?
    ensures Eval(e, st).st == st && Eval(e.left, st).st == st
  {
    PureKeepsStore(e, st);
    PureKeepsStore(e.left, st);
  }

  lemma LogicStep(e: Expr, t: Table, st: Store)
    requires (e.AndAlso? || e.OrElse?) && Sound(e, t, st) && Kept(e.left, t, st)
    requires Eval(e.left, st).Val? ==> Kept(e.right, t, Eval(e.left, st).st)
    ensures Kept(e, t, st)
  {
    var rl := Eval(e.left, st);
    if rl.Val? && Eval(e, st).Val? {
      var l, r := Optimize(e.left, t).value, Optimize(e.right, t).value;
      if Drops(e, t) { DroppedPure(e, t, st); }
      NotEqualValue(rl.v, 0);
      LitEvals(l, st, rl.v, rl.st);
      hide C.BinaryValue, DropsOnlyPure, LitsOk, SparesConsts, StoreOk, Agrees;
      if r.Lit? {
        LitRight(r, rl.st);
        EvalsBinary(C.OpNe, l, Lit(0), st, rl.v, rl.st, 0, rl.st);
      }
    }
  }

  lemma LitRight(r: Expr, st: Store)
    requires r.Lit?
    ensures Eval(r, st) == Val(r.v, st) && Eval(Lit(0), st) == Val(0, st)
  {
  }

  lemma NotEqualValue(a: int, b: int)
    ensures C.BinaryValue(C.OpNe, C.Long, a, b) == C.Number(C.Truth(a != b))
  {
  }

  /** Wherever the expression has a value, its folding has the same value and the same effects. */
  lemma {:induction false} OptimizeCorrect(e: Expr, t: Table, st: Store)
    requires Sound(e, t, st)
    ensures Kept(e, t, st)
    decreases e
  {
    SoundParts(e, t, st);
    hide DropsOnlyPure, LitsOk, SparesConsts, StoreOk, Agrees, SimplifyBinary, SimplifyUnary, SimplifyAnd, SimplifyOr, C.BinaryValue, C.UnaryValue;
    match e
    case Lit(_) =>
    case Ref(x) => RefKept(x, t, st);
    case Unary(op, a) =>
      OptimizeCorrect(a, t, st);
      UnaryStep(e, t, st);
    case Binary(op, l, r) =>
      OptimizeCorrect(l, t, st);
      EvalSettled(l, t, st);
      if Eval(l, st).Val? { OptimizeCorrect(r, t, Eval(l, st).st); }
      BinaryStep(e, t, st);
    case AndAlso(l, r) =>
      OptimizeCorrect(l, t, st);
      EvalSettled(l, t, st);
      if Eval(l, st).Val? { OptimizeCorrect(r, t, Eval(l, st).st); }
      LogicStep(e, t, st);
    case OrElse(l, r) =>
      OptimizeCorrect(l, t, st);
      EvalSettled(l, t, st);
      if Eval(l, st).Val? { OptimizeCorrect(r, t, Eval(l, st).st); }
      LogicStep(e, t, st);
    case Cond(c, y, n) =>
      OptimizeCorrect(c, t, st);
      EvalSettled(c, t, st);
      if Eval(c, st).Val? {
        OptimizeCorrect(y, t, Eval(c, st).st);
        OptimizeCorrect(n, t, Eval(c, st).st);
        LitEvals(Optimize(c, t).value, st, Eval(c, st).v, Eval(c, st).st);
      }
    case Cast(to, a) =>
      OptimizeCorrect(a, t, st);
      EvalSettled(a, t, st);
      if Eval(a, st).Val? {
        CastExact(Eval(a, st).v, to);
        LitEvals(Optimize(a, t).value, st, Eval(a, st).v, Eval(a, st).st);
      }
    case Assign(x, a) =>
      OptimizeCorrect(a, t, st);
  }

  lemma RefKept(x: string, t: Table, st: Store)
    requires Agrees(t, st)
    ensures Kept(Ref(x), t, st)
  {
  }

  ghost predicate SoundIn(e: Expr, t: Table) {
    LitsOk(e) && SparesConsts(e, t) && Optimize(e, t).Some? && DropsOnlyPure(e, t)
  }

  /** The conditions pass to the operands. */
  lemma SoundParts(e: Expr, t: Table, st: Store)
    requires Sound(e, t, st)
    ensures match e
            case Unary(_, a) => SoundIn(a, t)
            case Binary(_, l, r) => SoundIn(l, t) && SoundIn(r, t)
            case AndAlso(l, r) => SoundIn(l, t) && SoundIn(r, t)
            case OrElse(l, r) => SoundIn(l, t) && SoundIn(r, t)
            case Cond(c, y, n) => SoundIn(c, t) && SoundIn(y, t) && SoundIn(n, t)
            case Cast(_, a) => SoundIn(a, t)
            case Assign(_, a) => SoundIn(a, t)
            case _ => true
  {
    hide SimplifyBinary, SimplifyUnary, SimplifyAnd, SimplifyOr, Vanishes;
  }
}
