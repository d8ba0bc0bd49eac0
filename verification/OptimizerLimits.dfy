/** Where folding itself divides LONG_MIN by -1: the compiler crashes. */
module OptimizerLimits {
  import opened Options
  import opened Words
  import opened Stores
  import opened Optimizer
  import opened OptimizerCorrect
  import C = Codegen

  /** d is e or a part of it. */
  predicate Within(d: Expr, e: Expr) {
    d == e ||
    match e
    case Unary(_, a) => Within(d, a)
    case Binary(_, l, r) => Within(d, l) || Within(d, r)
    case AndAlso(l, r) => Within(d, l) || Within(d, r)
    case OrElse(l, r) => Within(d, l) || Within(d, r)
    case Cond(c, y, n) => Within(d, c) || Within(d, y) || Within(d, n)
    case Cast(_, a) => Within(d, a)
    case Assign(_, a) => Within(d, a)
    case _ => false
  }

  /** A division or remainder whose operands fold to LONG_MIN and -1. */
  predicate Overflows(d: Expr, t: Table) {
    && d.Binary? && (d.op == C.OpDiv || d.op == C.OpMod)
    && Optimize(d.left, t) == Some(Lit(MIN_LONG)) && Optimize(d.right, t) == Some(Lit(-1))
  }

  lemma NodeCrash(e: Expr, t: Table)
    requires e.Binary?
    ensures Optimize(e, t).None? <==> Optimize(e.left, t).None? || Optimize(e.right, t).None? || Overflows(e, t)
  {
    hide C.BinaryValue, Identity, Vanishes, Reduce;
  }

  lemma {:induction false} CrashFound(e: Expr, t: Table) returns (d: Expr)
    requires Optimize(e, t).None?
    ensures Within(d, e) && Overflows(d, t)
    decreases e
  {
    hide SimplifyBinary, SimplifyAnd, SimplifyOr, SimplifyUnary, CastSafe, Overflows;
    match e
    case Unary(_, a) => d := CrashFound(a, t);
    case Binary(_, l, r) =>
      NodeCrash(e, t);
      if Optimize(l, t).None? { d := CrashFound(l, t); }
      else if Optimize(r, t).None? { d := CrashFound(r, t); }
      else { d := e; }
    case AndAlso(l, r) => if Optimize(l, t).None? { d := CrashFound(l, t); } else { d := CrashFound(r, t); }
    case OrElse(l, r) => if Optimize(l, t).None? { d := CrashFound(l, t); } else { d := CrashFound(r, t); }
    case Cond(c, y, n) =>
      if Optimize(c, t).None? { d := CrashFound(c, t); }
      else if Optimize(y, t).None? { d := CrashFound(y, t); }
      else { d := CrashFound(n, t); }
    case Cast(_, a) => d := CrashFound(a, t);
    case Assign(_, a) => d := CrashFound(a, t);
  }

  lemma {:induction false} CrashSpreads(e: Expr, t: Table, d: Expr)
    requires Within(d, e) && Overflows(d, t)
    ensures Optimize(e, t).None?
    decreases e
  {
    hide SimplifyBinary, SimplifyAnd, SimplifyOr, SimplifyUnary, CastSafe;
    if d == e {
      NodeCrash(e, t);
    } else {
      hide Overflows;
      match e
      case Unary(_, a) => CrashSpreads(a, t, d);
      case Binary(_, l, r) => if Within(d, l) { CrashSpreads(l, t, d); } else { CrashSpreads(r, t, d); }
      case AndAlso(l, r) => if Within(d, l) { CrashSpreads(l, t, d); } else { CrashSpreads(r, t, d); }
      case OrElse(l, r) => if Within(d, l) { CrashSpreads(l, t, d); } else { CrashSpreads(r, t, d); }
      case Cond(c, y, n) =>
        if Within(d, c) { CrashSpreads(c, t, d); } else if Within(d, y) { CrashSpreads(y, t, d); } else { CrashSpreads(n, t, d); }
      case Cast(_, a) => CrashSpreads(a, t, d);
      case Assign(_, a) => CrashSpreads(a, t, d);
      case _ =>
    }
  }

  /** The compiler crashes exactly on the expressions that hold such a division, evaluated or not. */
  lemma CrashExact(e: Expr, t: Table)
    ensures Optimize(e, t).None? <==> exists d :: Within(d, e) && Overflows(d, t)
  {
    hide Optimize, Within, Overflows;
    if Optimize(e, t).None? {
      var d := CrashFound(e, t);
    }
    if d :| Within(d, e) && Overflows(d, t) {
      CrashSpreads(e, t, d);
    }
  }

  // ---------------------------------------------------------------- whether the crash is right

  /** The part d is evaluated when e is. */
  predicate Evaluated(d: Expr, e: Expr, st: Store) {
    d == e ||
    match e
    case Unary(_, a) => Evaluated(d, a, st)
    case Binary(_, l, r) => Evaluated(d, l, st) || (Eval(l, st).Val? && Evaluated(d, r, Eval(l, st).st))
    case AndAlso(l, r) => Evaluated(d, l, st) || (Eval(l, st).Val? && Eval(l, st).v != 0 && Evaluated(d, r, Eval(l, st).st))
    case OrElse(l, r) => Evaluated(d, l, st) || (Eval(l, st).Val? && Eval(l, st).v == 0 && Evaluated(d, r, Eval(l, st).st))
    case Cond(c, y, n) =>
      Evaluated(d, c, st) || (Eval(c, st).Val? && Evaluated(d, if Eval(c, st).v != 0 then y else n, Eval(c, st).st))
    case Cast(_, a) => Evaluated(d, a, st)
    case Assign(_, a) => Evaluated(d, a, st)
    case _ => false
  }

  ghost predicate Setting(e: Expr, t: Table, st: Store) {
    Pure(e) && LitsOk(e) && StoreOk(st) && Agrees(t, st) && TableOk(t)
  }

  lemma {:induction false} PureSpares(e: Expr, t: Table)
    requires Pure(e)
    ensures SparesConsts(e, t)
  {
    match e
    case Unary(_, a) => PureSpares(a, t);
    case Binary(_, l, r) => PureSpares(l, t); PureSpares(r, t);
    case AndAlso(l, r) => PureSpares(l, t); PureSpares(r, t);
    case OrElse(l, r) => PureSpares(l, t); PureSpares(r, t);
    case Cond(c, y, n) => PureSpares(c, t); PureSpares(y, t); PureSpares(n, t);
    case Cast(_, a) => PureSpares(a, t);
    case _ =>
  }

  lemma OperandKept(e: Expr, t: Table, st: Store)
    requires Setting(e, t, st) && Optimize(e, t).Some? && Optimize(e, t).value.Lit?
    ensures Eval(e, st).Val? ==> Eval(e, st) == Val(Optimize(e, t).value.v, st)
  {
    PureSpares(e, t);
    PureDropsOnlyPure(e, t);
    hide StoreOk, Agrees, TableOk;
    OptimizeCorrect(e, t, st);
    if Eval(e, st).Val? { PureKeepsStore(e, st); }
  }

  lemma CrashTraps(d: Expr, t: Table, st: Store)
    requires Setting(d, t, st) && Overflows(d, t)
    ensures !Eval(d, st).Val?
  {
    LongValue(d.op, MIN_LONG, -1);
    assert TruncDiv(MIN_LONG, -1) == 0x8000_0000_0000_0000;
    hide StoreOk, Agrees, TableOk, Optimize, C.BinaryValue;
    OperandKept(d.left, t, st);
    OperandKept(d.right, t, st);
  }

  /** What is evaluated and has no value leaves the whole without one. */
  lemma {:induction false} TrapSpreads(d: Expr, e: Expr, t: Table, st: Store)
    requires Setting(e, t, st) && Overflows(d, t) && Evaluated(d, e, st)
    ensures !Eval(e, st).Val?
    decreases e
  {
    hide StoreOk, Agrees, TableOk, Optimize, Overflows, C.BinaryValue, C.UnaryValue, Convert;
    if d == e {
      CrashTraps(d, t, st);
    } else {
      match e
      case Unary(_, a) => TrapSpreads(d, a, t, st);
      case Binary(_, l, r) =>
        if Evaluated(d, l, st) { TrapSpreads(d, l, t, st); }
        else { PureKeepsStore(l, st); TrapSpreads(d, r, t, st); }
      case AndAlso(l, r) =>
        if Evaluated(d, l, st) { TrapSpreads(d, l, t, st); }
        else { PureKeepsStore(l, st); TrapSpreads(d, r, t, st); }
      case OrElse(l, r) =>
        if Evaluated(d, l, st) { TrapSpreads(d, l, t, st); }
        else { PureKeepsStore(l, st); TrapSpreads(d, r, t, st); }
      case Cond(c, y, n) =>
        if Evaluated(d, c, st) { TrapSpreads(d, c, t, st); }
        else { PureKeepsStore(c, st); TrapSpreads(d, if Eval(c, st).v != 0 then y else n, t, st); }
      case Cast(_, a) => TrapSpreads(d, a, t, st);
      case _ =>
    }
  }

  /** An expression has a value although the compiler crashes on it exactly where C evaluates none of those divisions. */
  lemma CrashWithValue(e: Expr, t: Table, st: Store)
    requires Setting(e, t, st) && Optimize(e, t).None? && Eval(e, st).Val?
    ensures exists d :: Within(d, e) && Overflows(d, t)
    ensures forall d :: Within(d, e) && Overflows(d, t) ==> !Evaluated(d, e, st)
  {
    hide *;
    CrashExact(e, t);
    forall d | Within(d, e) && Overflows(d, t) ensures !Evaluated(d, e, st) {
      if Evaluated(d, e, st) { TrapSpreads(d, e, t, st); }
    }
  }

  /** Every operand of e is evaluated whenever e is. */
  predicate Strict(e: Expr) {
    match e
    case Unary(_, a) => Strict(a)
    case Binary(_, l, r) => Strict(l) && Strict(r)
    case Cast(_, a) => Strict(a)
    case Lit(_) => true
    case Ref(_) => true
    case _ => false
  }

  lemma {:induction false} StrictEvaluates(d: Expr, e: Expr, st: Store)
    requires Strict(e) && Within(d, e) && Eval(e, st).Val?
    ensures Pure(e) && Evaluated(d, e, st)
    decreases e
  {
    hide C.BinaryValue, C.UnaryValue, Convert;
    StrictPure(e);
    if d != e {
      match e
      case Unary(_, a) => StrictEvaluates(d, a, st);
      case Binary(_, l, r) => if Within(d, l) { StrictEvaluates(d, l, st); } else { StrictEvaluates(d, r, Eval(l, st).st); }
      case Cast(_, a) => StrictEvaluates(d, a, st);
      case _ =>
    }
  }

  lemma {:induction false} StrictPure(e: Expr)
    requires Strict(e)
    ensures Pure(e)
  {
    match e
    case Unary(_, a) => StrictPure(a);
    case Binary(_, l, r) => StrictPure(l); StrictPure(r);
    case Cast(_, a) => StrictPure(a);
    case _ =>
  }

  /** An expression all of whose operands are evaluated crashes the compiler only if it has no value. */
  lemma CrashOnlyIfTrap(e: Expr, t: Table, st: Store)
    requires Strict(e) && LitsOk(e) && StoreOk(st) && Agrees(t, st) && TableOk(t) && Optimize(e, t).None?
    ensures !Eval(e, st).Val?
  {
    StrictPure(e);
    assert Setting(e, t, st);
    hide *;
    if Eval(e, st).Val? {
      var d := CrashFound(e, t);
      StrictEvaluates(d, e, st);
      TrapSpreads(d, e, t, st);
    }
  }

  /** A crash without a trap: 0 && LONG_MIN / -1. */
  lemma CrashWithoutTrap(st: Store)
    ensures var e := AndAlso(Lit(0), Binary(C.OpDiv, Lit(MIN_LONG), Lit(-1)));
      Eval(e, st) == Val(0, st) && Optimize(e, []) == None
  {
    var d := Binary(C.OpDiv, Lit(MIN_LONG), Lit(-1));
    assert Overflows(d, []);
    CrashSpreads(AndAlso(Lit(0), d), [], d);
  }
}
