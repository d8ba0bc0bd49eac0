/** Expression folding (optimize_expr in src/optimize.c) at signed 64-bit type.

    Operators mean what the generated code computes (Codegen.BinaryValue at type long), so that
    meaning preserved here is meaning preserved down to the machine.
 */
module Optimizer {
  import opened Options
  import opened Words
  import opened Stores
  import C = Codegen

  datatype Kind = Bool | Char(unsigned: bool) | Short(unsigned: bool) | Int(unsigned: bool) | Long

  datatype Expr =
    | Lit(v: int)
    | Ref(x: string)
    | Unary(uop: C.UnaryOp, arg: Expr)
    | Binary(op: C.BinaryOp, left: Expr, right: Expr)
    | AndAlso(left: Expr, right: Expr)
    | OrElse(left: Expr, right: Expr)
    | Cond(test: Expr, yes: Expr, no: Expr)
    | Cast(to: Kind, arg: Expr)
    | Assign(x: string, arg: Expr)

  // ---------------------------------------------------------------- meaning

  /** The value of (long)(T)v. */
  function Convert(v: int, to: Kind): int {
    match to
    case Bool => C.Truth(v != 0)
    case Char(u) => if u then Residue(v, W8) else Wrap(v, W8)
    case Short(u) => if u then Residue(v, W16) else Wrap(v, W16)
    case Int(u) => if u then Residue(v, W32) else Wrap(v, W32)
    case Long => v
  }

  /** A value and the variables afterwards; a trapping division; or behaviour C leaves undefined. */
  datatype Result = Val(v: int, st: Store) | Trap | Undefined

  function Eval(e: Expr, st: Store): Result {
    match e
    case Lit(v) => Val(v, st)
    case Ref(x) => var c := Get(st, x); if c.Some? then Val(c.value, st) else Undefined
    case Unary(op, a) =>
      var r := Eval(a, st);
      if r.Val? then Val(C.UnaryValue(op, C.Long, r.v), r.st) else r
    case Binary(op, l, r) =>
      var rl := Eval(l, st);
      if !rl.Val? then rl else
      var rr := Eval(r, rl.st);
      if !rr.Val? then rr else
      Operate(op, rl.v, rr.v, rr.st)
    case AndAlso(l, r) =>
      var rl := Eval(l, st);
      if !rl.Val? then rl
      else if rl.v == 0 then Val(0, rl.st)
      else AsTruth(Eval(r, rl.st))
    case OrElse(l, r) =>
      var rl := Eval(l, st);
      if !rl.Val? then rl
      else if rl.v != 0 then Val(1, rl.st)
      else AsTruth(Eval(r, rl.st))
    case Cond(c, t, f) =>
      var rc := Eval(c, st);
      if !rc.Val? then rc else if rc.v != 0 then Eval(t, rc.st) else Eval(f, rc.st)
    case Cast(to, a) =>
      var r := Eval(a, st);
      if r.Val? then Val(Convert(r.v, to), r.st) else r
    case Assign(x, a) =>
      var r := Eval(a, st);
      if !r.Val? then r
      else if Find(r.st, x).None? then Undefined
      else Val(r.v, Set(r.st, x, r.v))
  }

  function Operate(op: C.BinaryOp, a: int, b: int, st: Store): Result {
    match C.BinaryValue(op, C.Long, a, b)
    case Number(n) => Val(n, st)
    case Traps => Trap
    case NoMeaning => Undefined
  }

  function AsTruth(r: Result): Result {
    if r.Val? then Val(C.Truth(r.v != 0), r.st) else r
  }

  // ---------------------------------------------------------------- the const table

  datatype ConstEntry = ConstEntry(name: string, value: int)

  type Table = seq<ConstEntry>

  /** The most recent entry of that name (const_prop_lookup scans from the end). */
  function Lookup(t: Table, x: string): (r: Option<int>)
    ensures r.None? <==> forall e :: e in t ==> e.name != x
  {
    if t == [] then None
    else if t[|t| - 1].name == x then Some(t[|t| - 1].value)
    else Lookup(t[..|t| - 1], x)
  }

  method ConstPropLookup(t: Table, x: string) returns (r: Option<int>)
    ensures r == Lookup(t, x)
  {
    var j := |t|;
    assert t[..j] == t;
    while j > 0
      invariant 0 <= j <= |t| && Lookup(t, x) == Lookup(t[..j], x)
    {
      j := j - 1;
      assert t[..j + 1][..j] == t[..j];
      if t[j].name == x { return Some(t[j].value); }
    }
    return None;
  }

  // ---------------------------------------------------------------- rules

  const MIN_LONG: int := -0x8000_0000_0000_0000

  /** What the compiler computes for two literals: Crash where the division overflows (idiv traps), NoFold leaves the node. */
  datatype Fold = Crash | NoFold | Folded(v: int)

  function FoldBinary(op: C.BinaryOp, a: int, b: int): Fold {
    match op
    case OpDiv => if b == 0 then NoFold else if a == MIN_LONG && b == -1 then Crash else Folded(TruncDiv(a, b))
    case OpMod => if b == 0 then NoFold else if a == MIN_LONG && b == -1 then Crash else Folded(TruncMod(a, b))
    case OpShl => Folded(Wrap(a * Pow2(b % 64), W64))
    case OpShr => Folded(a / Pow2(b % 64))
    case _ =>
      var s := C.BinaryValue(op, C.Long, a, b);
      if s.Number? then Folded(s.n) else NoFold
  }

  /** v & (v - 1) == 0 for v > 1. */
  predicate IsPow2(v: int) {
    Pow2Values();
    v > 1 && C.BitsOf(AndBits, v, v - 1, W64, 64) == 0
  }

  function Log2(v: int): (n: nat)
    decreases v
  {
    if v <= 1 then 0 else 1 + Log2(v / 2)
  }

  /** The loop that counts the shift. */
  method ShiftCount(v: int) returns (n: nat)
    ensures n == Log2(v)
  {
    var tmp := v;
    n := 0;
    while tmp > 1
      invariant n + Log2(tmp) == Log2(v)
    {
      tmp := tmp / 2;
      n := n + 1;
    }
  }

  predicate IsLit(e: Expr, v: int) {
    e == Lit(v)
  }

  predicate SameVar(l: Expr, r: Expr) {
    l.Ref? && r.Ref? && l.x == r.x
  }

  /** The operand that an identity rule keeps. */
  function Identity(op: C.BinaryOp, l: Expr, r: Expr): Option<Expr> {
    match op
    case OpAdd => if IsLit(r, 0) then Some(l) else if IsLit(l, 0) then Some(r) else None
    case OpSub => if IsLit(r, 0) then Some(l) else None
    case OpMul => if IsLit(r, 1) then Some(l) else if IsLit(l, 1) then Some(r) else None
    case OpDiv => if IsLit(r, 1) then Some(l) else None
    case OpOr => if IsLit(r, 0) then Some(l) else if IsLit(l, 0) then Some(r) else None
    case OpAnd => if IsLit(r, -1) then Some(l) else if IsLit(l, -1) then Some(r) else None
    case _ => None
  }

  /** A zero rule throws both operands away. */
  predicate Vanishes(op: C.BinaryOp, l: Expr, r: Expr) {
    match op
    case OpMul => IsLit(r, 0) || IsLit(l, 0)
    case OpDiv => IsLit(l, 0)
    case OpAnd => IsLit(r, 0) || IsLit(l, 0)
    case OpSub => SameVar(l, r)
    case OpXor => SameVar(l, r)
    case _ => false
  }

  function Reduce(op: C.BinaryOp, l: Expr, r: Expr): Expr {
    if op == C.OpMul && r.Lit? && IsPow2(r.v) then Binary(C.OpShl, l, Lit(Log2(r.v)))
    else if op == C.OpMul && l.Lit? && IsPow2(l.v) then Binary(C.OpShl, r, Lit(Log2(l.v)))
    else if op == C.OpDiv && r.Lit? && IsPow2(r.v) && l.Lit? && l.v >= 0 then Binary(C.OpShr, l, Lit(Log2(r.v)))
    else Binary(op, l, r)
  }

  function SimplifyBinary(op: C.BinaryOp, l: Expr, r: Expr): Option<Expr> {
    var f := if l.Lit? && r.Lit? then FoldBinary(op, l.v, r.v) else NoFold;
    if f.Crash? then None
    else if f.Folded? then Some(Lit(f.v))
    else
      var k := Identity(op, l, r);
      if k.Some? then k
      else if Vanishes(op, l, r) then Some(Lit(0))
      else Some(Reduce(op, l, r))
  }

  function SimplifyAnd(l: Expr, r: Expr): Expr {
    if l.Lit? && l.v == 0 then Lit(0)
    else if l.Lit? && r.Lit? then Lit(C.Truth(r.v != 0))
    else if r.Lit? && r.v == 0 then Lit(0)
    else if r.Lit? then Binary(C.OpNe, l, Lit(0))
    else AndAlso(l, r)
  }

  function SimplifyOr(l: Expr, r: Expr): Expr {
    if l.Lit? && l.v != 0 then Lit(1)
    else if l.Lit? && r.Lit? then Lit(C.Truth(r.v != 0))
    else if r.Lit? && r.v != 0 then Lit(1)
    else if r.Lit? then Binary(C.OpNe, l, r)
    else OrElse(l, r)
  }

  function SimplifyUnary(op: C.UnaryOp, a: Expr): Expr {
    if a.Lit? then Lit(C.UnaryValue(op, C.Long, a.v))
    else if op == C.LogNot && a.Unary? && a.uop == C.LogNot && !a.arg.Lit? then Binary(C.OpNe, a.arg, Lit(0))
    else if op == C.Minus && a.Unary? && a.uop == C.Minus && !a.arg.Lit? then a.arg
    else Unary(op, a)
  }

  /** cast_value_safe at the kinds of this model. */
  predicate CastSafe(v: int, to: Kind) {
    match to
    case Bool => v == 0 || v == 1
    case Char(u) => if u then 0 <= v <= 255 else -128 <= v <= 127
    case Short(u) => if u then 0 <= v <= 65535 else -32768 <= v <= 32767
    case Int(u) => if u then 0 <= v <= 4294967295 else -2147483648 <= v <= 2147483647
    case Long => true
  }

  /** optimize_expr; None where the compiler itself divides LONG_MIN by -1. */
  function Optimize(e: Expr, t: Table): Option<Expr> {
    match e
    case Lit(_) => Some(e)
    case Ref(x) => var c := Lookup(t, x); Some(if c.Some? then Lit(c.value) else e)
    case Unary(op, a) =>
      var oa := Optimize(a, t);
      if oa.None? then None else Some(SimplifyUnary(op, oa.value))
    case Binary(op, l, r) =>
      var ol, or := Optimize(l, t), Optimize(r, t);
      if ol.None? || or.None? then None else SimplifyBinary(op, ol.value, or.value)
    case AndAlso(l, r) =>
      var ol, or := Optimize(l, t), Optimize(r, t);
      if ol.None? || or.None? then None else Some(SimplifyAnd(ol.value, or.value))
    case OrElse(l, r) =>
      var ol, or := Optimize(l, t), Optimize(r, t);
      if ol.None? || or.None? then None else Some(SimplifyOr(ol.value, or.value))
    case Cond(c, y, n) =>
      var oc, oy, on := Optimize(c, t), Optimize(y, t), Optimize(n, t);
      if oc.None? || oy.None? || on.None? then None
      else if oc.value.Lit? then Some(if oc.value.v != 0 then oy.value else on.value)
      else Some(Cond(oc.value, oy.value, on.value))
    case Cast(to, a) =>
      var oa := Optimize(a, t);
      if oa.None? then None
      else if oa.value.Lit? && CastSafe(oa.value.v, to) then Some(oa.value)
      else Some(Cast(to, oa.value))
    case Assign(x, a) =>
      var oa := Optimize(a, t);
      if oa.None? then None else Some(Assign(x, oa.value))
  }
}
