/** The C value of an expression without any types: exact integers, with one size check per operation. */
module ExprMeaning {
  import opened Options
  import opened Words
  import opened Machine
  import opened Codegen

  /** Bytes of the type: the larger operand decides, except that a shift has its left operand's and a truth value int's. */
  function Size(e: Expr, ls: seq<Local>): nat {
    match e
    case Literal(_, ty) => if ty == Long then 8 else 4
    case Var(x) => SlotSize(ls, x)
    case Unary(op, a) => if op == LogNot then 4 else Size(a, ls)
    case Binary(op, l, r) =>
      if op in {OpEq, OpNe, OpLt, OpLe, OpGt, OpGe} then 4
      else if op in {OpShl, OpShr} || Size(l, ls) >= Size(r, ls) then Size(l, ls)
      else Size(r, ls)
    case LogAnd(_, _) => 4
    case LogOr(_, _) => 4
    case Assign(x, _) => SlotSize(ls, x)
  }

  /** A variable narrower than int is promoted. */
  function SlotSize(ls: seq<Local>, x: string): nat {
    if FindVar(ls, x).Some? && FindVar(ls, x).value.width.Size() == 8 then 8 else 4
  }

  /** The type that the generator records has this size. */
  lemma {:induction false} TypeSize(e: Expr, ls: seq<Local>)
    ensures Size(e, ls) == 4 || Size(e, ls) == 8
    ensures TypeOf(e, ls) == Long <==> Size(e, ls) == 8
    decreases e
  {
    match e
    case Literal(_, _) =>
    case Var(x) =>
    case Unary(_, a) => TypeSize(a, ls);
    case Binary(_, l, r) => TypeSize(l, ls); TypeSize(r, ls);
    case LogAnd(_, _) =>
    case LogOr(_, _) =>
    case Assign(_, _) =>
  }

  predicate Fits(v: int, bytes: nat) {
    if bytes == 8 then -0x8000_0000_0000_0000 <= v < 0x8000_0000_0000_0000 else -0x8000_0000 <= v < 0x8000_0000
  }

  function Checked(v: int, bytes: nat, env: Env): Option<(int, Env)> {
    if Fits(v, bytes) then Some((v, env)) else None
  }

  function ExactUnary(op: UnaryOp, v: int): int {
    match op
    case Minus => 0 - v
    case PlusSign => v
    case BitNot => -1 - v
    case LogNot => if v == 0 then 1 else 0
  }

  /** None where the operation has no exact value: a zero divisor, or a shift by a negative count or one not below the size. */
  function ExactBinary(op: BinaryOp, a: int, b: int, bytes: nat): Option<int> {
    match op
    case OpAdd => Some(a + b)
    case OpSub => Some(a - b)
    case OpMul => Some(a * b)
    case OpDiv => if b == 0 then None else Some(TruncDiv(a, b))
    case OpMod => if b == 0 || !Fits(TruncDiv(a, b), bytes) then None else Some(TruncMod(a, b))
    case OpShl => if 0 <= b < 8 * bytes then Some(a * Pow2(b)) else None
    case OpShr => if 0 <= b < 8 * bytes then Some(a / Pow2(b)) else None
    case OpEq => Some(if a == b then 1 else 0)
    case OpNe => Some(if a == b then 0 else 1)
    case OpLt => Some(if a < b then 1 else 0)
    case OpLe => Some(if b < a then 0 else 1)
    case OpGt => Some(if b < a then 1 else 0)
    case OpGe => Some(if a < b then 0 else 1)
    case _ => if bytes == 8 then Some(ExactBits(op, a, b, W64)) else Some(ExactBits(op, a, b, W32))
  }

  /** On two's complement words; xor is or without and. */
  function ExactBits(op: BinaryOp, a: int, b: int, m: nat): int
    requires m == W32 || m == W64
  {
    var x, y, w := Residue(a, m), Residue(b, m), if m == W64 then 64 else 32;
    Pow2Values();
    if op == OpAnd then Signed(Bitwise(AndBits, x, y, w), m)
    else if op == OpOr then Signed(Bitwise(OrBits, x, y, w), m)
    else Signed(Bitwise(XorBits, x, y, w), m)
  }

  /** The exact value, if every operation on the way has one that fits its size. */
  function Exact(e: Expr, ls: seq<Local>, env: Env): Option<(int, Env)> {
    match e
    case Literal(v, ty) => Checked(v, if ty == Long then 8 else 4, env)
    case Var(x) => if x in env then Some((env[x], env)) else None
    case Unary(op, a) =>
      var r := Exact(a, ls, env);
      if r.None? then None else Checked(ExactUnary(op, r.value.0), Size(e, ls), r.value.1)
    case Binary(op, l, r) =>
      var a := Exact(l, ls, env);
      if a.None? then None
      else
        var b := Exact(r, ls, a.value.1);
        if b.None? then None
        else
          var bytes := if op in {OpShl, OpShr} || Size(l, ls) >= Size(r, ls) then Size(l, ls) else Size(r, ls);
          var v := ExactBinary(op, a.value.0, b.value.0, bytes);
          if v.None? then None else Checked(v.value, bytes, b.value.1)
    case LogAnd(l, r) =>
      var a := Exact(l, ls, env);
      if a.None? then None
      else if a.value.0 == 0 then Some((0, a.value.1))
      else var b := Exact(r, ls, a.value.1); if b.None? then None else Some((if b.value.0 == 0 then 0 else 1, b.value.1))
    case LogOr(l, r) =>
      var a := Exact(l, ls, env);
      if a.None? then None
      else if a.value.0 != 0 then Some((1, a.value.1))
      else var b := Exact(r, ls, a.value.1); if b.None? then None else Some((if b.value.0 == 0 then 0 else 1, b.value.1))
    case Assign(x, a) =>
      var r := Exact(a, ls, env);
      var lv := FindVar(ls, x);
      if r.None? || lv.None? || !FitsSlot(r.value.0, lv.value.width) then None
      else Some((r.value.0, r.value.1[x := r.value.0]))
  }

  predicate FitsSlot(v: int, w: Width) {
    match w
    case Byte8 => -0x80 <= v < 0x80
    case Half16 => -0x8000 <= v < 0x8000
    case Dword32 => -0x8000_0000 <= v < 0x8000_0000
    case Qword64 => -0x8000_0000_0000_0000 <= v < 0x8000_0000_0000_0000
  }

  /** A slot of that many bytes holds exactly these values. */
  lemma SlotRange(v: int, w: Width)
    ensures FitsSlot(v, w) <==> InRange(v, w.Modulus())
    ensures w.Size() == (match w case Byte8 => 1 case Half16 => 2 case Dword32 => 4 case Qword64 => 8) && w.Modulus() == Pow2(8 * w.Size())
  {
    Pow2Values();
  }

  lemma FitsRange(v: int, ty: Type)
    ensures Fits(v, if ty == Long then 8 else 4) <==> InRange(v, ty.Modulus())
  {
  }

  lemma UnaryExact(op: UnaryOp, ty: Type, v: int)
    requires Fits(ExactUnary(op, v), if ty == Long && op != LogNot then 8 else 4)
    ensures UnaryValue(op, ty, v) == ExactUnary(op, v)
  {
    if op != LogNot { WrapInRange(ExactUnary(op, v), ty.Modulus()); }
  }

  lemma BinaryExact(op: BinaryOp, ty: Type, a: int, b: int)
    requires var bytes := if ty == Long then 8 else 4;
      ExactBinary(op, a, b, bytes).Some? && Fits(ExactBinary(op, a, b, bytes).value, bytes)
    ensures BinaryValue(op, ty, a, b) == Number(ExactBinary(op, a, b, if ty == Long then 8 else 4).value)
  {
    var m := ty.Modulus();
    Pow2Values();
    hide Bitwise, Pow2, TruncDiv, TruncMod, Signed, Residue;
    match op
    case OpAdd => WrapInRange(a + b, m);
    case OpSub => WrapInRange(a - b, m);
    case OpMul => WrapInRange(a * b, m);
    case OpShl => WrapInRange(a * Pow2(b), m);
    case _ =>
  }

  /** Where no operation overflows the size of its type, the value is the exact one and the variables change as assigned. */
  lemma {:induction false} EvalExact(e: Expr, ls: seq<Local>, env: Env)
    requires Exact(e, ls, env).Some?
    ensures var r := Exact(e, ls, env).value; Eval(e, ls, env) == Val(r.0, r.1)
    decreases e
  {
    hide BinaryValue, UnaryValue, ExactUnary, ExactBinary, Fits, FindVar, TypeOf;
    match e
    case Literal(v, ty) =>
      FitsRange(v, ty);
      WrapInRange(v, ty.Modulus());
    case Var(x) =>
    case Unary(op, a) =>
      EvalExact(a, ls, env);
      TypeSize(a, ls);
      UnaryExact(op, TypeOf(a, ls), Exact(a, ls, env).value.0);
    case Binary(op, l, r) =>
      EvalExact(l, ls, env);
      EvalExact(r, ls, Exact(l, ls, env).value.1);
      TypeSize(l, ls);
      TypeSize(r, ls);
      var ty := if op.IsShift() then TypeOf(l, ls) else Common(TypeOf(l, ls), TypeOf(r, ls));
      BinaryExact(op, ty, Exact(l, ls, env).value.0, Exact(r, ls, Exact(l, ls, env).value.1).value.0);
    case LogAnd(l, r) =>
      EvalExact(l, ls, env);
      if Exact(l, ls, env).value.0 != 0 { EvalExact(r, ls, Exact(l, ls, env).value.1); }
    case LogOr(l, r) =>
      EvalExact(l, ls, env);
      if Exact(l, ls, env).value.0 == 0 { EvalExact(r, ls, Exact(l, ls, env).value.1); }
    case Assign(x, a) =>
      EvalExact(a, ls, env);
      SlotRange(Exact(a, ls, env).value.0, FindVar(ls, x).value.width);
      WrapInRange(Exact(a, ls, env).value.0, FindVar(ls, x).value.width.Modulus());
  }
}
