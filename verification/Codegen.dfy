/** Code generation for signed int and long expressions (codegen_expression and
    expr_result_type in src/codegen.c), and the meaning of those expressions in C.
 */
module Codegen {
  import opened Options
  import opened Numerals
  import opened Words
  import opened Machine

  datatype Type = Int | Long {
    function Width(): Width {
      if this == Int then Dword32 else Qword64
    }

    function Modulus(): (m: nat)
      ensures m > 0 && m % 2 == 0 && m == Width().Modulus()
    {
      if this == Int then W32 else W64
    }
  }

  datatype UnaryOp = Minus | PlusSign | BitNot | LogNot

  datatype BinaryOp =
    | OpAdd | OpSub | OpMul | OpDiv | OpMod
    | OpAnd | OpXor | OpOr
    | OpShl | OpShr
    | OpEq | OpNe | OpLt | OpLe | OpGt | OpGe
  {
    predicate IsShift() { OpShl? || OpShr? }
    predicate IsCompare() { OpEq? || OpNe? || OpLt? || OpLe? || OpGt? || OpGe? }
  }

  datatype Expr =
    | Literal(value: int, ty: Type)
    | Var(name: string)
    | Unary(uop: UnaryOp, arg: Expr)
    | Binary(op: BinaryOp, left: Expr, right: Expr)
    | LogAnd(left: Expr, right: Expr)
    | LogOr(left: Expr, right: Expr)
    | Assign(name: string, arg: Expr)

  /** A local variable of `width.Size()` bytes at [rbp - offset]. */
  datatype Local = Local(name: string, offset: int, width: Width)

  /** The most recently declared local of that name wins (codegen_find_var). */
  function FindVar(ls: seq<Local>, name: string): (r: Option<Local>)
    ensures r.Some? ==> r.value in ls && r.value.name == name
    ensures r.None? <==> forall lv :: lv in ls ==> lv.name != name
  {
    if ls == [] then None
    else if ls[|ls| - 1].name == name then Some(ls[|ls| - 1])
    else FindVar(ls[..|ls| - 1], name)
  }

  /** The backward scan of codegen_find_var. */
  method CodegenFindVar(ls: seq<Local>, name: string) returns (r: Option<Local>)
    ensures r == FindVar(ls, name)
  {
    var i := |ls|;
    assert ls[..i] == ls;
    while i > 0
      invariant 0 <= i <= |ls| && FindVar(ls, name) == FindVar(ls[..i], name)
    {
      i := i - 1;
      assert ls[..i + 1][..i] == ls[..i];
      if ls[i].name == name { return Some(ls[i]); }
    }
    return None;
  }

  /** The promoted type of a local of a given size (type_kind_from_size). */
  function TypeOfWidth(w: Width): Type {
    if w == Qword64 then Long else Int
  }

  function Common(a: Type, b: Type): Type {
    if a == Long || b == Long then Long else Int
  }

  /** expr_result_type: an undeclared name counts as int here, and is rejected by Gen. */
  function TypeOf(e: Expr, ls: seq<Local>): Type {
    match e
    case Literal(_, ty) => ty
    case Var(x) => var lv := FindVar(ls, x); if lv.Some? then TypeOfWidth(lv.value.width) else Int
    case Unary(op, a) => if op == LogNot then Int else TypeOf(a, ls)
    case Binary(op, l, r) =>
      if op.IsShift() then TypeOf(l, ls)
      else if op.IsCompare() then Int
      else Common(TypeOf(l, ls), TypeOf(r, ls))
    case LogAnd(_, _) => Int
    case LogOr(_, _) => Int
    case Assign(x, _) => var lv := FindVar(ls, x); if lv.Some? then TypeOfWidth(lv.value.width) else Int
  }

  predicate Declared(e: Expr, ls: seq<Local>) {
    match e
    case Literal(_, _) => true
    case Var(x) => FindVar(ls, x).Some?
    case Unary(_, a) => Declared(a, ls)
    case Binary(_, l, r) => Declared(l, ls) && Declared(r, ls)
    case LogAnd(l, r) => Declared(l, ls) && Declared(r, ls)
    case LogOr(l, r) => Declared(l, ls) && Declared(r, ls)
    case Assign(x, a) => FindVar(ls, x).Some? && Declared(a, ls)
  }

  // ---------------------------------------------------------------- emission

  function LabelName(prefix: string, n: nat): Label {
    prefix + Decimal(n)
  }

  const AND_FALSE := ".L_and_false_"
  const AND_END := ".L_and_end_"
  const OR_TRUE := ".L_or_true_"
  const OR_END := ".L_or_end_"

  function Widen(from: Type, to: Type): Program {
    if from == Int && to == Long then [Movsxd(RAX, RAX)] else []
  }

  function TestZero(ty: Type): Program {
    [CmpImm(ty.Width(), RAX, 0)]
  }

  function Setter(op: BinaryOp): Cond
    requires op.IsCompare()
  {
    match op
    case OpEq => CondE
    case OpNe => CondNE
    case OpLt => CondL
    case OpLe => CondLE
    case OpGt => CondG
    case OpGe => CondGE
  }

  /** The instructions after the operands are in rcx (left) and rax (right). */
  function Operate(op: BinaryOp, w: Width): Program {
    match op
    case OpAdd => [Alu(Add, w, RAX, RCX)]
    case OpSub => [Alu(Sub, w, RCX, RAX), Mov(w, RAX, RCX)]
    case OpMul => [Alu(Imul, w, RAX, RCX)]
    case OpDiv => [Xchg(w, RAX, RCX), SignDx(w), Idiv(w, RCX)]
    case OpMod => [Xchg(w, RAX, RCX), SignDx(w), Idiv(w, RCX), Mov(w, RAX, RDX)]
    case OpAnd => [Alu(And, w, RAX, RCX)]
    case OpXor => [Alu(Xor, w, RAX, RCX)]
    case OpOr => [Alu(Or, w, RAX, RCX)]
    case OpShl => [Xchg(Qword64, RAX, RCX), ShiftLeft(w, RAX)]
    case OpShr => [Xchg(Qword64, RAX, RCX), ShiftRight(w, RAX)]
    case _ => [Cmp(w, RCX, RAX), Setcc(Setter(op), RAX), Movzx(RAX, RAX)]
  }

  function UnaryCode(op: UnaryOp, ty: Type): Program {
    match op
    case Minus => [Neg(ty.Width(), RAX)]
    case PlusSign => []
    case BitNot => [Not(ty.Width(), RAX)]
    case LogNot => TestZero(ty) + [Setcc(CondE, RAX), Movzx(RAX, RAX)]
  }

  function LoadLocal(lv: Local): Instr {
    if lv.width in {Byte8, Half16} then LoadSx(lv.width, RAX, RBP, -lv.offset)
    else Load(lv.width, RAX, RBP, -lv.offset)
  }

  function StoreLocal(lv: Local, from: Type): Program {
    Widen(from, if lv.width == Qword64 then Long else from) + [Store(lv.width, RBP, -lv.offset, RAX)]
  }

  /** Instructions, the label counter afterwards, and the result type recorded on the node. */
  datatype Emitted = Emitted(code: Program, next: nat, ty: Type)

  function BinaryInstrs(op: BinaryOp, gl: Emitted, gr: Emitted, lt: Type, rt: Type): Program {
    gl.code + Widen(gl.ty, lt) + [Push(RAX)] + gr.code + Widen(gr.ty, rt) + [Pop(RCX)] + Operate(op, lt.Width())
  }

  /** Test the left operand and perhaps skip; otherwise normalise the right one and jump over the
      constant that the skipping path loads. */
  function ShortCircuitCode(gl: Emitted, gr: Emitted, cc: Cond, skip: Label, end: Label, c: int): Program {
    gl.code + TestZero(gl.ty) + [Jcc(cc, skip)] + gr.code + TestZero(gr.ty)
    + [Setcc(CondNE, RAX), Movzx(RAX, RAX), Jmp(end), Def(skip), MovImm(Dword32, RAX, c), Def(end)]
  }

  /** codegen_expression; None is a compile error (an undeclared variable). */
  function Gen(e: Expr, ls: seq<Local>, n: nat): (r: Option<Emitted>)
    ensures r.Some? <==> Declared(e, ls)
    ensures r.Some? ==> r.value.next >= n && r.value.ty == TypeOf(e, ls)
  {
    match e
    case Literal(v, ty) => Some(Emitted([MovImm(ty.Width(), RAX, v)], n, ty))
    case Var(x) =>
      var lv := FindVar(ls, x);
      if lv.None? then None
      else Some(Emitted([LoadLocal(lv.value)], n, TypeOfWidth(lv.value.width)))
    case Unary(op, a) =>
      var g := Gen(a, ls, n);
      if g.None? then None
      else Some(Emitted(g.value.code + UnaryCode(op, g.value.ty), g.value.next,
                        if op == LogNot then Int else g.value.ty))
    case Binary(op, l, r) =>
      var gl := Gen(l, ls, n);
      if gl.None? then None else
      var gr := Gen(r, ls, gl.value.next);
      if gr.None? then None else
      var common := Common(TypeOf(l, ls), TypeOf(r, ls));
      if op.IsShift() then
        Some(Emitted(BinaryInstrs(op, gl.value, gr.value, gl.value.ty, gr.value.ty), gr.value.next, gl.value.ty))
      else
        Some(Emitted(BinaryInstrs(op, gl.value, gr.value, common, common), gr.value.next,
                     if op.IsCompare() then Int else common))
    case LogAnd(l, r) =>
      var gl := Gen(l, ls, n + 1);
      if gl.None? then None else
      var gr := Gen(r, ls, gl.value.next);
      if gr.None? then None else
      Some(Emitted(ShortCircuitCode(gl.value, gr.value, CondE, LabelName(AND_FALSE, n), LabelName(AND_END, n), 0),
                   gr.value.next, Int))
    case LogOr(l, r) =>
      var gl := Gen(l, ls, n + 1);
      if gl.None? then None else
      var gr := Gen(r, ls, gl.value.next);
      if gr.None? then None else
      Some(Emitted(ShortCircuitCode(gl.value, gr.value, CondNE, LabelName(OR_TRUE, n), LabelName(OR_END, n), 1),
                   gr.value.next, Int))
    case Assign(x, a) =>
      var lv := FindVar(ls, x);
      if lv.None? then None else
      var g := Gen(a, ls, n);
      if g.None? then None else
      Some(Emitted(g.value.code + StoreLocal(lv.value, g.value.ty), g.value.next, TypeOfWidth(lv.value.width)))
  }

  // ---------------------------------------------------------------- meaning in C

  type Env = map<string, int>

  /** A value and the variables afterwards; a trapping division; or behaviour C leaves undefined
      (an uninitialised variable, a shift count outside the type). */
  datatype Result = Val(v: int, env: Env) | Trap | Undefined

  datatype Scalar = Number(n: int) | Traps | NoMeaning

  function Truth(b: bool): int {
    if b then 1 else 0
  }

  function BitsOf(op: BitOp, a: int, b: int, m: nat, w: nat): int
    requires m > 0 && m % 2 == 0 && m == Pow2(w)
  {
    Signed(Bitwise(op, Residue(a, m), Residue(b, m), w), m)
  }

  /** The value of an operator at a type of modulus m and w bits: exact where C defines it,
      modulo m where the exact result does not fit. */
  function BinaryValue(op: BinaryOp, ty: Type, a: int, b: int): Scalar {
    var m, w := ty.Modulus(), ty.Width().Bits();
    SizeModulus(ty.Width());
    match op
    case OpAdd => Number(Wrap(a + b, m))
    case OpSub => Number(Wrap(a - b, m))
    case OpMul => Number(Wrap(a * b, m))
    case OpDiv => if b == 0 || !InRange(TruncDiv(a, b), m) then Traps else Number(TruncDiv(a, b))
    case OpMod => if b == 0 || !InRange(TruncDiv(a, b), m) then Traps else Number(TruncMod(a, b))
    case OpAnd => Number(BitsOf(AndBits, a, b, m, w))
    case OpXor => Number(BitsOf(XorBits, a, b, m, w))
    case OpOr => Number(BitsOf(OrBits, a, b, m, w))
    case OpShl => if 0 <= b < w then Number(Wrap(a * Pow2(b), m)) else NoMeaning
    case OpShr => if 0 <= b < w then Number(a / Pow2(b)) else NoMeaning
    case OpEq => Number(Truth(a == b))
    case OpNe => Number(Truth(a != b))
    case OpLt => Number(Truth(a < b))
    case OpLe => Number(Truth(a <= b))
    case OpGt => Number(Truth(a > b))
    case OpGe => Number(Truth(a >= b))
  }

  function UnaryValue(op: UnaryOp, ty: Type, a: int): int {
    match op
    case Minus => Wrap(-a, ty.Modulus())
    case PlusSign => a
    case BitNot => -a - 1
    case LogNot => Truth(a == 0)
  }

  function Eval(e: Expr, ls: seq<Local>, env: Env): Result {
    match e
    case Literal(v, ty) => Val(Wrap(v, ty.Modulus()), env)
    case Var(x) => if x in env then Val(env[x], env) else Undefined
    case Unary(op, a) =>
      var r := Eval(a, ls, env);
      if r.Val? then Val(UnaryValue(op, TypeOf(a, ls), r.v), r.env) else r
    case Binary(op, l, r) =>
      var rl := Eval(l, ls, env);
      if !rl.Val? then rl else
      var rr := Eval(r, ls, rl.env);
      if !rr.Val? then rr else
      var ty := if op.IsShift() then TypeOf(l, ls) else Common(TypeOf(l, ls), TypeOf(r, ls));
      (match BinaryValue(op, ty, rl.v, rr.v)
       case Number(n) => Val(n, rr.env)
       case Traps => Trap
       case NoMeaning => Undefined)
    case LogAnd(l, r) =>
      var rl := Eval(l, ls, env);
      if !rl.Val? then rl
      else if rl.v == 0 then Val(0, rl.env)
      else
        var rr := Eval(r, ls, rl.env);
        if rr.Val? then Val(Truth(rr.v != 0), rr.env) else rr
    case LogOr(l, r) =>
      var rl := Eval(l, ls, env);
      if !rl.Val? then rl
      else if rl.v != 0 then Val(1, rl.env)
      else
        var rr := Eval(r, ls, rl.env);
        if rr.Val? then Val(Truth(rr.v != 0), rr.env) else rr
    case Assign(x, a) =>
      var r := Eval(a, ls, env);
      var lv := FindVar(ls, x);
      if !r.Val? then r
      else if lv.None? then Undefined
      else
        var v := Wrap(r.v, lv.value.width.Modulus());
        Val(v, r.env[x := v])
  }

  // ---------------------------------------------------------------- the generator object

  /** The part of the CodeGen record that expression emission updates. */
  class CodeGen {
    var output: Program
    var labelCount: nat
    var pushDepth: int
    var locals: seq<Local>

    constructor ()
      ensures output == [] && labelCount == 0 && pushDepth == 0 && locals == []
    {
      output, labelCount, pushDepth, locals := [], 0, 0, [];
    }

    method Emit(c: Program)
      modifies this`output
      ensures output == old(output) + c
    {
      output := output + c;
    }

    /** One left-to-right walk over the tree appends exactly the code of the pure description,
        advances the label counter past the labels used and leaves push_depth as it was. */
    method Expression(e: Expr) returns (ty: Option<Type>)
      modifies this`output, this`labelCount, this`pushDepth
      ensures ty.Some? <==> Declared(e, locals)
      ensures ty.Some? ==>
        var g := Gen(e, locals, old(labelCount)).value;
        output == old(output) + g.code && labelCount == g.next && pushDepth == old(pushDepth) && ty.value == g.ty
      decreases e, 1
    {
      match e
      case Literal(v, t) =>
        Emit([MovImm(t.Width(), RAX, v)]);
        return Some(t);
      case Var(x) =>
        var lv := FindVar(locals, x);
        if lv.None? { return None; }
        Emit([LoadLocal(lv.value)]);
        return Some(TypeOfWidth(lv.value.width));
      case Unary(op, a) =>
        var t := Expression(a);
        if t.None? { return None; }
        Emit(UnaryCode(op, t.value));
        return Some(if op == LogNot then Int else t.value);
      case Assign(x, a) =>
        var lv := FindVar(locals, x);
        if lv.None? { return None; }
        var t := Expression(a);
        if t.None? { return None; }
        Emit(StoreLocal(lv.value, t.value));
        return Some(TypeOfWidth(lv.value.width));
      case Binary(op, l, r) =>
        ty := BinaryExpression(e);
      case LogAnd(l, r) =>
        ty := ShortCircuit(e, CondE, AND_FALSE, AND_END, 0);
      case LogOr(l, r) =>
        ty := ShortCircuit(e, CondNE, OR_TRUE, OR_END, 1);
    }

    method BinaryExpression(e: Expr) returns (ty: Option<Type>)
      requires e.Binary?
      modifies this`output, this`labelCount, this`pushDepth
      ensures ty.Some? <==> Declared(e.left, locals) && Declared(e.right, locals)
      ensures ty.Some? ==>
        var gl := Gen(e.left, locals, old(labelCount)).value;
        var gr := Gen(e.right, locals, gl.next).value;
        var common := Common(gl.ty, gr.ty);
        var lt, rt := if e.op.IsShift() then gl.ty else common, if e.op.IsShift() then gr.ty else common;
        && output == old(output) + BinaryInstrs(e.op, gl, gr, lt, rt)
        && labelCount == gr.next && pushDepth == old(pushDepth) && ty.value == if e.op.IsCompare() then Int else lt
      decreases e, 0
    {
      hide Declared, TypeOf, Widen, Operate;
      var common := Common(TypeOf(e.left, locals), TypeOf(e.right, locals));
      ghost var start := output;
      var tl := Expression(e.left);
      if tl.None? { return None; }
      var wide := if e.op.IsShift() then tl.value else common;
      Emit(Widen(tl.value, wide));
      Emit([Push(RAX)]);
      pushDepth := pushDepth + 1;
      var tr := Expression(e.right);
      if tr.None? { return None; }
      var wide' := if e.op.IsShift() then tr.value else common;
      Emit(Widen(tr.value, wide'));
      Emit([Pop(RCX)]);
      pushDepth := pushDepth - 1;
      Emit(Operate(e.op, wide.Width()));
      ghost var gl := Gen(e.left, locals, old(labelCount)).value;
      ghost var gr := Gen(e.right, locals, gl.next).value;
      hide Gen;
      Appended7(start, gl.code, Widen(tl.value, wide), [Push(RAX)], gr.code, Widen(tr.value, wide'), [Pop(RCX)],
                Operate(e.op, wide.Width()));
      return Some(if e.op.IsCompare() then Int else wide);
    }

    method ShortCircuit(e: Expr, cc: Cond, skip: string, end: string, c: int) returns (ty: Option<Type>)
      requires e.LogAnd? || e.LogOr?
      modifies this`output, this`labelCount, this`pushDepth
      ensures ty.Some? <==> Declared(e.left, locals) && Declared(e.right, locals)
      ensures ty.Some? ==>
        var n := old(labelCount);
        var gl := Gen(e.left, locals, n + 1).value;
        var gr := Gen(e.right, locals, gl.next).value;
        && output == old(output) + ShortCircuitCode(gl, gr, cc, LabelName(skip, n), LabelName(end, n), c)
        && labelCount == gr.next && pushDepth == old(pushDepth) && ty.value == Int
      decreases e, 0
    {
      hide Gen, Declared, TypeOf, TestZero, LabelName;
      var n := labelCount;
      ghost var start := output;
      labelCount := labelCount + 1;
      var tl := Expression(e.left);
      if tl.None? { return None; }
      Emit(TestZero(tl.value));
      Emit([Jcc(cc, LabelName(skip, n))]);
      var tr := Expression(e.right);
      if tr.None? { return None; }
      Emit(TestZero(tr.value));
      var tail := [Setcc(CondNE, RAX), Movzx(RAX, RAX), Jmp(LabelName(end, n)), Def(LabelName(skip, n)),
                   MovImm(Dword32, RAX, c), Def(LabelName(end, n))];
      Emit(tail);
      ghost var gl := Gen(e.left, locals, n + 1).value;
      ghost var gr := Gen(e.right, locals, gl.next).value;
      Appended7(start, gl.code, TestZero(tl.value), [Jcc(cc, LabelName(skip, n))], gr.code, TestZero(tr.value), tail, []);
      assert gl.code + TestZero(tl.value) + [Jcc(cc, LabelName(skip, n))] + gr.code + TestZero(tr.value) + tail + []
          == gl.code + TestZero(tl.value) + [Jcc(cc, LabelName(skip, n))] + gr.code + TestZero(tr.value) + tail;
      return Some(Int);
    }
  }

  lemma Appended7(o: Program, a: Program, b: Program, c: Program, d: Program, e: Program, f: Program, g: Program)
    ensures o + a + b + c + d + e + f + g == o + (a + b + c + d + e + f + g)
  {
  }
}
