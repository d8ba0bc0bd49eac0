/** What the instructions of one operator, conversion, load or store compute; ExprTheorem puts them together. */
module CodegenCorrect {
  import opened Options
  import opened Words
  import opened Machine
  import opened Codegen

  // ---------------------------------------------------------------- straight-line code

  ghost predicate CodeAt(p: Program, k: nat, c: Program) {
    k + |c| <= |p| && p[k..k + |c|] == c
  }

  lemma CodeAtSplit(p: Program, k: nat, a: Program, b: Program)
    requires CodeAt(p, k, a + b)
    ensures CodeAt(p, k, a) && CodeAt(p, k + |a|, b)
  {
    var c := a + b;
    assert p[k..k + |a|] == p[k..k + |c|][..|a|] == c[..|a|] == a;
    assert p[k + |a|..k + |c|] == p[k..k + |c|][|a|..] == c[|a|..] == b;
  }

  function Line(c: Program, s: State): Outcome
    decreases |c|
  {
    if c == [] then Next(s)
    else
      match Effect(c[0], s)
      case Next(t) => Line(c[1..], t.(pc := s.pc + 1))
      case o => o
  }

  lemma LineCons(i: Instr, c: Program, s: State)
    ensures Line([i] + c, s) ==
            match Effect(i, s)
            case Next(t) => Line(c, t.(pc := s.pc + 1))
            case o => o
  {
    hide Effect;
    assert ([i] + c)[1..] == c;
  }

  lemma LineOne(i: Instr, s: State)
    ensures Line([i], s) == match Effect(i, s) case Next(t) => Next(t.(pc := s.pc + 1)) case o => o
  {
    hide Effect;
    assert [i] == [i] + [];
    LineCons(i, [], s);
  }

  lemma {:induction false} LineRuns(p: Program, c: Program, s: State)
    requires CodeAt(p, s.pc, c)
    requires forall i :: i in c ==> !IsControl(i)
    ensures Reaches(p, s, Line(c, s))
    ensures Line(c, s).Next? || Line(c, s).Fault?
    ensures Line(c, s).Next? ==> Line(c, s).s.pc == s.pc + |c|
    decreases |c|
  {
    if c == [] {
      ReachesSelf(p, s);
    } else {
      assert c[0] in c;
      StepIsEffect(p, c[0], s);
      ReachesStep(p, s);
      hide Effect, Step;
      if Effect(c[0], s).Next? {
        var t := Effect(c[0], s).s.(pc := s.pc + 1);
        assert c == [c[0]] + c[1..];
        CodeAtSplit(p, s.pc, [c[0]], c[1..]);
        LineRuns(p, c[1..], t);
        ReachesTrans(p, s, t, Line(c, s));
      }
    }
  }

  // ---------------------------------------------------------------- operators

  /** Register r holds the value v of type ty; the upper half of a register holding an int is free. */
  ghost predicate Represents(s: State, ty: Type, r: Reg, v: int) {
    InRange(v, ty.Modulus()) && Get(s, ty.Width(), r) == Residue(v, ty.Modulus())
  }

  ghost predicate OnlyScratch(s: State, t: State) {
    t.ctl == s.ctl && t.lim == s.lim && t.mem == s.mem &&
    forall r: Reg :: r !in {RAX, RCX, RDX} ==> t.regs[r] == s.regs[r]
  }

  ghost predicate Leaves(o: Outcome, s: State, ty: Type, v: int) {
    o.Next? && OnlyScratch(s, o.s) && Represents(o.s, ty, RAX, v)
  }

  lemma RepresentsSigned(s: State, ty: Type, r: Reg, v: int)
    requires Represents(s, ty, r, v)
    ensures Sign(ty.Width(), Get(s, ty.Width(), r)) == v
  {
    WrapInRange(v, ty.Modulus());
  }

  lemma PutGet(s: State, ty: Type, r: Reg, v: nat)
    requires v < ty.Modulus() && r != RSP
    ensures Get(Put(s, ty.Width(), r, v), ty.Width(), r) == v
    ensures Put(s, ty.Width(), r, v) == s.(regs := s.regs[r := v])
  {
  }

  lemma AluLeaves(op: AluOp, ty: Type, s: State, a: int, b: int, v: int)
    requires Represents(s, ty, RCX, a) && Represents(s, ty, RAX, b)
    requires AluValue(op, ty.Width(), Residue(b, ty.Modulus()), Residue(a, ty.Modulus())) == Residue(v, ty.Modulus())
    requires InRange(v, ty.Modulus())
    ensures Leaves(Line([Alu(op, ty.Width(), RAX, RCX)], s), s, ty, v)
  {
    LineOne(Alu(op, ty.Width(), RAX, RCX), s);
    PutGet(s, ty, RAX, Residue(v, ty.Modulus()));
  }

  lemma ResidueOps(a: int, b: int, m: nat)
    requires m > 0 && m % 2 == 0
    ensures Residue(Residue(a, m) + Residue(b, m), m) == Residue(Wrap(a + b, m), m)
    ensures Residue(Residue(a, m) - Residue(b, m), m) == Residue(Wrap(a - b, m), m)
    ensures Residue(Residue(a, m) * Residue(b, m), m) == Residue(Wrap(a * b, m), m)
  {
    ResidueCongruent(a, m);
    ResidueCongruent(b, m);
    CongruentOps(Residue(a, m), a, Residue(b, m), b, m);
    WrapCongruent(a + b, m);
    WrapCongruent(a - b, m);
    WrapCongruent(a * b, m);
  }

  lemma AddMulCorrect(op: BinaryOp, ty: Type, s: State, a: int, b: int)
    requires op in {OpAdd, OpMul}
    requires Represents(s, ty, RCX, a) && Represents(s, ty, RAX, b)
    ensures Leaves(Line(Operate(op, ty.Width()), s), s, ty, BinaryValue(op, ty, a, b).n)
  {
    hide BitsOf, Bitwise, Leaves, Line;
    ResidueOps(b, a, ty.Modulus());
    if op == OpAdd {
      AluLeaves(Add, ty, s, a, b, Wrap(a + b, ty.Modulus()));
    } else {
      assert a * b == b * a;
      AluLeaves(Imul, ty, s, a, b, Wrap(a * b, ty.Modulus()));
    }
  }

  lemma SubCorrect(ty: Type, s: State, a: int, b: int)
    requires Represents(s, ty, RCX, a) && Represents(s, ty, RAX, b)
    ensures Leaves(Line(Operate(OpSub, ty.Width()), s), s, ty, BinaryValue(OpSub, ty, a, b).n)
  {
    var w, m := ty.Width(), ty.Modulus();
    var i, j := Alu(Sub, w, RCX, RAX), Mov(w, RAX, RCX);
    assert Operate(OpSub, w) == [i] + [j];
    LineCons(i, [j], s);
    SubEffect(ty, s, a, b);
    hide Effect;
    var t := Effect(i, s).s.(pc := s.pc + 1);
    MovCorrect(ty, t, RCX, Wrap(a - b, m));
  }

  lemma SubEffect(ty: Type, s: State, a: int, b: int)
    requires Represents(s, ty, RCX, a) && Represents(s, ty, RAX, b)
    ensures var o := Effect(Alu(Sub, ty.Width(), RCX, RAX), s);
            o.Next? && OnlyScratch(s, o.s) && Represents(o.s, ty, RCX, Wrap(a - b, ty.Modulus()))
  {
    ResidueOps(a, b, ty.Modulus());
    PutGet(s, ty, RCX, Residue(Wrap(a - b, ty.Modulus()), ty.Modulus()));
  }

  lemma MovCorrect(ty: Type, s: State, r: Reg, v: int)
    requires Represents(s, ty, r, v)
    ensures Leaves(Line([Mov(ty.Width(), RAX, r)], s), s, ty, v)
  {
    LineOne(Mov(ty.Width(), RAX, r), s);
    PutGet(s, ty, RAX, Residue(v, ty.Modulus()));
  }

  lemma BitwiseCorrect(op: BinaryOp, ty: Type, s: State, a: int, b: int)
    requires op in {OpAnd, OpOr, OpXor}
    requires Represents(s, ty, RCX, a) && Represents(s, ty, RAX, b)
    ensures Leaves(Line(Operate(op, ty.Width()), s), s, ty, BinaryValue(op, ty, a, b).n)
  {
    hide Bitwise, Leaves, Line;
    var w, m := ty.Width(), ty.Modulus();
    SizeModulus(w);
    var bop := match op case OpAnd => AndBits case OpOr => OrBits case _ => XorBits;
    var u := Bitwise(bop, Residue(a, m), Residue(b, m), w.Bits());
    BitwiseSymmetric(bop, Residue(a, m), Residue(b, m), w.Bits());
    SignedCongruent(u, m);
    AluLeaves(match op case OpAnd => And case OpOr => Or case _ => Xor, ty, s, a, b, Signed(u, m));
  }

  lemma {:induction false} BitwiseSymmetric(op: BitOp, a: nat, b: nat, w: nat)
    ensures Bitwise(op, a, b, w) == Bitwise(op, b, a, w)
  {
    if w != 0 {
      BitwiseSymmetric(op, a / 2, b / 2, w - 1);
    }
  }

  lemma CompareCorrect(op: BinaryOp, ty: Type, s: State, a: int, b: int)
    requires op.IsCompare()
    requires Represents(s, ty, RCX, a) && Represents(s, ty, RAX, b)
    ensures Leaves(Line(Operate(op, ty.Width()), s), s, Int, BinaryValue(op, ty, a, b).n)
  {
    var w := ty.Width();
    RepresentsSigned(s, ty, RCX, a);
    RepresentsSigned(s, ty, RAX, b);
    var i := Cmp(w, RCX, RAX);
    assert Operate(op, w) == [i] + [Setcc(Setter(op), RAX), Movzx(RAX, RAX)];
    LineCons(i, [Setcc(Setter(op), RAX), Movzx(RAX, RAX)], s);
    SetByte(Setter(op), Effect(i, s).s.(pc := s.pc + 1), BinaryValue(op, ty, a, b).n);
  }

  lemma SetByte(cc: Cond, s: State, v: int)
    requires s.flags.Some? && v == Truth(Holds(cc, s.flags.value))
    ensures Leaves(Line([Setcc(cc, RAX), Movzx(RAX, RAX)], s), s, Int, v)
  {
    hide Effect;
    assert [Setcc(cc, RAX), Movzx(RAX, RAX)] == [Setcc(cc, RAX)] + [Movzx(RAX, RAX)];
    LineCons(Setcc(cc, RAX), [Movzx(RAX, RAX)], s);
    SetccEffect(cc, s, v);
    var t := Effect(Setcc(cc, RAX), s).s.(pc := s.pc + 1);
    MovzxEffect(t, v);
    LineOne(Movzx(RAX, RAX), t);
  }

  lemma SetccEffect(cc: Cond, s: State, v: int)
    requires s.flags.Some? && v == Truth(Holds(cc, s.flags.value))
    ensures var o := Effect(Setcc(cc, RAX), s);
            o.Next? && OnlyScratch(s, o.s) && o.s.regs[RAX] % W8 == v
  {
  }

  lemma MovzxEffect(s: State, v: int)
    requires s.regs[RAX] % W8 == v && v in {0, 1}
    ensures var o := Effect(Movzx(RAX, RAX), s); o.Next? && OnlyScratch(s, o.s) && Represents(o.s, Int, RAX, v)
  {
    assert Residue(v, W32) == v;
  }

  // Division: after xchg and cdq/cqo the double-width dividend is the sign extension of the left operand.
  lemma DivideCorrect(op: BinaryOp, ty: Type, s: State, a: int, b: int)
    requires op in {OpDiv, OpMod}
    requires Represents(s, ty, RCX, a) && Represents(s, ty, RAX, b)
    ensures var o := Line(Operate(op, ty.Width()), s);
            match BinaryValue(op, ty, a, b)
            case Number(v) => Leaves(o, s, ty, v)
            case _ => o == Fault
  {
    var w, m := ty.Width(), ty.Modulus();
    var i, j, k := Xchg(w, RAX, RCX), SignDx(w), Idiv(w, RCX);
    var rest := if op == OpDiv then [] else [Mov(w, RAX, RDX)];
    assert Operate(op, w) == [i] + ([j] + ([k] + rest));
    LineCons(i, [j] + ([k] + rest), s);
    var s1 := Effect(i, s).s.(pc := s.pc + 1);
    Exchanged(ty, s, a, b);
    LineCons(j, [k] + rest, s1);
    var s2 := Effect(j, s1).s.(pc := s1.pc + 1);
    SignExtended(ty, s1, a, b);
    LineCons(k, rest, s2);
    Divided(ty, s2, a, b);
    if Effect(k, s2).Next? && op == OpMod {
      MovCorrect(ty, Effect(k, s2).s.(pc := s2.pc + 1), RDX, TruncMod(a, b));
    }
  }

  lemma Exchanged(ty: Type, s: State, a: int, b: int)
    requires Represents(s, ty, RCX, a) && Represents(s, ty, RAX, b)
    ensures var o := Effect(Xchg(ty.Width(), RAX, RCX), s);
            o.Next? && OnlyScratch(s, o.s) && Represents(o.s, ty, RAX, a) && Represents(o.s, ty, RCX, b)
  {
    PutGet(s, ty, RAX, Residue(a, ty.Modulus()));
    PutGet(Put(s, ty.Width(), RAX, Residue(a, ty.Modulus())), ty, RCX, Residue(b, ty.Modulus()));
  }

  ghost predicate Extended(s: State, ty: Type, a: int, b: int) {
    Represents(s, ty, RAX, a) && Represents(s, ty, RCX, b) &&
    Represents(s, ty, RDX, if a < 0 then -1 else 0)
  }

  lemma SignExtended(ty: Type, s: State, a: int, b: int)
    requires Represents(s, ty, RAX, a) && Represents(s, ty, RCX, b)
    ensures var o := Effect(SignDx(ty.Width()), s); o.Next? && OnlyScratch(s, o.s) && Extended(o.s, ty, a, b)
  {
    RepresentsSigned(s, ty, RAX, a);
    var v := if a < 0 then ty.Modulus() - 1 else 0;
    PutGet(s, ty, RDX, v);
    ModUnique(-1, -1, ty.Modulus() - 1, ty.Modulus());
  }

  lemma Divided(ty: Type, s: State, a: int, b: int)
    requires Extended(s, ty, a, b)
    ensures var m := ty.Modulus(); var o := Effect(Idiv(ty.Width(), RCX), s);
            if b == 0 || !InRange(TruncDiv(a, b), m) then o == Fault
            else o.Next? && OnlyScratch(s, o.s)
                 && Represents(o.s, ty, RAX, TruncDiv(a, b)) && Represents(o.s, ty, RDX, TruncMod(a, b))
  {
    var w, m := ty.Width(), ty.Modulus();
    RepresentsSigned(s, ty, RCX, b);
    RepresentsSigned(s, ty, RAX, a);
    RepresentsSigned(s, ty, RDX, if a < 0 then -1 else 0);
    assert Sign(w, Get(s, w, RDX)) * m + Get(s, w, RAX) == a;
    if b != 0 && InRange(TruncDiv(a, b), m) {
      TruncDivRange(a, b, m);
      var q, r := Residue(TruncDiv(a, b), m), Residue(TruncMod(a, b), m);
      PutGet(s.(flags := None), ty, RAX, q);
      PutGet(Put(s.(flags := None), w, RAX, q), ty, RDX, r);
    }
  }

  lemma ShiftCorrect(op: BinaryOp, ty: Type, cty: Type, s: State, a: int, b: int)
    requires op.IsShift()
    requires Represents(s, ty, RCX, a) && Represents(s, cty, RAX, b)
    requires 0 <= b < ty.Width().Bits()
    ensures Leaves(Line(Operate(op, ty.Width()), s), s, ty, BinaryValue(op, ty, a, b).n)
  {
    var w := ty.Width();
    var i, j := Xchg(Qword64, RAX, RCX), if op == OpShl then ShiftLeft(w, RAX) else ShiftRight(w, RAX);
    assert Operate(op, w) == [i] + [j];
    LineCons(i, [j], s);
    ExchangedCount(ty, cty, s, a, b);
    hide Effect;
    var t := Effect(i, s).s.(pc := s.pc + 1);
    if op == OpShl {
      ShiftLeftCorrect(ty, t, a, b);
    } else {
      ShiftRightCorrect(ty, t, a, b);
    }
  }

  lemma ExchangedCount(ty: Type, cty: Type, s: State, a: int, b: int)
    requires Represents(s, ty, RCX, a) && Represents(s, cty, RAX, b) && 0 <= b < 64
    ensures var o := Effect(Xchg(Qword64, RAX, RCX), s);
            o.Next? && OnlyScratch(s, o.s) && Represents(o.s, ty, RAX, a) && Get(o.s, Byte8, RCX) == b
  {
    ExchangedRegs(s);
    hide Effect;
    LowByte(s.regs[RAX], cty, b);
  }

  lemma ExchangedRegs(s: State)
    ensures Effect(Xchg(Qword64, RAX, RCX), s) == Next(s.(regs := s.regs[RAX := s.regs[RCX]][RCX := s.regs[RAX]]))
  {
  }

  lemma LowByte(u: Word, ty: Type, b: int)
    requires u % ty.Modulus() == Residue(b, ty.Modulus()) && 0 <= b < 64
    ensures u % W8 == b
  {
    var m, k := ty.Modulus(), ty.Modulus() / W8;
    ModUnique(b, 0, b, m);
    var q := u / m;
    QuotientRemainder(u, m);
    assert m * q == k * q * W8;
    ModUnique(u, k * q, b, W8);
  }

  lemma ShiftLeftCorrect(ty: Type, s: State, a: int, b: int)
    requires Represents(s, ty, RAX, a) && Get(s, Byte8, RCX) == b && 0 <= b < ty.Width().Bits()
    ensures Leaves(Line([ShiftLeft(ty.Width(), RAX)], s), s, ty, Wrap(a * Pow2(b), ty.Modulus()))
  {
    var v := Wrap(a * Pow2(b), ty.Modulus());
    ShiftResidue(a, Pow2(b), ty.Modulus());
    ShiftLeftEffect(ty, s, a, b, Residue(v, ty.Modulus()));
    hide Effect;
    LineOne(ShiftLeft(ty.Width(), RAX), s);
    PutGet(s.(flags := None), ty, RAX, Residue(v, ty.Modulus()));
  }

  lemma ShiftLeftEffect(ty: Type, s: State, a: int, b: int, u: nat)
    requires Represents(s, ty, RAX, a) && Get(s, Byte8, RCX) == b && 0 <= b < ty.Width().Bits()
    requires u == Residue(Residue(a, ty.Modulus()) * Pow2(b), ty.Modulus())
    ensures Effect(ShiftLeft(ty.Width(), RAX), s) == Next(Put(s.(flags := None), ty.Width(), RAX, u))
  {
    hide Put, Pow2, Residue;
    assert b % (if ty.Width() == Qword64 then 64 else 32) == b;
  }

  lemma ShiftRightCorrect(ty: Type, s: State, a: int, b: int)
    requires Represents(s, ty, RAX, a) && Get(s, Byte8, RCX) == b && 0 <= b < ty.Width().Bits()
    ensures Leaves(Line([ShiftRight(ty.Width(), RAX)], s), s, ty, a / Pow2(b))
  {
    var v := a / Pow2(b);
    QuotientInRange(a, Pow2(b), ty.Modulus());
    ShiftRightEffect(ty, s, a, b, v);
    hide Effect;
    LineOne(ShiftRight(ty.Width(), RAX), s);
    PutGet(s.(flags := None), ty, RAX, Residue(v, ty.Modulus()));
  }

  lemma ShiftRightEffect(ty: Type, s: State, a: int, b: int, v: int)
    requires Represents(s, ty, RAX, a) && Get(s, Byte8, RCX) == b && 0 <= b < ty.Width().Bits() && v == a / Pow2(b)
    ensures Effect(ShiftRight(ty.Width(), RAX), s) == Next(Put(s.(flags := None), ty.Width(), RAX, Residue(v, ty.Modulus())))
  {
    hide Put, Pow2;
    assert b % (if ty.Width() == Qword64 then 64 else 32) == b;
    RepresentsSigned(s, ty, RAX, a);
  }

  lemma ShiftResidue(a: int, k: nat, m: nat)
    requires m > 0 && m % 2 == 0
    ensures Residue(Residue(a, m) * k, m) == Residue(a * k, m) == Residue(Wrap(a * k, m), m)
  {
    ResidueCongruent(a, m);
    CongruentOps(Residue(a, m), a, k, k, m);
    WrapCongruent(a * k, m);
  }

  lemma QuotientInRange(a: int, d: nat, m: nat)
    requires d > 0 && InRange(a, m)
    ensures InRange(a / d, m)
  {
    QuotientShrinks(a, d);
  }

  lemma QuotientShrinks(a: int, d: nat)
    requires d > 0
    ensures if a >= 0 then 0 <= a / d <= a else a <= a / d <= 0
  {
    var q := a / d;
    QuotientRemainder(a, d);
    if q >= 0 {
      MulAtLeast(d, q);
    } else {
      MulAtLeast(d, -q - 1);
      ShrinkLinear(a, d, q, a % d, d * q, d * (-q - 1));
    }
  }

  lemma ShrinkLinear(a: int, d: int, q: int, r: int, x: int, y: int)
    requires a == x + r && 0 <= r < d && q < 0 && y == d * (-q - 1) && x == d * q && y >= -q - 1
    ensures a <= q
  {
    assert d * (-q - 1) == -(d * q) - d;
  }

  lemma OperateCorrect(op: BinaryOp, ty: Type, s: State, a: int, b: int)
    requires !op.IsShift()
    requires Represents(s, ty, RCX, a) && Represents(s, ty, RAX, b)
    ensures var o := Line(Operate(op, ty.Width()), s);
            match BinaryValue(op, ty, a, b)
            case Number(v) => Leaves(o, s, if op.IsCompare() then Int else ty, v)
            case _ => o == Fault
  {
    hide Effect, Line;
    match op
    case OpAdd => AddMulCorrect(op, ty, s, a, b);
    case OpMul => AddMulCorrect(op, ty, s, a, b);
    case OpSub => SubCorrect(ty, s, a, b);
    case OpDiv => DivideCorrect(op, ty, s, a, b);
    case OpMod => DivideCorrect(op, ty, s, a, b);
    case OpAnd => BitwiseCorrect(op, ty, s, a, b);
    case OpOr => BitwiseCorrect(op, ty, s, a, b);
    case OpXor => BitwiseCorrect(op, ty, s, a, b);
    case _ => CompareCorrect(op, ty, s, a, b);
  }

  lemma NegCorrect(ty: Type, s: State, a: int)
    requires Represents(s, ty, RAX, a)
    ensures Leaves(Line([Neg(ty.Width(), RAX)], s), s, ty, Wrap(-a, ty.Modulus()))
  {
    var m := ty.Modulus();
    LineOne(Neg(ty.Width(), RAX), s);
    ResidueOps(0, a, m);
    assert Residue(0, m) == 0;
    PutGet(s.(flags := None), ty, RAX, Residue(Wrap(0 - a, m), m));
  }

  lemma NotCorrect(ty: Type, s: State, a: int)
    requires Represents(s, ty, RAX, a)
    ensures Leaves(Line([Not(ty.Width(), RAX)], s), s, ty, -a - 1)
  {
    var m := ty.Modulus();
    LineOne(Not(ty.Width(), RAX), s);
    ComplementResidue(a, m);
    PutGet(s, ty, RAX, Residue(-a - 1, m));
  }

  lemma ComplementResidue(a: int, m: nat)
    requires m > 0
    ensures Residue(-a - 1, m) == m - 1 - Residue(a, m)
  {
    var q, r := a / m, a % m;
    QuotientRemainder(a, m);
    assert (-q - 1) * m == -(m * q) - m;
    ModUnique(-a - 1, -q - 1, m - 1 - r, m);
  }

  lemma UnaryCorrect(op: UnaryOp, ty: Type, s: State, a: int)
    requires Represents(s, ty, RAX, a)
    ensures Leaves(Line(UnaryCode(op, ty), s), s, if op == LogNot then Int else ty, UnaryValue(op, ty, a))
  {
    match op
    case Minus => NegCorrect(ty, s, a);
    case PlusSign =>
    case BitNot => NotCorrect(ty, s, a);
    case LogNot =>
      var i := CmpImm(ty.Width(), RAX, 0);
      assert UnaryCode(op, ty) == [i] + [Setcc(CondE, RAX), Movzx(RAX, RAX)];
      LineCons(i, [Setcc(CondE, RAX), Movzx(RAX, RAX)], s);
      TestedZero(ty, s, a);
      SetByte(CondE, Effect(i, s).s.(pc := s.pc + 1), Truth(a == 0));
  }

  lemma TestedZero(ty: Type, s: State, a: int)
    requires Represents(s, ty, RAX, a)
    ensures var o := Effect(CmpImm(ty.Width(), RAX, 0), s);
            o.Next? && o.s == s.(flags := o.s.flags) && o.s.flags.Some? && (o.s.flags.value.zf <==> a == 0)
  {
    RepresentsSigned(s, ty, RAX, a);
  }
}
