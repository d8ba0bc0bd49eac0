/** A small-step machine for the x86-64 instructions that the code generator emits for integer
    expressions and that the peephole pass rewrites.

    Registers hold 64-bit words, memory is a finite map from addresses to bytes, and code is a
    sequence of instructions in which labels are entries of their own.  Addresses do not wrap
    around.  The stack occupies the addresses from `lim` upwards; its bytes below rsp are
    undefined, so raising rsp forgets them and reading a forgotten byte is a fault.  Return
    addresses are kept on a separate control stack because code positions are not data here.
 */
module Machine {
  import opened Options
  import opened Words

  // Registers carry their x86 encoding numbers.
  type Reg = r: int | 0 <= r < 16

  const RAX: Reg := 0
  const RCX: Reg := 1
  const RDX: Reg := 2
  const RBX: Reg := 3
  const RSP: Reg := 4
  const RBP: Reg := 5
  const RSI: Reg := 6
  const RDI: Reg := 7

  datatype Width = Byte8 | Half16 | Dword32 | Qword64 {
    function Bits(): nat {
      match this case Byte8 => 8 case Half16 => 16 case Dword32 => 32 case Qword64 => 64
    }

    function Size(): nat {
      match this case Byte8 => 1 case Half16 => 2 case Dword32 => 4 case Qword64 => 8
    }

    function Modulus(): (m: nat)
      ensures 0 < m <= W64 && m % 2 == 0
    {
      match this case Byte8 => W8 case Half16 => W16 case Dword32 => W32 case Qword64 => W64
    }
  }

  datatype AluOp = Add | Sub | Imul | And | Or | Xor

  datatype Cond = CondE | CondNE | CondL | CondLE | CondG | CondGE | CondB | CondAE

  type Label = string

  datatype Instr =
    | MovImm(w: Width, dst: Reg, imm: int)            // mov dst, imm
    | Mov(w: Width, dst: Reg, src: Reg)               // mov dst, src
    | Load(w: Width, dst: Reg, base: Reg, disp: int)  // mov dst, [base + disp]
    | LoadSx(w: Width, dst: Reg, base: Reg, disp: int) // movsx dst32, byte/word [base + disp]
    | Store(w: Width, base: Reg, disp: int, src: Reg) // mov [base + disp], src
    | Lea(dst: Reg, base: Reg, disp: int)
    | Movsxd(dst: Reg, src: Reg)                      // movsxd dst64, src32
    | Movzx(dst: Reg, src: Reg)                       // movzx dst32, src8
    | Push(src: Reg)
    | Pop(dst: Reg)
    | Alu(op: AluOp, w: Width, dst: Reg, src: Reg)
    | AluImm(op: AluOp, w: Width, dst: Reg, imm: int)
    | Neg(w: Width, dst: Reg)
    | Not(w: Width, dst: Reg)
    | ShiftLeft(w: Width, dst: Reg)                   // shl dst, cl
    | ShiftRight(w: Width, dst: Reg)                  // sar dst, cl
    | Xchg(w: Width, a: Reg, b: Reg)
    | SignDx(w: Width)                                // cdq, cqo
    | Idiv(w: Width, src: Reg)
    | Cmp(w: Width, a: Reg, b: Reg)
    | CmpImm(w: Width, a: Reg, imm: int)
    | Setcc(cc: Cond, dst: Reg)
    | Jmp(target: Label)
    | Jcc(cc: Cond, target: Label)
    | Def(name: Label)                                // name:
    | Call(target: Label)
    | Ret

  type Program = seq<Instr>

  type Mem = map<int, Byte>

  type Regs = rs: seq<Word> | |rs| == 16 witness seq(16, _ => 0)

  /** The outcome of a comparison: equal, signed less (SF != OF), unsigned less (CF). */
  datatype Flags = Flags(zf: bool, lt: bool, cf: bool)

  /** `flags` is None where the architecture leaves them unspecified. */
  datatype State = State(pc: nat, regs: Regs, flags: Option<Flags>, mem: Mem, ctl: seq<nat>, lim: int)

  datatype Outcome = Next(s: State) | Done(s: State) | Fault

  // ---------------------------------------------------------------- memory

  predicate Mapped(m: Mem, a: int, n: nat) {
    forall x :: a <= x < a + n ==> x in m
  }

  function Read(m: Mem, a: int, n: nat): (v: nat)
    requires Mapped(m, a, n)
    ensures v < Pow2(8 * n)
    decreases n
  {
    if n == 0 then 0
    else
      Pow2Sum(8, 8 * (n - 1)); Pow2Values();
      m[a] + 256 * Read(m, a + 1, n - 1)
  }

  function Write(m: Mem, a: int, n: nat, v: nat): Mem
    decreases n
  {
    if n == 0 then m else Write(m[a := v % 256], a + 1, n - 1, v / 256)
  }

  lemma {:induction false} WriteAt(m: Mem, a: int, n: nat, v: nat, x: int)
    ensures x in Write(m, a, n, v) <==> x in m || a <= x < a + n
    ensures x in m && !(a <= x < a + n) ==> Write(m, a, n, v)[x] == m[x]
    decreases n
  {
    if n != 0 {
      WriteAt(m[a := v % 256], a + 1, n - 1, v / 256, x);
    }
  }

  lemma WriteKeys(m: Mem, a: int, n: nat, v: nat)
    ensures Mapped(Write(m, a, n, v), a, n)
    ensures forall x :: x in Write(m, a, n, v) <==> x in m || a <= x < a + n
    ensures forall x :: x in m && !(a <= x < a + n) ==> Write(m, a, n, v)[x] == m[x]
  {
    forall x
      ensures x in Write(m, a, n, v) <==> x in m || a <= x < a + n
      ensures x in m && !(a <= x < a + n) ==> Write(m, a, n, v)[x] == m[x]
    {
      WriteAt(m, a, n, v, x);
    }
  }

  lemma {:induction false} ReadAgree(m: Mem, m': Mem, a: int, n: nat)
    requires Mapped(m, a, n)
    requires forall x :: a <= x < a + n ==> x in m' && m'[x] == m[x]
    ensures Mapped(m', a, n) && Read(m', a, n) == Read(m, a, n)
    decreases n
  {
    if n != 0 {
      ReadAgree(m, m', a + 1, n - 1);
    }
  }

  lemma {:induction false} ReadWrite(m: Mem, a: int, n: nat, v: nat)
    requires v < Pow2(8 * n)
    ensures Mapped(Write(m, a, n, v), a, n)
    ensures Read(Write(m, a, n, v), a, n) == v
    decreases n
  {
    if n != 0 {
      ByteSplit(v, n);
      ReadWrite(m[a := v % 256], a + 1, n - 1, v / 256);
      WriteAt(m[a := v % 256], a + 1, n - 1, v / 256, a);
      var m' := Write(m, a, n, v);
      assert m' == Write(m[a := v % 256], a + 1, n - 1, v / 256);
      assert Read(m', a, n) == m'[a] + 256 * Read(m', a + 1, n - 1);
    }
  }

  lemma ByteSplit(v: nat, n: nat)
    requires v < Pow2(8 * n) && n != 0
    ensures v / 256 < Pow2(8 * (n - 1)) && v == v % 256 + 256 * (v / 256)
  {
    Pow2Sum(8, 8 * (n - 1));
    Pow2Values();
  }

  lemma SizeModulus(w: Width)
    ensures Pow2(8 * w.Size()) == w.Modulus() == Pow2(w.Bits())
  {
    Pow2Values();
  }

  // ---------------------------------------------------------------- registers

  /** Raising rsp makes the stack bytes it leaves behind undefined. */
  function Clip(m: Mem, lim: int, rsp: int): Mem {
    map a | a in m && !(lim <= a < rsp) :: m[a]
  }

  function SetReg(s: State, r: Reg, v: Word): State {
    s.(regs := s.regs[r := v], mem := if r == RSP then Clip(s.mem, s.lim, v) else s.mem)
  }

  function Get(s: State, w: Width, r: Reg): (v: nat)
    ensures v < w.Modulus()
  {
    s.regs[r] % w.Modulus()
  }

  /** Writing 32 bits clears the upper half; writing 8 or 16 bits keeps the rest. */
  function Put(s: State, w: Width, r: Reg, v: nat): State
    requires v < w.Modulus()
  {
    match w
    case Qword64 => SetReg(s, r, v)
    case Dword32 => SetReg(s, r, v)
    case Half16 => SetReg(s, r, s.regs[r] - s.regs[r] % W16 + v)
    case Byte8 => SetReg(s, r, s.regs[r] - s.regs[r] % W8 + v)
  }

  function Sign(w: Width, v: nat): int
    requires v < w.Modulus()
  {
    Signed(v, w.Modulus())
  }

  // ---------------------------------------------------------------- instructions

  function AluValue(op: AluOp, w: Width, a: nat, b: nat): (v: nat)
    requires a < w.Modulus() && b < w.Modulus()
    ensures v < w.Modulus()
  {
    SizeModulus(w);
    match op
    case Add => Residue(a + b, w.Modulus())
    case Sub => Residue(a - b, w.Modulus())
    case Imul => Residue(a * b, w.Modulus())
    case And => Bitwise(AndBits, a, b, w.Bits())
    case Or => Bitwise(OrBits, a, b, w.Bits())
    case Xor => Bitwise(XorBits, a, b, w.Bits())
  }

  function CompareFlags(w: Width, a: nat, b: nat): Flags
    requires a < w.Modulus() && b < w.Modulus()
  {
    Flags(a == b, Sign(w, a) < Sign(w, b), a < b)
  }

  function AluFlags(op: AluOp, w: Width, a: nat, b: nat): Option<Flags>
    requires a < w.Modulus() && b < w.Modulus()
  {
    match op
    case Sub => Some(CompareFlags(w, a, b))
    case Add => None
    case Imul => None
    case _ =>
      var v := AluValue(op, w, a, b);
      Some(Flags(v == 0, Sign(w, v) < 0, false))
  }

  predicate Holds(cc: Cond, f: Flags) {
    match cc
    case CondE => f.zf
    case CondNE => !f.zf
    case CondL => f.lt
    case CondLE => f.lt || f.zf
    case CondG => !(f.lt || f.zf)
    case CondGE => !f.lt
    case CondB => f.cf
    case CondAE => !f.cf
  }

  /** The stack bytes below rsp may not be written. */
  predicate Writable(s: State, a: int, n: nat) {
    a + n <= s.lim || s.regs[RSP] <= a
  }

  function DivideDouble(s: State, w: Width, r: Reg): Outcome {
    var m := w.Modulus();
    var high, low, d := Sign(w, Get(s, w, RDX)), Get(s, w, RAX), Sign(w, Get(s, w, r));
    var n := high * m + low;
    if d == 0 || !InRange(TruncDiv(n, d), m) then Fault
    else
      var q, rem := TruncDiv(n, d), TruncMod(n, d);
      Next(Put(Put(s.(flags := None), w, RAX, Residue(q, m)), w, RDX, Residue(rem, m)))
  }

  /** The effect of an instruction on everything but the program counter. */
  function Effect(i: Instr, s: State): Outcome {
    match i
    case MovImm(w, d, imm) => Next(Put(s, w, d, Residue(imm, w.Modulus())))
    case Mov(w, d, r) => Next(Put(s, w, d, Get(s, w, r)))
    case Load(w, d, b, disp) =>
      var a := s.regs[b] + disp;
      SizeModulus(w);
      if Mapped(s.mem, a, w.Size()) then Next(Put(s, w, d, Read(s.mem, a, w.Size()))) else Fault
    case LoadSx(w, d, b, disp) =>
      var a := s.regs[b] + disp;
      SizeModulus(w);
      if w in {Byte8, Half16} && Mapped(s.mem, a, w.Size())
      then Next(Put(s, Dword32, d, Residue(Sign(w, Read(s.mem, a, w.Size())), W32)))
      else Fault
    case Store(w, b, disp, r) =>
      var a := s.regs[b] + disp;
      if Writable(s, a, w.Size())
      then Next(s.(mem := Write(s.mem, a, w.Size(), Get(s, w, r)))) else Fault
    case Lea(d, b, disp) => Next(Put(s, Qword64, d, Residue(s.regs[b] + disp, W64)))
    case Movsxd(d, r) => Next(Put(s, Qword64, d, Residue(Sign(Dword32, Get(s, Dword32, r)), W64)))
    case Movzx(d, r) => Next(Put(s, Dword32, d, Get(s, Byte8, r)))
    case Push(r) =>
      var a: int := s.regs[RSP] as int - 8;
      if a < 0 || a < s.lim then Fault
      else Next(s.(regs := s.regs[RSP := a], mem := Write(s.mem, a, 8, s.regs[r])))
    case Pop(d) =>
      var a := s.regs[RSP];
      Pow2Values();
      if a + 8 >= W64 || !Mapped(s.mem, a, 8) then Fault
      else
        var v: Word := Read(s.mem, a, 8);
        Next(SetReg(SetReg(s, RSP, a + 8), d, v))
    case Alu(op, w, d, r) =>
      var a, b := Get(s, w, d), Get(s, w, r);
      Next(Put(s, w, d, AluValue(op, w, a, b)).(flags := AluFlags(op, w, a, b)))
    case AluImm(op, w, d, imm) =>
      var a, b := Get(s, w, d), Residue(imm, w.Modulus());
      Next(Put(s, w, d, AluValue(op, w, a, b)).(flags := AluFlags(op, w, a, b)))
    case Neg(w, d) => Next(Put(s.(flags := None), w, d, Residue(0 - Get(s, w, d), w.Modulus())))
    case Not(w, d) => Next(Put(s, w, d, w.Modulus() - 1 - Get(s, w, d)))
    case ShiftLeft(w, d) =>
      var c := Get(s, Byte8, RCX) % (if w == Qword64 then 64 else 32);
      Next(Put(s.(flags := None), w, d, Residue(Get(s, w, d) * Pow2(c), w.Modulus())))
    case ShiftRight(w, d) =>
      var c := Get(s, Byte8, RCX) % (if w == Qword64 then 64 else 32);
      Next(Put(s.(flags := None), w, d, Residue(Sign(w, Get(s, w, d)) / Pow2(c), w.Modulus())))
    case Xchg(w, a, b) => Next(Put(Put(s, w, a, Get(s, w, b)), w, b, Get(s, w, a)))
    case SignDx(w) =>
      var v := if Sign(w, Get(s, w, RAX)) < 0 then w.Modulus() - 1 else 0;
      Next(Put(s, w, RDX, v))
    case Idiv(w, r) => DivideDouble(s, w, r)
    case Cmp(w, a, b) => Next(s.(flags := Some(CompareFlags(w, Get(s, w, a), Get(s, w, b)))))
    case CmpImm(w, a, imm) =>
      Next(s.(flags := Some(CompareFlags(w, Get(s, w, a), Residue(imm, w.Modulus())))))
    case Setcc(cc, d) =>
      if s.flags.None? then Fault
      else Next(Put(s, Byte8, d, if Holds(cc, s.flags.value) then 1 else 0))
    case Def(_) => Next(s)
    case _ => Fault
  }

  predicate IsControl(i: Instr) {
    i.Jmp? || i.Jcc? || i.Call? || i.Ret?
  }

  /** The position of the first definition of `l`, or the length of the program. */
  function Find(p: Program, l: Label): (k: nat)
    ensures k <= |p|
    ensures k < |p| ==> p[k] == Def(l)
    ensures Def(l) !in p[..k]
  {
    if p == [] then 0
    else if p[0] == Def(l) then 0
    else
      var k := 1 + Find(p[1..], l);
      assert p[..k] == [p[0]] + p[1..][..k - 1];
      k
  }

  ghost predicate UniqueLabels(p: Program) {
    forall i, j :: 0 <= i < j < |p| && p[i].Def? && p[j].Def? ==> p[i] != p[j]
  }

  lemma FindUnique(p: Program, l: Label, k: nat)
    requires UniqueLabels(p) && k < |p| && p[k] == Def(l)
    ensures Find(p, l) == k
  {
    assert Def(l) !in p[..Find(p, l)];
  }

  /** Control goes on at the label; a jump to no label of the program is a fault. */
  function Goto(p: Program, l: Label, s: State): Outcome {
    var k := Find(p, l);
    if k < |p| then Next(s.(pc := k)) else Fault
  }

  function Step(p: Program, s: State): Outcome {
    if s.pc >= |p| then Done(s)
    else
      var i := p[s.pc];
      if IsControl(i) then Transfer(p, i, s) else Advance(Effect(i, s), s.pc)
  }

  function Advance(o: Outcome, pc: nat): Outcome {
    if o.Next? then Next(o.s.(pc := pc + 1)) else o
  }

  /** Jumps, calls and returns. */
  function Transfer(p: Program, i: Instr, s: State): Outcome
    requires IsControl(i)
  {
    if i.Jmp? then Goto(p, i.target, s)
    else if i.Jcc? then
      if s.flags.None? then Fault
      else if Holds(i.cc, s.flags.value) then Goto(p, i.target, s)
      else Next(s.(pc := s.pc + 1))
    else if i.Call? then
      var a: int := s.regs[RSP] as int - 8;
      if a < 0 || a < s.lim then Fault
      else Goto(p, i.target, s.(regs := s.regs[RSP := a], ctl := [s.pc + 1] + s.ctl))
    else if s.ctl == [] then Done(s)
    else if s.regs[RSP] + 8 >= W64 then Fault
    else Next(SetReg(s, RSP, s.regs[RSP] + 8).(pc := s.ctl[0], ctl := s.ctl[1..]))
  }

  lemma StepIsEffect(p: Program, i: Instr, s: State)
    requires s.pc < |p| && p[s.pc] == i && !IsControl(i)
    ensures Effect(i, s).Next? || Effect(i, s).Fault?
    ensures Step(p, s) == match Effect(i, s) case Next(t) => Next(t.(pc := s.pc + 1)) case o => o
  {
  }

  function Run(p: Program, s: State, n: nat): Outcome
    decreases n
  {
    if n == 0 then Next(s)
    else
      match Step(p, s)
      case Next(t) => Run(p, t, n - 1)
      case o => o
  }

  lemma {:induction false} RunAdd(p: Program, s: State, m: nat, n: nat)
    ensures Run(p, s, m).Next? ==> Run(p, s, m + n) == Run(p, Run(p, s, m).s, n)
    ensures !Run(p, s, m).Next? ==> Run(p, s, m + n) == Run(p, s, m)
    decreases m
  {
    hide Step;
    if m != 0 && Step(p, s).Next? {
      RunAdd(p, Step(p, s).s, m - 1, n);
    }
  }

  ghost predicate Reaches(p: Program, s: State, o: Outcome) {
    exists n: nat :: Run(p, s, n) == o
  }

  lemma ReachesSelf(p: Program, s: State)
    ensures Reaches(p, s, Next(s))
  {
    assert Run(p, s, 0) == Next(s);
  }

  lemma ReachesTrans(p: Program, s: State, t: State, o: Outcome)
    requires Reaches(p, s, Next(t)) && Reaches(p, t, o)
    ensures Reaches(p, s, o)
  {
    var m: nat :| Run(p, s, m) == Next(t);
    var n: nat :| Run(p, t, n) == o;
    RunAdd(p, s, m, n);
    assert Run(p, s, m + n) == o;
  }

  lemma ReachesStep(p: Program, s: State)
    ensures Reaches(p, s, Step(p, s))
  {
    assert Run(p, s, 1) == Step(p, s) by {
      if Step(p, s).Next? {
        assert Run(p, Step(p, s).s, 0) == Step(p, s);
      }
    }
  }
}
