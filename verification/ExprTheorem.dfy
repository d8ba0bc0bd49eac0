/** The correctness theorem for generated expression code. */
module ExprTheorem {
  import opened Options
  import opened Words
  import opened Machine
  import opened Codegen
  import opened CodegenCorrect

  // ---------------------------------------------------------------- states that represent variables

  ghost predicate Covers(lv: Local, rbp: int, a: int) {
    rbp - lv.offset <= a < rbp - lv.offset + lv.width.Size()
  }

  ghost predicate Apart(x: Local, y: Local) {
    y.width.Size() - y.offset <= -x.offset || x.width.Size() - x.offset <= -y.offset
  }

  ghost predicate SlotHolds(lv: Local, rbp: int, mem: Mem, v: int) {
    var a, n := rbp - lv.offset, lv.width.Size();
    Mapped(mem, a, n) && InRange(v, lv.width.Modulus()) && Read(mem, a, n) == Residue(v, lv.width.Modulus())
  }

  ghost predicate AboveRsp(ls: seq<Local>, rsp: int, rbp: int) {
    forall lv :: lv in ls ==> rsp <= rbp - lv.offset
  }

  ghost predicate AllApart(ls: seq<Local>) {
    forall x, y :: x in ls && y in ls && x != y ==> Apart(x, y)
  }

  /** Every slot lies at or above rsp, slots do not overlap, and nothing below rsp is defined. */
  ghost predicate Framed(ls: seq<Local>, rsp: int, rbp: int, mem: Mem, lim: int) {
    && 0 <= lim <= rsp
    && (forall a :: a in mem ==> !(lim <= a < rsp))
    && AboveRsp(ls, rsp, rbp)
    && AllApart(ls)
  }

  ghost predicate Stored(ls: seq<Local>, env: Env, rbp: int, mem: Mem) {
    forall x :: x in env ==> FindVar(ls, x).Some? && SlotHolds(FindVar(ls, x).value, rbp, mem, env[x])
  }

  /** The frame is laid out soundly and each initialised variable is in its slot. */
  ghost predicate Represented(ls: seq<Local>, env: Env, s: State) {
    Framed(ls, s.regs[RSP], s.regs[RBP], s.mem, s.lim) && Stored(ls, env, s.regs[RBP], s.mem)
  }

  ghost predicate Touched(ls: seq<Local>, rbp: int, xs: set<string>, a: int) {
    exists x :: x in xs && FindVar(ls, x).Some? && Covers(FindVar(ls, x).value, rbp, a)
  }

  ghost predicate SameByte(m: Mem, m': Mem, a: int) {
    (a in m <==> a in m') && (a in m ==> m[a] == m'[a])
  }

  /** Only rax, rcx, rdx, the flags and the slots of the variables xs may differ. */
  ghost predicate Kept(ls: seq<Local>, s: State, t: State, xs: set<string>) {
    && t.ctl == s.ctl && t.lim == s.lim
    && (forall r: Reg :: r !in {RAX, RCX, RDX} ==> t.regs[r] == s.regs[r])
    && (forall a :: !Touched(ls, s.regs[RBP], xs, a) ==> SameByte(s.mem, t.mem, a))
  }

  lemma KeptTrans(ls: seq<Local>, s: State, t: State, u: State, xs: set<string>, ys: set<string>)
    requires Kept(ls, s, t, xs) && Kept(ls, t, u, ys)
    ensures Kept(ls, s, u, xs + ys)
  {
    assert t.regs[RBP] == s.regs[RBP];
    forall a | !Touched(ls, s.regs[RBP], xs + ys, a) ensures SameByte(s.mem, u.mem, a) {
      assert !Touched(ls, s.regs[RBP], xs, a) && !Touched(ls, s.regs[RBP], ys, a);
      assert SameByte(s.mem, t.mem, a) && SameByte(t.mem, u.mem, a);
    }
  }

  lemma ScratchKept(ls: seq<Local>, env: Env, s: State, t: State)
    requires OnlyScratch(s, t) && Represented(ls, env, s)
    ensures Kept(ls, s, t, {}) && Represented(ls, env, t)
  {
    hide Framed, Stored;
    assert t.regs[RSP] == s.regs[RSP] && t.regs[RBP] == s.regs[RBP];
  }

  // ---------------------------------------------------------------- what the code must achieve

  ghost predicate Arrives(p: Program, ls: seq<Local>, s: State, t: State, len: nat, ty: Type, v: int, env: Env, xs: set<string>) {
    && Reaches(p, s, Next(t)) && t.pc == s.pc + len
    && Kept(ls, s, t, xs) && Represented(ls, env, t) && Represents(t, ty, RAX, v)
  }

  /** Running `len` instructions from s meets the C result r, assigning at most the variables xs. */
  ghost predicate Meets(p: Program, ls: seq<Local>, s: State, len: nat, ty: Type, r: Result, xs: set<string>) {
    match r
    case Val(v, env) => exists t :: Arrives(p, ls, s, t, len, ty, v, env, xs)
    case Trap => Reaches(p, s, Fault)
    case Undefined => true
  }

  lemma ContinueLine(p: Program, ls: seq<Local>, s: State, t: State, len: nat, ty: Type, v: int, env: Env, xs: set<string>,
                     c: Program, ty': Type, v': int)
    requires Arrives(p, ls, s, t, len, ty, v, env, xs)
    requires CodeAt(p, t.pc, c) && forall i :: i in c ==> !IsControl(i)
    requires Leaves(Line(c, t), t, ty', v')
    ensures Arrives(p, ls, s, Line(c, t).s, len + |c|, ty', v', env, xs)
  {
    hide Line, Represents, Represented;
    LineRuns(p, c, t);
    var u := Line(c, t).s;
    ReachesTrans(p, s, t, Next(u));
    ScratchKept(ls, env, t, u);
    KeptTrans(ls, s, t, u, xs, {});
    assert xs + {} == xs;
  }

  // ---------------------------------------------------------------- saving the left operand

  ghost function Pushed(t: State): State
    requires t.regs[RSP] >= 8
  {
    t.(pc := t.pc + 1, regs := t.regs[RSP := t.regs[RSP] - 8],
       mem := Write(t.mem, t.regs[RSP] - 8, 8, t.regs[RAX]))
  }

  lemma PushStep(p: Program, ls: seq<Local>, env: Env, t: State)
    requires CodeAt(p, t.pc, [Push(RAX)]) && Represented(ls, env, t) && t.lim + 8 <= t.regs[RSP]
    ensures Reaches(p, t, Next(Pushed(t))) && Represented(ls, env, Pushed(t))
  {
    LineOne(Push(RAX), t);
    LineRuns(p, [Push(RAX)], t);
    var u, a := Pushed(t), t.regs[RSP] - 8;
    WriteKeys(t.mem, a, 8, t.regs[RAX]);
    StoredUnder(ls, env, t.regs[RSP], t.regs[RBP], t.mem, u.mem);
  }

  // Changing bytes below rsp disturbs no variable.
  lemma StoredUnder(ls: seq<Local>, env: Env, rsp: int, rbp: int, m: Mem, m': Mem)
    requires Stored(ls, env, rbp, m)
    requires AboveRsp(ls, rsp, rbp)
    requires forall a :: a >= rsp ==> SameByte(m, m', a)
    ensures Stored(ls, env, rbp, m')
  {
    hide SlotHolds;
    forall x | x in env ensures SlotHolds(FindVar(ls, x).value, rbp, m', env[x]) {
      SlotSame(FindVar(ls, x).value, rbp, m, m', env[x]);
    }
  }

  lemma SlotSame(lv: Local, rbp: int, m: Mem, m': Mem, v: int)
    requires SlotHolds(lv, rbp, m, v)
    requires forall a :: a >= rbp - lv.offset ==> SameByte(m, m', a)
    ensures SlotHolds(lv, rbp, m', v)
  {
    hide Read;
    forall a | rbp - lv.offset <= a < rbp - lv.offset + lv.width.Size() ensures a in m' && m'[a] == m[a] {
      assert SameByte(m, m', a);
    }
    ReadAgree(m, m', rbp - lv.offset, lv.width.Size());
  }

  ghost function Popped(w: State, v: Word): State
    requires w.regs[RSP] + 8 < W64
  {
    w.(pc := w.pc + 1, regs := w.regs[RSP := w.regs[RSP] + 8][RCX := v],
       mem := Clip(w.mem, w.lim, w.regs[RSP] + 8))
  }

  lemma SlotsAboveRsp(ls: seq<Local>, rsp: int, rbp: int, xs: set<string>, a: int)
    requires AboveRsp(ls, rsp, rbp)
    requires a < rsp
    ensures !Touched(ls, rbp, xs, a)
  {
  }

  lemma PopStep(p: Program, ls: seq<Local>, t: State, w: State, env: Env, ys: set<string>)
    requires Framed(ls, t.regs[RSP], t.regs[RBP], t.mem, t.lim) && t.lim + 8 <= t.regs[RSP]
    requires Kept(ls, Pushed(t), w, ys) && Represented(ls, env, w)
    requires CodeAt(p, w.pc, [Pop(RCX)])
    ensures w.regs[RSP] + 8 == t.regs[RSP]
    ensures var z := Popped(w, t.regs[RAX]);
            Reaches(p, w, Next(z)) && Kept(ls, t, z, ys) && Represented(ls, env, z)
  {
    assert w.regs[RSP] == t.regs[RSP] - 8 && w.regs[RBP] == t.regs[RBP];
    SavedValue(ls, t, w, ys);
    PopRuns(p, w);
    var z := Popped(w, t.regs[RAX]);
    PoppedMemory(ls, t, w, ys);
    hide Reaches, SlotHolds, Touched;
    StoredUnder(ls, env, t.regs[RSP], t.regs[RBP], w.mem, z.mem);
  }

  lemma SavedValue(ls: seq<Local>, t: State, w: State, ys: set<string>)
    requires AboveRsp(ls, t.regs[RSP], t.regs[RBP]) && t.regs[RSP] >= 8
    requires Kept(ls, Pushed(t), w, ys)
    ensures Mapped(w.mem, t.regs[RSP] - 8, 8) && Read(w.mem, t.regs[RSP] - 8, 8) == t.regs[RAX]
  {
    hide Write, Read, Pow2, Kept, AboveRsp, Mapped, SameByte;
    var a: int, u := t.regs[RSP] - 8, Pushed(t);
    Pow2Values();
    ReadWrite(t.mem, a, 8, t.regs[RAX]);
    forall x | a <= x < a + 8 ensures SameByte(u.mem, w.mem, x) {
      BelowRspKept(ls, u, w, ys, t.regs[RSP], x);
    }
    SavedBytes(u.mem, w.mem, a);
  }

  lemma SavedBytes(m: Mem, m': Mem, a: int)
    requires Mapped(m, a, 8) && forall x :: a <= x < a + 8 ==> SameByte(m, m', x)
    ensures Mapped(m', a, 8) && Read(m', a, 8) == Read(m, a, 8)
  {
    hide Read;
    forall x | a <= x < a + 8 ensures x in m' && m'[x] == m[x] { assert SameByte(m, m', x); }
    ReadAgree(m, m', a, 8);
  }

  lemma BelowRspKept(ls: seq<Local>, u: State, w: State, ys: set<string>, rsp: int, x: int)
    requires AboveRsp(ls, rsp, u.regs[RBP]) && x < rsp
    requires Kept(ls, u, w, ys)
    ensures SameByte(u.mem, w.mem, x)
  {
    SlotsAboveRsp(ls, rsp, u.regs[RBP], ys, x);
    assert !Touched(ls, u.regs[RBP], ys, x);
  }

  lemma PopRuns(p: Program, w: State)
    requires CodeAt(p, w.pc, [Pop(RCX)]) && w.regs[RSP] + 8 < W64 && Mapped(w.mem, w.regs[RSP], 8)
    ensures Read(w.mem, w.regs[RSP], 8) < W64
    ensures Reaches(p, w, Next(Popped(w, Read(w.mem, w.regs[RSP], 8))))
  {
    Pow2Values();
    LineOne(Pop(RCX), w);
    LineRuns(p, [Pop(RCX)], w);
  }

  lemma PoppedMemory(ls: seq<Local>, t: State, w: State, ys: set<string>)
    requires Framed(ls, t.regs[RSP], t.regs[RBP], t.mem, t.lim) && t.lim + 8 <= t.regs[RSP]
    requires Kept(ls, Pushed(t), w, ys)
    ensures forall x :: !Touched(ls, t.regs[RBP], ys, x) ==> SameByte(t.mem, Clip(w.mem, t.lim, t.regs[RSP]), x)
  {
    var a := t.regs[RSP] - 8;
    forall x | !Touched(ls, t.regs[RBP], ys, x) ensures SameByte(t.mem, Clip(w.mem, t.lim, t.regs[RSP]), x) {
      WriteAt(t.mem, a, 8, t.regs[RAX], x);
      assert SameByte(Pushed(t).mem, w.mem, x);
    }
  }

  // ---------------------------------------------------------------- leaves, conversions, assignment

  lemma WidenLeaves(from: Type, to: Type, s: State, v: int)
    requires Represents(s, from, RAX, v) && (from == Int || to == Long)
    requires from == to || to == Long
    ensures Leaves(Line(Widen(from, to), s), s, to, v)
  {
    if from == Int && to == Long {
      LineOne(Movsxd(RAX, RAX), s);
      RepresentsSigned(s, Int, RAX, v);
      PutGet(s, Long, RAX, Residue(v, W64));
    }
  }

  lemma LiteralLeaves(v: int, ty: Type, s: State)
    ensures Leaves(Line([MovImm(ty.Width(), RAX, v)], s), s, ty, Wrap(v, ty.Modulus()))
  {
    LineOne(MovImm(ty.Width(), RAX, v), s);
    WrapCongruent(v, ty.Modulus());
    PutGet(s, ty, RAX, Residue(v, ty.Modulus()));
  }

  lemma LoadLeaves(lv: Local, s: State, v: int)
    requires SlotHolds(lv, s.regs[RBP], s.mem, v)
    ensures Leaves(Line([LoadLocal(lv)], s), s, TypeOfWidth(lv.width), v)
  {
    hide Effect, Line, SlotHolds, Put;
    var ty := TypeOfWidth(lv.width);
    LineOne(LoadLocal(lv), s);
    match lv.width {
    case Byte8 => LoadNarrow(lv, s, v);
    case Half16 => LoadNarrow(lv, s, v);
    case _ => LoadWide(lv, s, v);
    }
    PutGet(s, ty, RAX, Residue(v, ty.Modulus()));
  }

  lemma LoadNarrow(lv: Local, s: State, v: int)
    requires SlotHolds(lv, s.regs[RBP], s.mem, v) && lv.width in {Byte8, Half16}
    ensures Effect(LoadSx(lv.width, RAX, RBP, -lv.offset), s) == Next(Put(s, Dword32, RAX, Residue(v, W32)))
    ensures InRange(v, W32)
  {
    hide Read, Put;
    WrapInRange(v, lv.width.Modulus());
  }

  lemma LoadWide(lv: Local, s: State, v: int)
    requires SlotHolds(lv, s.regs[RBP], s.mem, v) && lv.width in {Dword32, Qword64}
    ensures Effect(Load(lv.width, RAX, RBP, -lv.offset), s) == Next(Put(s, lv.width, RAX, Residue(v, lv.width.Modulus())))
    ensures InRange(v, lv.width.Modulus())
  {
    hide Read, Put;
  }

  // A leaf runs straight from the entry state.
  lemma LeafMeets(p: Program, ls: seq<Local>, env: Env, s: State, c: Program, ty: Type, v: int, xs: set<string>)
    requires CodeAt(p, s.pc, c) && (forall i :: i in c ==> !IsControl(i)) && Represented(ls, env, s)
    requires Leaves(Line(c, s), s, ty, v)
    ensures Meets(p, ls, s, |c|, ty, Val(v, env), xs)
  {
    hide Line, Represents, Represented;
    LineRuns(p, c, s);
    var t := Line(c, s).s;
    ScratchKept(ls, env, s, t);
    KeptMore(ls, s, t, {}, xs);
    assert Arrives(p, ls, s, t, |c|, ty, v, env, xs);
  }

  lemma KeptMore(ls: seq<Local>, s: State, t: State, xs: set<string>, ys: set<string>)
    requires Kept(ls, s, t, xs) && xs <= ys
    ensures Kept(ls, s, t, ys)
  {
    forall a | !Touched(ls, s.regs[RBP], ys, a) ensures SameByte(s.mem, t.mem, a) {
      assert !Touched(ls, s.regs[RBP], xs, a);
    }
  }

  ghost function AfterStore(s: State, lv: Local, v: int): State {
    s.(pc := s.pc + 1,
       mem := Write(s.mem, s.regs[RBP] - lv.offset, lv.width.Size(), Residue(v, lv.width.Modulus())))
  }

  /** Storing an int or a long into its slot. */
  lemma StoreStep(p: Program, ls: seq<Local>, env: Env, s: State, x: string, lv: Local, ty: Type, v: int)
    requires FindVar(ls, x) == Some(lv) && lv.width in {Dword32, Qword64}
    requires Represented(ls, env, s)
    requires Represents(s, ty, RAX, v) && (lv.width == Qword64 ==> ty == Long)
    requires CodeAt(p, s.pc, [Store(lv.width, RBP, -lv.offset, RAX)])
    ensures var v' := Wrap(v, lv.width.Modulus());
            Arrives(p, ls, s, AfterStore(s, lv, v'), 1, TypeOfWidth(lv.width), v', env[x := v'], {x})
  {
    var v' := Wrap(v, lv.width.Modulus());
    NarrowRepresents(s, ty, v, lv.width);
    StoreRuns(p, s, lv, v');
    hide Write, Framed, Stored, Touched, Reaches;
    StoredAfter(ls, env, s, lv, x, v');
    FramedAfter(ls, env, s, lv, v');
    OnlySlotTouched(ls, s, lv, x, v');
  }

  lemma StoreRuns(p: Program, s: State, lv: Local, v: int)
    requires s.regs[RSP] <= s.regs[RBP] - lv.offset && Get(s, lv.width, RAX) == Residue(v, lv.width.Modulus())
    requires CodeAt(p, s.pc, [Store(lv.width, RBP, -lv.offset, RAX)])
    ensures Reaches(p, s, Next(AfterStore(s, lv, v)))
  {
    var i := Store(lv.width, RBP, -lv.offset, RAX);
    LineOne(i, s);
    LineRuns(p, [i], s);
  }

  lemma NarrowRepresents(s: State, ty: Type, v: int, w: Width)
    requires Represents(s, ty, RAX, v) && w in {Dword32, Qword64} && (w == Qword64 ==> ty == Long)
    ensures Get(s, w, RAX) == Residue(Wrap(v, w.Modulus()), w.Modulus())
  {
    WrapCongruent(v, w.Modulus());
    assert W64 % W32 == 0;
    if ty == Long && w == Dword32 {
      var q := v / W64;
      QuotientRemainder(v, W64);
      CongruentBy(v % W64, v, -q * W32, W32);
    }
  }

  lemma StoredAfter(ls: seq<Local>, env: Env, s: State, lv: Local, x: string, v: int)
    requires FindVar(ls, x) == Some(lv) && Represented(ls, env, s) && InRange(v, lv.width.Modulus())
    ensures Stored(ls, env[x := v], s.regs[RBP], AfterStore(s, lv, v).mem)
  {
    hide SlotHolds, Framed;
    forall y | y in env[x := v]
      ensures FindVar(ls, y).Some?
      ensures SlotHolds(FindVar(ls, y).value, s.regs[RBP], AfterStore(s, lv, v).mem, env[x := v][y])
    {
      if y == x {
        OwnSlot(s, lv, v);
      } else {
        SlotAfter(ls, env, s, lv, v, y);
      }
    }
  }

  lemma SlotAfter(ls: seq<Local>, env: Env, s: State, lv: Local, v: int, y: string)
    requires lv in ls && lv.name != y && y in env && Represented(ls, env, s)
    ensures FindVar(ls, y).Some?
    ensures SlotHolds(FindVar(ls, y).value, s.regs[RBP], AfterStore(s, lv, v).mem, env[y])
  {
    hide SlotHolds, AllApart, Write;
    OtherSlot(ls, s, lv, FindVar(ls, y).value, env[y], Residue(v, lv.width.Modulus()));
  }

  lemma OwnSlot(s: State, lv: Local, v: int)
    requires InRange(v, lv.width.Modulus())
    ensures SlotHolds(lv, s.regs[RBP], AfterStore(s, lv, v).mem, v)
  {
    hide Write, Read;
    SizeModulus(lv.width);
    ReadWrite(s.mem, s.regs[RBP] - lv.offset, lv.width.Size(), Residue(v, lv.width.Modulus()));
  }

  lemma FramedAfter(ls: seq<Local>, env: Env, s: State, lv: Local, v: int)
    requires lv in ls && Represented(ls, env, s)
    ensures Framed(ls, s.regs[RSP], s.regs[RBP], AfterStore(s, lv, v).mem, s.lim)
  {
    hide AllApart, Stored;
    WriteKeys(s.mem, s.regs[RBP] - lv.offset, lv.width.Size(), Residue(v, lv.width.Modulus()));
  }

  lemma OnlySlotTouched(ls: seq<Local>, s: State, lv: Local, x: string, v: int)
    requires FindVar(ls, x) == Some(lv)
    ensures forall a :: !Touched(ls, s.regs[RBP], {x}, a) ==> SameByte(s.mem, AfterStore(s, lv, v).mem, a)
  {
    var rbp, n, u := s.regs[RBP], lv.width.Size(), Residue(v, lv.width.Modulus());
    forall a | !Touched(ls, rbp, {x}, a) ensures SameByte(s.mem, AfterStore(s, lv, v).mem, a) {
      assert x in {x};
      assert !Covers(lv, rbp, a);
      WriteAt(s.mem, rbp - lv.offset, n, u, a);
    }
  }

  lemma OtherSlot(ls: seq<Local>, s: State, lv: Local, other: Local, v: int, u: nat)
    requires lv in ls && other in ls && lv.name != other.name && AllApart(ls)
    requires SlotHolds(other, s.regs[RBP], s.mem, v)
    ensures SlotHolds(other, s.regs[RBP], Write(s.mem, s.regs[RBP] - lv.offset, lv.width.Size(), u), v)
  {
    var rbp, m' := s.regs[RBP], Write(s.mem, s.regs[RBP] - lv.offset, lv.width.Size(), u);
    assert Apart(lv, other);
    hide Write, Read, AllApart;
    forall a | rbp - other.offset <= a < rbp - other.offset + other.width.Size() ensures a in m' && m'[a] == s.mem[a] {
      WriteAt(s.mem, rbp - lv.offset, lv.width.Size(), u, a);
    }
    ReadAgree(s.mem, m', rbp - other.offset, other.width.Size());
  }

  // ---------------------------------------------------------------- binary operators

  ghost predicate Finishes(p: Program, ls: seq<Local>, t: State, w: State, end: nat, op: BinaryOp, ty: Type, a: int, b: int,
                           env: Env, ys: set<string>) {
    match BinaryValue(op, ty, a, b)
    case Number(v) => exists z :: Reaches(p, w, Next(z)) && z.pc == end && Kept(ls, t, z, ys) && Represented(ls, env, z)
                                  && Represents(z, if op.IsCompare() then Int else ty, RAX, v)
    case Traps => Reaches(p, w, Fault)
    case NoMeaning => true
  }

  // The right operand has been evaluated on top of the pushed left one: pop and operate.
  lemma BinaryFinish(p: Program, ls: seq<Local>, t: State, w: State, len: nat, op: BinaryOp, lty: Type, rty: Type,
                     a: int, b: int, env: Env, ys: set<string>)
    requires Framed(ls, t.regs[RSP], t.regs[RBP], t.mem, t.lim) && t.lim + 8 <= t.regs[RSP]
    requires Represents(t, lty, RAX, a)
    requires Arrives(p, ls, Pushed(t), w, len, rty, b, env, ys)
    requires op.IsShift() || lty == rty
    requires CodeAt(p, w.pc, [Pop(RCX)] + Operate(op, lty.Width()))
    ensures Finishes(p, ls, t, w, w.pc + 1 + |Operate(op, lty.Width())|, op, lty, a, b, env, ys)
  {
    hide Line, Operate, Represents, Represented, Kept, Reaches, Effect, CodeAt, Framed;
    var c := Operate(op, lty.Width());
    CodeAtSplit(p, w.pc, [Pop(RCX)], c);
    PopStep(p, ls, t, w, env, ys);
    var z := Popped(w, t.regs[RAX]);
    PoppedRepresents(t, w, lty, rty, a, b);
    OperateIsLine(op, lty.Width());
    LineRuns(p, c, z);
    if op.IsShift() {
      if 0 <= b < lty.Width().Bits() {
        ShiftCorrect(op, lty, rty, z, a, b);
      }
    } else {
      OperateCorrect(op, lty, z, a, b);
    }
    ReachesTrans(p, w, z, Line(c, z));
    if BinaryValue(op, lty, a, b).Number? {
      var y := Line(c, z).s;
      ScratchKept(ls, env, z, y);
      KeptTrans(ls, t, z, y, ys, {});
      assert ys + {} == ys;
    }
  }

  lemma PoppedRepresents(t: State, w: State, lty: Type, rty: Type, a: int, b: int)
    requires Represents(t, lty, RAX, a) && Represents(w, rty, RAX, b) && w.regs[RSP] + 8 < W64
    ensures var z := Popped(w, t.regs[RAX]); Represents(z, lty, RCX, a) && Represents(z, rty, RAX, b)
  {
  }

  lemma OperateIsLine(op: BinaryOp, w: Width)
    ensures forall i :: i in Operate(op, w) ==> !IsControl(i)
  {
  }

  // ---------------------------------------------------------------- short-circuit operators

  function ShortHead(ty: Type, cc: Cond, skip: Label): Program {
    TestZero(ty) + [Jcc(cc, skip)]
  }

  function ShortTail(ty: Type, skip: Label, end: Label, c: int): Program {
    TestZero(ty) + [Setcc(CondNE, RAX), Movzx(RAX, RAX)] + ShortEnd(skip, end, c)
  }

  function ShortEnd(skip: Label, end: Label, c: int): Program {
    [Jmp(end), Def(skip), MovImm(Dword32, RAX, c), Def(end)]
  }

  ghost function Tested(t: State, ty: Type): State {
    t.(pc := t.pc + 1, flags := Some(CompareFlags(ty.Width(), Get(t, ty.Width(), RAX), 0)))
  }

  lemma TestRuns(p: Program, t: State, ty: Type, v: int)
    requires CodeAt(p, t.pc, TestZero(ty)) && Represents(t, ty, RAX, v)
    ensures Reaches(p, t, Next(Tested(t, ty))) && OnlyScratch(t, Tested(t, ty))
    ensures Tested(t, ty).flags.value.zf <==> v == 0
  {
    TestedZero(ty, t, v);
    LineOne(CmpImm(ty.Width(), RAX, 0), t);
    LineRuns(p, TestZero(ty), t);
  }

  lemma JumpRuns(p: Program, u: State, cc: Cond, skip: Label)
    requires CodeAt(p, u.pc, [Jcc(cc, skip)]) && u.flags.Some?
    ensures Holds(cc, u.flags.value) && Find(p, skip) < |p| ==> Reaches(p, u, Next(u.(pc := Find(p, skip))))
    ensures !Holds(cc, u.flags.value) ==> Reaches(p, u, Next(u.(pc := u.pc + 1)))
  {
    assert p[u.pc] == [Jcc(cc, skip)][0];
    ReachesStep(p, u);
  }

  /** The head either falls through to the right operand or jumps to the skip label. */
  lemma ShortHeadRuns(p: Program, ls: seq<Local>, env: Env, t: State, ty: Type, v: int, cc: Cond, skip: Label)
    requires CodeAt(p, t.pc, ShortHead(ty, cc, skip)) && Represents(t, ty, RAX, v) && Represented(ls, env, t)
    requires cc in {CondE, CondNE} && Find(p, skip) < |p|
    ensures var u := Tested(t, ty).(pc := if (cc == CondE) == (v == 0) then Find(p, skip) else t.pc + 2);
            Reaches(p, t, Next(u)) && Kept(ls, t, u, {}) && Represented(ls, env, u)
  {
    CodeAtSplit(p, t.pc, TestZero(ty), [Jcc(cc, skip)]);
    TestRuns(p, t, ty, v);
    var w := Tested(t, ty);
    JumpRuns(p, w, cc, skip);
    var u := w.(pc := if (cc == CondE) == (v == 0) then Find(p, skip) else t.pc + 2);
    hide Reaches, Represented, Kept;
    ReachesTrans(p, t, w, Next(u));
    ScratchKept(ls, env, t, u);
  }

  /** From the skip label the constant is loaded and control reaches the end label. */
  lemma SkipRuns(p: Program, ls: seq<Local>, env: Env, u: State, end: Label, skip: Label, c: int)
    requires CodeAt(p, u.pc, [Def(skip), MovImm(Dword32, RAX, c), Def(end)]) && Represented(ls, env, u) && c in {0, 1}
    ensures exists z :: Reaches(p, u, Next(z)) && z.pc == u.pc + 3 && Kept(ls, u, z, {})
                        && Represented(ls, env, z) && Represents(z, Int, RAX, c)
  {
    var code := [Def(skip), MovImm(Dword32, RAX, c), Def(end)];
    LineRuns(p, code, u);
    SkipLine(u, end, skip, c);
    hide Line, Reaches, Represented, Kept, Represents;
    ScratchKept(ls, env, u, Line(code, u).s);
  }

  lemma SkipLine(u: State, end: Label, skip: Label, c: int)
    requires c in {0, 1}
    ensures Leaves(Line([Def(skip), MovImm(Dword32, RAX, c), Def(end)], u), u, Int, c)
  {
    var i, j, k := Def(skip), MovImm(Dword32, RAX, c), Def(end);
    assert [i, j, k] == [i] + ([j] + [k]);
    LineCons(i, [j] + [k], u);
    var u1 := u.(pc := u.pc + 1);
    LineCons(j, [k], u1);
    assert Effect(j, u1) == Next(u1.(regs := u1.regs[RAX := c]));
    LineOne(k, u1.(pc := u1.pc + 1, regs := u1.regs[RAX := c]));
  }

  /** After the right operand: normalise it and jump over the constant. */
  lemma TailRuns(p: Program, ls: seq<Local>, env: Env, w: State, ty: Type, v: int, skip: Label, end: Label, c: int)
    requires UniqueLabels(p) && CodeAt(p, w.pc, ShortTail(ty, skip, end, c))
    requires Represents(w, ty, RAX, v) && Represented(ls, env, w)
    ensures exists z :: Reaches(p, w, Next(z)) && z.pc == w.pc + 7 && Kept(ls, w, z, {})
                        && Represented(ls, env, z) && Represents(z, Int, RAX, Truth(v != 0))
  {
    var norm := TestZero(ty) + [Setcc(CondNE, RAX), Movzx(RAX, RAX)];
    CodeAtSplit(p, w.pc, norm, ShortEnd(skip, end, c));
    NormLine(w, ty, v);
    LineRuns(p, norm, w);
    var u := Line(norm, w).s;
    hide Line, Represents, Represented, Kept;
    JumpToEnd(p, u, skip, end, c);
    var z := u.(pc := u.pc + 4);
    ReachesTrans(p, w, u, Next(z));
    ScratchKept(ls, env, w, z);
    SameRegisters(u, z, Int, Truth(v != 0));
  }

  lemma SameRegisters(u: State, z: State, ty: Type, v: int)
    requires Represents(u, ty, RAX, v) && z.regs == u.regs
    ensures Represents(z, ty, RAX, v)
  {
  }

  lemma NormLine(w: State, ty: Type, v: int)
    requires Represents(w, ty, RAX, v)
    ensures Leaves(Line(TestZero(ty) + [Setcc(CondNE, RAX), Movzx(RAX, RAX)], w), w, Int, Truth(v != 0))
  {
    TestedZero(ty, w, v);
    LineCons(CmpImm(ty.Width(), RAX, 0), [Setcc(CondNE, RAX), Movzx(RAX, RAX)], w);
    SetByte(CondNE, Effect(CmpImm(ty.Width(), RAX, 0), w).s.(pc := w.pc + 1), Truth(v != 0));
  }

  lemma JumpToEnd(p: Program, u: State, skip: Label, end: Label, c: int)
    requires UniqueLabels(p) && CodeAt(p, u.pc, ShortEnd(skip, end, c))
    ensures Reaches(p, u, Next(u.(pc := u.pc + 4)))
  {
    hide AluFlags, AluValue, DivideDouble, Put;
    var k := u.pc;
    assert p[k] == p[k..k + 4][0] && p[k + 3] == p[k..k + 4][3];
    FindUnique(p, end, k + 3);
    ReachesStep(p, u);
    var v := u.(pc := k + 3);
    assert Step(p, v) == Next(u.(pc := k + 4));
    ReachesStep(p, v);
    ReachesTrans(p, u, v, Next(u.(pc := k + 4)));
  }

  // ---------------------------------------------------------------- the theorem

  function Assigned(e: Expr): set<string> {
    match e
    case Unary(_, a) => Assigned(a)
    case Binary(_, l, r) => Assigned(l) + Assigned(r)
    case LogAnd(l, r) => Assigned(l) + Assigned(r)
    case LogOr(l, r) => Assigned(l) + Assigned(r)
    case Assign(x, a) => Assigned(a) + {x}
    case _ => {}
  }

  /** The most operands that are on the stack at once. */
  function PushDepth(e: Expr): nat {
    match e
    case Unary(_, a) => PushDepth(a)
    case Binary(_, l, r) => Max(PushDepth(l), PushDepth(r) + 1)
    case LogAnd(l, r) => Max(PushDepth(l), PushDepth(r))
    case LogOr(l, r) => Max(PushDepth(l), PushDepth(r))
    case Assign(_, a) => PushDepth(a)
    case _ => 0
  }

  function Max(a: nat, b: nat): nat {
    if a < b then b else a
  }

  /** Assigned variables are int or long: see NarrowAssignment for why. */
  predicate WideAssignments(e: Expr, ls: seq<Local>) {
    match e
    case Unary(_, a) => WideAssignments(a, ls)
    case Binary(_, l, r) => WideAssignments(l, ls) && WideAssignments(r, ls)
    case LogAnd(l, r) => WideAssignments(l, ls) && WideAssignments(r, ls)
    case LogOr(l, r) => WideAssignments(l, ls) && WideAssignments(r, ls)
    case Assign(x, a) =>
      WideAssignments(a, ls) && FindVar(ls, x).Some? && FindVar(ls, x).value.width in {Dword32, Qword64}
    case _ => true
  }

  ghost predicate Ready(p: Program, e: Expr, ls: seq<Local>, n: nat, s: State, env: Env) {
    && Declared(e, ls) && WideAssignments(e, ls) && UniqueLabels(p)
    && CodeAt(p, s.pc, Gen(e, ls, n).value.code)
    && Represented(ls, env, s) && s.lim + 8 * PushDepth(e) <= s.regs[RSP]
  }

  ghost predicate Correct(p: Program, e: Expr, ls: seq<Local>, n: nat, s: State, env: Env) {
    var g := Gen(e, ls, n);
    g.Some? && Meets(p, ls, s, |g.value.code|, g.value.ty, Eval(e, ls, env), Assigned(e))
  }

  lemma Arrival(p: Program, ls: seq<Local>, s: State, len: nat, ty: Type, r: Result, xs: set<string>) returns (t: State)
    requires Meets(p, ls, s, len, ty, r, xs) && r.Val?
    ensures Arrives(p, ls, s, t, len, ty, r.v, r.env, xs)
  {
    hide Reaches, Stored, Touched;
    t :| Arrives(p, ls, s, t, len, ty, r.v, r.env, xs);
  }

  lemma Arrived(p: Program, ls: seq<Local>, s: State, t: State, len: nat, ty: Type, v: int, env: Env, xs: set<string>)
    requires Arrives(p, ls, s, t, len, ty, v, env, xs)
    ensures Meets(p, ls, s, len, ty, Val(v, env), xs)
  {
  }

  // An operand that does not yield a value settles the whole expression.
  lemma Failed(p: Program, ls: seq<Local>, s: State, len: nat, ty: Type, len': nat, ty': Type, r: Result, xs: set<string>, ys: set<string>)
    requires Meets(p, ls, s, len, ty, r, xs) && !r.Val?
    ensures Meets(p, ls, s, len', ty', r, ys)
  {
  }

  /** For every program that contains the code of e, every state that represents the variables and
      has room on the stack: the code runs to its end with the value of e in eax or rax, rsp and all
      callee-saved registers unchanged, the variables updated as in C and every other byte kept; or
      it faults exactly where a division of e traps. */
  lemma {:induction false} GenCorrect(p: Program, e: Expr, ls: seq<Local>, n: nat, s: State, env: Env)
    requires Ready(p, e, ls, n, s, env)
    ensures Correct(p, e, ls, n, s, env)
    decreases e
  {
    hide *;
    match e
    case Literal(v, ty) => LeafCase(p, e, ls, n, s, env);
    case Var(x) => LeafCase(p, e, ls, n, s, env);
    case Unary(op, a) =>
      UnaryView(p, e, ls, n, s, env);
      GenCorrect(p, a, ls, n, s, env);
      UnaryCase(p, e, ls, n, s, env);
    case Assign(x, a) =>
      AssignView(p, e, ls, n, s, env);
      GenCorrect(p, a, ls, n, s, env);
      AssignCase(p, e, ls, n, s, env);
    case Binary(op, l, r) =>
      BinaryView(p, e, ls, n, s, env);
      GenCorrect(p, l, ls, n, s, env);
      if Eval(l, ls, env).Val? {
        var t := BinaryLeft(p, e, ls, n, s, env);
        GenCorrect(p, r, ls, PiecesOf(e, ls, n).left.next, Pushed(t), Eval(l, ls, env).env);
        BinaryCase(p, e, ls, n, s, env, t);
      } else {
        BinaryFails(p, e, ls, n, s, env);
      }
    case _ =>
      ShortView(p, e, ls, n, s, env);
      GenCorrect(p, e.left, ls, n + 1, s, env);
      if GoesRight(e, ls, env) {
        var u := ShortLeft(p, e, ls, n, s, env);
        GenCorrect(p, e.right, ls, ShortPartsOf(e, ls, n).left.next, u, Eval(e.left, ls, env).env);
        ShortCase(p, e, ls, n, s, env, u);
      } else {
        ShortSettled(p, e, ls, n, s, env);
      }
  }

  lemma LeafCase(p: Program, e: Expr, ls: seq<Local>, n: nat, s: State, env: Env)
    requires (e.Literal? || e.Var?) && Ready(p, e, ls, n, s, env)
    ensures Correct(p, e, ls, n, s, env)
  {
    hide Effect, Line, Leaves, Kept, Touched, Reaches, SlotHolds, UniqueLabels, Framed;
    match e
    case Literal(v, ty) =>
      LiteralLeaves(v, ty, s);
      LeafMeets(p, ls, env, s, [MovImm(ty.Width(), RAX, v)], ty, Wrap(v, ty.Modulus()), {});
    case Var(x) =>
      if x in env {
        var lv := FindVar(ls, x).value;
        LoadLeaves(lv, s, env[x]);
        LeafMeets(p, ls, env, s, [LoadLocal(lv)], TypeOfWidth(lv.width), env[x], {});
      }
  }

  // ---------------------------------------------------------------- unary operators and assignment

  lemma UnaryView(p: Program, e: Expr, ls: seq<Local>, n: nat, s: State, env: Env)
    requires e.Unary? && Ready(p, e, ls, n, s, env)
    ensures Ready(p, e.arg, ls, n, s, env) && Gen(e.arg, ls, n).Some?
    ensures var g := Gen(e.arg, ls, n).value; var c := UnaryCode(e.uop, g.ty);
            && CodeAt(p, s.pc + |g.code|, c) && (forall i :: i in c ==> !IsControl(i))
            && Gen(e, ls, n) == Some(Emitted(g.code + c, g.next, if e.uop == LogNot then Int else g.ty))
            && g.ty == TypeOf(e.arg, ls)
  {
    hide Represented, UniqueLabels, CodeAt;
    CodeAtSplit(p, s.pc, Gen(e.arg, ls, n).value.code, UnaryCode(e.uop, TypeOf(e.arg, ls)));
  }

  lemma UnaryMeaning(e: Expr, ls: seq<Local>, env: Env)
    requires e.Unary?
    ensures var r := Eval(e.arg, ls, env);
            Eval(e, ls, env) == if r.Val? then Val(UnaryValue(e.uop, TypeOf(e.arg, ls), r.v), r.env) else r
    ensures Assigned(e) == Assigned(e.arg)
  {
  }

  lemma Unfold(p: Program, e: Expr, ls: seq<Local>, n: nat, s: State, env: Env)
    ensures Correct(p, e, ls, n, s, env) <==>
            Gen(e, ls, n).Some? && Meets(p, ls, s, |Gen(e, ls, n).value.code|, Gen(e, ls, n).value.ty, Eval(e, ls, env), Assigned(e))
  {
    hide Eval, Gen, Meets;
  }

  lemma UnaryCase(p: Program, e: Expr, ls: seq<Local>, n: nat, s: State, env: Env)
    requires e.Unary? && Ready(p, e, ls, n, s, env) && Correct(p, e.arg, ls, n, s, env)
    ensures Correct(p, e, ls, n, s, env)
  {
    hide *;
    var op, a := e.uop, e.arg;
    UnaryView(p, e, ls, n, s, env);
    UnaryMeaning(e, ls, env);
    Unfold(p, a, ls, n, s, env);
    Unfold(p, e, ls, n, s, env);
    var g, r, xs := Gen(a, ls, n).value, Eval(a, ls, env), Assigned(a);
    var c, ty' := UnaryCode(op, g.ty), if op == LogNot then Int else g.ty;
    if r.Val? {
      var t := Arrival(p, ls, s, |g.code|, g.ty, r, xs);
      ArrivesView(p, ls, s, t, |g.code|, g.ty, r.v, r.env, xs);
      UnaryCorrect(op, g.ty, t, r.v);
      ContinueLine(p, ls, s, t, |g.code|, g.ty, r.v, r.env, xs, c, ty', UnaryValue(op, g.ty, r.v));
      Arrived(p, ls, s, Line(c, t).s, |g.code| + |c|, ty', UnaryValue(op, g.ty, r.v), r.env, xs);
    } else {
      Failed(p, ls, s, |g.code|, g.ty, |g.code| + |c|, ty', r, xs, xs);
    }
  }

  lemma ArrivesView(p: Program, ls: seq<Local>, s: State, t: State, len: nat, ty: Type, v: int, env: Env, xs: set<string>)
    requires Arrives(p, ls, s, t, len, ty, v, env, xs)
    ensures Reaches(p, s, Next(t)) && t.pc == s.pc + len && Kept(ls, s, t, xs) && Represented(ls, env, t) && Represents(t, ty, RAX, v)
    ensures t.lim == s.lim && t.regs[RSP] == s.regs[RSP]
  {
    hide Reaches, Represented, Represents;
  }

  /** The type a value has when it is stored in a local, and the code up to the store. */
  function StoredType(lv: Local, ty: Type): Type {
    if lv.width == Qword64 then Long else ty
  }

  lemma AssignView(p: Program, e: Expr, ls: seq<Local>, n: nat, s: State, env: Env)
    requires e.Assign? && Ready(p, e, ls, n, s, env)
    ensures Ready(p, e.arg, ls, n, s, env) && Gen(e.arg, ls, n).Some?
    ensures FindVar(ls, e.name).Some? && FindVar(ls, e.name).value.width in {Dword32, Qword64}
    ensures var g := Gen(e.arg, ls, n).value; var lv := FindVar(ls, e.name).value;
            var wide, st := Widen(g.ty, StoredType(lv, g.ty)), [Store(lv.width, RBP, -lv.offset, RAX)];
            && CodeAt(p, s.pc + |g.code|, wide) && (forall i :: i in wide ==> !IsControl(i))
            && CodeAt(p, s.pc + |g.code| + |wide|, st)
            && Gen(e, ls, n) == Some(Emitted(g.code + (wide + st), g.next, TypeOfWidth(lv.width)))
  {
    hide Represented, UniqueLabels, CodeAt, Gen;
    AssignGen(e, ls, n);
    var g, lv := Gen(e.arg, ls, n).value, FindVar(ls, e.name).value;
    var wide, st := Widen(g.ty, StoredType(lv, g.ty)), [Store(lv.width, RBP, -lv.offset, RAX)];
    CodeAtSplit(p, s.pc, g.code, wide + st);
    CodeAtSplit(p, s.pc + |g.code|, wide, st);
  }

  lemma AssignGen(e: Expr, ls: seq<Local>, n: nat)
    requires e.Assign? && Declared(e, ls) && WideAssignments(e, ls)
    ensures Gen(e.arg, ls, n).Some? && FindVar(ls, e.name).Some?
    ensures var g, lv := Gen(e.arg, ls, n).value, FindVar(ls, e.name).value;
      Gen(e, ls, n) == Some(Emitted(g.code + (Widen(g.ty, StoredType(lv, g.ty)) + [Store(lv.width, RBP, -lv.offset, RAX)]), g.next, TypeOfWidth(lv.width)))
  {
  }

  lemma AssignMeaning(e: Expr, ls: seq<Local>, env: Env)
    requires e.Assign? && FindVar(ls, e.name).Some?
    ensures var r := Eval(e.arg, ls, env); var v := if r.Val? then Wrap(r.v, FindVar(ls, e.name).value.width.Modulus()) else 0;
            Eval(e, ls, env) == if r.Val? then Val(v, r.env[e.name := v]) else r
    ensures Assigned(e) == Assigned(e.arg) + {e.name}
  {
  }

  lemma AssignCase(p: Program, e: Expr, ls: seq<Local>, n: nat, s: State, env: Env)
    requires e.Assign? && Ready(p, e, ls, n, s, env) && Correct(p, e.arg, ls, n, s, env)
    ensures Correct(p, e, ls, n, s, env)
  {
    hide *;
    var x, a := e.name, e.arg;
    AssignView(p, e, ls, n, s, env);
    AssignMeaning(e, ls, env);
    Unfold(p, a, ls, n, s, env);
    Unfold(p, e, ls, n, s, env);
    var g, r, xs, lv := Gen(a, ls, n).value, Eval(a, ls, env), Assigned(a), FindVar(ls, x).value;
    if r.Val? {
      var t := Arrival(p, ls, s, |g.code|, g.ty, r, xs);
      AssignStores(p, ls, s, t, |g.code|, g.ty, r.v, r.env, xs, x, lv);
    } else {
      Failed(p, ls, s, |g.code|, g.ty, |Gen(e, ls, n).value.code|, TypeOfWidth(lv.width), r, xs, xs + {x});
    }
  }

  lemma AssignStores(p: Program, ls: seq<Local>, s: State, t: State, k: nat, ty: Type, v: int, env: Env, xs: set<string>, x: string, lv: Local)
    requires Arrives(p, ls, s, t, k, ty, v, env, xs)
    requires FindVar(ls, x) == Some(lv) && lv.width in {Dword32, Qword64}
    requires CodeAt(p, s.pc + k, Widen(ty, StoredType(lv, ty)))
    requires CodeAt(p, s.pc + k + |Widen(ty, StoredType(lv, ty))|, [Store(lv.width, RBP, -lv.offset, RAX)])
    ensures var v' := Wrap(v, lv.width.Modulus());
            Meets(p, ls, s, k + |Widen(ty, StoredType(lv, ty))| + 1, TypeOfWidth(lv.width), Val(v', env[x := v']), xs + {x})
  {
    hide Kept, Represented, Represents, Reaches, CodeAt, Line;
    var ty', v' := StoredType(lv, ty), Wrap(v, lv.width.Modulus());
    var wide := Widen(ty, ty');
    WidenLeaves(ty, ty', t, v);
    ContinueLine(p, ls, s, t, k, ty, v, env, xs, wide, ty', v);
    var u := Line(wide, t).s;
    StoreStep(p, ls, env, u, x, lv, ty', v);
    var z := AfterStore(u, lv, v');
    JoinArrivals(p, ls, s, u, z, k + |wide|, 1, ty', v, env, xs, TypeOfWidth(lv.width), v', env[x := v'], {x});
    Arrived(p, ls, s, z, k + |wide| + 1, TypeOfWidth(lv.width), v', env[x := v'], xs + {x});
  }

  lemma JoinArrivals(p: Program, ls: seq<Local>, s: State, t: State, u: State, m: nat, n: nat,
                     ty: Type, v: int, env: Env, xs: set<string>, ty': Type, v': int, env': Env, ys: set<string>)
    requires Arrives(p, ls, s, t, m, ty, v, env, xs) && Arrives(p, ls, t, u, n, ty', v', env', ys)
    ensures Arrives(p, ls, s, u, m + n, ty', v', env', xs + ys)
  {
    hide Reaches, Kept, Represented, Represents;
    ReachesTrans(p, s, t, Next(u));
    KeptTrans(ls, s, t, u, xs, ys);
  }

  /** The pieces of the code of a binary operator: both operands, the types they are operated on
      in, and the conversions to those types. */
  datatype Pieces = Pieces(left: Emitted, right: Emitted, lt: Type, rt: Type) {
    function WidenLeft(): Program { Widen(left.ty, lt) }
    function WidenRight(): Program { Widen(right.ty, rt) }
    function RightAt(): nat { |left.code| + |WidenLeft()| + 1 }
    function PopAt(): nat { RightAt() + |right.code| + |WidenRight()| }
  }

  ghost function PiecesOf(e: Expr, ls: seq<Local>, n: nat): (q: Pieces)
    requires e.Binary? && Declared(e, ls)
    ensures q.left.ty == TypeOf(e.left, ls) && q.right.ty == TypeOf(e.right, ls)
    ensures q.lt == q.left.ty || q.lt == Long
    ensures q.rt == q.right.ty || q.rt == Long
    ensures e.op.IsShift() || q.lt == q.rt
    ensures TypeOf(e, ls) == if e.op.IsCompare() then Int else q.lt
  {
    var gl := Gen(e.left, ls, n).value;
    var gr := Gen(e.right, ls, gl.next).value;
    var common := Common(gl.ty, gr.ty);
    if e.op.IsShift() then Pieces(gl, gr, gl.ty, gr.ty) else Pieces(gl, gr, common, common)
  }

  lemma BinaryCode(p: Program, e: Expr, ls: seq<Local>, n: nat, k: nat)
    requires e.Binary? && Declared(e, ls) && CodeAt(p, k, Gen(e, ls, n).value.code)
    ensures var q := PiecesOf(e, ls, n); var c := [Pop(RCX)] + Operate(e.op, q.lt.Width());
            && CodeAt(p, k, q.left.code) && CodeAt(p, k + |q.left.code|, q.WidenLeft())
            && CodeAt(p, k + q.RightAt() - 1, [Push(RAX)]) && CodeAt(p, k + q.RightAt(), q.right.code)
            && CodeAt(p, k + q.RightAt() + |q.right.code|, q.WidenRight()) && CodeAt(p, k + q.PopAt(), c)
            && |Gen(e, ls, n).value.code| == q.PopAt() + |c|
  {
    hide *;
    var q := PiecesOf(e, ls, n);
    var a, lw, b, rw := q.left.code, q.WidenLeft(), q.right.code, q.WidenRight();
    var c := [Pop(RCX)] + Operate(e.op, q.lt.Width());
    BinaryShape(e, ls, n);
    PiecesView(e, ls, n);
    CodeAtSplit(p, k, a, lw + ([Push(RAX)] + (b + (rw + c))));
    CodeAtSplit(p, k + |a|, lw, [Push(RAX)] + (b + (rw + c)));
    CodeAtSplit(p, k + |a| + |lw|, [Push(RAX)], b + (rw + c));
    CodeAtSplit(p, k + |a| + |lw| + 1, b, rw + c);
    CodeAtSplit(p, k + |a| + |lw| + 1 + |b|, rw, c);
  }

  lemma BinaryShape(e: Expr, ls: seq<Local>, n: nat)
    requires e.Binary? && Declared(e, ls)
    ensures var q := PiecesOf(e, ls, n); var c := [Pop(RCX)] + Operate(e.op, q.lt.Width());
            Gen(e, ls, n).value.code
            == q.left.code + (q.WidenLeft() + ([Push(RAX)] + (q.right.code + (q.WidenRight() + c))))
  {
    var q := PiecesOf(e, ls, n);
    var a, lw, b, rw, op := q.left.code, q.WidenLeft(), q.right.code, q.WidenRight(), Operate(e.op, q.lt.Width());
    assert Gen(e, ls, n).value.code == a + lw + [Push(RAX)] + b + rw + [Pop(RCX)] + op;
    hide *;
    Reassociate(a, lw, b, rw, op);
  }

  lemma Reassociate(a: Program, lw: Program, b: Program, rw: Program, op: Program)
    ensures a + lw + [Push(RAX)] + b + rw + [Pop(RCX)] + op == a + (lw + ([Push(RAX)] + (b + (rw + ([Pop(RCX)] + op)))))
  {
  }

  lemma BinaryView(p: Program, e: Expr, ls: seq<Local>, n: nat, s: State, env: Env)
    requires e.Binary? && Ready(p, e, ls, n, s, env)
    ensures Declared(e, ls) && Ready(p, e.left, ls, n, s, env)
    ensures Gen(e, ls, n).Some? && CodeAt(p, s.pc, Gen(e, ls, n).value.code)
    ensures Gen(e.left, ls, n) == Some(PiecesOf(e, ls, n).left)
    ensures Gen(e, ls, n).value.ty == if e.op.IsCompare() then Int else PiecesOf(e, ls, n).lt
  {
    hide Represented, UniqueLabels, CodeAt;
    BinaryCode(p, e, ls, n, s.pc);
  }

  function JoinResult(op: BinaryOp, ty: Type, a: int, rr: Result): Result {
    if !rr.Val? then rr
    else
      match BinaryValue(op, ty, a, rr.v)
      case Number(v) => Val(v, rr.env)
      case Traps => Trap
      case NoMeaning => Undefined
  }

  lemma BinaryMeaning(e: Expr, ls: seq<Local>, n: nat, env: Env)
    requires e.Binary? && Declared(e, ls)
    ensures Assigned(e) == Assigned(e.left) + Assigned(e.right)
    ensures var rl := Eval(e.left, ls, env);
            Eval(e, ls, env) == if rl.Val? then JoinResult(e.op, PiecesOf(e, ls, n).lt, rl.v, Eval(e.right, ls, rl.env)) else rl
  {
    hide BinaryValue;
  }

  lemma BinaryFails(p: Program, e: Expr, ls: seq<Local>, n: nat, s: State, env: Env)
    requires e.Binary? && Ready(p, e, ls, n, s, env) && Correct(p, e.left, ls, n, s, env) && !Eval(e.left, ls, env).Val?
    ensures Correct(p, e, ls, n, s, env)
  {
    hide *;
    BinaryView(p, e, ls, n, s, env);
    BinaryMeaning(e, ls, n, env);
    Unfold(p, e.left, ls, n, s, env);
    Unfold(p, e, ls, n, s, env);
    var g, g' := Gen(e.left, ls, n).value, Gen(e, ls, n).value;
    Failed(p, ls, s, |g.code|, g.ty, |g'.code|, g'.ty, Eval(e, ls, env), Assigned(e.left), Assigned(e));
  }

  ghost predicate LeftSaved(p: Program, e: Expr, ls: seq<Local>, n: nat, s: State, env: Env, t: State)
    requires e.Binary? && Declared(e, ls)
  {
    var q, rl := PiecesOf(e, ls, n), Eval(e.left, ls, env);
    rl.Val? && Arrives(p, ls, s, t, q.RightAt() - 1, q.lt, rl.v, rl.env, Assigned(e.left))
    && t.lim + 8 <= t.regs[RSP] && t.regs[RSP] >= 8 && Reaches(p, t, Next(Pushed(t)))
  }

  lemma SavedFold(p: Program, e: Expr, ls: seq<Local>, n: nat, s: State, env: Env, t: State)
    requires e.Binary? && Declared(e, ls)
    ensures var q, rl := PiecesOf(e, ls, n), Eval(e.left, ls, env);
            LeftSaved(p, e, ls, n, s, env, t) <==>
            rl.Val? && Arrives(p, ls, s, t, q.RightAt() - 1, q.lt, rl.v, rl.env, Assigned(e.left))
            && t.lim + 8 <= t.regs[RSP] && t.regs[RSP] >= 8 && Reaches(p, t, Next(Pushed(t)))
  {
    hide Arrives, Declared, Eval, PiecesOf, Pushed, Reaches;
  }

  /** After the left operand has been converted and pushed, the right one is ready to run. */
  lemma BinaryLeft(p: Program, e: Expr, ls: seq<Local>, n: nat, s: State, env: Env) returns (t: State)
    requires e.Binary? && Ready(p, e, ls, n, s, env) && Correct(p, e.left, ls, n, s, env) && Eval(e.left, ls, env).Val?
    ensures Declared(e, ls) && t.regs[RSP] >= 8
    ensures LeftSaved(p, e, ls, n, s, env, t)
    ensures Ready(p, e.right, ls, PiecesOf(e, ls, n).left.next, Pushed(t), Eval(e.left, ls, env).env)
  {
    hide *;
    BinaryView(p, e, ls, n, s, env);
    BinaryCode(p, e, ls, n, s.pc);
    PiecesView(e, ls, n);
    Unfold(p, e.left, ls, n, s, env);
    var q, rl, xs := PiecesOf(e, ls, n), Eval(e.left, ls, env), Assigned(e.left);
    var t0 := Arrival(p, ls, s, |q.left.code|, q.left.ty, rl, xs);
    t := WidenArrival(p, ls, s, t0, |q.left.code|, q.left.ty, q.lt, rl.v, rl.env, xs);
    ArrivesView(p, ls, s, t, |q.left.code| + |q.WidenLeft()|, q.lt, rl.v, rl.env, xs);
    BinaryRoom(p, e, ls, n, s, env, t);
    PushStep(p, ls, rl.env, t);
    RightReady(p, e, ls, n, s, env, t, rl.env);
    SavedFold(p, e, ls, n, s, env, t);
  }

  lemma BinaryRoom(p: Program, e: Expr, ls: seq<Local>, n: nat, s: State, env: Env, t: State)
    requires e.Binary? && Ready(p, e, ls, n, s, env) && t.lim == s.lim && t.regs[RSP] == s.regs[RSP]
    ensures t.lim + 8 <= t.regs[RSP] && s.lim >= 0
  {
    hide Gen, CodeAt, AllApart, Stored, UniqueLabels;
  }

  lemma RightReady(p: Program, e: Expr, ls: seq<Local>, n: nat, s: State, env: Env, t: State, env': Env)
    requires e.Binary? && Ready(p, e, ls, n, s, env) && Declared(e, ls)
    requires t.lim == s.lim && t.regs[RSP] == s.regs[RSP] >= 8
    requires t.pc + 1 == s.pc + PiecesOf(e, ls, n).RightAt() && Represented(ls, env', Pushed(t))
    requires CodeAt(p, s.pc + PiecesOf(e, ls, n).RightAt(), PiecesOf(e, ls, n).right.code)
    ensures Ready(p, e.right, ls, PiecesOf(e, ls, n).left.next, Pushed(t), env')
  {
    hide Represented, UniqueLabels, CodeAt;
  }

  lemma WidenArrival(p: Program, ls: seq<Local>, s: State, t0: State, k: nat, from: Type, to: Type, v: int, env: Env, xs: set<string>)
    returns (t: State)
    requires Arrives(p, ls, s, t0, k, from, v, env, xs) && (from == to || to == Long)
    requires CodeAt(p, s.pc + k, Widen(from, to))
    ensures Arrives(p, ls, s, t, k + |Widen(from, to)|, to, v, env, xs)
  {
    hide Kept, Represented, Represents, Reaches, CodeAt, Line;
    WidenLeaves(from, to, t0, v);
    ContinueLine(p, ls, s, t0, k, from, v, env, xs, Widen(from, to), to, v);
    t := Line(Widen(from, to), t0).s;
  }

  lemma BinaryCase(p: Program, e: Expr, ls: seq<Local>, n: nat, s: State, env: Env, t: State)
    requires e.Binary? && Ready(p, e, ls, n, s, env)
    requires Declared(e, ls) && t.regs[RSP] >= 8 && LeftSaved(p, e, ls, n, s, env, t)
    requires Correct(p, e.right, ls, PiecesOf(e, ls, n).left.next, Pushed(t), Eval(e.left, ls, env).env)
    ensures Correct(p, e, ls, n, s, env)
  {
    hide *;
    BinaryView(p, e, ls, n, s, env);
    BinaryCode(p, e, ls, n, s.pc);
    BinaryMeaning(e, ls, n, env);
    Unfold(p, e, ls, n, s, env);
    var q, rl := PiecesOf(e, ls, n), Eval(e.left, ls, env);
    SavedFold(p, e, ls, n, s, env, t);
    PiecesView(e, ls, n);
    Unfold(p, e.right, ls, q.left.next, Pushed(t), rl.env);
    ArrivesView(p, ls, s, t, q.RightAt() - 1, q.lt, rl.v, rl.env, Assigned(e.left));
    BinaryJoin(p, e.op, ls, s, t, q.RightAt() - 1, q.lt, rl.v, rl.env, Assigned(e.left),
               q.right.code, q.right.ty, q.rt, Eval(e.right, ls, rl.env), Assigned(e.right));
  }

  lemma PiecesView(e: Expr, ls: seq<Local>, n: nat)
    requires e.Binary? && Declared(e, ls)
    ensures var q := PiecesOf(e, ls, n);
            && Gen(e.right, ls, q.left.next) == Some(q.right)
            && q.WidenLeft() == Widen(q.left.ty, q.lt) && q.WidenRight() == Widen(q.right.ty, q.rt)
            && q.RightAt() == |q.left.code| + |q.WidenLeft()| + 1
            && q.PopAt() == q.RightAt() + |q.right.code| + |q.WidenRight()|
  {
  }

  lemma BinaryJoin(p: Program, op: BinaryOp, ls: seq<Local>, s: State, t: State, k: nat, lt: Type, a: int, env: Env, xs: set<string>,
                   code: Program, own: Type, rt: Type, rr: Result, ys: set<string>)
    requires Arrives(p, ls, s, t, k, lt, a, env, xs) && t.lim + 8 <= t.regs[RSP] && t.regs[RSP] >= 8
    requires Reaches(p, t, Next(Pushed(t)))
    requires Meets(p, ls, Pushed(t), |code|, own, rr, ys)
    requires own == rt || rt == Long
    requires op.IsShift() || lt == rt
    requires CodeAt(p, t.pc + 1 + |code|, Widen(own, rt))
    requires CodeAt(p, t.pc + 1 + |code| + |Widen(own, rt)|, [Pop(RCX)] + Operate(op, lt.Width()))
    ensures Meets(p, ls, s, k + 1 + |code| + |Widen(own, rt)| + 1 + |Operate(op, lt.Width())|,
                  if op.IsCompare() then Int else lt, JoinResult(op, lt, a, rr), xs + ys)
  {
    hide *;
    var u := Pushed(t);
    ArrivesView(p, ls, s, t, k, lt, a, env, xs);
    ReachesTrans(p, s, t, Next(u));
    PushedView(t);
    if rr.Val? {
      var w0 := Arrival(p, ls, u, |code|, own, rr, ys);
      var w := WidenArrival(p, ls, u, w0, |code|, own, rt, rr.v, rr.env, ys);
      ArrivesView(p, ls, u, w, |code| + |Widen(own, rt)|, rt, rr.v, rr.env, ys);
      ReachesTrans(p, s, u, Next(w));
      FramedFrom(ls, env, t);
      BinaryFinish(p, ls, t, w, |code| + |Widen(own, rt)|, op, lt, rt, a, rr.v, rr.env, ys);
      BinaryLast(p, ls, s, t, w, k, op, lt, a, rr, env, xs, ys, w.pc + 1 + |Operate(op, lt.Width())| - s.pc);
    } else {
      JoinFails(p, ls, s, u, |code|, own, op, lt, a, rr, ys, k + 1 + |code| + |Widen(own, rt)| + 1 + |Operate(op, lt.Width())|, xs + ys);
    }
  }

  lemma PushedView(t: State)
    requires t.regs[RSP] >= 8
    ensures Pushed(t).pc == t.pc + 1
  {
  }

  lemma JoinFails(p: Program, ls: seq<Local>, s: State, u: State, k: nat, own: Type, op: BinaryOp, lt: Type, a: int, rr: Result,
                  ys: set<string>, len: nat, zs: set<string>)
    requires Reaches(p, s, Next(u)) && Meets(p, ls, u, k, own, rr, ys) && !rr.Val?
    ensures Meets(p, ls, s, len, if op.IsCompare() then Int else lt, JoinResult(op, lt, a, rr), zs)
  {
    hide Reaches, BinaryValue, Arrives;
    if rr.Trap? {
      ReachesTrans(p, s, u, Fault);
    }
  }

  lemma FramedFrom(ls: seq<Local>, env: Env, t: State)
    requires Represented(ls, env, t)
    ensures Framed(ls, t.regs[RSP], t.regs[RBP], t.mem, t.lim)
  {
  }

  lemma BinaryLast(p: Program, ls: seq<Local>, s: State, t: State, w: State, k: nat, op: BinaryOp, lt: Type, a: int, rr: Result,
                   env: Env, xs: set<string>, ys: set<string>, len: nat)
    requires Arrives(p, ls, s, t, k, lt, a, env, xs) && Reaches(p, s, Next(w)) && rr.Val?
    requires Finishes(p, ls, t, w, len + s.pc, op, lt, a, rr.v, rr.env, ys)
    ensures Meets(p, ls, s, len, if op.IsCompare() then Int else lt, JoinResult(op, lt, a, rr), xs + ys)
  {
    hide Reaches, Kept, Represented, Represents, BinaryValue;
    match BinaryValue(op, lt, a, rr.v)
    case Number(v) =>
      var z :| Reaches(p, w, Next(z)) && z.pc == s.pc + len && Kept(ls, t, z, ys) && Represented(ls, rr.env, z)
               && Represents(z, if op.IsCompare() then Int else lt, RAX, v);
      ReachesTrans(p, s, w, Next(z));
      KeptTrans(ls, s, t, z, xs, ys);
      assert Arrives(p, ls, s, z, len, if op.IsCompare() then Int else lt, v, rr.env, xs + ys);
    case Traps => ReachesTrans(p, s, w, Fault);
    case NoMeaning =>
  }

  datatype ShortParts = ShortParts(left: Emitted, right: Emitted, cc: Cond, skip: Label, end: Label, c: int)

  ghost function ShortPartsOf(e: Expr, ls: seq<Local>, n: nat): (q: ShortParts)
    requires (e.LogAnd? || e.LogOr?) && Declared(e, ls)
    ensures q.left.ty == TypeOf(e.left, ls) && q.right.ty == TypeOf(e.right, ls)
    ensures q.cc in {CondE, CondNE} && q.c in {0, 1}
  {
    var gl := Gen(e.left, ls, n + 1).value;
    var gr := Gen(e.right, ls, gl.next).value;
    if e.LogAnd? then ShortParts(gl, gr, CondE, LabelName(AND_FALSE, n), LabelName(AND_END, n), 0)
    else ShortParts(gl, gr, CondNE, LabelName(OR_TRUE, n), LabelName(OR_END, n), 1)
  }

  lemma ShortShape(e: Expr, ls: seq<Local>, n: nat)
    requires (e.LogAnd? || e.LogOr?) && Declared(e, ls)
    ensures var q := ShortPartsOf(e, ls, n);
            Gen(e, ls, n).value.code
            == q.left.code + (ShortHead(q.left.ty, q.cc, q.skip) + (q.right.code + ShortTail(q.right.ty, q.skip, q.end, q.c)))
  {
    hide ShortCircuitCode, LabelName, ShortHead, ShortTail;
    var q := ShortPartsOf(e, ls, n);
    assert Gen(e, ls, n).value.code == ShortCircuitCode(q.left, q.right, q.cc, q.skip, q.end, q.c);
    ShortReassociate(q);
  }

  lemma ShortReassociate(q: ShortParts)
    ensures ShortCircuitCode(q.left, q.right, q.cc, q.skip, q.end, q.c)
            == q.left.code + (ShortHead(q.left.ty, q.cc, q.skip) + (q.right.code + ShortTail(q.right.ty, q.skip, q.end, q.c)))
  {
  }

  lemma ShortCode(p: Program, e: Expr, ls: seq<Local>, n: nat, k: nat)
    requires (e.LogAnd? || e.LogOr?) && Declared(e, ls) && CodeAt(p, k, Gen(e, ls, n).value.code)
    ensures var q := ShortPartsOf(e, ls, n);
            var k1 := k + |q.left.code|; var k2 := k1 + 2 + |q.right.code|;
            && CodeAt(p, k, q.left.code) && CodeAt(p, k1, ShortHead(q.left.ty, q.cc, q.skip))
            && CodeAt(p, k1 + 2, q.right.code) && CodeAt(p, k2, ShortTail(q.right.ty, q.skip, q.end, q.c))
            && CodeAt(p, k2 + 4, [Def(q.skip), MovImm(Dword32, RAX, q.c), Def(q.end)])
            && |Gen(e, ls, n).value.code| == k2 + 7 - k
  {
    hide *;
    var q := ShortPartsOf(e, ls, n);
    var a, b, h, t := q.left.code, q.right.code, ShortHead(q.left.ty, q.cc, q.skip), ShortTail(q.right.ty, q.skip, q.end, q.c);
    ShortShape(e, ls, n);
    var skipped := [Def(q.skip), MovImm(Dword32, RAX, q.c), Def(q.end)];
    var norm := TailShape(q.left.ty, q.right.ty, q.cc, q.skip, q.end, q.c);
    CodeAtSplit(p, k, a, h + (b + t));
    CodeAtSplit(p, k + |a|, h, b + t);
    CodeAtSplit(p, k + |a| + |h|, b, t);
    CodeAtSplit(p, k + |a| + |h| + |b|, norm, skipped);
  }

  lemma TailShape(lt: Type, rt: Type, cc: Cond, skip: Label, end: Label, c: int) returns (norm: Program)
    ensures ShortTail(rt, skip, end, c) == norm + [Def(skip), MovImm(Dword32, RAX, c), Def(end)] && |norm| == 4
    ensures |ShortHead(lt, cc, skip)| == 2
  {
    norm := TestZero(rt) + [Setcc(CondNE, RAX), Movzx(RAX, RAX), Jmp(end)];
  }

  lemma ShortView(p: Program, e: Expr, ls: seq<Local>, n: nat, s: State, env: Env)
    requires (e.LogAnd? || e.LogOr?) && Ready(p, e, ls, n, s, env)
    ensures Declared(e, ls) && UniqueLabels(p) && Ready(p, e.left, ls, n + 1, s, env)
    ensures Gen(e, ls, n).Some? && Gen(e, ls, n).value.ty == Int && CodeAt(p, s.pc, Gen(e, ls, n).value.code)
    ensures var q := ShortPartsOf(e, ls, n);
            && Gen(e.left, ls, n + 1) == Some(q.left) && Gen(e.right, ls, q.left.next) == Some(q.right)
            && q.cc == (if e.LogAnd? then CondE else CondNE) && q.c == (if e.LogAnd? then 0 else 1)
  {
    hide Represented, UniqueLabels, CodeAt;
    ShortCode(p, e, ls, n, s.pc);
  }

  /** The left operand has a value that does not decide the result. */
  predicate GoesRight(e: Expr, ls: seq<Local>, env: Env)
    requires e.LogAnd? || e.LogOr?
  {
    var rl := Eval(e.left, ls, env);
    rl.Val? && (e.LogAnd? <==> rl.v != 0)
  }

  function TruthResult(rr: Result): Result {
    if rr.Val? then Val(Truth(rr.v != 0), rr.env) else rr
  }

  lemma ShortMeaning(e: Expr, ls: seq<Local>, env: Env)
    requires e.LogAnd? || e.LogOr?
    ensures Assigned(e) == Assigned(e.left) + Assigned(e.right)
    ensures var rl := Eval(e.left, ls, env);
            && (GoesRight(e, ls, env) ==> rl.Val? && (e.LogAnd? <==> rl.v != 0)
                                          && Eval(e, ls, env) == TruthResult(Eval(e.right, ls, rl.env)))
            && (!GoesRight(e, ls, env) && rl.Val? ==> (e.LogAnd? <==> rl.v == 0)
                                                      && Eval(e, ls, env) == Val(if e.LogAnd? then 0 else 1, rl.env))
            && (!rl.Val? ==> Eval(e, ls, env) == rl)
  {
  }

  /** The left operand has run and the head has jumped or fallen through. */
  lemma ShortAfterHead(p: Program, e: Expr, ls: seq<Local>, n: nat, s: State, env: Env) returns (u: State)
    requires (e.LogAnd? || e.LogOr?) && Ready(p, e, ls, n, s, env) && Correct(p, e.left, ls, n + 1, s, env)
    requires Eval(e.left, ls, env).Val?
    ensures Declared(e, ls) && Represented(ls, Eval(e.left, ls, env).env, u)
    ensures Reaches(p, s, Next(u)) && Kept(ls, s, u, Assigned(e.left)) && u.lim == s.lim && u.regs[RSP] == s.regs[RSP]
    ensures var q := ShortPartsOf(e, ls, n);
            u.pc == s.pc + |q.left.code| + 2 + if GoesRight(e, ls, env) then 0 else |q.right.code| + 4
  {
    hide *;
    ShortView(p, e, ls, n, s, env);
    ShortMeaning(e, ls, env);
    ShortCode(p, e, ls, n, s.pc);
    Unfold(p, e.left, ls, n + 1, s, env);
    var q, rl, xs := ShortPartsOf(e, ls, n), Eval(e.left, ls, env), Assigned(e.left);
    var t := Arrival(p, ls, s, |q.left.code|, q.left.ty, rl, xs);
    ArrivesView(p, ls, s, t, |q.left.code|, q.left.ty, rl.v, rl.env, xs);
    var k := s.pc + |q.left.code| + 2 + |q.right.code| + 4;
    var skipped := [MovImm(Dword32, RAX, q.c), Def(q.end)];
    assert [Def(q.skip)] + skipped == [Def(q.skip), MovImm(Dword32, RAX, q.c), Def(q.end)];
    AtHead(p, k, Def(q.skip), skipped);
    FindUnique(p, q.skip, k);
    ShortHeadRuns(p, ls, rl.env, t, q.left.ty, rl.v, q.cc, q.skip);
    u := Tested(t, q.left.ty).(pc := if (q.cc == CondE) == (rl.v == 0) then k else t.pc + 2);
    ReachesTrans(p, s, t, Next(u));
    KeptTrans(ls, s, t, u, xs, {});
    assert xs + {} == xs;
    KeptView(ls, s, u, xs);
  }

  lemma AtHead(p: Program, k: nat, i: Instr, c: Program)
    requires CodeAt(p, k, [i] + c)
    ensures k < |p| && p[k] == i
  {
    assert p[k..k + |[i] + c|][0] == i;
  }

  lemma KeptView(ls: seq<Local>, s: State, u: State, xs: set<string>)
    requires Kept(ls, s, u, xs)
    ensures u.lim == s.lim && u.regs[RSP] == s.regs[RSP]
  {
  }

  lemma ShortLeft(p: Program, e: Expr, ls: seq<Local>, n: nat, s: State, env: Env) returns (u: State)
    requires (e.LogAnd? || e.LogOr?) && Ready(p, e, ls, n, s, env) && Correct(p, e.left, ls, n + 1, s, env)
    requires GoesRight(e, ls, env)
    ensures Declared(e, ls)
    ensures Reaches(p, s, Next(u)) && Kept(ls, s, u, Assigned(e.left)) && Eval(e.left, ls, env).Val?
    ensures u.pc == s.pc + |ShortPartsOf(e, ls, n).left.code| + 2
    ensures Ready(p, e.right, ls, ShortPartsOf(e, ls, n).left.next, u, Eval(e.left, ls, env).env)
  {
    hide *;
    ShortMeaning(e, ls, env);
    u := ShortAfterHead(p, e, ls, n, s, env);
    ShortView(p, e, ls, n, s, env);
    ShortCode(p, e, ls, n, s.pc);
    ShortRightReady(p, e, ls, n, s, env, u, Eval(e.left, ls, env).env);
  }

  lemma ShortRightReady(p: Program, e: Expr, ls: seq<Local>, n: nat, s: State, env: Env, u: State, env': Env)
    requires (e.LogAnd? || e.LogOr?) && Ready(p, e, ls, n, s, env) && Declared(e, ls)
    requires u.lim == s.lim && u.regs[RSP] == s.regs[RSP] && Represented(ls, env', u)
    requires CodeAt(p, u.pc, ShortPartsOf(e, ls, n).right.code)
    ensures Ready(p, e.right, ls, ShortPartsOf(e, ls, n).left.next, u, env')
  {
    hide Represented, UniqueLabels, CodeAt;
  }

  lemma ShortCase(p: Program, e: Expr, ls: seq<Local>, n: nat, s: State, env: Env, u: State)
    requires (e.LogAnd? || e.LogOr?) && Ready(p, e, ls, n, s, env) && GoesRight(e, ls, env) && Declared(e, ls)
    requires Reaches(p, s, Next(u)) && Kept(ls, s, u, Assigned(e.left)) && Eval(e.left, ls, env).Val?
    requires u.pc == s.pc + |ShortPartsOf(e, ls, n).left.code| + 2
    requires Correct(p, e.right, ls, ShortPartsOf(e, ls, n).left.next, u, Eval(e.left, ls, env).env)
    ensures Correct(p, e, ls, n, s, env)
  {
    hide *;
    ShortView(p, e, ls, n, s, env);
    ShortCode(p, e, ls, n, s.pc);
    ShortMeaning(e, ls, env);
    var q, rl := ShortPartsOf(e, ls, n), Eval(e.left, ls, env);
    Unfold(p, e, ls, n, s, env);
    Unfold(p, e.right, ls, q.left.next, u, rl.env);
    ShortJoin(p, ls, s, u, q, Assigned(e.left), Assigned(e.right), Eval(e.right, ls, rl.env));
  }

  /** The right operand is not evaluated: the left one decides, traps or is undefined. */
  lemma ShortSettled(p: Program, e: Expr, ls: seq<Local>, n: nat, s: State, env: Env)
    requires (e.LogAnd? || e.LogOr?) && Ready(p, e, ls, n, s, env) && Correct(p, e.left, ls, n + 1, s, env)
    requires !GoesRight(e, ls, env)
    ensures Correct(p, e, ls, n, s, env)
  {
    hide *;
    ShortView(p, e, ls, n, s, env);
    ShortCode(p, e, ls, n, s.pc);
    ShortMeaning(e, ls, env);
    Unfold(p, e.left, ls, n + 1, s, env);
    Unfold(p, e, ls, n, s, env);
    var q, rl, len := ShortPartsOf(e, ls, n), Eval(e.left, ls, env), |Gen(e, ls, n).value.code|;
    if rl.Val? {
      var u := ShortAfterHead(p, e, ls, n, s, env);
      var z := SkipTo(p, ls, rl.env, u, q);
      ShortLast(p, ls, s, u, z, Assigned(e.left), {}, Assigned(e), q.c, rl.env, len);
    } else {
      Failed(p, ls, s, |q.left.code|, q.left.ty, len, Int, rl, Assigned(e.left), Assigned(e));
    }
  }

  lemma SkipTo(p: Program, ls: seq<Local>, env: Env, u: State, q: ShortParts) returns (z: State)
    requires CodeAt(p, u.pc, [Def(q.skip), MovImm(Dword32, RAX, q.c), Def(q.end)]) && Represented(ls, env, u) && q.c in {0, 1}
    ensures Reaches(p, u, Next(z)) && z.pc == u.pc + 3 && Kept(ls, u, z, {}) && Represented(ls, env, z) && Represents(z, Int, RAX, q.c)
  {
    hide *;
    SkipRuns(p, ls, env, u, q.end, q.skip, q.c);
    z :| Reaches(p, u, Next(z)) && z.pc == u.pc + 3 && Kept(ls, u, z, {}) && Represented(ls, env, z) && Represents(z, Int, RAX, q.c);
  }

  lemma ShortLast(p: Program, ls: seq<Local>, s: State, u: State, z: State, xs: set<string>, ys: set<string>, zs: set<string>,
                  v: int, env: Env, len: nat)
    requires Reaches(p, s, Next(u)) && Kept(ls, s, u, xs) && xs + ys <= zs
    requires Reaches(p, u, Next(z)) && z.pc == s.pc + len && Kept(ls, u, z, ys)
    requires Represented(ls, env, z) && Represents(z, Int, RAX, v)
    ensures Meets(p, ls, s, len, Int, Val(v, env), zs)
  {
    hide Reaches, Kept, Represented, Represents;
    ReachesTrans(p, s, u, Next(z));
    KeptTrans(ls, s, u, z, xs, ys);
    KeptMore(ls, s, z, xs + ys, zs);
    assert Arrives(p, ls, s, z, len, Int, v, env, zs);
  }

  lemma ShortJoin(p: Program, ls: seq<Local>, s: State, u: State, q: ShortParts, xs: set<string>, ys: set<string>, rr: Result)
    requires UniqueLabels(p) && Reaches(p, s, Next(u)) && Kept(ls, s, u, xs) && s.pc <= u.pc
    requires Meets(p, ls, u, |q.right.code|, q.right.ty, rr, ys)
    requires CodeAt(p, u.pc + |q.right.code|, ShortTail(q.right.ty, q.skip, q.end, q.c))
    ensures Meets(p, ls, s, u.pc + |q.right.code| + 7 - s.pc, Int, TruthResult(rr), xs + ys)
  {
    hide Reaches, Kept, Represented, Represents;
    match rr
    case Trap => ReachesTrans(p, s, u, Fault);
    case Undefined =>
    case Val(b, env) =>
      var w :| Arrives(p, ls, u, w, |q.right.code|, q.right.ty, b, env, ys);
      TailRuns(p, ls, env, w, q.right.ty, b, q.skip, q.end, q.c);
      var z :| Reaches(p, w, Next(z)) && z.pc == w.pc + 7 && Kept(ls, w, z, {})
               && Represented(ls, env, z) && Represents(z, Int, RAX, Truth(b != 0));
      ReachesTrans(p, u, w, Next(z));
      KeptTrans(ls, u, w, z, ys, {});
      assert ys + {} == ys;
      ShortLast(p, ls, s, u, z, xs, ys, xs + ys, Truth(b != 0), env, z.pc - s.pc);
  }
}
