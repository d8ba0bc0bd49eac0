/** The peephole pass over the code of an expression: the code meets every condition of the pass, so the
    rewritten code still computes the value that C defines. */
module ExprPeephole {
  import opened Numerals
  import opened Machine
  import opened Codegen
  import opened PeepholeRules
  import opened PeepholeCorrect
  import opened PeepholeTheorem
  import opened PeepholeFaults
  import E = ExprTheorem
  import L = ExprLabels
  import O = CodegenCorrect

  // ---------------------------------------------------------------- the shape of expression code

  /** The flags are read right after a comparison only, a local is loaded at the start of an operand, no pop follows a push. */
  predicate Follows(i: Instr, j: Instr) {
    && (ReadsFlags(j) ==> i.Cmp? || i.CmpImm?)
    && (j.Load? ==> i.Push? || i.Jcc?)
    && (j.Pop? ==> !i.Push?)
  }

  predicate Linked(c: Program) {
    forall k :: 0 < k < |c| ==> Follows(c[k - 1], c[k])
  }

  /** No call or return, no self-move, and every store is to the slot of a local at its width. */
  predicate Sound(i: Instr, ls: seq<Local>) {
    && !i.Call? && !i.Ret? && !SelfMove(i)
    && (i.Store? ==> exists lv :: lv in ls && i == Store(lv.width, RBP, -lv.offset, RAX))
  }

  predicate AllSound(c: Program, ls: seq<Local>) {
    forall i :: i in c ==> Sound(i, ls)
  }

  /** Code that can follow anything. */
  predicate Neutral(c: Program) {
    c != [] ==> !ReadsFlags(c[0]) && !c[0].Load? && !c[|c| - 1].Push?
  }

  predicate Shaped(c: Program, ls: seq<Local>) {
    Linked(c) && AllSound(c, ls)
  }

  /** Code of an operand: shaped, it starts neither by reading the flags nor with a pop and does not end in a push. */
  predicate Operand(c: Program, ls: seq<Local>) {
    Shaped(c, ls) && c != [] && !ReadsFlags(c[0]) && !c[0].Pop? && !c[|c| - 1].Push?
  }

  lemma Joined(a: Program, b: Program, ls: seq<Local>)
    requires Shaped(a, ls) && Shaped(b, ls)
    requires (Neutral(b) && (a != [] ==> !a[|a| - 1].Push?)) || (a != [] && b != [] && Follows(a[|a| - 1], b[0]))
    ensures Shaped(a + b, ls)
  {
    hide Follows, Sound;
    var c := a + b;
    forall k | 0 < k < |c| ensures Follows(c[k - 1], c[k]) {
      if k < |a| {
        assert Follows(a[k - 1], a[k]);
      } else if k > |a| {
        assert Follows(b[k - |a| - 1], b[k - |a|]);
      } else {
        assert c[k - 1] == a[|a| - 1] && c[k] == b[0];
        if Neutral(b) && !a[|a| - 1].Push? { NeutralFollows(a[|a| - 1], b); }
      }
    }
  }

  lemma NeutralFollows(i: Instr, b: Program)
    requires b != [] && Neutral(b) && !i.Push?
    ensures Follows(i, b[0])
  {
  }

  /** An operand, neutral code after it. */
  lemma After(a: Program, b: Program, ls: seq<Local>)
    requires Operand(a, ls) && Shaped(b, ls) && Neutral(b)
    ensures Operand(a + b, ls)
  {
    hide Shaped;
    Joined(a, b, ls);
  }

  /** A second operand after a push or a conditional jump. */
  lemma Second(a: Program, i: Instr, b: Program, ls: seq<Local>)
    requires Operand(a, ls) && Operand(b, ls) && (i.Push? || (i.Jcc? && (a[|a| - 1].Cmp? || a[|a| - 1].CmpImm?)))
    ensures Operand(a + [i] + b, ls)
  {
    assert Shaped([i], ls);
    Joined(a, [i], ls);
    assert (a + [i])[|a + [i]| - 1] == i;
    assert Follows(i, b[0]);
    hide Shaped, Follows;
    Joined(a + [i], b, ls);
  }

  lemma PiecesShaped(ls: seq<Local>, from: Type, to: Type)
    ensures Shaped(Widen(from, to), ls) && Neutral(Widen(from, to))
    ensures Shaped(TestZero(from), ls) && Neutral(TestZero(from))
  {
  }

  lemma UnaryShaped(op: UnaryOp, ty: Type, ls: seq<Local>)
    ensures Shaped(UnaryCode(op, ty), ls) && Neutral(UnaryCode(op, ty))
  {
    var c := UnaryCode(op, ty);
    if op == LogNot {
      assert c == [CmpImm(ty.Width(), RAX, 0), Setcc(CondE, RAX), Movzx(RAX, RAX)];
    }
  }

  /** Code that neither reads the flags nor loads a local. */
  predicate Plain(c: Program, ls: seq<Local>) {
    forall i :: i in c ==> Sound(i, ls) && !ReadsFlags(i) && !i.Load? && !i.Push?
  }

  lemma PlainShaped(c: Program, ls: seq<Local>)
    requires Plain(c, ls)
    ensures Shaped(c, ls) && Neutral(c)
  {
    hide Sound, ReadsFlags;
    forall k | 0 < k < |c| ensures Follows(c[k - 1], c[k]) {
      assert c[k] in c && c[k - 1] in c;
    }
  }

  lemma OperateShaped(op: BinaryOp, w: Width, ls: seq<Local>)
    ensures Shaped([Pop(RCX)] + Operate(op, w), ls) && Neutral([Pop(RCX)] + Operate(op, w))
  {
    if op.IsCompare() {
      CompareShaped(op, w, ls);
    } else {
      OperatePlain(op, w, ls);
      hide Plain, Shaped, Neutral, Operate;
      PlainShaped([Pop(RCX)] + Operate(op, w), ls);
    }
  }

  lemma CompareShaped(op: BinaryOp, w: Width, ls: seq<Local>)
    requires op.IsCompare()
    ensures Shaped([Pop(RCX)] + Operate(op, w), ls) && Neutral([Pop(RCX)] + Operate(op, w))
  {
    assert [Pop(RCX)] + Operate(op, w) == [Pop(RCX), Cmp(w, RCX, RAX), Setcc(Setter(op), RAX), Movzx(RAX, RAX)];
  }

  lemma OperatePlain(op: BinaryOp, w: Width, ls: seq<Local>)
    requires !op.IsCompare()
    ensures Plain([Pop(RCX)] + Operate(op, w), ls)
  {
  }

  lemma StoreShaped(lv: Local, from: Type, ls: seq<Local>)
    requires lv in ls
    ensures Shaped(StoreLocal(lv, from), ls) && Neutral(StoreLocal(lv, from))
  {
    assert Sound(Store(lv.width, RBP, -lv.offset, RAX), ls);
    assert Sound(Movsxd(RAX, RAX), ls);
  }

  lemma TailShaped(skip: Label, end: Label, ty: Type, c: int, ls: seq<Local>)
    ensures var t := TestZero(ty) + [Setcc(CondNE, RAX), Movzx(RAX, RAX), Jmp(end), Def(skip), MovImm(Dword32, RAX, c), Def(end)];
      Shaped(t, ls) && Neutral(t)
  {
    var t := [CmpImm(ty.Width(), RAX, 0), Setcc(CondNE, RAX), Movzx(RAX, RAX), Jmp(end), Def(skip), MovImm(Dword32, RAX, c), Def(end)];
    assert Shaped(t, ls);
    assert t == TestZero(ty) + [Setcc(CondNE, RAX), Movzx(RAX, RAX), Jmp(end), Def(skip), MovImm(Dword32, RAX, c), Def(end)];
  }

  lemma BinaryShaped(op: BinaryOp, gl: Emitted, gr: Emitted, lt: Type, rt: Type, ls: seq<Local>)
    requires Operand(gl.code, ls) && Operand(gr.code, ls)
    ensures Operand(BinaryInstrs(op, gl, gr, lt, rt), ls)
  {
    PiecesShaped(ls, gl.ty, lt);
    PiecesShaped(ls, gr.ty, rt);
    OperateShaped(op, lt.Width(), ls);
    hide Operand, Shaped, Neutral, Widen, Operate;
    var a := gl.code + Widen(gl.ty, lt);
    After(gl.code, Widen(gl.ty, lt), ls);
    Second(a, Push(RAX), gr.code, ls);
    var b := a + [Push(RAX)] + gr.code;
    After(b, Widen(gr.ty, rt), ls);
    var c := b + Widen(gr.ty, rt);
    After(c, [Pop(RCX)] + Operate(op, lt.Width()), ls);
    assert BinaryInstrs(op, gl, gr, lt, rt) == c + ([Pop(RCX)] + Operate(op, lt.Width()));
  }

  lemma ShortShaped(gl: Emitted, gr: Emitted, cc: Cond, skip: Label, end: Label, k: int, ls: seq<Local>)
    requires Operand(gl.code, ls) && Operand(gr.code, ls)
    ensures Operand(ShortCircuitCode(gl, gr, cc, skip, end, k), ls)
  {
    PiecesShaped(ls, gl.ty, gl.ty);
    TailShaped(skip, end, gr.ty, k, ls);
    var a := gl.code + TestZero(gl.ty);
    assert a[|a| - 1].CmpImm?;
    var last := [Setcc(CondNE, RAX), Movzx(RAX, RAX), Jmp(end), Def(skip), MovImm(Dword32, RAX, k), Def(end)];
    hide Operand, Shaped, Neutral, TestZero;
    After(gl.code, TestZero(gl.ty), ls);
    Second(a, Jcc(cc, skip), gr.code, ls);
    var b := a + [Jcc(cc, skip)] + gr.code;
    After(b, TestZero(gr.ty) + last, ls);
    assert ShortCircuitCode(gl, gr, cc, skip, end, k) == b + (TestZero(gr.ty) + last);
  }

  /** Every expression is compiled to code of this shape. */
  lemma {:induction false} GenShaped(e: Expr, ls: seq<Local>, n: nat)
    requires Declared(e, ls)
    ensures Operand(Gen(e, ls, n).value.code, ls)
    decreases e
  {
    hide Operand, Shaped, Neutral, BinaryInstrs, ShortCircuitCode, StoreLocal, UnaryCode, LoadLocal;
    match e
    case Literal(v, ty) => LiteralShaped(v, ty, ls);
    case Var(x) => LoadShaped(FindVar(ls, x).value, ls);
    case Unary(op, a) =>
      GenShaped(a, ls, n);
      var g := Gen(a, ls, n).value;
      UnaryShaped(op, g.ty, ls);
      After(g.code, UnaryCode(op, g.ty), ls);
    case Assign(x, a) =>
      GenShaped(a, ls, n);
      var g, lv := Gen(a, ls, n).value, FindVar(ls, x).value;
      FoundIn(ls, x);
      StoreShaped(lv, g.ty, ls);
      After(g.code, StoreLocal(lv, g.ty), ls);
    case Binary(op, l, r) =>
      GenShaped(l, ls, n);
      var gl := Gen(l, ls, n).value;
      GenShaped(r, ls, gl.next);
      var gr := Gen(r, ls, gl.next).value;
      var common := Common(TypeOf(l, ls), TypeOf(r, ls));
      BinaryShaped(op, gl, gr, if op.IsShift() then gl.ty else common, if op.IsShift() then gr.ty else common, ls);
    case LogAnd(l, r) =>
      GenShaped(l, ls, n + 1);
      var gl := Gen(l, ls, n + 1).value;
      GenShaped(r, ls, gl.next);
      ShortShaped(gl, Gen(r, ls, gl.next).value, CondE, LabelName(AND_FALSE, n), LabelName(AND_END, n), 0, ls);
    case LogOr(l, r) =>
      GenShaped(l, ls, n + 1);
      var gl := Gen(l, ls, n + 1).value;
      GenShaped(r, ls, gl.next);
      ShortShaped(gl, Gen(r, ls, gl.next).value, CondNE, LabelName(OR_TRUE, n), LabelName(OR_END, n), 1, ls);
  }

  lemma LiteralShaped(v: int, ty: Type, ls: seq<Local>)
    ensures Operand([MovImm(ty.Width(), RAX, v)], ls)
  {
  }

  lemma LoadShaped(lv: Local, ls: seq<Local>)
    ensures Operand([LoadLocal(lv)], ls)
  {
  }

  lemma FoundIn(ls: seq<Local>, x: string)
    requires FindVar(ls, x).Some?
    ensures FindVar(ls, x).value in ls
  {
  }

  // ---------------------------------------------------------------- the conditions of the pass

  /** Positions at which nothing reads the flags. */
  ghost function Quiet(p: Program): iset<nat> {
    iset k: nat | k < |p| ==> !ReadsFlags(p[k])
  }

  lemma QuietDead(p: Program, ls: seq<Local>)
    requires Shaped(p, ls)
    ensures FlagsDead(p, Quiet(p)) && forall k: nat :: k < |p| && ZeroMov(p[k]) ==> k + 1 in Quiet(p)
  {
    forall k: nat | k in Quiet(p) && k < |p| ensures !ReadsFlags(p[k]) && (WritesFlags(p[k]) || SuccessorsIn(p, k, Quiet(p))) {
      assert p[k] in p && Sound(p[k], ls);
      if !p[k].Jmp? && k + 1 < |p| { assert Follows(p[k], p[k + 1]); }
    }
    forall k: nat | k < |p| && ZeroMov(p[k]) ensures k + 1 in Quiet(p) {
      if k + 1 < |p| { assert Follows(p[k], p[k + 1]); }
    }
  }

  /** Stores to one slot have one width. */
  lemma OverwriteSafe(p: Program, ls: seq<Local>, k: nat)
    requires Shaped(p, ls) && E.AllApart(ls) && k + 1 < |p| && StoreStore(p[k], p[k + 1])
    ensures p[k].w == p[k + 1].w
  {
    assert p[k] in p && p[k + 1] in p;
    assert Sound(p[k], ls) && Sound(p[k + 1], ls);
    var x :| x in ls && p[k] == Store(x.width, RBP, -x.offset, RAX);
    var y :| y in ls && p[k + 1] == Store(y.width, RBP, -y.offset, RAX);
    if x != y { assert E.Apart(x, y); }
  }

  lemma NoReload(p: Program, ls: seq<Local>, k: nat)
    requires Shaped(p, ls) && k < |p|
    ensures RuleOf(p[k..]) !in {Reloaded, Dropped, Collapsed}
  {
    var c := p[k..];
    assert c[0] == p[k] && p[k] in p && Sound(p[k], ls);
    if |c| > 1 {
      assert c[1] == p[k + 1];
      assert Follows(p[k], p[k + 1]);
    }
  }

  lemma ShortLabel(l: Label, lo: nat, hi: nat)
    requires L.FreshLabel(l, lo, hi) && hi <= 0x8000_0000
    ensures |l| <= LABEL_LIMIT
  {
    var x, k: nat :| x in L.PREFIXES && lo <= k < hi && l == LabelName(x, k);
    assert Pow10(10) == 10_000_000_000 by {
      assert Pow10(5) == 100_000;
      assert Pow10(6) == 1_000_000;
    }
    DecimalAtMost(k, 10);
  }

  /** The labels of the code fit the parser of the pass, for label numbers that fit an int. */
  lemma ShortLabels(e: Expr, ls: seq<Local>, n: nat)
    requires Declared(e, ls) && Gen(e, ls, n).value.next <= 0x8000_0000
    ensures var p := Gen(e, ls, n).value.code;
      UniqueLabels(p) && forall k :: 0 <= k < |p| && p[k].Jmp? ==> |p[k].target| <= LABEL_LIMIT
  {
    L.GenLabels(e, ls, n);
    var g := Gen(e, ls, n).value;
    forall k | 0 <= k < |g.code| && g.code[k].Jmp? ensures |g.code[k].target| <= LABEL_LIMIT {
      assert g.code[k] in g.code;
      ShortLabel(g.code[k].target, n, g.next);
    }
  }

  /** The code of every expression meets all conditions of the pass, from every state. */
  lemma GenAdmissible(e: Expr, ls: seq<Local>, n: nat, s: State)
    requires Declared(e, ls) && E.AllApart(ls) && Gen(e, ls, n).value.next <= 0x8000_0000
    ensures var p := Gen(e, ls, n).value.code; Admissible(p, Quiet(p)) && Tame(p, s) && Roomy(p, s)
  {
    hide Gen, Shaped, FlagsDead, Quiet, Start, ZeroMov, SelfMove;
    var p := Gen(e, ls, n).value.code;
    GenShaped(e, ls, n);
    ShortLabels(e, ls, n);
    QuietDead(p, ls);
    forall k: nat | k < |p| && Start(p, k) && RuleOf(p[k..]) == Overwritten ensures p[k].w.Size() <= p[k + 1].w.Size() {
      assert p[k..][0] == p[k] && p[k..][1] == p[k + 1];
      OverwriteSafe(p, ls, k);
    }
    forall m: nat | Run(p, s, m).Next? ensures UpperClear(p, Run(p, s, m).s) {
      var u := Run(p, s, m).s;
      if u.pc < |p| { NoReload(p, ls, u.pc); }
    }
    forall m: nat | Run(p, s, m).Next? ensures PushRoom(p, Run(p, s, m).s) {
      var u := Run(p, s, m).s;
      if u.pc < |p| { NoReload(p, ls, u.pc); }
    }
  }

  // ---------------------------------------------------------------- the rewritten code

  /** A state in which the code of e, as a whole program, has computed v. */
  ghost predicate Computed(e: Expr, ls: seq<Local>, s: State, t: State, v: int, env: Env) {
    && (forall r: Reg :: r !in {RAX, RCX, RDX} ==> t.regs[r] == s.regs[r])
    && (forall a :: !E.Touched(ls, s.regs[RBP], E.Assigned(e), a) ==> E.SameByte(s.mem, t.mem, a))
    && E.Represented(ls, env, t) && O.Represents(t, TypeOf(e, ls), RAX, v)
  }

  lemma DoneReached(p: Program, s: State, t: State)
    requires Reaches(p, s, Next(t)) && t.pc >= |p|
    ensures Reaches(p, s, Done(t)) && !Reaches(p, s, Fault)
  {
    ReachesStep(p, t);
    assert Step(p, t) == Done(t);
    hide Step, Run;
    ReachesTrans(p, s, t, Done(t));
    var m: nat :| Run(p, s, m) == Done(t);
    forall k: nat ensures Run(p, s, k) != Fault {
      if k <= m { RunAdd(p, s, k, m - k); } else { RunAdd(p, s, m, k - m); }
    }
  }

  /** If C defines a value for e, the rewritten code stops with that value in eax or rax, the variables
      updated, and rsp, the callee-saved registers and all other memory unchanged. */
  lemma RewrittenCorrect(e: Expr, ls: seq<Local>, n: nat, s: State, env: Env) returns (t: State)
    requires Declared(e, ls) && E.WideAssignments(e, ls) && Gen(e, ls, n).value.next <= 0x8000_0000
    requires s.pc == 0 && s.ctl == [] && E.Represented(ls, env, s) && s.lim + 8 * E.PushDepth(e) <= s.regs[RSP]
    requires Eval(e, ls, env).Val?
    ensures var r := Eval(e, ls, env);
      Reaches(Peep(Gen(e, ls, n).value.code), s, Done(t)) && Computed(e, ls, s, t, r.v, r.env)
  {
    hide *;
    hide Computed;
    var g, r := Gen(e, ls, n).value, Eval(e, ls, env);
    var u := OriginalRuns(e, ls, n, s, env);
    ApartHere(ls, env, s);
    GenAdmissible(e, ls, n, s);
    PassPreservesResults(g.code, Quiet(g.code), s);
    t :| Same(u, t) && Reaches(Peep(g.code), s, Done(t));
    SameComputed(e, ls, s, u, t, r.v, r.env);
  }

  /** If a division of e traps, the rewritten code faults. */
  lemma RewrittenTraps(e: Expr, ls: seq<Local>, n: nat, s: State, env: Env)
    requires Declared(e, ls) && E.WideAssignments(e, ls) && Gen(e, ls, n).value.next <= 0x8000_0000
    requires s.pc == 0 && s.ctl == [] && E.Represented(ls, env, s) && s.lim + 8 * E.PushDepth(e) <= s.regs[RSP]
    requires Eval(e, ls, env).Trap?
    ensures Reaches(Peep(Gen(e, ls, n).value.code), s, Fault)
  {
    hide Gen, Eval, Peep, E.Represented, O.Represents, Reaches, E.Touched, E.SameByte, Entry, Admissible, Tame, Roomy, Quiet;
    L.StandsAlone(e, ls, n, s, env);
    ApartHere(ls, env, s);
    GenAdmissible(e, ls, n, s);
    FaultKept(Gen(e, ls, n).value.code, Quiet(Gen(e, ls, n).value.code), s);
  }

  lemma OriginalRuns(e: Expr, ls: seq<Local>, n: nat, s: State, env: Env) returns (u: State)
    requires Declared(e, ls) && E.WideAssignments(e, ls) && Gen(e, ls, n).value.next <= 0x8000_0000
    requires s.pc == 0 && E.Represented(ls, env, s) && s.lim + 8 * E.PushDepth(e) <= s.regs[RSP]
    requires Eval(e, ls, env).Val?
    ensures var p, r := Gen(e, ls, n).value.code, Eval(e, ls, env);
      Reaches(p, s, Done(u)) && !Reaches(p, s, Fault) && Computed(e, ls, s, u, r.v, r.env)
  {
    hide Gen, Eval, E.Represented, O.Represents, Reaches, E.Touched, E.SameByte;
    var g, r := Gen(e, ls, n).value, Eval(e, ls, env);
    L.StandsAlone(e, ls, n, s, env);
    u :| E.Arrives(g.code, ls, s, u, |g.code|, g.ty, r.v, r.env, E.Assigned(e));
    DoneReached(g.code, s, u);
  }

  lemma ApartHere(ls: seq<Local>, env: Env, s: State)
    requires E.Represented(ls, env, s)
    ensures E.AllApart(ls) && (s.pc == 0 && s.ctl == [] ==> Entry(s))
  {
  }

  lemma SameComputed(e: Expr, ls: seq<Local>, s: State, u: State, t: State, v: int, env: Env)
    requires Same(u, t) && Computed(e, ls, s, u, v, env)
    ensures Computed(e, ls, s, t, v, env)
  {
    hide E.Framed, E.Stored, E.Touched, E.SameByte, TypeOf;
  }
}
