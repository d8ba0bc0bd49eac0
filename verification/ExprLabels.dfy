/** Labels in generated expression code are fresh, and the code stands on its own. */
module ExprLabels {
  import opened Options
  import opened Numerals
  import opened Words
  import opened Machine
  import opened Codegen
  import opened CodegenCorrect
  import opened ExprTheorem

  /** A prefix that does not end in a digit and a numeral can be told apart in their concatenation. */
  lemma LabelInjective(p: string, m: nat, q: string, n: nat)
    requires |p| > 0 && |q| > 0 && !IsDigit(p[|p| - 1]) && !IsDigit(q[|q| - 1])
    ensures LabelName(p, m) == LabelName(q, n) <==> p == q && m == n
  {
    if LabelName(p, m) == LabelName(q, n) {
      var s, a, b := LabelName(p, m), Decimal(m), Decimal(n);
      DecimalDigits(m);
      DecimalDigits(n);
      NoLonger(p, a, q, b);
      NoLonger(q, b, p, a);
      assert p == s[..|p|] == q && a == s[|p|..] == b;
      DecimalInjective(m, n);
    }
  }

  lemma NoLonger(p: string, a: string, q: string, b: string)
    requires |p| > 0 && !IsDigit(p[|p| - 1]) && p + a == q + b && forall c :: c in b ==> IsDigit(c)
    ensures |p| <= |q|
  {
    var k: nat := |p| - 1;
    assert (p + a)[k] == p[k];
    if |p| > |q| {
      DigitTail(q, b, k);
    }
  }

  lemma DigitTail(q: string, b: string, k: nat)
    requires |q| <= k < |q + b| && forall c :: c in b ==> IsDigit(c)
    ensures IsDigit((q + b)[k])
  {
    assert (q + b)[k] == b[k - |q|];
  }

  const PREFIXES := {AND_FALSE, AND_END, OR_TRUE, OR_END}

  ghost predicate FreshLabel(l: Label, lo: nat, hi: nat) {
    exists x, k: nat :: x in PREFIXES && lo <= k < hi && l == LabelName(x, k)
  }

  ghost predicate FreshDefs(c: Program, lo: nat, hi: nat) {
    forall l :: Def(l) in c ==> FreshLabel(l, lo, hi)
  }

  lemma FreshApart(l: Label, a: nat, b: nat, c: nat, d: nat)
    requires FreshLabel(l, a, b) && (b <= c || d <= a)
    ensures !FreshLabel(l, c, d)
  {
    forall x, k: nat, y, j: nat | x in PREFIXES && y in PREFIXES && k != j ensures LabelName(x, k) != LabelName(y, j) {
      LabelInjective(x, k, y, j);
    }
  }

  ghost predicate Targets(c: Program, d: Program) {
    forall i :: i in c && (i.Jmp? || i.Jcc?) ==> Def(i.target) in d
  }

  lemma UniqueConcat(a: Program, b: Program, l1: nat, h1: nat, l2: nat, h2: nat, lo: nat, hi: nat)
    requires UniqueLabels(a) && UniqueLabels(b) && FreshDefs(a, l1, h1) && FreshDefs(b, l2, h2)
    requires (h1 <= l2 || h2 <= l1) && lo <= l1 && lo <= l2 && h1 <= hi && h2 <= hi
    ensures UniqueLabels(a + b) && FreshDefs(a + b, lo, hi)
  {
    hide FreshLabel;
    var c := a + b;
    forall i, j | 0 <= i < j < |c| && c[i].Def? && c[j].Def? ensures c[i] != c[j] {
      assert c[i] == (if i < |a| then a[i] else b[i - |a|]);
      assert c[j] == (if j < |a| then a[j] else b[j - |a|]);
      if i < |a| <= j {
        assert c[i] in a && c[j] in b;
        FreshApart(c[i].name, l1, h1, l2, h2);
      }
    }
    forall l | Def(l) in c ensures FreshLabel(l, lo, hi) {
      if Def(l) in a {
        FreshWider(l, l1, h1, lo, hi);
      } else {
        FreshWider(l, l2, h2, lo, hi);
      }
    }
  }

  lemma FreshWider(l: Label, lo: nat, hi: nat, lo': nat, hi': nat)
    requires FreshLabel(l, lo, hi) && lo' <= lo && hi <= hi'
    ensures FreshLabel(l, lo', hi')
  {
  }

  ghost predicate NoDefs(c: Program) {
    forall i :: i in c ==> !i.Def?
  }

  lemma UniqueAround(a: Program, b: Program, lo: nat, hi: nat)
    requires (UniqueLabels(a) && FreshDefs(a, lo, hi) && NoDefs(b)) || (NoDefs(a) && UniqueLabels(b) && FreshDefs(b, lo, hi))
    ensures UniqueLabels(a + b) && FreshDefs(a + b, lo, hi)
  {
    hide FreshLabel;
    var c := a + b;
    forall i, j | 0 <= i < j < |c| && c[i].Def? && c[j].Def? ensures c[i] != c[j] {
      assert c[i] == (if i < |a| then a[i] else b[i - |a|]);
      assert c[j] == (if j < |a| then a[j] else b[j - |a|]);
      assert (j < |a| ==> c[j] in a) && (i < |a| ==> c[i] in a);
      assert (j >= |a| ==> c[j] in b) && (i >= |a| ==> c[i] in b);
    }
  }

  ghost predicate OwnLabels(c: Program, lo: nat, hi: nat) {
    UniqueLabels(c) && FreshDefs(c, lo, hi)
  }

  lemma OwnNothing(c: Program, n: nat)
    requires NoDefs(c)
    ensures OwnLabels(c, n, n)
  {
  }

  /** The labels of the code of e are exactly its own: each is defined once, carries a number drawn from
      the label counter while e was compiled, and every jump goes to one of them. */
  lemma {:induction false} GenLabels(e: Expr, ls: seq<Local>, n: nat)
    requires Declared(e, ls)
    ensures var g := Gen(e, ls, n).value; OwnLabels(g.code, n, g.next) && Targets(g.code, g.code)
  {
    hide BinaryInstrs, OwnLabels, ShortCircuitCode;
    match e
    case Literal(_, _) => OwnNothing(Gen(e, ls, n).value.code, n);
    case Var(_) => OwnNothing(Gen(e, ls, n).value.code, n);
    case Unary(op, a) =>
      GenLabels(a, ls, n);
      Appended(Gen(a, ls, n).value.code, UnaryCode(op, TypeOf(a, ls)), n, Gen(a, ls, n).value.next);
    case Assign(x, a) =>
      GenLabels(a, ls, n);
      Appended(Gen(a, ls, n).value.code, StoreLocal(FindVar(ls, x).value, TypeOf(a, ls)), n, Gen(a, ls, n).value.next);
    case Binary(_, l, r) =>
      var q := PiecesOf(e, ls, n);
      GenLabels(l, ls, n);
      GenLabels(r, ls, q.left.next);
      BinaryLabels(e, ls, n);
    case _ =>
      GenLabels(e.left, ls, n + 1);
      GenLabels(e.right, ls, Gen(e.left, ls, n + 1).value.next);
      ShortLabels(e, ls, n);
  }

  ghost predicate Plain(c: Program) {
    forall i :: i in c ==> !IsControl(i) && !i.Def?
  }

  lemma Appended(a: Program, c: Program, lo: nat, hi: nat)
    requires OwnLabels(a, lo, hi) && Targets(a, a) && Plain(c)
    ensures OwnLabels(a + c, lo, hi) && Targets(a + c, a + c)
  {
    UniqueAround(a, c, lo, hi);
  }

  lemma Prepended(a: Program, c: Program, lo: nat, hi: nat)
    requires OwnLabels(c, lo, hi) && Targets(c, c) && Plain(a)
    ensures OwnLabels(a + c, lo, hi) && Targets(a + c, a + c)
  {
    UniqueAround(a, c, lo, hi);
  }

  lemma Joined(a: Program, b: Program, lo: nat, mid: nat, hi: nat)
    requires OwnLabels(a, lo, mid) && OwnLabels(b, mid, hi) && Targets(a, a) && Targets(b, b) && lo <= mid <= hi
    ensures OwnLabels(a + b, lo, hi) && Targets(a + b, a + b)
  {
    UniqueConcat(a, b, lo, mid, mid, hi, lo, hi);
  }

  lemma BinaryLabels(e: Expr, ls: seq<Local>, n: nat)
    requires e.Binary? && Declared(e, ls)
    requires var q := PiecesOf(e, ls, n);
             && OwnLabels(q.left.code, n, q.left.next) && Targets(q.left.code, q.left.code)
             && OwnLabels(q.right.code, q.left.next, q.right.next) && Targets(q.right.code, q.right.code)
    ensures var g := Gen(e, ls, n).value; OwnLabels(g.code, n, g.next) && Targets(g.code, g.code)
  {
    var q := PiecesOf(e, ls, n);
    var a, b, c, d := q.left.code, q.right.code, [Push(RAX)], q.WidenRight() + ([Pop(RCX)] + Operate(e.op, q.lt.Width()));
    NextOfBinary(e, ls, n);
    BinaryShape(e, ls, n);
    PlainPieces(e, ls, n);
    hide OwnLabels, Targets, Plain, Gen, PiecesOf;
    Appended(b, d, q.left.next, q.right.next);
    Prepended(c, b + d, q.left.next, q.right.next);
    Prepended(q.WidenLeft(), c + (b + d), q.left.next, q.right.next);
    Joined(a, q.WidenLeft() + (c + (b + d)), n, q.left.next, q.right.next);
  }

  lemma NextOfBinary(e: Expr, ls: seq<Local>, n: nat)
    requires e.Binary? && Declared(e, ls)
    ensures var q := PiecesOf(e, ls, n); Gen(e, ls, n).value.next == q.right.next && n <= q.left.next <= q.right.next
  {
  }

  lemma PlainPieces(e: Expr, ls: seq<Local>, n: nat)
    requires e.Binary? && Declared(e, ls)
    ensures var q := PiecesOf(e, ls, n);
            Plain(q.WidenLeft()) && Plain([Push(RAX)]) && Plain(q.WidenRight() + ([Pop(RCX)] + Operate(e.op, q.lt.Width())))
  {
    hide Gen;
    OperateIsPlain(e.op, PiecesOf(e, ls, n).lt.Width());
  }

  lemma OperateIsPlain(op: BinaryOp, w: Width)
    ensures Plain(Operate(op, w))
  {
  }

  lemma ShortLabels(e: Expr, ls: seq<Local>, n: nat)
    requires (e.LogAnd? || e.LogOr?) && Declared(e, ls)
    requires var q := ShortPartsOf(e, ls, n);
             && OwnLabels(q.left.code, n + 1, q.left.next) && Targets(q.left.code, q.left.code)
             && OwnLabels(q.right.code, q.left.next, q.right.next) && Targets(q.right.code, q.right.code)
    ensures var g := Gen(e, ls, n).value; OwnLabels(g.code, n, g.next) && Targets(g.code, g.code)
  {
    hide *;
    var q := ShortPartsOf(e, ls, n);
    var a, b, h, t := q.left.code, q.right.code, ShortHead(q.left.ty, q.cc, q.skip), ShortTail(q.right.ty, q.skip, q.end, q.c);
    NextOfShort(e, ls, n);
    ShortShape(e, ls, n);
    TailLabels(e, ls, n);
    ShortOwns(a, h, b, t, n, q.left.next, q.right.next);
    ShortTargets(a, h, b, t);
  }

  lemma ShortOwns(a: Program, h: Program, b: Program, t: Program, n: nat, m: nat, k: nat)
    requires OwnLabels(a, n + 1, m) && OwnLabels(b, m, k) && OwnLabels(t, n, n + 1) && NoDefs(h) && n + 1 <= m <= k
    ensures OwnLabels(a + (h + (b + t)), n, k)
  {
    hide FreshDefs, UniqueLabels;
    UniqueAround(h, b, m, k);
    UniqueConcat(a, h + b, n + 1, m, m, k, n + 1, k);
    UniqueConcat(a + (h + b), t, n + 1, k, n, n + 1, n, k);
    assert a + (h + b) + t == a + (h + (b + t));
  }

  lemma ShortTargets(a: Program, h: Program, b: Program, t: Program)
    requires Targets(a, a) && Targets(b, b) && Targets(h, t) && Targets(t, t)
    ensures var d := a + (h + (b + t)); Targets(d, d)
  {
    var d := a + (h + (b + t));
    forall i | i in d && (i.Jmp? || i.Jcc?) ensures Def(i.target) in d {
      assert i in a || i in h || i in b || i in t;
      assert Def(i.target) in a || Def(i.target) in b || Def(i.target) in t;
    }
  }

  lemma TailLabels(e: Expr, ls: seq<Local>, n: nat)
    requires (e.LogAnd? || e.LogOr?) && Declared(e, ls)
    ensures var q := ShortPartsOf(e, ls, n);
            var h, t := ShortHead(q.left.ty, q.cc, q.skip), ShortTail(q.right.ty, q.skip, q.end, q.c);
            NoDefs(h) && Targets(h, t) && Targets(t, t) && OwnLabels(t, n, n + 1)
  {
    hide Gen;
    var q := ShortPartsOf(e, ls, n);
    LabelInjective(if e.LogAnd? then AND_FALSE else OR_TRUE, n, if e.LogAnd? then AND_END else OR_END, n);
    assert FreshLabel(q.skip, n, n + 1) && FreshLabel(q.end, n, n + 1);
    hide FreshLabel, ShortPartsOf, LabelName, ShortHead, ShortTail;
    HeadTargets(q.left.ty, q.cc, q.skip, q.end, q.right.ty, q.c);
    TailOwns(q.right.ty, q.skip, q.end, q.c, n);
  }

  lemma HeadTargets(lt: Type, cc: Cond, skip: Label, end: Label, rt: Type, c: int)
    ensures var h, t := ShortHead(lt, cc, skip), ShortTail(rt, skip, end, c);
            NoDefs(h) && Targets(h, t) && Targets(t, t)
  {
    var t := ShortTail(rt, skip, end, c);
    assert t[4] == Def(skip) && t[6] == Def(end);
  }

  lemma TailOwns(ty: Type, skip: Label, end: Label, c: int, n: nat)
    requires skip != end && FreshLabel(skip, n, n + 1) && FreshLabel(end, n, n + 1)
    ensures OwnLabels(ShortTail(ty, skip, end, c), n, n + 1)
  {
    hide FreshLabel;
  }

  lemma NextOfShort(e: Expr, ls: seq<Local>, n: nat)
    requires (e.LogAnd? || e.LogOr?) && Declared(e, ls)
    ensures var q := ShortPartsOf(e, ls, n); Gen(e, ls, n).value.next == q.right.next && n + 1 <= q.left.next <= q.right.next
  {
  }

  /** The code of e alone, started at its first instruction, computes e. */
  lemma StandsAlone(e: Expr, ls: seq<Local>, n: nat, s: State, env: Env)
    requires Declared(e, ls) && WideAssignments(e, ls)
    requires s.pc == 0 && Represented(ls, env, s) && s.lim + 8 * PushDepth(e) <= s.regs[RSP]
    ensures Correct(Gen(e, ls, n).value.code, e, ls, n, s, env)
  {
    var p := Gen(e, ls, n).value.code;
    GenLabels(e, ls, n);
    assert p[0..0 + |p|] == p;
    GenCorrect(p, e, ls, n, s, env);
  }

  /** Why GenCorrect asks for int and long assignments: a store to a char or short local updates the
      slot correctly but leaves the unconverted value in eax, so the value of the assignment
      expression is right if and only if the low 32 bits of the assigned value, read as an int, fit the local. */
  lemma NarrowAssignment(p: Program, s: State, lv: Local, ty: Type, v: int)
    requires lv.width in {Byte8, Half16} && Represents(s, ty, RAX, v)
    requires s.regs[RSP] <= s.regs[RBP] - lv.offset && CodeAt(p, s.pc, StoreLocal(lv, ty))
    ensures var m := lv.width.Modulus(); var t := AfterStore(s, lv, Wrap(v, m));
            && Reaches(p, s, Next(t))
            && (Represents(t, Int, RAX, Wrap(v, m)) <==> InRange(Wrap(v, W32), m))
  {
    var m := lv.width.Modulus();
    LowPart(s.regs[RAX], ty.Modulus(), W32, v);
    LowPart(s.regs[RAX], ty.Modulus(), m, v);
    WrapCongruent(v, m);
    WrapCongruent(v, W32);
    StoreRuns(p, s, lv, Wrap(v, m));
    NarrowFits(v, m);
  }

  lemma LowPart(u: int, big: nat, small: nat, v: int)
    requires small in {W8, W16, W32} && big in {W32, W64} && u % big == Residue(v, big)
    ensures u % small == Residue(v, small)
  {
    SmallerModulus(u, v, big / small, small);
  }

  lemma SmallerModulus(u: int, v: int, k: nat, small: nat)
    requires k > 0 && small > 0 && u % (k * small) == v % (k * small)
    ensures u % small == v % small
  {
    var d := (u - v) / (k * small);
    DivisibleDifference(u, v, k * small);
    assert d * (k * small) == (d * k) * small;
    CongruentBy(u, v, d * k, small);
  }

  lemma NarrowFits(v: int, m: nat)
    requires m in {W8, W16}
    ensures Residue(Wrap(v, m), W32) == Residue(v, W32) <==> InRange(Wrap(v, W32), m)
  {
    WrapCongruent(v, W32);
    WrapInRange(Wrap(v, m), W32);
    if InRange(Wrap(v, W32), m) {
      WrapInRange(Wrap(v, W32), m);
      assert Wrap(Wrap(v, W32), m) == Wrap(v, m) by {
        LowPart(Wrap(v, W32), W32, m, v);
      }
    }
  }

  lemma DivisibleDifference(x: int, y: int, m: nat)
    requires m > 0 && x % m == y % m
    ensures x == y + ((x - y) / m) * m
  {
    QuotientRemainder(x, m);
    QuotientRemainder(y, m);
    assert x - y == (x / m - y / m) * m + 0;
    ModUnique(x - y, x / m - y / m, 0, m);
  }

  lemma NarrowCode(c: Local, n: nat)
    requires c.width == Byte8
    ensures var g := Gen(Assign(c.name, Literal(300, Int)), [c], n);
      g.Some? && g.value.code == [MovImm(Dword32, RAX, 300)] + StoreLocal(c, Int) && |StoreLocal(c, Int)| == 1
  {
    assert FindVar([c], c.name) == Some(c);
    assert Gen(Literal(300, Int), [c], n) == Some(Emitted([MovImm(Dword32, RAX, 300)], n, Int));
  }

  /** For instance the code of `c = 300` for a char c: the slot gets 44, but eax holds 300. */
  lemma NarrowAssignmentExample(c: Local, n: nat, s: State)
    requires c.width == Byte8 && s.pc == 0 && s.regs[RSP] <= s.regs[RBP] - c.offset
    ensures var g := Gen(Assign(c.name, Literal(300, Int)), [c], n);
      g.Some? && exists t ::
        && Reaches(g.value.code, s, Next(t)) && t.pc == |g.value.code|
        && SlotHolds(c, s.regs[RBP], t.mem, 44)
        && Represents(t, Int, RAX, 300) && !Represents(t, Int, RAX, 44)
  {
    hide Reaches;
    NarrowCode(c, n);
    hide Gen, StoreLocal;
    var load := [MovImm(Dword32, RAX, 300)];
    var p := load + StoreLocal(c, Int);
    assert CodeAt(p, 0, p);
    CodeAtSplit(p, 0, load, StoreLocal(c, Int));
    LiteralLeaves(300, Int, s);
    LineRuns(p, load, s);
    var u := Line(load, s).s;
    NarrowAssignment(p, u, c, Int, 300);
    var t := AfterStore(u, c, 44);
    ReachesTrans(p, s, u, Next(t));
    ReadWrite(u.mem, s.regs[RBP] - c.offset, 1, 44);
  }
}
