/** What is left after statements are optimised: no decided branch, no loop that never runs, nothing behind a jump. */
module StatementsNormal {
  import opened Options
  import opened Stores
  import opened Optimizer
  import opened OptimizerCorrect
  import opened OptimizerNormal
  import opened Statements
  import C = Codegen

  // ---------------------------------------------------------------- literals of type long

  ghost predicate MaybeLits(e: Option<Expr>) {
    e.Some? ==> LitsOk(e.value)
  }

  ghost predicate Literals(s: Stmt)
    decreases s, 1
  {
    match s
    case Block(ss) => AllLiterals(ss)
    case If(c, y, n) => LitsOk(c) && Literals(y) && (n.Some? ==> Literals(n.value))
    case While(c, b) => LitsOk(c) && Literals(b)
    case DoWhile(b, c) => LitsOk(c) && Literals(b)
    case For(i, c, p, b) => InitLiterals(i) && MaybeLits(c) && MaybeLits(p) && Literals(b)
    case Switch(c, b) => LitsOk(c) && Literals(b)
    case Label(_, b) => Literals(b)
    case Return(e) => MaybeLits(e)
    case ExprStmt(e) => LitsOk(e)
    case Decl(d) => MaybeLits(d.init)
    case DeclList(ds) => forall i :: 0 <= i < |ds| ==> MaybeLits(ds[i].init)
    case _ => true
  }

  ghost predicate AllLiterals(ss: seq<Stmt>)
    decreases ss, 0
  {
    ss != [] ==> Literals(ss[0]) && AllLiterals(ss[1..])
  }

  ghost predicate InitLiterals(i: Init)
    decreases i, 0
  {
    match i
    case NoInit => true
    case InitExpr(e) => LitsOk(e)
    case InitDecl(s) => Literals(s)
  }

  // ---------------------------------------------------------------- statements that stay

  /** No rule applies to the expression, whatever its names stand for. */
  ghost predicate Stays(e: Expr) {
    Plain(e, [])
  }

  ghost predicate MaybeStays(e: Option<Expr>) {
    e.Some? ==> Stays(e.value)
  }

  /** An expression in the place of a statement: its operands stay. */
  ghost predicate OperandsStay(e: Expr) {
    match e
    case Unary(_, a) => Stays(a)
    case Binary(_, l, r) => Stays(l) && Stays(r)
    case AndAlso(l, r) => Stays(l) && Stays(r)
    case OrElse(l, r) => Stays(l) && Stays(r)
    case Cond(c, y, n) => Stays(c) && Stays(y) && Stays(n)
    case Cast(_, a) => Stays(a)
    case Assign(_, a) => Stays(a)
    case _ => true
  }

  predicate Leaves(s: Stmt) {
    s.Return? || s.Break? || s.Continue?
  }

  ghost predicate Final(s: Stmt)
    decreases s, 1
  {
    match s
    case Block(ss) => AllFinal(ss)
    case If(c, y, n) => Stays(c) && !c.Lit? && Final(y) && (n.Some? ==> Final(n.value))
    case While(c, b) => Stays(c) && c != Lit(0) && Final(b)
    case DoWhile(b, c) => Stays(c) && Final(b)
    case For(i, c, p, b) => InitFinal(i) && MaybeStays(c) && c != Some(Lit(0)) && MaybeStays(p) && Final(b)
    case Switch(c, b) => Stays(c) && Final(b)
    case Label(_, b) => Final(b)
    case Return(e) => MaybeStays(e)
    case ExprStmt(e) => OperandsStay(e)
    case Decl(d) => MaybeStays(d.init)
    case DeclList(ds) => forall i :: 0 <= i < |ds| ==> MaybeStays(ds[i].init)
    case _ => true
  }

  /** What stands behind a return, break or continue carries a label. */
  ghost predicate AllFinal(ss: seq<Stmt>)
    decreases ss, 0
  {
    ss != [] ==> Final(ss[0]) && AllFinal(ss[1..]) && (Leaves(ss[0]) && |ss| > 1 ==> ss[1].Label?)
  }

  ghost predicate InitFinal(i: Init)
    decreases i, 0
  {
    match i
    case NoInit => true
    case InitExpr(e) => OperandsStay(e)
    case InitDecl(s) => Final(s)
  }

  // ---------------------------------------------------------------- expressions

  lemma {:induction false} PlainAnywhere(e: Expr, t: Table)
    requires Plain(e, t)
    ensures Plain(e, [])
    decreases e
  {
    hide PlainBinary, Convert;
    match e
    case Unary(_, a) => PlainAnywhere(a, t);
    case Binary(_, l, r) => PlainAnywhere(l, t); PlainAnywhere(r, t);
    case AndAlso(l, r) => PlainAnywhere(l, t); PlainAnywhere(r, t);
    case OrElse(l, r) => PlainAnywhere(l, t); PlainAnywhere(r, t);
    case Cond(c, y, n) => PlainAnywhere(c, t); PlainAnywhere(y, t); PlainAnywhere(n, t);
    case Cast(_, a) => PlainAnywhere(a, t);
    case Assign(_, a) => PlainAnywhere(a, t);
    case _ =>
  }

  lemma ExprStays(e: Expr, t: Table)
    requires LitsOk(e) && TableOk(t) && Optimize(e, t).Some?
    ensures Stays(Optimize(e, t).value) && LitsOk(Optimize(e, t).value) && OperandsStay(Optimize(e, t).value)
  {
    hide Plain, TableOk, LitsOk, Optimize, OperandsStay;
    OptimizePlain(e, t);
    OptimizedLits(e, t);
    PlainAnywhere(Optimize(e, t).value, t);
    StaysOperands(Optimize(e, t).value);
  }

  lemma StaysOperands(e: Expr)
    requires Plain(e, [])
    ensures OperandsStay(e)
  {
    hide PlainBinary, Convert;
  }

  lemma OperandsFinal(e: Expr, t: Table)
    requires LitsOk(e) && TableOk(t) && OptOperands(e, t).Some?
    ensures OperandsStay(OptOperands(e, t).value)
  {
    hide Plain, TableOk, Optimize, Stays;
    match e
    case Unary(_, a) => ExprStays(a, t);
    case Binary(_, l, r) => ExprStays(l, t); ExprStays(r, t);
    case AndAlso(l, r) => ExprStays(l, t); ExprStays(r, t);
    case OrElse(l, r) => ExprStays(l, t); ExprStays(r, t);
    case Cond(c, y, n) => ExprStays(c, t); ExprStays(y, t); ExprStays(n, t);
    case Cast(_, a) => ExprStays(a, t);
    case Assign(_, a) => ExprStays(a, t);
    case _ =>
  }

  lemma MaybeFinal(e: Option<Expr>, t: Table)
    requires MaybeLits(e) && TableOk(t) && OptMaybe(e, t).Some?
    ensures MaybeStays(OptMaybe(e, t).value) && MaybeLits(OptMaybe(e, t).value)
  {
    hide TableOk, Optimize, Stays, LitsOk;
    if e.Some? { ExprStays(e.value, t); }
  }

  lemma DeclFinal(d: Declarator, t: Table)
    requires MaybeLits(d.init) && TableOk(t) && OptDecl(d, t).Some?
    ensures var r := OptDecl(d, t).value; r.s.Decl? && MaybeStays(r.s.d.init) && TableOk(r.t)
  {
    hide TableOk, Stays, OptMaybe;
    MaybeFinal(d.init, t);
    var d' := OptDeclarator(d, t).value;
    if Recorded(d', d'.init, t) { TableGrows(t, d'.x, d'.init.value.v); }
  }

  lemma TableGrows(t: Table, x: string, v: int)
    requires TableOk(t) && Long64(v)
    ensures TableOk(t + [ConstEntry(x, v)])
  {
    var u := t + [ConstEntry(x, v)];
    assert u[..|u| - 1] == t;
  }

  lemma {:induction false} DeclListFinal(ds: seq<Declarator>, t: Table)
    requires (forall i :: 0 <= i < |ds| ==> MaybeLits(ds[i].init)) && TableOk(t) && OptDeclarators(ds, t).Some?
    ensures var r := OptDeclarators(ds, t).value; forall i :: 0 <= i < |r| ==> MaybeStays(r[i].init)
    decreases |ds|
  {
    hide TableOk, MaybeStays, OptMaybe, MaybeLits;
    if ds != [] {
      MaybeFinal(ds[0].init, t);
      assert forall i :: 0 <= i < |ds[1..]| ==> ds[1..][i] == ds[i + 1];
      DeclListFinal(ds[1..], t);
    }
  }

  lemma InitStays(i: Init, t: Table)
    requires InitLiterals(i) && TableOk(t) && OptInit(i, t).Some?
    ensures InitFinal(OptInit(i, t).value.init) && TableOk(OptInit(i, t).value.t)
    ensures Final(InitOnly(OptInit(i, t).value.init))
  {
    hide TableOk, Stays, OptMaybe, MaybeLits, OptOperands, OptDecl, OptDeclarators, MaybeStays, OperandsStay, LitsOk;
    match i
    case NoInit =>
    case InitExpr(e) => OperandsFinal(e, t);
    case InitDecl(Decl(d)) => DeclFinal(d, t);
    case InitDecl(DeclList(ds)) => DeclListFinal(ds, t);
    case InitDecl(_) =>
  }

  // ---------------------------------------------------------------- statements

  /** The result stays, and so does what its table records. */
  ghost predicate Good(o: Option<OptResult>) {
    o.Some? ==> Final(o.value.s) && TableOk(o.value.t)
  }

  /** Optimising leaves no condition of an if that is a literal, no loop whose condition is zero, no statement that a jump
      before it makes unreachable, and no expression to which a rule applies. */
  lemma {:induction false} OptFinal(s: Stmt, t: Table)
    requires Literals(s) && TableOk(t)
    ensures Good(Opt(s, t))
    decreases s, 1
  {
    hide TableOk, Stays, LitsOk, Optimize, MaybeStays, MaybeLits, OptMaybe, OptDecl, OptDeclarators, OptInit, OperandsStay;
    match s
    case Block(ss) => SeqFinal(ss, t);
    case If(_, _, _) => IfFinal(s, t);
    case While(_, _) => LoopFinal(s, t);
    case DoWhile(_, _) => LoopFinal(s, t);
    case For(_, _, _, _) => ForFinal(s, t);
    case Switch(_, _) => LoopFinal(s, t);
    case Label(_, b) => OptFinal(b, t);
    case Return(e) => if OptMaybe(e, t).Some? { MaybeFinal(e, t); }
    case ExprStmt(e) => if Optimize(e, t).Some? { ExprStays(e, t); }
    case Decl(d) => if OptDecl(d, t).Some? { DeclFinal(d, t); }
    case DeclList(ds) => if OptDeclarators(ds, t).Some? { DeclListFinal(ds, t); }
    case _ =>
  }

  lemma {:induction false} IfFinal(s: Stmt, t: Table)
    requires s.If? && Literals(s) && TableOk(t)
    ensures Good(Opt(s, t))
    decreases s, 0
  {
    hide TableOk, Stays, LitsOk, Optimize;
    var oc, oy := Optimize(s.c, t), Opt(s.yes, t);
    OptFinal(s.yes, t);
    if oc.Some? && oy.Some? {
      ExprStays(s.c, t);
      assert Final(Block([]));
      if s.no.Some? { OptFinal(s.no.value, oy.value.t); }
    }
  }

  lemma {:induction false} LoopFinal(s: Stmt, t: Table)
    requires (s.While? || s.DoWhile? || s.Switch?) && Literals(s) && TableOk(t)
    ensures Good(Opt(s, t))
    decreases s, 0
  {
    hide TableOk, Stays, LitsOk, Optimize;
    OptFinal(s.body, t);
    var u := if s.DoWhile? && Opt(s.body, t).Some? then Opt(s.body, t).value.t else t;
    if Optimize(s.c, u).Some? && Opt(s.body, t).Some? { ExprStays(s.c, u); }
    assert Final(Block([]));
  }

  lemma {:induction false} ForFinal(s: Stmt, t: Table)
    requires s.For? && Literals(s) && TableOk(t)
    ensures Good(Opt(s, t))
    decreases s, 0
  {
    hide TableOk, Stays, LitsOk, Optimize, OptInit, OptMaybe, InitLiterals, InitFinal, InitOnly, MaybeStays, MaybeLits;
    if OptInit(s.init, t).Some? {
      InitStays(s.init, t);
      var u := OptInit(s.init, t).value.t;
      OptFinal(s.body, u);
      if OptMaybe(s.cond, u).Some? { MaybeFinal(s.cond, u); }
      if OptMaybe(s.step, u).Some? { MaybeFinal(s.step, u); }
    }
  }

  lemma {:induction false} LiveLiterals(ss: seq<Stmt>, k: nat)
    requires AllLiterals(ss) && k <= |ss|
    ensures AllLiterals(ss[k..])
    decreases k
  {
    hide Literals;
    if k > 0 {
      assert ss[1..][k - 1..] == ss[k..];
      LiveLiterals(ss[1..], k - 1);
    } else {
      assert ss[0..] == ss;
    }
  }

  lemma {:induction false} SeqFinal(ss: seq<Stmt>, t: Table)
    requires AllLiterals(ss) && TableOk(t)
    ensures OptSeq(ss, t).Some? ==> AllFinal(OptSeq(ss, t).value)
    decreases ss, 0
  {
    hide TableOk, Opt, OptSeq, Literals, Final;
    if ss == [] {
      SeqEnd(t);
    } else if OptSeq(ss, t).Some? {
      SomeHead(ss, t);
      SeqStep(ss, t);
      OptFinal(ss[0], t);
      var o := Opt(ss[0], t).value;
      var rest := Live(o.s, ss[1..]);
      LiveLiterals(ss, |ss| - |rest|);
      SeqFinal(rest, o.t);
      if rest == [] { SeqEnd(o.t); }
      if OptSeq(rest, o.t).Some? && rest != [] {
        DropStops(ss[1..]);
        if rest[0].Label? { LabelKept(rest, o.t); }
      }
    }
  }

  lemma DropStops(ss: seq<Stmt>)
    ensures DropDead(ss) != [] ==> DropDead(ss)[0].Label?
  {
  }

  lemma SeqStep(ss: seq<Stmt>, t: Table)
    requires ss != [] && Opt(ss[0], t).Some?
    ensures var o := Opt(ss[0], t).value;
      var rest := OptSeq(Live(o.s, ss[1..]), o.t);
      OptSeq(ss, t) == if rest.None? then None else Some([o.s] + rest.value)
  {
    hide Opt, Live;
  }

  lemma SeqEnd(t: Table)
    ensures OptSeq([], t) == Some([])
  {
    hide Opt, Live;
  }

  lemma LabelOpt(s: Stmt, t: Table)
    requires s.Label? && Opt(s, t).Some?
    ensures Opt(s, t).value.s.Label?
  {
    hide OptSeq, Optimize;
  }

  lemma SomeHead(ss: seq<Stmt>, t: Table)
    requires ss != [] && OptSeq(ss, t).Some?
    ensures Opt(ss[0], t).Some?
  {
    hide Opt, Live;
  }

  /** A label stays in front. */
  lemma LabelKept(ss: seq<Stmt>, t: Table)
    requires ss != [] && ss[0].Label? && OptSeq(ss, t).Some?
    ensures OptSeq(ss, t).value != [] && OptSeq(ss, t).value[0].Label?
  {
    hide Opt, OptSeq, Live;
    SomeHead(ss, t);
    LabelOpt(ss[0], t);
    SeqStep(ss, t);
  }

  // ---------------------------------------------------------------- recorded constants

  /** A declaration is recorded exactly if it is const, its initialiser is a literal after folding, and fewer than 64 are
      recorded already; nothing else in the table changes. */
  lemma CapacityExact(d: Declarator, t: Table)
    requires OptDecl(d, t).Some?
    ensures var u := OptDecl(d, t).value.t;
      if d.const_.Some? && d.init.Some? && Optimize(d.init.value, t).value.Lit? && |t| <= 63
      then |u| == |t| + 1 && u[..|t|] == t && u[|t|].name == d.x && Lit(u[|t|].value) == Optimize(d.init.value, t).value
      else u == t
  {
    hide Optimize;
  }

  /** const T x = e; return f; where e is known, x the only name of f and no cast on the way changes a value: the
      optimised body returns the value of f as a literal. */
  lemma ConstReaches(x: string, to: Kind, e: Expr, f: Expr, st: Store)
    requires LitsOk(e) && Known(e, []) && CastsKeep(e, []) && Eval(e, []).Val? && Optimize(e, []).Some?
    requires var v := Eval(e, []).v; var t := [ConstEntry(x, v)];
      && st == [map[x := Some(v)]] && LitsOk(f) && Known(f, t) && CastsKeep(f, st) && Eval(f, st).Val? && Optimize(f, t).Some?
    ensures var d := Declarator(x, Some(to), Some(e));
      var v, w := Eval(e, []).v, Eval(f, st).v;
      Opt(Block([Decl(d), Return(Some(f))]), []) == Some(OptResult(Block([Decl(d.(init := Some(Lit(v)))), Return(Some(Lit(w)))]), []))
  {
    hide LitsOk, Known, CastsKeep, Eval, Optimize, Long64;
    var v := Eval(e, []).v;
    var t := [ConstEntry(x, v)];
    NoTable();
    ValueInRange(e, [], []);
    KnownFolds(e, [], []);
    OneConst(x, v);
    KnownFolds(f, t, st);
    TwoStatements(x, to, e, f, v, Eval(f, st).v);
  }

  lemma NoTable()
    ensures StoreOk([]) && Agrees([], [])
  {
  }

  lemma OneConst(x: string, v: int)
    requires Long64(v)
    ensures StoreOk([map[x := Some(v)]]) && Agrees([ConstEntry(x, v)], [map[x := Some(v)]])
  {
    var st: Store, t: Table := [map[x := Some(v)]], [ConstEntry(x, v)];
    assert st[..0] == [] && t[..0] == [];
    forall y
      ensures Lookup(t, y) == if y == x then Some(v) else None
      ensures Get(st, y) == if y == x then Some(v) else None
    {
      if y == x { FindIs(st, x, 0); }
    }
    assert Find(st, x) == Some(0) by { FindIs(st, x, 0); }
  }

  lemma TwoStatements(x: string, to: Kind, e: Expr, f: Expr, v: int, w: int)
    requires Optimize(e, []) == Some(Lit(v)) && Optimize(f, [ConstEntry(x, v)]) == Some(Lit(w))
    ensures var d := Declarator(x, Some(to), Some(e));
      Opt(Block([Decl(d), Return(Some(f))]), []) == Some(OptResult(Block([Decl(d.(init := Some(Lit(v)))), Return(Some(Lit(w)))]), []))
  {
    var d := Declarator(x, Some(to), Some(e));
    DeclRecorded(d, v);
    ReturnFolded(f, [ConstEntry(x, v)], w);
    hide *;
    SeqOfTwo(Decl(d), Decl(d.(init := Some(Lit(v)))), Return(Some(f)), Return(Some(Lit(w))), [], [ConstEntry(x, v)], [ConstEntry(x, v)]);
  }

  lemma DeclRecorded(d: Declarator, v: int)
    requires d.init.Some? && d.const_.Some? && Optimize(d.init.value, []) == Some(Lit(v))
    ensures Opt(Decl(d), []) == Some(OptResult(Decl(d.(init := Some(Lit(v)))), [ConstEntry(d.x, v)]))
  {
    hide Optimize;
    assert OptMaybe(d.init, []) == Some(Some(Lit(v)));
    assert [] + [ConstEntry(d.x, v)] == [ConstEntry(d.x, v)];
  }

  lemma ReturnFolded(f: Expr, t: Table, w: int)
    requires Optimize(f, t) == Some(Lit(w))
    ensures Opt(Return(Some(f)), t) == Some(OptResult(Return(Some(Lit(w))), t))
  {
    hide Optimize;
  }

  lemma SeqOfTwo(a: Stmt, a': Stmt, b: Stmt, b': Stmt, t: Table, t1: Table, t2: Table)
    requires Opt(a, t) == Some(OptResult(a', t1)) && !Leaves(a') && Opt(b, t1) == Some(OptResult(b', t2))
    ensures Opt(Block([a, b]), t) == Some(OptResult(Block([a', b']), t))
  {
    hide Opt, OptSeq, Live, DropDead;
    var ss := [a, b];
    assert ss[1..] == [b];
    SeqOfOne(b, b', t1, t2);
    StaysLive(a', [b]);
    SeqStep(ss, t);
    assert [a'] + [b'] == [a', b'];
    BlockOpt(ss, t);
  }

  lemma StaysLive(s: Stmt, rest: seq<Stmt>)
    requires !Leaves(s) || rest == []
    ensures Live(s, rest) == rest
  {
  }

  lemma SeqOfOne(b: Stmt, b': Stmt, t: Table, u: Table)
    requires Opt(b, t) == Some(OptResult(b', u))
    ensures OptSeq([b], t) == Some([b'])
  {
    hide Opt, OptSeq, Live, DropDead;
    var ss, none := [b], [b][1..];
    assert none == [];
    StaysLive(b', none);
    SeqStep(ss, t);
    SeqEnd(u);
    assert [b'] + [] == [b'];
  }

  lemma BlockOpt(ss: seq<Stmt>, t: Table)
    ensures Opt(Block(ss), t) == var o := OptSeq(ss, t); if o.None? then None else Some(OptResult(Block(o.value), t))
  {
    hide OptSeq;
  }
}
