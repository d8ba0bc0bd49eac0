/** optimize_stmt preserves the outcome and the variables of every execution. */
module StatementsCorrect {
  import opened Options
  import opened Stores
  import opened Optimizer
  import opened OptimizerCorrect
  import opened Statements
  import opened StatementsOk
  import opened StoreRelation
  import C = Codegen

  // ---------------------------------------------------------------- the invariant

  ghost predicate Visible(st: Store, vis: set<string>) {
    forall i, x :: 0 <= i < |st| && x in st[i] ==> x in vis
  }

  /** Between two statements: the stores correspond and the const table is right about the variables. */
  ghost predicate Inv(st: Store, st': Store, t: Table, gone: seq<set<string>>, vis: set<string>) {
    st != [] && Rel(st, st', gone) && AllOk(st) && Agrees(t, st) && TableOk(t) && Visible(st, vis)
  }

  lemma AgreesSteady(st: Store, st1: Store, t: Table)
    requires Agrees(t, st) && Steady(st, st1, t, |st|)
    ensures Agrees(t, st1)
  {
    forall x | Lookup(t, x).Some? ensures Find(st1, x).Some? && (Get(st1, x).Some? ==> Get(st1, x) == Lookup(t, x)) {
      var i := Find(st, x).value;
      assert forall j :: 0 <= j < |st| ==> SameAt(st[j], st1[j], x);
      FindIs(st1, x, i);
    }
  }

  lemma VisibleSteady(st: Store, st1: Store, t: Table, vis: set<string>)
    requires Visible(st, vis) && Steady(st, st1, t, |st|)
    ensures Visible(st1, vis)
  {
    forall i, x | 0 <= i < |st1| && x in st1[i] ensures x in vis {
      assert st1[i].Keys == st[i].Keys;
      assert x in st[i].Keys;
    }
  }

  lemma InvKept(st: Store, st': Store, t: Table, gone: seq<set<string>>, vis: set<string>, st1: Store, st1': Store)
    requires Inv(st, st', t, gone, vis) && Steady(st, st1, t, |st|) && AllOk(st1) && Rel(st1, st1', gone)
    ensures Inv(st1, st1', t, gone, vis)
  {
    hide Rel, AllOk, Agrees, TableOk, Visible;
    AgreesSteady(st, st1, t);
    VisibleSteady(st, st1, t, vis);
  }

  lemma InvMore(st: Store, st': Store, t: Table, gone: seq<set<string>>, vis: set<string>, vis1: set<string>)
    requires Inv(st, st', t, gone, vis) && vis <= vis1
    ensures Inv(st, st', t, gone, vis1)
  {
  }

  // ---------------------------------------------------------------- expressions

  lemma {:induction false} NamesOptimized(e: Expr, t: Table)
    requires Optimize(e, t).Some?
    ensures NamesOf(Optimize(e, t).value) <= NamesOf(e)
    decreases e
  {
    hide C.BinaryValue, C.UnaryValue, FoldBinary, IsPow2;
    match e
    case Lit(_) =>
    case Ref(_) =>
    case Unary(_, a) => NamesOptimized(a, t);
    case Binary(_, l, r) => NamesOptimized(l, t); NamesOptimized(r, t);
    case AndAlso(l, r) => NamesOptimized(l, t); NamesOptimized(r, t);
    case OrElse(l, r) => NamesOptimized(l, t); NamesOptimized(r, t);
    case Cond(c, y, n) => NamesOptimized(c, t); NamesOptimized(y, t); NamesOptimized(n, t);
    case Cast(_, a) => NamesOptimized(a, t);
    case Assign(_, a) => NamesOptimized(a, t);
  }

  /** e' does in the optimised program what e does in the source program. */
  ghost predicate Same(e: Expr, e': Expr, st: Store, st': Store, t: Table, gone: seq<set<string>>, vis: set<string>) {
    var r, r' := Eval(e, st), Eval(e', st');
    r.Val? ==>
      && r'.Val? && r'.v == r.v && Long64(r.v) && Inv(r.st, r'.st, t, gone, vis) && Steady(st, r.st, t, |st|)
      && (e'.Lit? ==> r.v == e'.v && r.st == st)
  }

  lemma SameBy(e: Expr, e': Expr, t: Table, st: Store, st': Store, gone: seq<set<string>>, vis: set<string>)
    requires Inv(st, st', t, gone, vis) && LitsOk(e) && SparesConsts(e, t)
    requires Clear(NamesOf(e'), gone)
    requires Eval(e, st).Val? ==> Eval(e', st) == Eval(e, st)
    ensures Same(e, e', st, st', t, gone, vis)
  {
    hide Rel, Clear, AllOk, Agrees, TableOk, Visible, Steady, LitsOk, SparesConsts;
    EvalRelated(e', st, st', gone);
    EvalSteady(e, t, st);
    if Eval(e, st).Val? {
      InvKept(st, st', t, gone, vis, Eval(e, st).st, Eval(e', st').st);
    }
  }

  lemma ExprCorrect(e: Expr, t: Table, st: Store, st': Store, gone: seq<set<string>>, vis: set<string>)
    requires Inv(st, st', t, gone, vis) && ExprOk(e, t) && Clear(NamesOf(e), gone)
    ensures Same(e, Optimize(e, t).value, st, st', t, gone, vis)
  {
    hide Rel, Clear, AllOk, Agrees, TableOk, Visible, LitsOk, SparesConsts, DropsOnlyPure, Optimize, Same, Eval;
    AllOkStore(st);
    OptimizeCorrect(e, t, st);
    NamesOptimized(e, t);
    ClearLess(NamesOf(Optimize(e, t).value), NamesOf(e), gone);
    SameBy(e, Optimize(e, t).value, t, st, st', gone, vis);
  }

  /** Folding the operands alone preserves meaning as well. */
  lemma OperandsKept(e: Expr, t: Table, st: Store)
    requires Sound(e, t, st) && OptOperands(e, t).Some?
    ensures Eval(e, st).Val? ==> Eval(OptOperands(e, t).value, st) == Eval(e, st)
  {
    hide Convert, Optimize, Set;
    SoundParts(e, t, st);
    hide DropsOnlyPure, LitsOk, SparesConsts, StoreOk, Agrees, TableOk, SimplifyBinary, SimplifyUnary, SimplifyAnd, SimplifyOr, C.BinaryValue, C.UnaryValue;
    match e
    case Lit(_) =>
    case Ref(_) =>
    case Unary(_, a) => OptimizeCorrect(a, t, st);
    case Binary(_, l, r) => PairKept(l, r, t, st);
    case AndAlso(l, r) => PairKept(l, r, t, st);
    case OrElse(l, r) => PairKept(l, r, t, st);
    case Cond(c, y, n) => PairKept(c, y, t, st); PairKept(c, n, t, st);
    case Cast(_, a) => OptimizeCorrect(a, t, st);
    case Assign(_, a) => OptimizeCorrect(a, t, st);
  }

  lemma PairKept(l: Expr, r: Expr, t: Table, st: Store)
    requires SoundIn(l, t) && SoundIn(r, t) && StoreOk(st) && Agrees(t, st) && TableOk(t)
    ensures Kept(l, t, st) && (Eval(l, st).Val? ==> Kept(r, t, Eval(l, st).st))
  {
    hide DropsOnlyPure, LitsOk, SparesConsts, StoreOk, Agrees, TableOk, Optimize, Eval;
    OptimizeCorrect(l, t, st);
    EvalSettled(l, t, st);
    if Eval(l, st).Val? { OptimizeCorrect(r, t, Eval(l, st).st); }
  }

  lemma OperandsNames(e: Expr, t: Table)
    requires OptOperands(e, t).Some?
    ensures NamesOf(OptOperands(e, t).value) <= NamesOf(e)
  {
    hide Optimize;
    match e
    case Lit(_) =>
    case Ref(_) =>
    case Unary(_, a) => NamesOptimized(a, t);
    case Binary(_, l, r) => NamesOptimized(l, t); NamesOptimized(r, t);
    case AndAlso(l, r) => NamesOptimized(l, t); NamesOptimized(r, t);
    case OrElse(l, r) => NamesOptimized(l, t); NamesOptimized(r, t);
    case Cond(c, y, n) => NamesOptimized(c, t); NamesOptimized(y, t); NamesOptimized(n, t);
    case Cast(_, a) => NamesOptimized(a, t);
    case Assign(_, a) => NamesOptimized(a, t);
  }

  lemma OperandsCorrect(e: Expr, t: Table, st: Store, st': Store, gone: seq<set<string>>, vis: set<string>)
    requires Inv(st, st', t, gone, vis) && ExprOk(e, t) && Clear(NamesOf(e), gone) && OptOperands(e, t).Some?
    ensures Same(e, OptOperands(e, t).value, st, st', t, gone, vis)
  {
    hide Rel, Clear, AllOk, Agrees, TableOk, Visible, LitsOk, SparesConsts, DropsOnlyPure, Optimize, OptOperands, Same, Eval;
    AllOkStore(st);
    OperandsKept(e, t, st);
    OperandsNames(e, t);
    ClearLess(NamesOf(OptOperands(e, t).value), NamesOf(e), gone);
    SameBy(e, OptOperands(e, t).value, t, st, st', gone, vis);
  }

  // ---------------------------------------------------------------- declarations

  /** A declaration relative to the invariant before it. */
  ghost predicate Declares1(o: Out, o': Out, st: Store, t: Table, t1: Table, gone: seq<set<string>>, vis: set<string>) {
    && (o.Normal? || o.Stuck?)
    && (o.Normal? ==> o'.Normal? && Inv(o.st, o'.st, t1, gone, vis) && st != [] && Steady(st, o.st, t, |st| - 1))
  }

  ghost predicate Holds(t: Table, x: string, v: Option<int>) {
    Lookup(t, x).Some? ==> v.Some? && v == Lookup(t, x)
  }

  lemma DeclareInv(st: Store, st': Store, t: Table, t1: Table, gone: seq<set<string>>, vis: set<string>, x: string, v: Option<int>)
    requires Inv(st, st', t, gone, vis) && (v.Some? ==> Long64(v.value))
    requires TableOk(t1) && Holds(t1, x, v) && forall y :: y != x ==> Lookup(t1, y) == Lookup(t, y)
    ensures Inv(Declare(st, x, v), Declare(st', x, v), t1, gone, vis + {x})
    ensures Steady(st, Declare(st, x, v), t, |st| - 1)
  {
    RelDeclare(st, st', gone, x, v);
    var r := Declare(st, x, v);
    forall y | Lookup(t1, y).Some? ensures Find(r, y).Some? && (Get(r, y).Some? ==> Get(r, y) == Lookup(t1, y)) {
      DeclareGet(st, x, v, y);
    }
    assert AllOk(r);
    assert Visible(r, vis + {x});
  }

  lemma PlainDeclCorrect(d: Declarator, t: Table, st: Store, st': Store, gone: seq<set<string>>, vis: set<string>)
    requires Inv(st, st', t, gone, vis) && MaybeOk(d.init, t) && Lookup(t, d.x).None? && Clear(NamesDecl(d), gone)
    ensures OptDeclarator(d, t).Some?
    ensures Declares1(ExecDecl(d, st), ExecDecl(OptDeclarator(d, t).value, st'), st, t, t, gone, vis + {d.x})
  {
    hide Rel, Clear, AllOk, Agrees, TableOk, Visible, Optimize, Eval, Declare, SoundIn, Lookup, Steady;
    OkOptimizes(d.init, t);
    StoreSize(st, st', t, gone, vis);
    if d.init.None? {
      TableHeld(st, st', t, gone, vis);
      DeclareInv(st, st', t, t, gone, vis, d.x, None);
    } else {
      var e := d.init.value;
      ClearLess(NamesOf(e), NamesDecl(d), gone);
      ExprCorrect(e, t, st, st', gone, vis);
      var r, r' := Eval(e, st), Eval(Optimize(e, t).value, st');
      if r.Val? {
        var v := if d.const_.Some? then Convert(r.v, d.const_.value) else r.v;
        assert Long64(v) by { if d.const_.Some? { ConvertInRange(r.v, d.const_.value); } }
        StoreSize(r.st, r'.st, t, gone, vis);
        TableHeld(r.st, r'.st, t, gone, vis);
        DeclareInv(r.st, r'.st, t, t, gone, vis, d.x, Some(v));
        SteadyDeclared(st, r.st, Declare(r.st, d.x, Some(v)), t);
      }
    }
  }

  lemma OkOptimizes(e: Option<Expr>, t: Table)
    requires MaybeOk(e, t)
    ensures OptMaybe(e, t).Some?
  {
  }

  lemma StoreSize(st: Store, st': Store, t: Table, gone: seq<set<string>>, vis: set<string>)
    requires Inv(st, st', t, gone, vis)
    ensures |st| == |st'| == |gone| > 0
  {
  }

  lemma TableHeld(st: Store, st': Store, t: Table, gone: seq<set<string>>, vis: set<string>)
    requires Inv(st, st', t, gone, vis)
    ensures TableOk(t)
  {
  }

  lemma SteadyDeclared(st: Store, st1: Store, st2: Store, t: Table)
    requires st != [] && Steady(st, st1, t, |st|) && Steady(st1, st2, t, |st1| - 1)
    ensures Steady(st, st2, t, |st| - 1)
  {
    SteadyLess(st, st1, t, |st|, |st| - 1);
    SteadyTrans(st, st1, st2, t, |st| - 1);
  }

  lemma LookupPush(t: Table, x: string, v: int, y: string)
    ensures Lookup(t + [ConstEntry(x, v)], y) == if y == x then Some(v) else Lookup(t, y)
  {
    assert (t + [ConstEntry(x, v)])[..|t|] == t;
  }

  lemma RecordOk(t: Table, x: string, v: int)
    requires TableOk(t) && Long64(v)
    ensures TableOk(t + [ConstEntry(x, v)])
  {
    forall y | Lookup(t + [ConstEntry(x, v)], y).Some? ensures Long64(Lookup(t + [ConstEntry(x, v)], y).value) {
      LookupPush(t, x, v, y);
    }
  }

  /** The table records the folded initialiser; the const has that value at run time exactly if it fits the declared type. */
  lemma RecordedExact(d: Declarator, t: Table, st: Store, v: int)
    requires OptMaybe(d.init, t).Some? && Recorded(d, OptMaybe(d.init, t).value, t) && OptMaybe(d.init, t).value.value == Lit(v) && Long64(v)
    requires Eval(d.init.value, st).Val? && Eval(d.init.value, st).v == v && Eval(d.init.value, st).st != [] && st != []
    ensures OptDecl(d, t).Some? && Lookup(OptDecl(d, t).value.t, d.x) == Some(v)
    ensures var o := ExecDecl(d, st); o.Normal? && (Get(o.st, d.x) == Some(v) <==> CastSafe(v, d.const_.value))
  {
    hide Eval, Optimize, Declare;
    LookupPush(t, d.x, v, d.x);
    CastExact(v, d.const_.value);
    DeclareGet(Eval(d.init.value, st).st, d.x, Some(Convert(v, d.const_.value)), d.x);
  }

  /** A const whose literal initialiser fits its type has, at run time, the value the table records. */
  lemma RecordedDeclCorrect(d: Declarator, t: Table, st: Store, st': Store, gone: seq<set<string>>, vis: set<string>)
    requires Inv(st, st', t, gone, vis) && DeclOk(d, t) && Clear(NamesDecl(d), gone)
    requires Recorded(d, OptMaybe(d.init, t).value, t)
    ensures Declares1(ExecDecl(d, st), ExecDecl(OptDeclarator(d, t).value, st'), st, t, OptDecl(d, t).value.t, gone, vis + {d.x})
  {
    hide Rel, Clear, AllOk, Agrees, TableOk, Visible, Optimize, Eval, Declare, SoundIn, Lookup, Steady;
    var e := d.init.value;
    OkOptimizes(d.init, t);
    StoreSize(st, st', t, gone, vis);
    ClearLess(NamesOf(e), NamesDecl(d), gone);
    ExprCorrect(e, t, st, st', gone, vis);
    var r, r' := Eval(e, st), Eval(Optimize(e, t).value, st');
    if r.Val? {
      var v := Convert(r.v, d.const_.value);
      CastExact(r.v, d.const_.value);
      assert v == r.v == Optimize(e, t).value.v;
      var t1 := OptDecl(d, t).value.t;
      assert t1 == t + [ConstEntry(d.x, v)];
      forall y ensures Lookup(t1, y) == if y == d.x then Some(v) else Lookup(t, y) { LookupPush(t, d.x, v, y); }
      TableHeld(r.st, r'.st, t, gone, vis);
      RecordOk(t, d.x, v);
      StoreSize(r.st, r'.st, t, gone, vis);
      DeclareInv(r.st, r'.st, t, t1, gone, vis, d.x, Some(v));
      SteadyDeclared(st, r.st, Declare(r.st, d.x, Some(v)), t);
    }
  }

  lemma {:induction false} DeclsCorrect(ds: seq<Declarator>, t: Table, st: Store, st': Store, gone: seq<set<string>>, vis: set<string>)
    requires Inv(st, st', t, gone, vis) && PlainDecls(ds, t) && Clear(NamesDecls(ds), gone)
    ensures OptDeclarators(ds, t).Some?
    ensures Declares1(ExecDecls(ds, st), ExecDecls(OptDeclarators(ds, t).value, st'), st, t, t, gone, vis + Declared(DeclList(ds)))
    decreases |ds|
  {
    hide Rel, Clear, AllOk, Agrees, TableOk, Visible, ExecDecl, OptDeclarator, SoundIn, Lookup, Steady, Inv;
    StoreSize(st, st', t, gone, vis);
    if ds == [] {
      SteadyUpTo(st, t, |st| - 1);
      InvMore(st, st', t, gone, vis, vis + Declared(DeclList(ds)));
    } else {
      var d, rest := ds[0], ds[1..];
      assert d in ds;
      ClearLess(NamesDecl(d), NamesDecls(ds), gone);
      ClearLess(NamesDecls(rest), NamesDecls(ds), gone);
      PlainDeclCorrect(d, t, st, st', gone, vis);
      OptDeclsCons(ds, t);
      var o, o' := ExecDecl(d, st), ExecDecl(OptDeclarator(d, t).value, st');
      if o.Normal? {
        DeclsCorrect(rest, t, o.st, o'.st, gone, vis + {d.x});
        DeclaredCons(ds);
        assert vis + {d.x} + Declared(DeclList(rest)) == vis + Declared(DeclList(ds));
        var q := ExecDecls(rest, o.st);
        if q.Normal? {
          StoreSize(o.st, o'.st, t, gone, vis + {d.x});
          SteadyTrans(st, o.st, q.st, t, |st| - 1);
        }
      } else {
        DeclsSome(rest, t);
      }
    }
  }

  lemma SteadyUpTo(st: Store, t: Table, n: nat)
    requires n <= |st|
    ensures Steady(st, st, t, n)
  {
  }

  lemma DeclaredCons(ds: seq<Declarator>)
    requires ds != []
    ensures Declared(DeclList(ds)) == {ds[0].x} + Declared(DeclList(ds[1..]))
  {
    assert ds == [ds[0]] + ds[1..];
  }

  lemma {:induction false} DeclsSome(ds: seq<Declarator>, t: Table)
    requires PlainDecls(ds, t)
    ensures OptDeclarators(ds, t).Some?
    decreases |ds|
  {
    if ds != [] { assert ds[0] in ds; DeclsSome(ds[1..], t); }
  }

  lemma OptDeclsCons(ds: seq<Declarator>, t: Table)
    requires ds != [] && OptDeclarator(ds[0], t).Some?
    ensures OptDeclarators(ds[1..], t).Some? ==> OptDeclarators(ds, t) == Some([OptDeclarator(ds[0], t).value] + OptDeclarators(ds[1..], t).value)
  {
  }

  /** What a declaration statement does to both programs and to the table. */
  lemma DeclCorrect(s: Stmt, t: Table, st: Store, st': Store, gone: seq<set<string>>, vis: set<string>, n: nat)
    requires Inv(st, st', t, gone, vis) && Declares(s) && StmtOk(s, t, vis) && Opt(s, t).Some? && Clear(Mentions(s), gone)
    ensures Declares1(Exec(s, st, n), Exec(Opt(s, t).value.s, st', n), st, t, Opt(s, t).value.t, gone, vis + Declared(s))
    ensures Declared(Opt(s, t).value.s) == Declared(s) && Declares(Opt(s, t).value.s)
  {
    hide Inv, Clear, ExecDecl, SoundIn, Lookup, Steady, Optimize;
    match s
    case Decl(d) =>
      if Recorded(d, OptMaybe(d.init, t).value, t) {
        RecordedDeclCorrect(d, t, st, st', gone, vis);
      } else {
        PlainDeclCorrect(d, t, st, st', gone, vis);
      }
    case DeclList(ds) =>
      DeclsCorrect(ds, t, st, st', gone, vis);
      OptDeclsNames(ds, t);
  }

  lemma {:induction false} OptDeclsNames(ds: seq<Declarator>, t: Table)
    requires OptDeclarators(ds, t).Some?
    ensures Declared(DeclList(OptDeclarators(ds, t).value)) == Declared(DeclList(ds))
    decreases |ds|
  {
    if ds != [] {
      OptDeclsNames(ds[1..], t);
      var ds' := OptDeclarators(ds, t).value;
      DeclaredCons(ds);
      DeclaredCons(ds');
      assert ds'[1..] == OptDeclarators(ds[1..], t).value;
    }
  }
}
