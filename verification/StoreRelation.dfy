/** How the variables of the optimised program relate to those of the source program. */
module StoreRelation {
  import opened Options
  import opened Stores
  import opened Optimizer
  import opened Statements
  import opened StatementsOk
  import C = Codegen

  /** Scope by scope the optimised program has the same variables with the same values, except that
      removed declarations (gone) may be missing and declarations left behind by a removed loop may be
      extra, as long as they hide no variable. */
  ghost predicate Rel(st: Store, st': Store, gone: seq<set<string>>) {
    && |st| == |st'| == |gone|
    && (forall i, x :: 0 <= i < |st| && x in st[i] && x !in gone[i] ==> x in st'[i] && st'[i][x] == st[i][x])
    && (forall i, j, x :: 0 <= j < i < |st| && x in st'[i] && x in st[j] ==> x in st[i])
  }

  ghost predicate Clear(names: set<string>, gone: seq<set<string>>) {
    forall i, x :: 0 <= i < |gone| && x in names ==> x !in gone[i]
  }

  lemma ClearLess(a: set<string>, b: set<string>, gone: seq<set<string>>)
    requires Clear(b, gone) && a <= b
    ensures Clear(a, gone)
  {
  }

  /** A used variable is found in the same scope. */
  lemma RelFind(st: Store, st': Store, gone: seq<set<string>>, x: string)
    requires Rel(st, st', gone) && Clear({x}, gone) && Find(st, x).Some?
    ensures Find(st', x) == Find(st, x) && Get(st', x) == Get(st, x)
  {
    var i := Find(st, x).value;
    FindIs(st', x, i);
  }

  lemma RelSet(st: Store, st': Store, gone: seq<set<string>>, x: string, v: int)
    requires Rel(st, st', gone) && Clear({x}, gone) && Find(st, x).Some?
    ensures Find(st', x).Some? && Rel(Set(st, x, v), Set(st', x, v), gone)
  {
    RelFind(st, st', gone, x);
  }

  lemma RelDeclare(st: Store, st': Store, gone: seq<set<string>>, x: string, v: Option<int>)
    requires Rel(st, st', gone) && st != []
    ensures Rel(Declare(st, x, v), Declare(st', x, v), gone)
  {
  }

  lemma RelEnter(st: Store, st': Store, gone: seq<set<string>>, f: Frame, f': Frame, g: set<string>)
    requires Rel(st, st', gone)
    requires forall x :: x in f && x !in g ==> x in f' && f'[x] == f[x]
    requires forall j, x :: 0 <= j < |st| && x in f' && x in st[j] ==> x in f
    ensures Rel(Enter(st, f), Enter(st', f'), gone + [g])
  {
  }

  lemma RelLeave(st: Store, st': Store, gone: seq<set<string>>, g: set<string>)
    requires Rel(st, st', gone + [g])
    ensures st != [] && st' != [] && Rel(st[..|st| - 1], st'[..|st| - 1], gone)
  {
    var n := |st| - 1;
    forall i, x | 0 <= i < n && x in st[i] && x !in gone[i] ensures x in st'[i] && st'[i][x] == st[i][x] {
      assert (gone + [g])[i] == gone[i];
    }
  }

  ghost predicate SameResult(r: Result, r': Result, gone: seq<set<string>>) {
    r.Val? ==> r'.Val? && r'.v == r.v && Rel(r.st, r'.st, gone)
  }

  /** An expression that uses no removed variable computes the same in both stores. */
  lemma {:induction false} EvalRelated(e: Expr, st: Store, st': Store, gone: seq<set<string>>)
    requires Rel(st, st', gone) && Clear(NamesOf(e), gone)
    ensures SameResult(Eval(e, st), Eval(e, st'), gone)
    decreases e, 1
  {
    hide Rel, Clear, Set, Find, Get, C.BinaryValue, C.UnaryValue, Convert;
    match e
    case Lit(_) =>
    case Ref(x) => if Get(st, x).Some? { GetFound(st, x); RelFind(st, st', gone, x); }
    case Unary(_, a) => EvalRelated(a, st, st', gone);
    case Binary(_, l, r) => PairRelated(e, l, r, st, st', gone);
    case AndAlso(l, r) => PairRelated(e, l, r, st, st', gone);
    case OrElse(l, r) => PairRelated(e, l, r, st, st', gone);
    case Cond(c, y, n) =>
      ClearLess(NamesOf(c) + NamesOf(y), NamesOf(e), gone);
      ClearLess(NamesOf(c) + NamesOf(n), NamesOf(e), gone);
      PairRelated(e, c, y, st, st', gone);
      PairRelated(e, c, n, st, st', gone);
    case Cast(_, a) => EvalRelated(a, st, st', gone);
    case Assign(x, a) =>
      ClearLess(NamesOf(a), NamesOf(e), gone);
      ClearLess({x}, NamesOf(e), gone);
      EvalRelated(a, st, st', gone);
      if Eval(e, st).Val? { RelSet(Eval(a, st).st, Eval(a, st').st, gone, x, Eval(a, st).v); }
  }

  lemma GetFound(st: Store, x: string)
    requires Get(st, x).Some?
    ensures Find(st, x).Some?
  {
  }

  lemma PairRelated(e: Expr, l: Expr, r: Expr, st: Store, st': Store, gone: seq<set<string>>)
    requires l < e && r < e
    requires Rel(st, st', gone) && Clear(NamesOf(l) + NamesOf(r), gone)
    ensures SameResult(Eval(l, st), Eval(l, st'), gone)
    ensures Eval(l, st).Val? ==> SameResult(Eval(r, Eval(l, st).st), Eval(r, Eval(l, st').st), gone)
    decreases e, 0
  {
    hide Rel, Clear, Eval;
    ClearLess(NamesOf(l), NamesOf(l) + NamesOf(r), gone);
    ClearLess(NamesOf(r), NamesOf(l) + NamesOf(r), gone);
    EvalRelated(l, st, st', gone);
    if Eval(l, st).Val? { EvalRelated(r, Eval(l, st).st, Eval(l, st').st, gone); }
  }

  // ---------------------------------------------------------------- merging the innermost scope

  /** The store with the innermost scope dissolved into the one around it. */
  function Merge(st: Store): (r: Store)
    requires |st| >= 2
    ensures |r| == |st| - 1
  {
    var n := |st| - 2;
    st[..n] + [st[n] + st[n + 1]]
  }

  lemma MergeFind(st: Store, x: string)
    requires |st| >= 2
    ensures Find(Merge(st), x).Some? <==> Find(st, x).Some?
    ensures Find(st, x).Some? ==> Find(Merge(st), x).value == if Find(st, x).value == |st| - 1 then |st| - 2 else Find(st, x).value
    ensures Get(Merge(st), x) == Get(st, x)
  {
    var r := Find(st, x);
    if r.Some? {
      FindIs(Merge(st), x, if r.value == |st| - 1 then |st| - 2 else r.value);
    }
  }

  lemma MergeSet(st: Store, x: string, v: int)
    requires |st| >= 2 && Find(st, x).Some?
    ensures Find(Merge(st), x).Some? && Merge(Set(st, x, v)) == Set(Merge(st), x, v)
  {
    MergeFind(st, x);
    var n, a, b := |st| - 2, Merge(Set(st, x, v)), Set(Merge(st), x, v);
    assert a[n] == b[n];
    assert a[..n] == b[..n];
    assert a == a[..n] + [a[n]] && b == b[..n] + [b[n]];
  }

  lemma MergeDeclare(st: Store, x: string, v: Option<int>)
    requires |st| >= 2
    ensures Merge(Declare(st, x, v)) == Declare(Merge(st), x, v)
  {
    var n, a, b := |st| - 2, Merge(Declare(st, x, v)), Declare(Merge(st), x, v);
    assert a[n] == b[n];
    assert a[..n] == b[..n];
    assert a == a[..n] + [a[n]] && b == b[..n] + [b[n]];
  }

  ghost predicate Merged(r: Result, m: Result, n: nat) {
    if r.Val? then |r.st| == n >= 2 && m == Val(r.v, Merge(r.st)) else m == r
  }

  /** Dissolving a scope does not change what an expression computes. */
  lemma {:induction false} EvalMerge(e: Expr, st: Store)
    requires |st| >= 2
    ensures Merged(Eval(e, st), Eval(e, Merge(st)), |st|)
    decreases e, 1
  {
    hide Merge, Set, Find, Get, C.BinaryValue, C.UnaryValue, Convert;
    match e
    case Lit(_) =>
    case Ref(x) => MergeFind(st, x);
    case Unary(_, a) => EvalMerge(a, st);
    case Binary(_, l, r) => PairMerge(e, l, r, st);
    case AndAlso(l, r) => PairMerge(e, l, r, st);
    case OrElse(l, r) => PairMerge(e, l, r, st);
    case Cond(c, y, n) => PairMerge(e, c, y, st); PairMerge(e, c, n, st);
    case Cast(_, a) => EvalMerge(a, st);
    case Assign(x, a) =>
      EvalMerge(a, st);
      if Eval(a, st).Val? {
        MergeFind(Eval(a, st).st, x);
        if Find(Eval(a, st).st, x).Some? { MergeSet(Eval(a, st).st, x, Eval(a, st).v); }
      }
  }

  lemma PairMerge(e: Expr, l: Expr, r: Expr, st: Store)
    requires l < e && r < e && |st| >= 2
    ensures Merged(Eval(l, st), Eval(l, Merge(st)), |st|)
    ensures Eval(l, st).Val? ==> |Eval(l, st).st| >= 2
    ensures Eval(l, st).Val? ==> Merged(Eval(r, Eval(l, st).st), Eval(r, Merge(Eval(l, st).st)), |st|)
    decreases e, 0
  {
    hide Eval;
    EvalMerge(l, st);
    if Eval(l, st).Val? { EvalMerge(r, Eval(l, st).st); }
  }

  ghost predicate MergedOut(o: Out, m: Out, n: nat) {
    if o.Normal? then |o.st| == n >= 2 && m == Normal(Merge(o.st)) else m == o
  }

  lemma DeclMerge(d: Declarator, st: Store)
    requires |st| >= 2
    ensures MergedOut(ExecDecl(d, st), ExecDecl(d, Merge(st)), |st|)
  {
    hide Merge, Declare, Eval;
    if d.init.None? {
      MergeDeclare(st, d.x, None);
    } else {
      EvalMerge(d.init.value, st);
      var r := Eval(d.init.value, st);
      if r.Val? { MergeDeclare(r.st, d.x, Some(if d.const_.Some? then Convert(r.v, d.const_.value) else r.v)); }
    }
  }

  lemma {:induction false} DeclsMerge(ds: seq<Declarator>, st: Store)
    requires |st| >= 2
    ensures MergedOut(ExecDecls(ds, st), ExecDecls(ds, Merge(st)), |st|)
  {
    if ds != [] {
      DeclMerge(ds[0], st);
      if ExecDecl(ds[0], st).Normal? { DeclsMerge(ds[1..], ExecDecl(ds[0], st).st); }
    }
  }

  /** The init of a loop runs the same without the scope of the loop. */
  lemma InitMerge(i: Init, st: Store, n: nat)
    requires |st| >= 2
    requires i.InitDecl? ==> i.decl.Decl? || i.decl.DeclList?
    requires i != NoInit
    ensures MergedOut(ExecInit(i, st), Exec(InitOnly(i), Merge(st), n), |st|)
  {
    hide Merge;
    match i
    case InitExpr(e) => EvalMerge(e, st);
    case InitDecl(Decl(d)) => DeclMerge(d, st);
    case InitDecl(DeclList(ds)) => DeclsMerge(ds, st);
  }
}
