/** The programs on which optimize_stmt preserves meaning, and what execution leaves alone. */
module StatementsOk {
  import opened Options
  import opened Stores
  import opened Optimizer
  import opened OptimizerCorrect
  import opened Statements
  import C = Codegen

  // ---------------------------------------------------------------- names

  function NamesOf(e: Expr): set<string> {
    match e
    case Lit(_) => {}
    case Ref(x) => {x}
    case Unary(_, a) => NamesOf(a)
    case Binary(_, l, r) => NamesOf(l) + NamesOf(r)
    case AndAlso(l, r) => NamesOf(l) + NamesOf(r)
    case OrElse(l, r) => NamesOf(l) + NamesOf(r)
    case Cond(c, y, n) => NamesOf(c) + NamesOf(y) + NamesOf(n)
    case Cast(_, a) => NamesOf(a)
    case Assign(x, a) => NamesOf(a) + {x}
  }

  function NamesMaybe(e: Option<Expr>): set<string> {
    if e.Some? then NamesOf(e.value) else {}
  }

  function NamesDecl(d: Declarator): set<string> {
    NamesMaybe(d.init) + {d.x}
  }

  function NamesDecls(ds: seq<Declarator>): set<string> {
    if ds == [] then {} else NamesDecl(ds[0]) + NamesDecls(ds[1..])
  }

  function NamesInit(i: Init): set<string> {
    match i
    case NoInit => {}
    case InitExpr(e) => NamesOf(e)
    case InitDecl(Decl(d)) => NamesDecl(d)
    case InitDecl(DeclList(ds)) => NamesDecls(ds)
    case InitDecl(_) => {}
  }

  /** Every name that occurs in s. */
  function Mentions(s: Stmt): set<string>
    decreases s, 1
  {
    match s
    case Block(ss) => MentionsIn(ss)
    case If(c, y, n) => NamesOf(c) + Mentions(y) + if n.Some? then Mentions(n.value) else {}
    case While(c, b) => NamesOf(c) + Mentions(b)
    case DoWhile(b, c) => NamesOf(c) + Mentions(b)
    case For(i, c, p, b) => NamesInit(i) + NamesMaybe(c) + NamesMaybe(p) + Mentions(b)
    case Switch(c, b) => NamesOf(c) + Mentions(b)
    case Label(_, b) => Mentions(b)
    case Return(e) => NamesMaybe(e)
    case ExprStmt(e) => NamesOf(e)
    case Decl(d) => NamesDecl(d)
    case DeclList(ds) => NamesDecls(ds)
    case _ => {}
  }

  function MentionsIn(ss: seq<Stmt>): set<string>
    decreases ss, 0
  {
    if ss == [] then {} else Mentions(ss[0]) + MentionsIn(ss[1..])
  }

  function InitNames(i: Init): set<string> {
    if i.InitDecl? then Declared(i.decl) else {}
  }

  // ---------------------------------------------------------------- conditions

  ghost predicate ExprOk(e: Expr, t: Table) {
    SoundIn(e, t)
  }

  ghost predicate MaybeOk(e: Option<Expr>, t: Table) {
    e.Some? ==> ExprOk(e.value, t)
  }

  /** The initialiser of a recorded const fits its type; any other declaration shadows no recorded const. */
  ghost predicate DeclOk(d: Declarator, t: Table) {
    && MaybeOk(d.init, t)
    && var o := OptMaybe(d.init, t);
       if o.Some? && Recorded(d, o.value, t) then CastSafe(o.value.value.v, d.const_.value)
       else Lookup(t, d.x).None?
  }

  ghost predicate PlainDecls(ds: seq<Declarator>, t: Table) {
    forall d :: d in ds ==> MaybeOk(d.init, t) && Lookup(t, d.x).None?
  }

  /** Consts are declared only as children of a block. */
  ghost predicate InitOk(i: Init, t: Table) {
    match i
    case NoInit => true
    case InitExpr(e) => ExprOk(e, t) && OptOperands(e, t).Some?
    case InitDecl(Decl(d)) => d.const_.None? && PlainDecls([d], t)
    case InitDecl(DeclList(ds)) => PlainDecls(ds, t)
    case InitDecl(_) => false
  }

  predicate Declares(s: Stmt) {
    s.Decl? || s.DeclList?
  }

  /** A for loop that never runs leaves its declarations behind: they must be new names. */
  ghost predicate LeavesNewNames(i: Init, c: Option<Expr>, t: Table, vis: set<string>) {
    OptMaybe(c, t) == Some(Some(Lit(0))) ==> InitNames(i) !! vis
  }

  /** vis holds the names declared in the enclosing scopes. */
  ghost predicate StmtOk(s: Stmt, t: Table, vis: set<string>)
    decreases s, 1
  {
    match s
    case Block(ss) => SeqOk(ss, t, vis, false)
    case If(c, y, n) => ExprOk(c, t) && !y.Label? && !Declares(y) && StmtOk(y, t, vis) && (n.Some? ==> !n.value.Label? && !Declares(n.value) && StmtOk(n.value, t, vis))
    case While(c, b) => ExprOk(c, t) && !b.Label? && !Declares(b) && StmtOk(b, t, vis)
    case DoWhile(b, c) => ExprOk(c, t) && !b.Label? && !Declares(b) && StmtOk(b, t, vis)
    case For(i, c, p, b) =>
      && InitOk(i, t) && MaybeOk(c, t) && MaybeOk(p, t) && LeavesNewNames(i, c, t, vis)
      && !b.Label? && !Declares(b) && StmtOk(b, t, vis + InitNames(i))
    case Switch(c, b) => ExprOk(c, t) && b.Block? && SeqOk(b.ss, t, vis, true)
    case Label(_, b) => !Declares(b) && StmtOk(b, t, vis)
    case Return(e) => MaybeOk(e, t)
    case ExprStmt(e) => ExprOk(e, t)
    case Decl(d) => DeclOk(d, t)
    case DeclList(ds) => PlainDecls(ds, t)
    case _ => true
  }

  /** Labels stand only directly in the block of their switch; a removed declaration is not used later. */
  ghost predicate SeqOk(ss: seq<Stmt>, t: Table, vis: set<string>, inSwitch: bool)
    decreases ss, 0
  {
    ss != [] ==>
      var s := ss[0];
      var o := Opt(s, t);
      && StmtOk(s, t, vis) && (s.Label? ==> inSwitch) && o.Some?
      && var live := Live(o.value.s, ss[1..]);
         var gone := Gone(o.value.s, ss[1..]);
         && DeclaredIn(gone) !! MentionsIn(live)
         && SeqOk(live, o.value.t, vis + Declared(s) + DeclaredIn(gone), inSwitch)
  }

  /** The siblings that Live drops. */
  function Gone(s: Stmt, rest: seq<Stmt>): seq<Stmt> {
    rest[..|rest| - |Live(s, rest)|]
  }

  // ---------------------------------------------------------------- stores

  /** Every value in every scope is a value of type long. */
  ghost predicate AllOk(st: Store) {
    forall i, x :: 0 <= i < |st| && x in st[i] && st[i][x].Some? ==> Long64(st[i][x].value)
  }

  lemma AllOkStore(st: Store)
    requires AllOk(st)
    ensures StoreOk(st)
  {
  }

  ghost predicate SameAt(f: Frame, g: Frame, x: string) {
    (x in f <==> x in g) && (x in f ==> f[x] == g[x])
  }

  /** No scope gains or loses names, and recorded consts keep their values, in the first n scopes. */
  ghost predicate Steady(st: Store, st': Store, t: Table, n: nat) {
    && |st| == |st'| && n <= |st|
    && (forall i :: 0 <= i < n ==> st'[i].Keys == st[i].Keys)
    && (forall i, x :: 0 <= i < n && Lookup(t, x).Some? ==> SameAt(st[i], st'[i], x))
  }

  lemma SteadyTrans(a: Store, b: Store, c: Store, t: Table, n: nat)
    requires Steady(a, b, t, n) && Steady(b, c, t, n)
    ensures Steady(a, c, t, n)
  {
    forall i, x | 0 <= i < n && Lookup(t, x).Some? ensures SameAt(a[i], c[i], x) {
      assert SameAt(a[i], b[i], x) && SameAt(b[i], c[i], x);
    }
  }

  lemma SteadyLess(a: Store, b: Store, t: Table, n: nat, m: nat)
    requires Steady(a, b, t, n) && m <= n
    ensures Steady(a, b, t, m)
  {
  }

  lemma SetSteady(st: Store, x: string, v: int, t: Table)
    requires Find(st, x).Some? && Lookup(t, x).None? && AllOk(st) && Long64(v)
    ensures Steady(st, Set(st, x, v), t, |st|) && AllOk(Set(st, x, v))
  {
    hide Long64, Lookup, Find;
    UpdateOk(st, Find(st, x).value, x, v);
    UpdateSteady(st, Find(st, x).value, x, v, t);
  }

  lemma UpdateOk(st: Store, k: nat, x: string, v: int)
    requires k < |st| && AllOk(st) && Long64(v)
    ensures AllOk(st[k := st[k][x := Some(v)]])
  {
    hide Long64;
  }

  lemma UpdateSteady(st: Store, k: nat, x: string, v: int, t: Table)
    requires k < |st| && x in st[k] && Lookup(t, x).None?
    ensures Steady(st, st[k := st[k][x := Some(v)]], t, |st|)
  {
    hide Lookup;
    var r := st[k := st[k][x := Some(v)]];
    assert r[k].Keys == st[k].Keys by {
      assert r[k].Keys == st[k].Keys + {x};
      assert x in st[k].Keys;
    }
  }

  /** Evaluating an expression keeps the scopes and the recorded consts. */
  lemma {:induction false} EvalSteady(e: Expr, t: Table, st: Store)
    requires LitsOk(e) && SparesConsts(e, t) && AllOk(st)
    ensures var r := Eval(e, st); r.Val? ==> Steady(st, r.st, t, |st|) && AllOk(r.st) && Long64(r.v)
    decreases e, 0
  {
    hide Steady, AllOk, Long64, C.BinaryValue, C.UnaryValue, Convert, Set;
    SteadySelf(st, t);
    match e
    case Lit(_) => assert Long64(e.v);
    case Ref(x) => if Get(st, x).Some? { AllOkStore(st); ValueAt(st, x); }
    case Unary(op, a) =>
      EvalSteady(a, t, st);
      if Eval(a, st).Val? { UnaryInRange(op, Eval(a, st).v); }
    case Binary(op, l, r) =>
      EvalSteady(l, t, st);
      if Eval(l, st).Val? {
        EvalThenSteady(r, t, st, Eval(l, st).st);
        var rr := Eval(r, Eval(l, st).st);
        if rr.Val? { BinaryInRange(op, Eval(l, st).v, rr.v); }
      }
    case AndAlso(l, r) =>
      SmallInRange();
      EvalSteady(l, t, st);
      if Eval(l, st).Val? { EvalThenSteady(r, t, st, Eval(l, st).st); }
    case OrElse(l, r) =>
      SmallInRange();
      EvalSteady(l, t, st);
      if Eval(l, st).Val? { EvalThenSteady(r, t, st, Eval(l, st).st); }
    case Cond(c, y, n) =>
      EvalSteady(c, t, st);
      if Eval(c, st).Val? {
        EvalThenSteady(y, t, st, Eval(c, st).st);
        EvalThenSteady(n, t, st, Eval(c, st).st);
      }
    case Cast(to, a) =>
      EvalSteady(a, t, st);
      if Eval(a, st).Val? { ConvertInRange(Eval(a, st).v, to); }
    case Assign(x, a) =>
      EvalSteady(a, t, st);
      if Eval(e, st).Val? {
        SteadySize(st, Eval(a, st).st, t);
        SetSteady(Eval(a, st).st, x, Eval(a, st).v, t);
        SteadyTrans(st, Eval(a, st).st, Eval(e, st).st, t, |st|);
      }
  }

  lemma EvalThenSteady(e: Expr, t: Table, st: Store, st1: Store)
    requires LitsOk(e) && SparesConsts(e, t) && AllOk(st1) && Steady(st, st1, t, |st|)
    ensures var r := Eval(e, st1); r.Val? ==> Steady(st, r.st, t, |st|) && AllOk(r.st) && Long64(r.v)
    decreases e, 1
  {
    EvalSteady(e, t, st1);
    if Eval(e, st1).Val? { SteadyTrans(st, st1, Eval(e, st1).st, t, |st|); }
  }

  lemma SteadySelf(st: Store, t: Table)
    ensures Steady(st, st, t, |st|)
  {
  }

  lemma SteadySize(st: Store, st': Store, t: Table)
    requires Steady(st, st', t, |st|)
    ensures |st'| == |st|
  {
  }
}
