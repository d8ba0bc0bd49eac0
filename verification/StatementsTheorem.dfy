/** The correctness theorem for optimize_stmt over control flow. */
module StatementsTheorem {
  import opened Options
  import opened Stores
  import opened Optimizer
  import opened OptimizerCorrect
  import opened Statements
  import opened StatementsOk
  import opened StoreRelation
  import opened StatementsCorrect

  // ---------------------------------------------------------------- outcomes

  predicate HasStore(o: Out) {
    !o.Timeout? && !o.Stuck?
  }

  ghost predicate SameShape(o: Out, o': Out) {
    match o
    case Normal(_) => o'.Normal?
    case Broke(_) => o'.Broke?
    case Continued(_) => o'.Continued?
    case Returned(v, _) => o'.Returned? && o'.v == v
    case Timeout => o'.Timeout?
    case Stuck => true
  }

  /** The same outcome in corresponding stores, the first k scopes steady; anything where the source is stuck. */
  ghost predicate Match(o: Out, o': Out, st: Store, t: Table, gone: seq<set<string>>, k: nat) {
    SameShape(o, o') && (HasStore(o) ==> Rel(o.st, o'.st, gone) && AllOk(o.st) && Steady(st, o.st, t, k))
  }

  lemma MatchFrom(o: Out, o': Out, st: Store, st1: Store, t: Table, gone: seq<set<string>>, k: nat)
    requires Match(o, o', st1, t, gone, k) && Steady(st, st1, t, k)
    ensures Match(o, o', st, t, gone, k)
  {
    hide Rel, AllOk, Steady;
    if HasStore(o) { SteadyTrans(st, st1, o.st, t, k); }
  }

  lemma MatchLess(o: Out, o': Out, st: Store, t: Table, gone: seq<set<string>>, k: nat, m: nat)
    requires Match(o, o', st, t, gone, k) && m <= k
    ensures Match(o, o', st, t, gone, m)
  {
    hide Rel, AllOk;
  }

  lemma MatchTable(o: Out, o': Out, st: Store, t: Table, t1: Table, gone: seq<set<string>>, k: nat)
    requires Match(o, o', st, t1, gone, k)
    requires forall x :: Lookup(t, x).Some? ==> Lookup(t1, x).Some?
    ensures Match(o, o', st, t, gone, k)
  {
    hide Rel, AllOk;
  }

  lemma MatchSelf(st: Store, st': Store, t: Table, gone: seq<set<string>>, vis: set<string>)
    requires Inv(st, st', t, gone, vis)
    ensures Rel(st, st', gone) && AllOk(st) && Steady(st, st, t, |st|)
  {
  }

  lemma MatchInv(o: Out, o': Out, st: Store, st': Store, t: Table, gone: seq<set<string>>, vis: set<string>)
    requires Inv(st, st', t, gone, vis) && Match(o, o', st, t, gone, |st|) && HasStore(o)
    ensures Inv(o.st, o'.st, t, gone, vis)
  {
    hide Rel, AllOk, Steady, Agrees, TableOk, Visible;
    InvKept(st, st', t, gone, vis, o.st, o'.st);
  }

  // ---------------------------------------------------------------- scopes

  lemma EnterInv(st: Store, st': Store, t: Table, t1: Table, gone: seq<set<string>>, vis: set<string>, f: Frame, f': Frame, g: set<string>, vis1: set<string>)
    requires Inv(st, st', t, gone, vis) && vis <= vis1 && f.Keys <= vis1 && TableOk(t1)
    requires forall x :: x in f ==> f[x].None?
    requires forall x :: Lookup(t1, x).Some? ==> x in f || Lookup(t1, x) == Lookup(t, x)
    requires forall x :: x in f && x !in g ==> x in f' && f'[x] == f[x]
    requires forall x :: x in f' && x in vis ==> x in f
    ensures Inv(Enter(st, f), Enter(st', f'), t1, gone + [g], vis1)
  {
    RelEnter(st, st', gone, f, f', g);
    var r := Enter(st, f);
    assert AllOk(r) by {
      forall i, x | 0 <= i < |r| && x in r[i] && r[i][x].Some? ensures Long64(r[i][x].value) {
        if i < |st| { assert r[i] == st[i]; }
      }
    }
    assert Visible(r, vis1) by {
      forall i, x | 0 <= i < |r| && x in r[i] ensures x in vis1 {
        if i < |st| { assert r[i] == st[i]; } else { assert x in f.Keys; }
      }
    }
    forall x | Lookup(t1, x).Some? ensures Find(r, x).Some? && (Get(r, x).Some? ==> Get(r, x) == Lookup(t1, x)) {
      assert r[..|st|] == st;
    }
  }

  lemma EnterEmpty(st: Store, st': Store, t: Table, gone: seq<set<string>>, vis: set<string>)
    requires Inv(st, st', t, gone, vis)
    ensures Inv(Enter(st, map[]), Enter(st', map[]), t, gone + [{}], vis)
  {
    TableHeld(st, st', t, gone, vis);
    EnterInv(st, st', t, t, gone, vis, map[], map[], {}, vis);
  }

  lemma ClearEnter(names: set<string>, gone: seq<set<string>>, g: set<string>)
    requires Clear(names, gone) && names !! g
    ensures Clear(names, gone + [g])
  {
  }

  lemma LeaveStore(st: Store, f: Frame, st1: Store, st1': Store, t: Table, gone: seq<set<string>>, g: set<string>)
    requires Rel(st1, st1', gone + [g]) && AllOk(st1) && Steady(Enter(st, f), st1, t, |st|)
    ensures st1 != [] && st1' != []
    ensures Rel(st1[..|st1| - 1], st1'[..|st1'| - 1], gone) && AllOk(st1[..|st1| - 1]) && Steady(st, st1[..|st1| - 1], t, |st|)
  {
    RelLeave(st1, st1', gone, g);
    var r := st1[..|st1| - 1];
    assert forall i :: 0 <= i < |st| ==> r[i] == st1[i] && Enter(st, f)[i] == st[i];
  }

  lemma LeaveMatch(o: Out, o': Out, st: Store, f: Frame, t: Table, gone: seq<set<string>>, g: set<string>)
    requires Match(o, o', Enter(st, f), t, gone + [g], |st|)
    ensures Match(Leave(o), Leave(o'), st, t, gone, |st|)
  {
    hide Rel, AllOk, Steady;
    if HasStore(o) { LeaveStore(st, f, o.st, o'.st, t, gone, g); }
  }

  // ---------------------------------------------------------------- for loops

  lemma {:induction false} EvalKeys(e: Expr, st: Store)
    ensures var r := Eval(e, st); r.Val? ==> SameKeys(st, r.st)
    decreases e
  {
    match e
    case Lit(_) =>
    case Ref(_) =>
    case Unary(_, a) => EvalKeys(a, st);
    case Binary(_, l, r) => EvalKeys(l, st); if Eval(l, st).Val? { EvalKeys(r, Eval(l, st).st); }
    case AndAlso(l, r) => EvalKeys(l, st); if Eval(l, st).Val? { EvalKeys(r, Eval(l, st).st); }
    case OrElse(l, r) => EvalKeys(l, st); if Eval(l, st).Val? { EvalKeys(r, Eval(l, st).st); }
    case Cond(c, y, n) => EvalKeys(c, st); if Eval(c, st).Val? { EvalKeys(y, Eval(c, st).st); EvalKeys(n, Eval(c, st).st); }
    case Cast(_, a) => EvalKeys(a, st);
    case Assign(x, a) =>
      EvalKeys(a, st);
      if Eval(e, st).Val? {
        var m := Eval(a, st).st;
        var i := Find(m, x).value;
        assert x in m[i].Keys;
        assert Set(m, x, Eval(a, st).v)[i].Keys == m[i].Keys + {x};
      }
  }

  ghost predicate SameKeys(st: Store, st1: Store) {
    |st| == |st1| && forall i :: 0 <= i < |st| ==> st1[i].Keys == st[i].Keys
  }

  /** Declarations add names only to the innermost scope. */
  ghost predicate AddsOnly(st: Store, st1: Store, names: set<string>) {
    |st| == |st1| > 0 && st1[|st| - 1].Keys <= st[|st| - 1].Keys + names
  }

  lemma DeclKeys(d: Declarator, st: Store)
    ensures var o := ExecDecl(d, st); o.Normal? ==> AddsOnly(st, o.st, {d.x})
  {
    hide Eval;
    if d.init.Some? { EvalKeys(d.init.value, st); }
  }

  lemma {:induction false} DeclsKeys(ds: seq<Declarator>, st: Store)
    requires st != []
    ensures var o := ExecDecls(ds, st); o.Normal? ==> AddsOnly(st, o.st, Declared(DeclList(ds)))
    decreases |ds|
  {
    hide ExecDecl;
    if ds != [] {
      DeclKeys(ds[0], st);
      var o := ExecDecl(ds[0], st);
      if o.Normal? {
        DeclsKeys(ds[1..], o.st);
        DeclaredCons(ds);
      }
    }
  }

  lemma InitKeys(i: Init, st: Store)
    requires st != []
    ensures var o := ExecInit(i, st); o.Normal? ==> AddsOnly(st, o.st, InitNames(i))
  {
    hide Eval, ExecDecl, ExecDecls;
    match i
    case NoInit =>
    case InitExpr(e) => EvalKeys(e, st);
    case InitDecl(Decl(d)) => DeclKeys(d, st);
    case InitDecl(DeclList(ds)) => DeclsKeys(ds, st);
    case InitDecl(_) =>
  }

  lemma InitCorrect(i: Init, t: Table, st: Store, st': Store, gone: seq<set<string>>, vis: set<string>)
    requires Inv(st, st', t, gone, vis) && InitOk(i, t) && OptInit(i, t).Some? && Clear(NamesInit(i), gone)
    ensures OptInit(i, t).value.t == t && InitNames(OptInit(i, t).value.init) == InitNames(i)
    ensures Declares1(ExecInit(i, st), ExecInit(OptInit(i, t).value.init, st'), st, t, t, gone, vis + InitNames(i))
  {
    hide Inv, Clear, SoundIn, Lookup, Steady, Optimize, Eval, OptOperands;
    StoreSize(st, st', t, gone, vis);
    InvMore(st, st', t, gone, vis, vis + InitNames(i));
    match i
    case NoInit => SteadyUpTo(st, t, |st| - 1);
    case InitExpr(e) =>
      OperandsCorrect(e, t, st, st', gone, vis);
      var r, r' := Eval(e, st), Eval(OptOperands(e, t).value, st');
      if r.Val? {
        SteadyLess(st, r.st, t, |st|, |st| - 1);
        InvMore(r.st, r'.st, t, gone, vis, vis + InitNames(i));
      }
    case InitDecl(Decl(d)) =>
      assert d in [d];
      ClearLess(NamesDecl(d), NamesInit(i), gone);
      PlainDeclCorrect(d, t, st, st', gone, vis);
    case InitDecl(DeclList(ds)) =>
      DeclsCorrect(ds, t, st, st', gone, vis);
      OptDeclsNames(ds, t);
  }

  /** The names that a removed loop leaves behind hide nothing. */
  lemma MergeRel(st: Store, st1: Store, st1': Store, t: Table, gone: seq<set<string>>, vis: set<string>, names: set<string>)
    requires st != [] && Visible(st, vis) && names !! vis
    requires Rel(st1, st1', gone + [{}]) && Steady(Enter(st, map[]), st1, t, |st|) && |st1'| == |st| + 1
    requires st1'[|st|].Keys <= names
    ensures Rel(st1[..|st|], Merge(st1'), gone)
  {
    var a, low := st1[..|st|], st1'[..|st|];
    RelLeave(st1, st1', gone, {});
    forall i, x | 0 <= i < |st| && x in a[i] ensures x in vis {
      assert x in st1[i].Keys && st1[i].Keys == Enter(st, map[])[i].Keys;
      assert Enter(st, map[])[i] == st[i];
      assert x in st[i];
    }
    assert Visible(a, vis);
    AddsNew(a, low, gone, vis, st1'[|st|], names);
    assert st1'[..|st| - 1] == low[..|st| - 1];
  }

  /** New names in the innermost scope hide nothing. */
  lemma AddsNew(a: Store, low: Store, gone: seq<set<string>>, vis: set<string>, f: Frame, names: set<string>)
    requires a != [] && Rel(a, low, gone) && Visible(a, vis) && names !! vis && f.Keys <= names
    ensures Rel(a, low[..|low| - 1] + [low[|low| - 1] + f], gone)
  {
    var n := |low| - 1;
    var b := low[..n] + [low[n] + f];
    assert forall x :: x in f ==> x in f.Keys && x !in vis;
    assert forall i :: 0 <= i < n ==> b[i] == low[i];
    assert b[n] == low[n] + f;
  }

  lemma MergeEmpty(st: Store)
    requires st != []
    ensures Merge(Enter(st, map[])) == st
  {
    var n := |st| - 1;
    assert st[n] + map[] == st[n];
    assert Enter(st, map[])[..n] == st[..n];
    assert st == st[..n] + [st[n]];
  }

  // ---------------------------------------------------------------- the table and labels

  /** Only declarations record consts. */
  lemma {:induction false} TableSame(s: Stmt, t: Table, vis: set<string>)
    requires StmtOk(s, t, vis) && !Declares(s) && Opt(s, t).Some?
    ensures Opt(s, t).value.t == t
    decreases s
  {
    hide Optimize, SoundIn, OptMaybe, OptSeq, SeqOk;
    match s
    case If(c, y, n) => TableSame(y, t, vis); if n.Some? { TableSame(n.value, t, vis); }
    case While(_, b) => TableSame(b, t, vis);
    case DoWhile(b, _) => TableSame(b, t, vis);
    case For(i, _, _, b) =>
      InitTable(i, t);
      TableSame(b, t, vis + InitNames(i));
    case Switch(_, b) =>
    case Label(_, b) => TableSame(b, t, vis);
    case _ =>
  }

  lemma InitTable(i: Init, t: Table)
    requires InitOk(i, t) && OptInit(i, t).Some?
    ensures OptInit(i, t).value.t == t
    ensures InitNames(OptInit(i, t).value.init) == InitNames(i)
  {
    hide ExprOk, OptMaybe, OptOperands, PlainDecls;
    if i.InitDecl? && i.decl.DeclList? { OptDeclsNames(i.decl.ds, t); }
  }

  /** Optimisation makes no label, and what a loop leaves behind is new. */
  lemma {:induction false} NewNames(s: Stmt, t: Table, vis: set<string>)
    requires StmtOk(s, t, vis) && !Declares(s) && Opt(s, t).Some?
    ensures Declared(Opt(s, t).value.s) !! vis
    ensures !s.Label? ==> !Opt(s, t).value.s.Label?
    decreases s
  {
    TableSame(s, t, vis);
    hide Optimize, SoundIn, OptSeq, SeqOk;
    match s
    case If(c, y, n) =>
      NewNames(y, t, vis);
      TableSame(y, t, vis);
      if n.Some? { NewNames(n.value, t, vis); }
    case For(i, c, _, b) => InitTable(i, t);
    case _ =>
  }

  lemma {:induction false} LabelsKept(s: Stmt, t: Table, vis: set<string>, l: CaseLabel)
    requires StmtOk(s, t, vis) && Opt(s, t).Some?
    ensures Labelled(Opt(s, t).value.s, l) <==> Labelled(s, l)
    decreases s
  {
    if s.Label? {
      LabelsKept(s.s, t, vis, l);
    } else if !Declares(s) {
      NewNames(s, t, vis);
    }
  }

  // ---------------------------------------------------------------- entering a switch

  lemma {:induction false} DeclaredAppend(a: seq<Stmt>, b: seq<Stmt>)
    ensures DeclaredIn(a + b) == DeclaredIn(a) + DeclaredIn(b)
    decreases |a|
  {
    if a == [] {
      assert a + b == b;
    } else {
      assert (a + b)[1..] == a[1..] + b;
      DeclaredAppend(a[1..], b);
    }
  }

  lemma {:induction false} MentionsSuffix(ss: seq<Stmt>, k: nat)
    requires k <= |ss|
    ensures MentionsIn(ss[k..]) <= MentionsIn(ss)
    decreases k
  {
    if k > 0 {
      MentionsSuffix(ss[1..], k - 1);
      assert ss[1..][k - 1..] == ss[k..];
    } else {
      assert ss[k..] == ss;
    }
  }

  /** No label stands among the dropped siblings. */
  lemma {:induction false} PositionDrop(rest: seq<Stmt>, l: CaseLabel)
    ensures |DropDead(rest)| <= |rest|
    ensures Position(rest, l) == |rest| - |DropDead(rest)| + Position(DropDead(rest), l)
    decreases |rest|
  {
    if rest != [] && !rest[0].Label? { PositionDrop(rest[1..], l); }
  }

  lemma LivePosition(s: Stmt, rest: seq<Stmt>, l: CaseLabel)
    ensures rest == Gone(s, rest) + Live(s, rest)
    ensures Position(rest, l) == |Gone(s, rest)| + Position(Live(s, rest), l)
  {
    PositionDrop(rest, l);
    hide Position, DropDead;
    var live := Live(s, rest);
    assert rest == rest[..|rest| - |live|] + rest[|rest| - |live|..];
    assert !Terminal(s) ==> |live| == |rest|;
  }

  /** A label is where it was, relative to the statements that are left. */
  ghost predicate Entered(ss: seq<Stmt>, t: Table, vis: set<string>, l: CaseLabel, tk: Table, visk: set<string>) {
    OptSeq(ss, t).Some? &&
    var ss', k := OptSeq(ss, t).value, Position(ss, l);
    var k' := Position(ss', l);
    && k' < |ss'| && SeqOk(ss[k..], tk, visk, true) && OptSeq(ss[k..], tk) == Some(ss'[k'..])
    && vis <= visk && DeclaredIn(ss[..k]) <= visk && TableOk(tk)
    && DeclaredIn(ss[..k]) - DeclaredIn(ss'[..k']) !! MentionsIn(ss[k..])
    && DeclaredIn(ss'[..k']) - DeclaredIn(ss[..k]) !! vis
    && (forall x :: Lookup(tk, x).Some? ==> x in DeclaredIn(ss[..k]) || Lookup(tk, x) == Lookup(t, x))
    && (forall x :: Lookup(t, x).Some? ==> Lookup(tk, x).Some?)
  }

  lemma HeadTable(s: Stmt, t: Table, vis: set<string>)
    requires StmtOk(s, t, vis) && Opt(s, t).Some? && TableOk(t)
    ensures var t1 := Opt(s, t).value.t; TableOk(t1) && forall x :: x !in Declared(s) ==> Lookup(t1, x) == Lookup(t, x)
    ensures forall x :: Lookup(t, x).Some? ==> Lookup(Opt(s, t).value.t, x).Some?
    ensures Declares(s) ==> Declared(Opt(s, t).value.s) == Declared(s) && Declares(Opt(s, t).value.s)
    ensures !Declares(s) ==> Declared(s) == {} && Declared(Opt(s, t).value.s) !! vis
  {
    hide SoundIn, Optimize, TableOk, Lookup;
    if !Declares(s) {
      TableSame(s, t, vis);
      NewNames(s, t, vis);
    } else if s.DeclList? {
      OptDeclsNames(s.ds, t);
    } else {
      var d := s.d;
      var t1 := Opt(s, t).value.t;
      if t1 != t {
        var v := OptMaybe(d.init, t).value.value.v;
        forall y ensures Lookup(t1, y) == if y == d.x then Some(v) else Lookup(t, y) { LookupPush(t, d.x, v, y); }
        RecordedInRange(d, t);
        RecordOk(t, d.x, v);
      }
    }
  }

  lemma RecordedInRange(d: Declarator, t: Table)
    requires TableOk(t) && MaybeOk(d.init, t) && OptMaybe(d.init, t).Some? && Recorded(d, OptMaybe(d.init, t).value, t)
    ensures Long64(OptMaybe(d.init, t).value.value.v)
  {
    hide Long64, TableOk, SparesConsts, Optimize, DropsOnlyPure;
    OptimizedTidy(d.init.value, t);
  }

  lemma {:induction false} EntryOpt(ss: seq<Stmt>, t: Table, vis: set<string>, l: CaseLabel) returns (tk: Table, visk: set<string>)
    requires SeqOk(ss, t, vis, true) && OptSeq(ss, t).Some? && Position(ss, l) < |ss| && TableOk(t)
    ensures Entered(ss, t, vis, l, tk, visk)
    decreases |ss|
  {
    hide Entered, MentionsIn, Opt, StmtOk, TableOk;
    var s, rest := ss[0], ss[1..];
    LabelsKept(s, t, vis, l);
    if Labelled(s, l) {
      tk, visk := t, vis;
      EnterHere(ss, t, vis, l);
    } else {
      var o := Opt(s, t).value;
      LivePosition(o.s, rest, l);
      HeadTable(s, t, vis);
      tk, visk := EntryOpt(Live(o.s, rest), o.t, vis + Declared(s) + DeclaredIn(Gone(o.s, rest)), l);
      EnterLater(ss, t, vis, l, tk, visk);
    }
  }

  lemma EnterHere(ss: seq<Stmt>, t: Table, vis: set<string>, l: CaseLabel)
    requires SeqOk(ss, t, vis, true) && OptSeq(ss, t).Some? && ss != [] && TableOk(t)
    requires Labelled(ss[0], l) && Labelled(Opt(ss[0], t).value.s, l)
    ensures Entered(ss, t, vis, l, t, vis)
  {
    hide SeqOk, StmtOk, Opt, TableOk, Lookup, OptSeq, Position, Live, DeclaredIn, MentionsIn, Labelled;
    OptSeqCons(ss, t);
    HereAtZero(ss, l);
    var ss' := OptSeq(ss, t).value;
    HereAtZero(ss', l);
    DeclaredNone();
    assert ss[0..] == ss && ss'[0..] == ss' && ss[..0] == [] && ss'[..0] == [];
  }

  lemma HereAtZero(ss: seq<Stmt>, l: CaseLabel)
    requires ss != [] && Labelled(ss[0], l)
    ensures Position(ss, l) == 0
  {
  }

  lemma EnterLater(ss: seq<Stmt>, t: Table, vis: set<string>, l: CaseLabel, tk: Table, visk: set<string>)
    requires SeqOk(ss, t, vis, true) && OptSeq(ss, t).Some? && ss != [] && TableOk(t)
    requires !Labelled(ss[0], l) && !Labelled(Opt(ss[0], t).value.s, l)
    requires var o := Opt(ss[0], t).value;
      Entered(Live(o.s, ss[1..]), o.t, vis + Declared(ss[0]) + DeclaredIn(Gone(o.s, ss[1..])), l, tk, visk)
    ensures Entered(ss, t, vis, l, tk, visk)
  {
    hide SeqOk, StmtOk, Opt, TableOk, Lookup, Live, Gone, OptSeq, Position, DeclaredIn, MentionsIn, Labelled, Declared, SeqTail;
    HeadOk(ss, t, vis);
    var s, rest, o, ss' := ss[0], ss[1..], Opt(ss[0], t).value, OptSeq(ss, t).value;
    var live, gone := Live(o.s, rest), Gone(o.s, rest);
    HeadTable(s, t, vis);
    var live' := OptSeq(live, o.t).value;
    var kl, kl' := Position(live, l), Position(live', l);
    EnterParts(ss, t, vis, l);
    Splits(s, gone, live, kl);
    Splits(o.s, [], live', kl');
    DeclaredNone();
    MentionsSuffix(live, kl);
    assert [o.s] + [] + live' == ss';
    assert DeclaredIn(gone) !! MentionsIn(live[kl..]);
    var k := Position(ss, l);
    assert ss[k..] == live[kl..];
    var k' := Position(ss', l);
    assert DeclaredIn(ss'[..k']) == Declared(o.s) + DeclaredIn(live'[..kl']);
  }

  lemma HeadOk(ss: seq<Stmt>, t: Table, vis: set<string>)
    requires SeqOk(ss, t, vis, true) && ss != []
    ensures StmtOk(ss[0], t, vis) && Opt(ss[0], t).Some? && SeqTail(ss, t, vis)
  {
  }

  lemma EnterParts(ss: seq<Stmt>, t: Table, vis: set<string>, l: CaseLabel)
    requires SeqOk(ss, t, vis, true) && OptSeq(ss, t).Some? && ss != []
    requires !Labelled(ss[0], l) && Opt(ss[0], t).Some? && !Labelled(Opt(ss[0], t).value.s, l)
    ensures var o := Opt(ss[0], t).value;
      var live, gone := Live(o.s, ss[1..]), Gone(o.s, ss[1..]);
      && ss == [ss[0]] + gone + live && OptSeq(live, o.t).Some?
      && Position(ss, l) == 1 + |gone| + Position(live, l)
      && OptSeq(ss, t).value == [o.s] + OptSeq(live, o.t).value
      && Position(OptSeq(ss, t).value, l) == 1 + Position(OptSeq(live, o.t).value, l)
      && DeclaredIn(gone) !! MentionsIn(live)
  {
    hide SeqOk, StmtOk, Opt, Live, Gone, OptSeq, Position, DeclaredIn, MentionsIn, Labelled;
    HeadOk(ss, t, vis);
    OptSeqCons(ss, t);
    var o := Opt(ss[0], t).value;
    LivePosition(o.s, ss[1..], l);
    PositionCons(ss[0], ss[1..], l);
    PositionCons(o.s, OptSeq(Live(o.s, ss[1..]), o.t).value, l);
    assert ss == [ss[0]] + ss[1..];
  }

  lemma OptSeqCons(ss: seq<Stmt>, t: Table)
    requires ss != [] && OptSeq(ss, t).Some?
    ensures Opt(ss[0], t).Some?
    ensures OptSeq(Live(Opt(ss[0], t).value.s, ss[1..]), Opt(ss[0], t).value.t).Some?
    ensures OptSeq(ss, t).value == [Opt(ss[0], t).value.s] + OptSeq(Live(Opt(ss[0], t).value.s, ss[1..]), Opt(ss[0], t).value.t).value
  {
    hide Opt, Live;
  }

  lemma PositionCons(s: Stmt, rest: seq<Stmt>, l: CaseLabel)
    requires !Labelled(s, l)
    ensures Position([s] + rest, l) == 1 + Position(rest, l)
  {
    assert ([s] + rest)[1..] == rest;
  }

  lemma Splits(s: Stmt, gone: seq<Stmt>, live: seq<Stmt>, kl: nat)
    requires kl <= |live|
    ensures var ss := [s] + gone + live; ss[1 + |gone| + kl..] == live[kl..]
    ensures DeclaredIn(([s] + gone + live)[..1 + |gone| + kl]) == Declared(s) + DeclaredIn(gone) + DeclaredIn(live[..kl])
  {
    hide DeclaredIn;
    var ss := [s] + gone + live;
    assert ss[1 + |gone| + kl..] == live[kl..];
    assert ss[..1 + |gone| + kl] == [s] + gone + live[..kl];
    DeclaredAppend([s] + gone, live[..kl]);
    DeclaredAppend([s], gone);
    DeclaredOne(s);
  }

  lemma DeclaredNone()
    ensures DeclaredIn([]) == {}
  {
  }

  ghost predicate SeqTail(ss: seq<Stmt>, t: Table, vis: set<string>) {
    ss != [] && Opt(ss[0], t).Some? &&
    DeclaredIn(Gone(Opt(ss[0], t).value.s, ss[1..])) !! MentionsIn(Live(Opt(ss[0], t).value.s, ss[1..]))
  }

  lemma DeclaredOne(s: Stmt)
    ensures DeclaredIn([s]) == Declared(s)
  {
  }

  lemma {:induction false} NoEntryOpt(ss: seq<Stmt>, t: Table, vis: set<string>, l: CaseLabel)
    requires SeqOk(ss, t, vis, true) && OptSeq(ss, t).Some? && Position(ss, l) == |ss|
    ensures Position(OptSeq(ss, t).value, l) == |OptSeq(ss, t).value|
    decreases |ss|
  {
    hide MentionsIn, Opt, StmtOk;
    if ss != [] {
      var s, rest := ss[0], ss[1..];
      LabelsKept(s, t, vis, l);
      var o := Opt(s, t).value;
      LivePosition(o.s, rest, l);
      NoEntryOpt(Live(o.s, rest), o.t, vis + Declared(s) + DeclaredIn(Gone(o.s, rest)), l);
      assert OptSeq(ss, t).value[1..] == OptSeq(Live(o.s, rest), o.t).value;
    }
  }
}
