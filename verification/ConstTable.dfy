/** The const table is right at every point of every execution (src/optimize.c:43-78, 579-593, 729-746). */
module ConstTable {
  import opened Options
  import opened Stores
  import opened Optimizer
  import opened OptimizerCorrect
  import opened Statements
  import opened StatementsOk
  import opened StoreRelation
  import opened StatementsCorrect
  import opened StatementsTheorem
  import opened StatementsMain

  /** An expression evaluated at run time, with the table that was current when it was optimised. */
  datatype Visit = Visit(e: Expr, t: Table, st: Store)

  /** Every literal put in for a name is the value of the variable, if it has one. */
  ghost predicate Right(v: Visit) {
    forall x :: Lookup(v.t, x).Some? ==> Find(v.st, x).Some? && (Get(v.st, x).Some? ==> Get(v.st, x) == Lookup(v.t, x))
  }

  ghost predicate AllRight(vs: seq<Visit>) {
    forall v :: v in vs ==> Right(v)
  }

  function After(s: Stmt, t: Table): Table {
    if Opt(s, t).Some? then Opt(s, t).value.t else t
  }

  function VisitMaybe(e: Option<Expr>, t: Table, st: Store): seq<Visit> {
    if e.Some? then [Visit(e.value, t, st)] else []
  }

  function VisitDecls(ds: seq<Declarator>, t: Table, st: Store): seq<Visit> {
    if ds == [] then []
    else
      VisitMaybe(ds[0].init, t, st) +
      match ExecDecl(ds[0], st)
      case Normal(st') => VisitDecls(ds[1..], t, st')
      case _ => []
  }

  function VisitInit(i: Init, t: Table, st: Store): seq<Visit> {
    match i
    case NoInit => []
    case InitExpr(e) => [Visit(e, t, st)]
    case InitDecl(Decl(d)) => VisitMaybe(d.init, t, st)
    case InitDecl(DeclList(ds)) => VisitDecls(ds, t, st)
    case InitDecl(_) => []
  }

  /** The table at a label: that of the statements that are kept before it. */
  function TableAt(ss: seq<Stmt>, t: Table, l: CaseLabel): Table
    decreases |ss|
  {
    if ss == [] || Labelled(ss[0], l) then t
    else
      var o := Opt(ss[0], t);
      if o.None? then t else TableAt(Live(o.value.s, ss[1..]), o.value.t, l)
  }

  function EntryLabel(ss: seq<Stmt>, v: int): CaseLabel {
    if Position(ss, Case(v)) < |ss| then Case(v) else Default
  }

  /** Every expression that an execution evaluates, in order. */
  function Trace(s: Stmt, t: Table, st: Store, n: nat): seq<Visit>
    decreases n, s, 1
  {
    match s
    case Block(ss) => TraceSeq(ss, t, Enter(st, map[]), n)
    case If(c, y, m) =>
      var r := Eval(c, st);
      [Visit(c, t, st)] +
      if !r.Val? then []
      else if r.v != 0 then Trace(y, t, r.st, n)
      else if m.Some? then Trace(m.value, After(y, t), r.st, n)
      else []
    case While(c, b) =>
      var r := Eval(c, st);
      [Visit(c, t, st)] +
      if !r.Val? || r.v == 0 || n == 0 then []
      else
        Trace(b, t, r.st, n) +
        (match Exec(b, r.st, n)
         case Normal(st') => Trace(s, t, st', n - 1)
         case Continued(st') => Trace(s, t, st', n - 1)
         case _ => [])
    case DoWhile(b, c) =>
      Trace(b, t, st, n) +
      (match Exec(b, st, n)
       case Normal(st') => TraceAgain(s, t, st', n)
       case Continued(st') => TraceAgain(s, t, st', n)
       case _ => [])
    case For(i, _, _, _) =>
      VisitInit(i, t, Enter(st, map[])) +
      (match ExecInit(i, Enter(st, map[]))
       case Normal(st') => TraceLoop(s, if OptInit(i, t).Some? then OptInit(i, t).value.t else t, st', n)
       case _ => [])
    case Switch(c, b) =>
      var r := Eval(c, st);
      [Visit(c, t, st)] +
      if !r.Val? || !b.Block? then []
      else
        var k := Entry(b.ss, r.v);
        if k == |b.ss| then []
        else TraceSeq(b.ss[k..], TableAt(b.ss, t, EntryLabel(b.ss, r.v)), Enter(r.st, Skipped(b.ss[..k])), n)
    case Label(_, b) => Trace(b, t, st, n)
    case Return(e) => VisitMaybe(e, t, st)
    case ExprStmt(e) => [Visit(e, t, st)]
    case Decl(d) => VisitMaybe(d.init, t, st)
    case DeclList(ds) => VisitDecls(ds, t, st)
    case _ => []
  }

  function TraceSeq(ss: seq<Stmt>, t: Table, st: Store, n: nat): seq<Visit>
    decreases n, ss, 0
  {
    if ss == [] then []
    else
      Trace(ss[0], t, st, n) +
      match Exec(ss[0], st, n)
      case Normal(st') => TraceSeq(ss[1..], After(ss[0], t), st', n)
      case _ => []
  }

  function TraceAgain(s: Stmt, t: Table, st: Store, n: nat): seq<Visit>
    requires s.DoWhile?
    decreases n, s, 0
  {
    var r := Eval(s.c, st);
    [Visit(s.c, After(s.body, t), st)] + if !r.Val? || r.v == 0 || n == 0 then [] else Trace(s, t, r.st, n - 1)
  }

  function TraceLoop(s: Stmt, t: Table, st: Store, n: nat): seq<Visit>
    requires s.For?
    decreases n, s, 0
  {
    var r := Test(s.cond, st);
    VisitMaybe(s.cond, t, st) +
    if !r.Val? || r.v == 0 || n == 0 then []
    else
      Trace(s.body, t, r.st, n) +
      match Exec(s.body, r.st, n)
      case Normal(st') => TraceNext(s, t, st', n)
      case Continued(st') => TraceNext(s, t, st', n)
      case _ => []
  }

  function TraceNext(s: Stmt, t: Table, st: Store, n: nat): seq<Visit>
    requires s.For? && n > 0
    decreases n - 1, s, 1
  {
    VisitMaybe(s.step, t, st) +
    match ExecExpr(s.step, st)
    case Normal(st') => TraceLoop(s, t, st', n - 1)
    case _ => []
  }

  // ---------------------------------------------------------------- the proof

  lemma AllRightJoin(a: seq<Visit>, b: seq<Visit>)
    requires AllRight(a) && AllRight(b)
    ensures AllRight(a + b)
  {
  }

  lemma InvRight(e: Expr, st: Store, st': Store, t: Table, gone: seq<set<string>>, vis: set<string>)
    requires Inv(st, st', t, gone, vis)
    ensures AllRight([Visit(e, t, st)]) && AllRight([])
  {
    assert Right(Visit(e, t, st));
  }

  lemma MaybeRight(e: Option<Expr>, st: Store, st': Store, t: Table, gone: seq<set<string>>, vis: set<string>)
    requires Inv(st, st', t, gone, vis)
    ensures AllRight(VisitMaybe(e, t, st)) && AllRight([])
  {
    if e.Some? { InvRight(e.value, st, st', t, gone, vis); }
  }

  lemma {:induction false} DeclsRight(ds: seq<Declarator>, t: Table, st: Store, st': Store, gone: seq<set<string>>, vis: set<string>)
    requires Inv(st, st', t, gone, vis) && PlainDecls(ds, t) && Clear(NamesDecls(ds), gone)
    ensures AllRight(VisitDecls(ds, t, st))
    decreases |ds|
  {
    hide Inv, Clear, ExecDecl, OptDeclarator, SoundIn, Lookup, AllRight;
    MaybeRight(None, st, st', t, gone, vis);
    if ds != [] {
      var d, rest := ds[0], ds[1..];
      assert d in ds;
      MaybeRight(d.init, st, st', t, gone, vis);
      ClearLess(NamesDecl(d), NamesDecls(ds), gone);
      ClearLess(NamesDecls(rest), NamesDecls(ds), gone);
      PlainDeclCorrect(d, t, st, st', gone, vis);
      var o, o' := ExecDecl(d, st), ExecDecl(OptDeclarator(d, t).value, st');
      if o.Normal? {
        DeclsRight(rest, t, o.st, o'.st, gone, vis + {d.x});
        AllRightJoin(VisitMaybe(d.init, t, st), VisitDecls(rest, t, o.st));
      } else {
        AllRightJoin(VisitMaybe(d.init, t, st), []);
      }
    }
  }

  lemma {:induction false} TraceRight(s: Stmt, t: Table, st: Store, st': Store, gone: seq<set<string>>, vis: set<string>, n: nat)
    requires Ready(s, t, st, st', gone, vis)
    ensures AllRight(Trace(s, t, st, n))
    decreases n, s, 2
  {
    hide Inv, Clear, SoundIn, Optimize, Eval, OptSeq, ExecSeq, SeqOk, AllRight;
    MaybeRight(None, st, st', t, gone, vis);
    match s
    case Block(ss) =>
      EnterEmpty(st, st', t, gone, vis);
      ClearEnter(MentionsIn(ss), gone, {});
      SeqRight(ss, t, Enter(st, map[]), Enter(st', map[]), gone + [{}], vis, false, n);
    case If(_, _, _) => IfRight(s, t, st, st', gone, vis, n);
    case While(_, _) => WhileRight(s, t, st, st', gone, vis, n);
    case DoWhile(_, _) => DoRight(s, t, st, st', gone, vis, n);
    case For(_, _, _, _) => ForRight(s, t, st, st', gone, vis, n);
    case Switch(_, _) => SwitchRight(s, t, st, st', gone, vis, n);
    case Label(_, b) => TraceRight(b, t, st, st', gone, vis, n);
    case Return(e) => MaybeRight(e, st, st', t, gone, vis);
    case ExprStmt(e) => InvRight(e, st, st', t, gone, vis);
    case _ =>
  }

  /** A declaration in a block. */
  lemma DeclRight(s: Stmt, t: Table, st: Store, st': Store, gone: seq<set<string>>, vis: set<string>, n: nat)
    requires Inv(st, st', t, gone, vis) && Declares(s) && StmtOk(s, t, vis) && Clear(Mentions(s), gone)
    ensures AllRight(Trace(s, t, st, n))
  {
    hide Inv, Clear, SoundIn, AllRight;
    match s
    case Decl(d) => MaybeRight(d.init, st, st', t, gone, vis);
    case DeclList(ds) => DeclsRight(ds, t, st, st', gone, vis);
  }

  lemma {:induction false} SeqRight(ss: seq<Stmt>, t: Table, st: Store, st': Store, gone: seq<set<string>>, vis: set<string>, inSwitch: bool, n: nat)
    requires Inv(st, st', t, gone, vis) && SeqOk(ss, t, vis, inSwitch) && OptSeq(ss, t).Some? && Clear(MentionsIn(ss), gone)
    ensures AllRight(TraceSeq(ss, t, st, n))
    decreases n, ss, 0
  {
    hide *;
    MaybeRight(None, st, st', t, gone, vis);
    if ss == [] {
      SeqNone(ss, t, st, n);
    } else {
      SeqParts(ss, t, vis, inSwitch, gone);
      OptSeqCons(ss, t);
      var s, o, rest := ss[0], Opt(ss[0], t).value, ss[1..];
      var p, p' := Exec(s, st, n), Exec(o.s, st', n);
      SeqCons(ss, t, st, n);
      if Declares(s) {
        DeclRight(s, t, st, st', gone, vis, n);
        DeclOut(s, t, st, st', gone, vis, n);
      } else {
        ReadyBy(s, t, st, st', gone, vis);
        TraceRight(s, t, st, st', gone, vis, n);
        StmtCorrect(s, t, st, st', gone, vis, n);
        StmtOut(s, t, st, st', gone, vis, n);
      }
      HandsOverView(s, t, st, st', gone, vis, n);
      if p.Normal? {
        LiveAll(o.s, rest);
        SeqRight(rest, o.t, p.st, p'.st, gone, vis + Declared(s), inSwitch, n);
        AllRightJoin(Trace(s, t, st, n), TraceSeq(rest, o.t, p.st, n));
      } else {
        AllRightJoin(Trace(s, t, st, n), []);
      }
    }
  }

  lemma SeqNone(ss: seq<Stmt>, t: Table, st: Store, n: nat)
    requires ss == []
    ensures TraceSeq(ss, t, st, n) == []
  {
    hide After, Exec, Trace;
  }

  lemma SeqCons(ss: seq<Stmt>, t: Table, st: Store, n: nat)
    requires ss != [] && Opt(ss[0], t).Some?
    ensures var p := Exec(ss[0], st, n);
      TraceSeq(ss, t, st, n) == Trace(ss[0], t, st, n) + if p.Normal? then TraceSeq(ss[1..], Opt(ss[0], t).value.t, p.st, n) else []
  {
    hide Exec, Trace, Opt;
  }

  lemma {:induction false} IfRight(s: Stmt, t: Table, st: Store, st': Store, gone: seq<set<string>>, vis: set<string>, n: nat)
    requires Ready(s, t, st, st', gone, vis) && s.If?
    ensures AllRight(Trace(s, t, st, n))
    decreases n, s, 1
  {
    hide Inv, Clear, Rel, StatementsOk.AllOk, Steady, SoundIn, Optimize, Eval, AllRight;
    ClearLess(NamesOf(s.c), Mentions(s), gone);
    ClearLess(Mentions(s.yes), Mentions(s), gone);
    InvRight(s.c, st, st', t, gone, vis);
    ExprOut(s.c, t, st, st', gone, vis);
    TableSame(s.yes, t, vis);
    var r, r' := Eval(s.c, st), Eval(Optimize(s.c, t).value, st');
    var first := [Visit(s.c, t, st)];
    AllRightJoin(first, []);
    if r.Val? && r.v != 0 {
      TraceRight(s.yes, t, r.st, r'.st, gone, vis, n);
      AllRightJoin(first, Trace(s.yes, t, r.st, n));
    } else if r.Val? && s.no.Some? {
      ClearLess(Mentions(s.no.value), Mentions(s), gone);
      TraceRight(s.no.value, t, r.st, r'.st, gone, vis, n);
      AllRightJoin(first, Trace(s.no.value, t, r.st, n));
    }
  }

  lemma {:induction false} WhileRight(s: Stmt, t: Table, st: Store, st': Store, gone: seq<set<string>>, vis: set<string>, n: nat)
    requires Ready(s, t, st, st', gone, vis) && s.While?
    ensures AllRight(Trace(s, t, st, n))
    decreases n, s, 1
  {
    hide Inv, Clear, Rel, StatementsOk.AllOk, Steady, SoundIn, Optimize, Eval, AllRight, Match;
    ClearLess(NamesOf(s.c), Mentions(s), gone);
    ClearLess(Mentions(s.body), Mentions(s), gone);
    InvRight(s.c, st, st', t, gone, vis);
    ExprOut(s.c, t, st, st', gone, vis);
    TableSame(s.body, t, vis);
    var r, r' := Eval(s.c, st), Eval(Optimize(s.c, t).value, st');
    var first := [Visit(s.c, t, st)];
    AllRightJoin(first, []);
    if r.Val? && r.v != 0 && n > 0 {
      TraceRight(s.body, t, r.st, r'.st, gone, vis, n);
      StmtCorrect(s.body, t, r.st, r'.st, gone, vis, n);
      var p, p' := Exec(s.body, r.st, n), Exec(Opt(s.body, t).value.s, r'.st, n);
      OutcomeView(p, p', r.st, r'.st, t, gone, vis);
      var b := Trace(s.body, t, r.st, n);
      AllRightJoin(b, []);
      if p.Normal? || p.Continued? {
        TraceRight(s, t, p.st, p'.st, gone, vis, n - 1);
        AllRightJoin(b, Trace(s, t, p.st, n - 1));
        AllRightJoin(first, b + Trace(s, t, p.st, n - 1));
      } else {
        AllRightJoin(first, b + []);
      }
    }
  }

  lemma {:induction false} DoRight(s: Stmt, t: Table, st: Store, st': Store, gone: seq<set<string>>, vis: set<string>, n: nat)
    requires Ready(s, t, st, st', gone, vis) && s.DoWhile?
    ensures AllRight(Trace(s, t, st, n))
    decreases n, s, 1
  {
    hide Inv, Clear, Rel, StatementsOk.AllOk, Steady, SoundIn, Optimize, Eval, AllRight, Match, TraceAgain;
    MaybeRight(None, st, st', t, gone, vis);
    ClearLess(Mentions(s.body), Mentions(s), gone);
    TraceRight(s.body, t, st, st', gone, vis, n);
    StmtCorrect(s.body, t, st, st', gone, vis, n);
    var p, p' := Exec(s.body, st, n), Exec(Opt(s.body, t).value.s, st', n);
    OutcomeView(p, p', st, st', t, gone, vis);
    var b := Trace(s.body, t, st, n);
    AllRightJoin(b, []);
    if p.Normal? || p.Continued? {
      AgainRight(s, t, p.st, p'.st, gone, vis, n);
      AllRightJoin(b, TraceAgain(s, t, p.st, n));
    }
  }

  lemma {:induction false} AgainRight(s: Stmt, t: Table, st: Store, st': Store, gone: seq<set<string>>, vis: set<string>, n: nat)
    requires Ready(s, t, st, st', gone, vis) && s.DoWhile?
    ensures AllRight(TraceAgain(s, t, st, n))
    decreases n, s, 0
  {
    hide Inv, Clear, Rel, StatementsOk.AllOk, Steady, SoundIn, Optimize, Eval, AllRight, Trace;
    ClearLess(NamesOf(s.c), Mentions(s), gone);
    TableSame(s.body, t, vis);
    InvRight(s.c, st, st', t, gone, vis);
    ExprOut(s.c, t, st, st', gone, vis);
    var r, r' := Eval(s.c, st), Eval(Optimize(s.c, t).value, st');
    var first := [Visit(s.c, t, st)];
    AllRightJoin(first, []);
    if r.Val? && r.v != 0 && n > 0 {
      TraceRight(s, t, r.st, r'.st, gone, vis, n - 1);
      AllRightJoin(first, Trace(s, t, r.st, n - 1));
    }
  }

  lemma InitRight(i: Init, t: Table, st: Store, st': Store, gone: seq<set<string>>, vis: set<string>)
    requires Inv(st, st', t, gone, vis) && InitOk(i, t) && Clear(NamesInit(i), gone)
    ensures AllRight(VisitInit(i, t, st))
  {
    hide Inv, Clear, SoundIn, AllRight, Optimize, OptOperands;
    MaybeRight(None, st, st', t, gone, vis);
    match i
    case NoInit =>
    case InitExpr(e) => InvRight(e, st, st', t, gone, vis);
    case InitDecl(Decl(d)) => MaybeRight(d.init, st, st', t, gone, vis);
    case InitDecl(DeclList(ds)) => DeclsRight(ds, t, st, st', gone, vis);
  }

  lemma {:induction false} ForRight(s: Stmt, t: Table, st: Store, st': Store, gone: seq<set<string>>, vis: set<string>, n: nat)
    requires Ready(s, t, st, st', gone, vis) && s.For?
    ensures AllRight(Trace(s, t, st, n))
    decreases n, s, 1
  {
    hide Inv, Clear, Rel, StatementsOk.AllOk, Steady, SoundIn, Optimize, Eval, Match, ForLoop, ExecInit, OptInit, OptMaybe, InitOk, Mentions, AllRight, TraceLoop, VisitInit;
    ForParts(s, t, vis, gone);
    StoreSize(st, st', t, gone, vis);
    var i, S0, T0 := s.init, Enter(st, map[]), Enter(st', map[]);
    EnterEmpty(st, st', t, gone, vis);
    InitCorrect(i, t, S0, T0, gone + [{}], vis);
    InitRight(i, t, S0, T0, gone + [{}], vis);
    MaybeRight(None, st, st', t, gone, vis);
    AllRightJoin(VisitInit(i, t, S0), []);
    var p, p' := ExecInit(i, S0), ExecInit(OptInit(i, t).value.init, T0);
    if p.Normal? {
      if OptMaybe(s.cond, t).value == Some(Lit(0)) {
        ZeroRight(s, t, p.st, p'.st, gone + [{}], vis + InitNames(i), n);
      } else {
        ForReady(s, t, p.st, p'.st, gone, vis);
        LoopRight(s, t, p.st, p'.st, gone + [{}], vis + InitNames(i), n);
      }
      AllRightJoin(VisitInit(i, t, S0), TraceLoop(s, t, p.st, n));
    }
  }

  /** A loop that never runs evaluates only its condition. */
  lemma ZeroRight(s: Stmt, t: Table, st: Store, st': Store, gone: seq<set<string>>, vis: set<string>, n: nat)
    requires s.For? && Inv(st, st', t, gone, vis) && MaybeOk(s.cond, t) && Clear(Mentions(s), gone) && OptMaybe(s.cond, t) == Some(Some(Lit(0)))
    ensures AllRight(TraceLoop(s, t, st, n))
  {
    hide Inv, Clear, SoundIn, Optimize, Eval, OptMaybe, AllRight, Trace;
    ClearLess(NamesMaybe(s.cond), Mentions(s), gone);
    MaybeOut(s.cond, t, st, st', gone, vis);
    MaybeRight(s.cond, st, st', t, gone, vis);
    AllRightJoin(VisitMaybe(s.cond, t, st), []);
  }

  lemma {:induction false} LoopRight(s: Stmt, t: Table, st: Store, st': Store, gone: seq<set<string>>, vis: set<string>, n: nat)
    requires LoopReady(s, t, st, st', gone, vis)
    ensures AllRight(TraceLoop(s, t, st, n))
    decreases n, s, 0
  {
    hide Inv, Clear, Rel, StatementsOk.AllOk, Steady, SoundIn, Optimize, Eval, Match, OptMaybe, StmtOk, Opt, Exec, TraceNext, Trace, Test, AllRight, VisitMaybe;
    var s' := Opt(s, t).value.s;
    MaybeOut(s.cond, t, st, st', gone, vis);
    MaybeRight(s.cond, st, st', t, gone, vis);
    var r, r' := Test(s.cond, st), Test(s'.cond, st');
    var first := VisitMaybe(s.cond, t, st);
    AllRightJoin(first, []);
    if r.Val? && r.v != 0 && n > 0 {
      ReadyBy(s.body, t, r.st, r'.st, gone, vis);
      TraceRight(s.body, t, r.st, r'.st, gone, vis, n);
      StmtCorrect(s.body, t, r.st, r'.st, gone, vis, n);
      var p, p' := Exec(s.body, r.st, n), Exec(s'.body, r'.st, n);
      OutcomeView(p, p', r.st, r'.st, t, gone, vis);
      var b := Trace(s.body, t, r.st, n);
      AllRightJoin(b, []);
      if p.Normal? || p.Continued? {
        NextRight(s, t, p.st, p'.st, gone, vis, n);
        AllRightJoin(b, TraceNext(s, t, p.st, n));
        AllRightJoin(first, b + TraceNext(s, t, p.st, n));
      } else {
        AllRightJoin(first, b + []);
      }
    }
  }

  lemma {:induction false} NextRight(s: Stmt, t: Table, st: Store, st': Store, gone: seq<set<string>>, vis: set<string>, n: nat)
    requires LoopReady(s, t, st, st', gone, vis) && n > 0
    ensures AllRight(TraceNext(s, t, st, n))
    decreases n - 1, s, 1
  {
    hide Inv, Clear, Rel, StatementsOk.AllOk, Steady, SoundIn, Optimize, Eval, OptMaybe, StmtOk, Opt, TraceLoop, ExecExpr, AllRight, VisitMaybe;
    var s' := Opt(s, t).value.s;
    MaybeOut(s.step, t, st, st', gone, vis);
    MaybeRight(s.step, st, st', t, gone, vis);
    var r, r' := ExecExpr(s.step, st), ExecExpr(s'.step, st');
    AllRightJoin(VisitMaybe(s.step, t, st), []);
    if r.Normal? {
      LoopRight(s, t, r.st, r'.st, gone, vis, n - 1);
      AllRightJoin(VisitMaybe(s.step, t, st), TraceLoop(s, t, r.st, n - 1));
    }
  }

  /** The table at a label is the one its code was optimised with. */
  lemma {:induction false} TableAtEntry(ss: seq<Stmt>, t: Table, vis: set<string>, l: CaseLabel) returns (visk: set<string>)
    requires SeqOk(ss, t, vis, true) && OptSeq(ss, t).Some? && Position(ss, l) < |ss| && OptimizerCorrect.TableOk(t)
    ensures Entered(ss, t, vis, l, TableAt(ss, t, l), visk)
    decreases |ss|
  {
    hide MentionsIn, Opt, StmtOk, TableOk;
    var s, rest := ss[0], ss[1..];
    LabelsKept(s, t, vis, l);
    if Labelled(s, l) {
      visk := vis;
      EnterHere(ss, t, vis, l);
    } else {
      var o := Opt(s, t).value;
      LivePosition(o.s, rest, l);
      HeadTable(s, t, vis);
      visk := TableAtEntry(Live(o.s, rest), o.t, vis + Declared(s) + DeclaredIn(Gone(o.s, rest)), l);
      EnterLater(ss, t, vis, l, TableAt(ss, t, l), visk);
    }
  }

  lemma EntryIs(ss: seq<Stmt>, t: Table, vis: set<string>, v: int)
    requires SeqOk(ss, t, vis, true) && OptSeq(ss, t).Some? && Entry(ss, v) < |ss|
    ensures Entry(ss, v) == Position(ss, EntryLabel(ss, v)) < |ss|
    ensures Entry(OptSeq(ss, t).value, v) == Position(OptSeq(ss, t).value, EntryLabel(ss, v)) || Position(OptSeq(ss, t).value, EntryLabel(ss, v)) == |OptSeq(ss, t).value|
  {
    hide SeqOk, OptSeq, Position;
    if Position(ss, Case(v)) == |ss| { NoEntryOpt(ss, t, vis, Case(v)); }
  }

  lemma {:induction false} SwitchRight(s: Stmt, t: Table, st: Store, st': Store, gone: seq<set<string>>, vis: set<string>, n: nat)
    requires Ready(s, t, st, st', gone, vis) && s.Switch?
    ensures AllRight(Trace(s, t, st, n))
    decreases n, s, 1
  {
    hide Inv, Clear, Rel, StatementsOk.AllOk, Steady, SoundIn, Optimize, Eval, SeqOk, OptSeq, Entry, Skipped, AllRight, TraceSeq, TableAt, EntryLabel;
    SwitchParts(s, t);
    ClearLess(NamesOf(s.c), Mentions(s), gone);
    ClearLess(MentionsIn(s.body.ss), Mentions(s), gone);
    InvRight(s.c, st, st', t, gone, vis);
    ExprOut(s.c, t, st, st', gone, vis);
    var r, r' := Eval(s.c, st), Eval(Optimize(s.c, t).value, st');
    var ss, first := s.body.ss, [Visit(s.c, t, st)];
    AllRightJoin(first, []);
    if r.Val? {
      var k := Entry(ss, r.v);
      if k < |ss| {
        TableHeld(st, st', t, gone, vis);
        EntryIs(ss, t, vis, r.v);
        var l := EntryLabel(ss, r.v);
        var visk := TableAtEntry(ss, t, vis, l);
        var tk, k' := TableAt(ss, t, l), Position(OptSeq(ss, t).value, l);
        SwitchEnter(ss, t, vis, l, tk, visk, k, k', r.st, r'.st, gone);
        var g := DeclaredIn(ss[..k]) - DeclaredIn(OptSeq(ss, t).value[..k']);
        SeqRight(ss[k..], tk, Enter(r.st, Skipped(ss[..k])), Enter(r'.st, Skipped(OptSeq(ss, t).value[..k'])), gone + [g], visk, true, n);
        AllRightJoin(first, TraceSeq(ss[k..], tk, Enter(r.st, Skipped(ss[..k])), n));
      }
    }
  }

  /** In every execution of a function body, at every expression it evaluates, each name the table holds is
      in scope and its value, once it has one, is the recorded literal. */
  lemma FunctionTableRight(ss: seq<Stmt>, params: Frame, n: nat)
    requires StatementsOk.AllOk([params]) && SeqOk(ss, [], params.Keys, false) && OptSeq(ss, []).Some?
    ensures AllRight(Trace(Block(ss), [], [params], n))
  {
    hide SeqOk, OptSeq, MentionsIn, Trace;
    var st, s := [params], Block(ss);
    assert Inv(st, st, [], [{}], params.Keys) by {
      assert forall x :: Lookup([], x).None?;
      assert forall x :: x in params ==> x in params.Keys;
    }
    assert Clear(Mentions(s), [{}]);
    assert Ready(s, [], st, st, [{}], params.Keys);
    TraceRight(s, [], st, st, [{}], params.Keys, n);
  }
}
