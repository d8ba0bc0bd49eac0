/** Every execution of an optimised statement has the outcome of the original (src/optimize.c:608-775). */
module StatementsMain {
  import opened Options
  import opened Stores
  import opened Optimizer
  import opened OptimizerCorrect
  import opened Statements
  import opened StatementsOk
  import opened StoreRelation
  import opened StatementsCorrect
  import opened StatementsTheorem

  /** A statement ready to be run by both programs. */
  ghost predicate Ready(s: Stmt, t: Table, st: Store, st': Store, gone: seq<set<string>>, vis: set<string>) {
    Inv(st, st', t, gone, vis) && StmtOk(s, t, vis) && !Declares(s) && Opt(s, t).Some? && Clear(Mentions(s), gone)
  }

  /** The outcome for a statement that declares nothing. */
  ghost predicate Preserved(s: Stmt, t: Table, st: Store, st': Store, gone: seq<set<string>>, n: nat) {
    Opt(s, t).Some? && Match(Exec(s, st, n), Exec(Opt(s, t).value.s, st', n), st, t, gone, |st|)
  }

  lemma {:induction false} StmtCorrect(s: Stmt, t: Table, st: Store, st': Store, gone: seq<set<string>>, vis: set<string>, n: nat)
    requires Ready(s, t, st, st', gone, vis)
    ensures Preserved(s, t, st, st', gone, n)
    decreases n, s, 2
  {
    MatchSelf(st, st', t, gone, vis);
    hide Inv, Clear, Rel, AllOk, Steady, SoundIn, Optimize, Eval, OptSeq, ExecSeq, SeqOk;
    match s
    case Block(_) => BlockCase(s, t, st, st', gone, vis, n);
    case If(_, _, _) => IfCase(s, t, st, st', gone, vis, n);
    case While(_, _) => WhileCase(s, t, st, st', gone, vis, n);
    case DoWhile(_, _) => DoCase(s, t, st, st', gone, vis, n);
    case For(_, _, _, _) => ForCase(s, t, st, st', gone, vis, n);
    case Switch(_, _) => SwitchCase(s, t, st, st', gone, vis, n);
    case Label(_, b) => StmtCorrect(b, t, st, st', gone, vis, n);
    case Return(e) => if e.Some? { ExprOut(e.value, t, st, st', gone, vis); }
    case ExprStmt(e) => ExprOut(e, t, st, st', gone, vis);
    case _ =>
  }

  /** What ExprCorrect says about outcomes. */
  lemma ExprOut(e: Expr, t: Table, st: Store, st': Store, gone: seq<set<string>>, vis: set<string>)
    requires Inv(st, st', t, gone, vis) && ExprOk(e, t) && Clear(NamesOf(e), gone)
    ensures Optimize(e, t).Some?
    ensures var r, r' := Eval(e, st), Eval(Optimize(e, t).value, st');
      r.Val? ==> r'.Val? && r'.v == r.v && Rel(r.st, r'.st, gone) && AllOk(r.st) && Steady(st, r.st, t, |st|) && Inv(r.st, r'.st, t, gone, vis)
    ensures var e' := Optimize(e, t).value; Eval(e, st).Val? && e'.Lit? ==> Eval(e, st) == Val(e'.v, st)
  {
    ExprCorrect(e, t, st, st', gone, vis);
    hide Clear, Rel, AllOk, Steady, Optimize, Eval;
  }

  lemma {:induction false} BlockCase(s: Stmt, t: Table, st: Store, st': Store, gone: seq<set<string>>, vis: set<string>, n: nat)
    requires Ready(s, t, st, st', gone, vis) && s.Block?
    ensures Preserved(s, t, st, st', gone, n)
    decreases n, s, 1
  {
    hide Inv, Clear, Rel, AllOk, Steady, OptSeq, ExecSeq, SeqOk;
    EnterEmpty(st, st', t, gone, vis);
    ClearEnter(MentionsIn(s.ss), gone, {});
    SeqCorrect(s.ss, t, Enter(st, map[]), Enter(st', map[]), gone + [{}], vis, false, n);
    LeaveMatch(ExecSeq(s.ss, Enter(st, map[]), n), ExecSeq(OptSeq(s.ss, t).value, Enter(st', map[]), n), st, map[], t, gone, {});
  }

  lemma {:induction false} SeqCorrect(ss: seq<Stmt>, t: Table, st: Store, st': Store, gone: seq<set<string>>, vis: set<string>, inSwitch: bool, n: nat)
    requires Inv(st, st', t, gone, vis) && SeqOk(ss, t, vis, inSwitch) && OptSeq(ss, t).Some? && Clear(MentionsIn(ss), gone)
    ensures st != [] && Match(ExecSeq(ss, st, n), ExecSeq(OptSeq(ss, t).value, st', n), st, t, gone, |st| - 1)
    decreases n, ss, 0
  {
    hide *;
    StoreSize(st, st', t, gone, vis);
    if ss == [] {
      ExecNone(ss, t, st, n);
      ExecNone(ss, t, st', n);
      EndMatch(st, st', t, gone, vis);
    } else {
      SeqParts(ss, t, vis, inSwitch, gone);
      OptSeqCons(ss, t);
      var s, o, rest, ss' := ss[0], Opt(ss[0], t).value, ss[1..], OptSeq(ss, t).value;
      assert ss'[0] == o.s && ss'[1..] == OptSeq(Live(o.s, rest), o.t).value;
      var p, p' := Exec(s, st, n), Exec(o.s, st', n);
      ExecSeqCons(ss, st, n);
      ExecSeqCons(ss', st', n);
      if Declares(s) {
        DeclOut(s, t, st, st', gone, vis, n);
      } else {
        assert Ready(s, t, st, st', gone, vis) by { ReadyBy(s, t, st, st', gone, vis); }
        StmtCorrect(s, t, st, st', gone, vis, n);
        StmtOut(s, t, st, st', gone, vis, n);
      }
      HandsOverView(s, t, st, st', gone, vis, n);
      if p.Normal? {
        LiveAll(o.s, rest);
        SeqCorrect(rest, o.t, p.st, p'.st, gone, vis + Declared(s), inSwitch, n);
        MatchTable(ExecSeq(rest, p.st, n), ExecSeq(ss'[1..], p'.st, n), p.st, t, o.t, gone, |st| - 1);
        MatchFrom(ExecSeq(rest, p.st, n), ExecSeq(ss'[1..], p'.st, n), st, p.st, t, gone, |st| - 1);
      } else if p.Stuck? {
        StuckMatch(ExecSeq(ss', st', n), st, t, gone);
      }
    }
  }

  lemma ExecNone(ss: seq<Stmt>, t: Table, st: Store, n: nat)
    requires ss == []
    ensures ExecSeq(ss, st, n) == Normal(st) && OptSeq(ss, t) == Some([])
  {
    hide Exec, Opt;
  }

  lemma ExecSeqCons(ss: seq<Stmt>, st: Store, n: nat)
    requires ss != []
    ensures var p := Exec(ss[0], st, n); ExecSeq(ss, st, n) == if p.Normal? then ExecSeq(ss[1..], p.st, n) else p
  {
    hide Exec;
  }

  lemma SeqParts(ss: seq<Stmt>, t: Table, vis: set<string>, inSwitch: bool, gone: seq<set<string>>)
    requires SeqOk(ss, t, vis, inSwitch) && ss != [] && Clear(MentionsIn(ss), gone)
    ensures StmtOk(ss[0], t, vis) && Opt(ss[0], t).Some? && Clear(Mentions(ss[0]), gone) && Clear(MentionsIn(ss[1..]), gone)
    ensures !Terminal(Opt(ss[0], t).value.s) ==> SeqOk(ss[1..], Opt(ss[0], t).value.t, vis + Declared(ss[0]), inSwitch)
  {
    hide StmtOk, Opt, Live, Clear, Gone, DeclaredIn, Mentions;
    ClearLess(Mentions(ss[0]), MentionsIn(ss), gone);
    ClearLess(MentionsIn(ss[1..]), MentionsIn(ss), gone);
    var s' := Opt(ss[0], t).value.s;
    if !Terminal(s') {
      LiveAll(s', ss[1..]);
      assert vis + Declared(ss[0]) + {} == vis + Declared(ss[0]);
    }
  }

  lemma ReadyBy(s: Stmt, t: Table, st: Store, st': Store, gone: seq<set<string>>, vis: set<string>)
    requires Inv(st, st', t, gone, vis) && StmtOk(s, t, vis) && !Declares(s) && Opt(s, t).Some? && Clear(Mentions(s), gone)
    ensures Ready(s, t, st, st', gone, vis)
  {
  }

  /** What a sibling hands to the rest of its block. */
  ghost predicate HandsOver(s: Stmt, t: Table, st: Store, st': Store, gone: seq<set<string>>, vis: set<string>, n: nat) {
    st != [] && Opt(s, t).Some? &&
    var p, p', o := Exec(s, st, n), Exec(Opt(s, t).value.s, st', n), Opt(s, t).value;
    if p.Normal? then
      && p'.Normal? && !Terminal(o.s) && |p.st| == |st| && Steady(st, p.st, t, |st| - 1)
      && Inv(p.st, p'.st, o.t, gone, vis + Declared(s)) && (forall x :: Lookup(t, x).Some? ==> Lookup(o.t, x).Some?)
    else
      p.Stuck? || (!p'.Normal? && Match(p, p', st, t, gone, |st| - 1))
  }

  lemma HandsOverView(s: Stmt, t: Table, st: Store, st': Store, gone: seq<set<string>>, vis: set<string>, n: nat)
    requires HandsOver(s, t, st, st', gone, vis, n)
    ensures st != [] && Opt(s, t).Some?
    ensures var p, p', o := Exec(s, st, n), Exec(Opt(s, t).value.s, st', n), Opt(s, t).value;
      if p.Normal? then
        && p'.Normal? && !Terminal(o.s) && |p.st| == |st| && Steady(st, p.st, t, |st| - 1)
        && Inv(p.st, p'.st, o.t, gone, vis + Declared(s)) && (forall x :: Lookup(t, x).Some? ==> Lookup(o.t, x).Some?)
      else
        p.Stuck? || (!p'.Normal? && Match(p, p', st, t, gone, |st| - 1))
  {
    hide Steady, Inv, Lookup, Match, Exec, Opt;
  }

  lemma DeclOut(s: Stmt, t: Table, st: Store, st': Store, gone: seq<set<string>>, vis: set<string>, n: nat)
    requires Inv(st, st', t, gone, vis) && Declares(s) && StmtOk(s, t, vis) && Opt(s, t).Some? && Clear(Mentions(s), gone)
    ensures HandsOver(s, t, st, st', gone, vis, n)
  {
    hide Inv, Clear, StmtOk, Opt, Exec, Lookup, Steady, TableOk, Mentions, Declared;
    DeclCorrect(s, t, st, st', gone, vis, n);
    TableHeld(st, st', t, gone, vis);
    HeadTable(s, t, vis);
    StoreSize(st, st', t, gone, vis);
    var p, p' := Exec(s, st, n), Exec(Opt(s, t).value.s, st', n);
    if p.Normal? { StoreSize(p.st, p'.st, Opt(s, t).value.t, gone, vis + Declared(s)); }
  }

  lemma StmtOut(s: Stmt, t: Table, st: Store, st': Store, gone: seq<set<string>>, vis: set<string>, n: nat)
    requires Ready(s, t, st, st', gone, vis) && Preserved(s, t, st, st', gone, n)
    ensures HandsOver(s, t, st, st', gone, vis, n)
  {
    hide Inv, Clear, StmtOk, Opt, Exec, Lookup, Steady, TableOk, Mentions, Match;
    TableSame(s, t, vis);
    var p, p' := Exec(s, st, n), Exec(Opt(s, t).value.s, st', n);
    OutcomeView(p, p', st, st', t, gone, vis);
    StoreSize(st, st', t, gone, vis);
    MatchLess(p, p', st, t, gone, |st|, |st| - 1);
    TerminalOut(Opt(s, t).value.s, st', n);
    assert vis + Declared(s) == vis;
    if HasStore(p) { SteadyLess(st, p.st, t, |st|, |st| - 1); SteadySize(st, p.st, t); }
  }

  lemma EndMatch(st: Store, st': Store, t: Table, gone: seq<set<string>>, vis: set<string>)
    requires Inv(st, st', t, gone, vis)
    ensures Match(Normal(st), Normal(st'), st, t, gone, |st| - 1)
  {
    hide Rel;
  }

  lemma StuckMatch(o': Out, st: Store, t: Table, gone: seq<set<string>>)
    requires st != []
    ensures Match(Stuck, o', st, t, gone, |st| - 1)
  {
  }

  lemma TerminalOut(s: Stmt, st: Store, n: nat)
    ensures Terminal(s) ==> !Exec(s, st, n).Normal?
  {
  }

  lemma LiveAll(s: Stmt, rest: seq<Stmt>)
    requires !Terminal(s)
    ensures Live(s, rest) == rest && Gone(s, rest) == [] && DeclaredIn(Gone(s, rest)) == {}
  {
  }

  lemma {:induction false} IfCase(s: Stmt, t: Table, st: Store, st': Store, gone: seq<set<string>>, vis: set<string>, n: nat)
    requires Ready(s, t, st, st', gone, vis) && s.If?
    ensures Preserved(s, t, st, st', gone, n)
    decreases n, s, 1
  {
    hide Inv, Clear, Rel, AllOk, Steady, SoundIn, Optimize, Eval, Match;
    ClearLess(NamesOf(s.c), Mentions(s), gone);
    ClearLess(Mentions(s.yes), Mentions(s), gone);
    ExprOut(s.c, t, st, st', gone, vis);
    TableSame(s.yes, t, vis);
    var r, r' := Eval(s.c, st), Eval(Optimize(s.c, t).value, st');
    if s.no.Some? { ClearLess(Mentions(s.no.value), Mentions(s), gone); }
    if r.Val? {
      if r.v != 0 {
        StmtCorrect(s.yes, t, r.st, r'.st, gone, vis, n);
        FromHere(s.yes, t, st, r.st, r'.st, gone, n);
        if Optimize(s.c, t).value.Lit? { LitHere(Optimize(s.c, t).value, st'); }
      } else if s.no.Some? {
        StmtCorrect(s.no.value, t, r.st, r'.st, gone, vis, n);
        FromHere(s.no.value, t, st, r.st, r'.st, gone, n);
        if Optimize(s.c, t).value.Lit? { LitHere(Optimize(s.c, t).value, st'); }
      } else {
        DoneMatch(r.st, r'.st, st, t, gone);
        if Optimize(s.c, t).value.Lit? { LitHere(Optimize(s.c, t).value, st'); EmptyBlock(st', n); }
      }
    } else {
      StuckAny(Exec(Opt(s, t).value.s, st', n), st, t, gone);
    }
  }

  lemma FromHere(s: Stmt, t: Table, st: Store, st1: Store, st1': Store, gone: seq<set<string>>, n: nat)
    requires Preserved(s, t, st1, st1', gone, n) && Steady(st, st1, t, |st|)
    ensures Match(Exec(s, st1, n), Exec(Opt(s, t).value.s, st1', n), st, t, gone, |st|)
  {
    hide Match, Exec, Opt;
    SteadySize(st, st1, t);
    MatchFrom(Exec(s, st1, n), Exec(Opt(s, t).value.s, st1', n), st, st1, t, gone, |st|);
  }

  lemma LitHere(e: Expr, st: Store)
    requires e.Lit?
    ensures Eval(e, st) == Val(e.v, st)
  {
  }

  lemma DoneMatch(st1: Store, st1': Store, st: Store, t: Table, gone: seq<set<string>>)
    requires Rel(st1, st1', gone) && AllOk(st1) && Steady(st, st1, t, |st|)
    ensures Match(Normal(st1), Normal(st1'), st, t, gone, |st|)
  {
  }

  lemma StuckAny(o': Out, st: Store, t: Table, gone: seq<set<string>>)
    ensures Match(Stuck, o', st, t, gone, |st|)
  {
  }

  lemma EmptyBlock(st: Store, n: nat)
    ensures Exec(Block([]), st, n) == Normal(st)
  {
    assert ExecSeq([], Enter(st, map[]), n) == Normal(Enter(st, map[]));
    assert Enter(st, map[])[..|st|] == st;
  }

  lemma TimeoutMatch(st: Store, t: Table, gone: seq<set<string>>)
    ensures Match(Timeout, Timeout, st, t, gone, |st|)
  {
  }

  lemma {:induction false} WhileCase(s: Stmt, t: Table, st: Store, st': Store, gone: seq<set<string>>, vis: set<string>, n: nat)
    requires Ready(s, t, st, st', gone, vis) && s.While?
    ensures Preserved(s, t, st, st', gone, n)
    decreases n, s, 1
  {
    hide Inv, Clear, Rel, AllOk, Steady, SoundIn, Optimize, Eval, Match;
    ClearLess(NamesOf(s.c), Mentions(s), gone);
    ClearLess(Mentions(s.body), Mentions(s), gone);
    ExprOut(s.c, t, st, st', gone, vis);
    TableSame(s.body, t, vis);
    var r, r' := Eval(s.c, st), Eval(Optimize(s.c, t).value, st');
    if !r.Val? {
      StuckAny(Exec(Opt(s, t).value.s, st', n), st, t, gone);
    } else if IsZero(Optimize(s.c, t).value) {
      EmptyBlock(st', n);
      LitHere(Optimize(s.c, t).value, st');
      DoneMatch(r.st, r'.st, st, t, gone);
    } else if r.v == 0 {
      DoneMatch(r.st, r'.st, st, t, gone);
    } else if n == 0 {
      TimeoutMatch(st, t, gone);
    } else {
      StmtCorrect(s.body, t, r.st, r'.st, gone, vis, n);
      FromHere(s.body, t, st, r.st, r'.st, gone, n);
      var p, p' := Exec(s.body, r.st, n), Exec(Opt(s.body, t).value.s, r'.st, n);
      OutcomeView(p, p', st, st', t, gone, vis);
      if p.Normal? || p.Continued? {
        StmtCorrect(s, t, p.st, p'.st, gone, vis, n - 1);
        FromHere(s, t, st, p.st, p'.st, gone, n - 1);
      } else if p.Broke? {
        DoneMatch(p.st, p'.st, st, t, gone);
      } else if p.Stuck? {
        StuckAny(Exec(Opt(s, t).value.s, st', n), st, t, gone);
      }
    }
  }

  /** Match taken apart. */
  lemma OutcomeView(o: Out, o': Out, st: Store, st': Store, t: Table, gone: seq<set<string>>, vis: set<string>)
    requires Match(o, o', st, t, gone, |st|) && Inv(st, st', t, gone, vis)
    ensures SameShape(o, o')
    ensures HasStore(o) ==> Inv(o.st, o'.st, t, gone, vis) && Rel(o.st, o'.st, gone) && AllOk(o.st) && Steady(st, o.st, t, |st|)
  {
    hide Rel, AllOk, Steady, Agrees, TableOk, Visible, Inv;
    if HasStore(o) { MatchInv(o, o', st, st', t, gone, vis); }
  }

  lemma {:induction false} DoCase(s: Stmt, t: Table, st: Store, st': Store, gone: seq<set<string>>, vis: set<string>, n: nat)
    requires Ready(s, t, st, st', gone, vis) && s.DoWhile?
    ensures Preserved(s, t, st, st', gone, n)
    decreases n, s, 1
  {
    hide Inv, Clear, Rel, AllOk, Steady, SoundIn, Optimize, Eval, Match, DoAgain;
    ClearLess(Mentions(s.body), Mentions(s), gone);
    TableSame(s.body, t, vis);
    StmtCorrect(s.body, t, st, st', gone, vis, n);
    var p, p' := Exec(s.body, st, n), Exec(Opt(s.body, t).value.s, st', n);
    OutcomeView(p, p', st, st', t, gone, vis);
    if p.Normal? || p.Continued? {
      AgainCase(s, t, p.st, p'.st, gone, vis, n);
      SteadySize(st, p.st, t);
      MatchFrom(DoAgain(s, p.st, n), DoAgain(Opt(s, t).value.s, p'.st, n), st, p.st, t, gone, |st|);
    } else if p.Broke? {
      DoneMatch(p.st, p'.st, st, t, gone);
    } else if p.Stuck? {
      StuckAny(Exec(Opt(s, t).value.s, st', n), st, t, gone);
    }
  }

  lemma {:induction false} AgainCase(s: Stmt, t: Table, st: Store, st': Store, gone: seq<set<string>>, vis: set<string>, n: nat)
    requires Ready(s, t, st, st', gone, vis) && s.DoWhile?
    ensures Opt(s, t).value.s.DoWhile? && Match(DoAgain(s, st, n), DoAgain(Opt(s, t).value.s, st', n), st, t, gone, |st|)
    decreases n, s, 0
  {
    hide Inv, Clear, Rel, AllOk, Steady, SoundIn, Optimize, Eval, Match, Exec;
    ClearLess(NamesOf(s.c), Mentions(s), gone);
    TableSame(s.body, t, vis);
    ExprOut(s.c, t, st, st', gone, vis);
    var r, r' := Eval(s.c, st), Eval(Optimize(s.c, t).value, st');
    if !r.Val? {
      StuckAny(DoAgain(Opt(s, t).value.s, st', n), st, t, gone);
    } else if r.v == 0 {
      DoneMatch(r.st, r'.st, st, t, gone);
    } else if n == 0 {
      TimeoutMatch(st, t, gone);
    } else {
      StmtCorrect(s, t, r.st, r'.st, gone, vis, n - 1);
      FromHere(s, t, st, r.st, r'.st, gone, n - 1);
    }
  }

  // ---------------------------------------------------------------- for

  lemma {:induction false} ForCase(s: Stmt, t: Table, st: Store, st': Store, gone: seq<set<string>>, vis: set<string>, n: nat)
    requires Ready(s, t, st, st', gone, vis) && s.For?
    ensures Preserved(s, t, st, st', gone, n)
    decreases n, s, 1
  {
    hide Inv, Clear, Rel, AllOk, Steady, SoundIn, Optimize, Eval, Match, ForLoop, ExecInit, Leave, OptInit, OptMaybe, InitOk, Mentions;
    ForParts(s, t, vis, gone);
    StoreSize(st, st', t, gone, vis);
    var i, oi := s.init, OptInit(s.init, t).value;
    var S0, T0, vis1 := Enter(st, map[]), Enter(st', map[]), vis + InitNames(i);
    EnterEmpty(st, st', t, gone, vis);
    InitCorrect(i, t, S0, T0, gone + [{}], vis);
    var p, p' := ExecInit(i, S0), ExecInit(oi.init, T0);
    if !p.Normal? {
      StuckAny(Exec(Opt(s, t).value.s, st', n), st, t, gone);
    } else if OptMaybe(s.cond, t).value == Some(Lit(0)) {
      ZeroTrip(s, t, st, st', gone, vis, n);
    } else {
      ForReady(s, t, p.st, p'.st, gone, vis);
      LoopCase(s, t, p.st, p'.st, gone + [{}], vis1, n);
      StoreSize(p.st, p'.st, t, gone + [{}], vis1);
      var s' := Opt(s, t).value.s;
      LoopOut(s, s', t, st, p.st, p'.st, gone, n);
    }
  }

  lemma ForParts(s: Stmt, t: Table, vis: set<string>, gone: seq<set<string>>)
    requires s.For? && StmtOk(s, t, vis) && Opt(s, t).Some? && Clear(Mentions(s), gone)
    ensures InitOk(s.init, t) && OptInit(s.init, t).Some? && OptInit(s.init, t).value.t == t
    ensures OptMaybe(s.cond, t).Some? && OptMaybe(s.step, t).Some? && Opt(s.body, t).Some?
    ensures var c' := OptMaybe(s.cond, t).value;
      Opt(s, t).value.s == if c' == Some(Lit(0)) then InitOnly(OptInit(s.init, t).value.init)
                           else For(OptInit(s.init, t).value.init, c', OptMaybe(s.step, t).value, Opt(s.body, t).value.s)
    ensures Clear(NamesInit(s.init), gone + [{}]) && Clear(Mentions(s), gone + [{}])
  {
    hide Clear, SoundIn, Optimize;
    InitTable(s.init, t);
    ClearEnter(Mentions(s), gone, {});
    ClearLess(NamesInit(s.init), Mentions(s), gone + [{}]);
  }

  /** The loop proper: both programs stand in the scope of the loop. */
  ghost predicate LoopReady(s: Stmt, t: Table, st: Store, st': Store, gone: seq<set<string>>, vis: set<string>) {
    && s.For? && Inv(st, st', t, gone, vis) && MaybeOk(s.cond, t) && MaybeOk(s.step, t)
    && StmtOk(s.body, t, vis) && !Declares(s.body) && Opt(s, t).Some? && Opt(s, t).value.s.For? && Opt(s.body, t).Some?
    && OptMaybe(s.cond, t).Some? && OptMaybe(s.step, t).Some?
    && Opt(s, t).value.s.cond == OptMaybe(s.cond, t).value && Opt(s, t).value.s.step == OptMaybe(s.step, t).value
    && Opt(s, t).value.s.body == Opt(s.body, t).value.s
    && Clear(NamesMaybe(s.cond), gone) && Clear(NamesMaybe(s.step), gone) && Clear(Mentions(s.body), gone)
  }

  lemma ForReady(s: Stmt, t: Table, st: Store, st': Store, gone: seq<set<string>>, vis: set<string>)
    requires s.For? && StmtOk(s, t, vis) && Opt(s, t).Some? && Clear(Mentions(s), gone)
    requires Inv(st, st', t, gone + [{}], vis + InitNames(s.init)) && OptMaybe(s.cond, t).Some? && OptMaybe(s.cond, t).value != Some(Lit(0))
    ensures LoopReady(s, t, st, st', gone + [{}], vis + InitNames(s.init))
  {
    hide Inv, Clear, SoundIn, Optimize;
    InitTable(s.init, t);
    ClearEnter(Mentions(s), gone, {});
    ClearLess(NamesMaybe(s.cond), Mentions(s), gone + [{}]);
    ClearLess(NamesMaybe(s.step), Mentions(s), gone + [{}]);
    ClearLess(Mentions(s.body), Mentions(s), gone + [{}]);
  }

  lemma MaybeOut(e: Option<Expr>, t: Table, st: Store, st': Store, gone: seq<set<string>>, vis: set<string>)
    requires Inv(st, st', t, gone, vis) && MaybeOk(e, t) && Clear(NamesMaybe(e), gone) && OptMaybe(e, t).Some?
    ensures var r, r' := Test(e, st), Test(OptMaybe(e, t).value, st');
      r.Val? ==> r'.Val? && r'.v == r.v && Rel(r.st, r'.st, gone) && AllOk(r.st) && Steady(st, r.st, t, |st|) && Inv(r.st, r'.st, t, gone, vis)
    ensures var r, r' := ExecExpr(e, st), ExecExpr(OptMaybe(e, t).value, st');
      (r.Normal? || r.Stuck?) && (r.Normal? ==> r'.Normal? && Steady(st, r.st, t, |st|) && Inv(r.st, r'.st, t, gone, vis))
    ensures Test(e, st).Val? && OptMaybe(e, t).value == Some(Lit(0)) ==> Test(e, st) == Val(0, st)
  {
    MatchSelf(st, st', t, gone, vis);
    hide Inv, Clear, Rel, AllOk, Steady, SoundIn, Optimize, Eval;
    if e.Some? { ExprOut(e.value, t, st, st', gone, vis); }
  }

  lemma {:induction false} LoopCase(s: Stmt, t: Table, st: Store, st': Store, gone: seq<set<string>>, vis: set<string>, n: nat)
    requires LoopReady(s, t, st, st', gone, vis)
    ensures Match(ForLoop(s, st, n), ForLoop(Opt(s, t).value.s, st', n), st, t, gone, |st|)
    decreases n, s, 0
  {
    hide Inv, Clear, Rel, AllOk, Steady, SoundIn, Optimize, Eval, Match, OptMaybe, StmtOk, Opt, Exec, ForNext, Test;
    var s' := Opt(s, t).value.s;
    MaybeOut(s.cond, t, st, st', gone, vis);
    var r, r' := Test(s.cond, st), Test(s'.cond, st');
    if !r.Val? {
      StuckAny(ForLoop(s', st', n), st, t, gone);
    } else if r.v == 0 {
      DoneMatch(r.st, r'.st, st, t, gone);
    } else if n == 0 {
      TimeoutMatch(st, t, gone);
    } else {
      ReadyBy(s.body, t, r.st, r'.st, gone, vis);
      StmtCorrect(s.body, t, r.st, r'.st, gone, vis, n);
      FromHere(s.body, t, st, r.st, r'.st, gone, n);
      var p, p' := Exec(s.body, r.st, n), Exec(s'.body, r'.st, n);
      OutcomeView(p, p', st, st', t, gone, vis);
      if p.Normal? || p.Continued? {
        NextCase(s, t, p.st, p'.st, gone, vis, n);
        SteadySize(st, p.st, t);
        MatchFrom(ForNext(s, p.st, n), ForNext(s', p'.st, n), st, p.st, t, gone, |st|);
      } else if p.Broke? {
        DoneMatch(p.st, p'.st, st, t, gone);
      } else if p.Stuck? {
        StuckAny(ForLoop(s', st', n), st, t, gone);
      }
    }
  }

  lemma {:induction false} NextCase(s: Stmt, t: Table, st: Store, st': Store, gone: seq<set<string>>, vis: set<string>, n: nat)
    requires LoopReady(s, t, st, st', gone, vis) && n > 0
    ensures Match(ForNext(s, st, n), ForNext(Opt(s, t).value.s, st', n), st, t, gone, |st|)
    decreases n - 1, s, 1
  {
    hide Inv, Clear, Rel, AllOk, Steady, SoundIn, Optimize, Eval, Match, OptMaybe, StmtOk, Opt, ForLoop, ExecExpr;
    var s' := Opt(s, t).value.s;
    MaybeOut(s.step, t, st, st', gone, vis);
    var r, r' := ExecExpr(s.step, st), ExecExpr(s'.step, st');
    if r.Normal? {
      LoopCase(s, t, r.st, r'.st, gone, vis, n - 1);
      SteadySize(st, r.st, t);
      MatchFrom(ForLoop(s, r.st, n - 1), ForLoop(s', r'.st, n - 1), st, r.st, t, gone, |st|);
    } else {
      StuckAny(ForNext(s', st', n), st, t, gone);
    }
  }

  lemma LoopOut(s: Stmt, s': Stmt, t: Table, st: Store, st1: Store, st1': Store, gone: seq<set<string>>, n: nat)
    requires s.For? && s'.For? && |st1| == |st| + 1 && Steady(Enter(st, map[]), st1, t, |st|)
    requires Match(ForLoop(s, st1, n), ForLoop(s', st1', n), st1, t, gone + [{}], |st1|)
    ensures Match(Leave(ForLoop(s, st1, n)), Leave(ForLoop(s', st1', n)), st, t, gone, |st|)
  {
    hide Match, Steady, ForLoop, Leave;
    var o, o' := ForLoop(s, st1, n), ForLoop(s', st1', n);
    MatchLess(o, o', st1, t, gone + [{}], |st1|, |st|);
    MatchFrom(o, o', Enter(st, map[]), st1, t, gone + [{}], |st|);
    LeaveMatch(o, o', st, map[], t, gone, {});
  }

  /** A loop that never runs, against its init run without the scope of the loop. */
  lemma ZeroTrip(s: Stmt, t: Table, st: Store, st': Store, gone: seq<set<string>>, vis: set<string>, n: nat)
    requires Ready(s, t, st, st', gone, vis) && s.For? && OptMaybe(s.cond, t) == Some(Some(Lit(0)))
    ensures Preserved(s, t, st, st', gone, n)
  {
    hide Inv, Clear, Rel, AllOk, Steady, SoundIn, Optimize, Eval, ExecInit, OptInit, OptMaybe, InitOk, Mentions, ForLoop, ExecDecl, ExecDecls, ExecExpr;
    ForParts(s, t, vis, gone);
    var i, i' := s.init, OptInit(s.init, t).value.init;
    var S0, T0 := Enter(st, map[]), Enter(st', map[]);
    EnterEmpty(st, st', t, gone, vis);
    InitCorrect(i, t, S0, T0, gone + [{}], vis);
    var p, p' := ExecInit(i, S0), ExecInit(i', T0);
    StoreSize(st, st', t, gone, vis);
    if p.Normal? {
      ZeroRuns(s, t, p.st, p'.st, gone + [{}], vis + InitNames(i), n);
      StoreSize(p.st, p'.st, t, gone + [{}], vis + InitNames(i));
      MergeEmpty(st');
      InvParts(st, st', t, gone, vis);
      InvParts(p.st, p'.st, t, gone + [{}], vis + InitNames(i));
      LeaveStore(st, map[], p.st, p'.st, t, gone, {});
      if i' == NoInit {
        EmptyBlock(st', n);
        NoInitKept(i, t);
        assert p'.st == T0 by { NoInitRuns(T0); }
        assert T0[..|st'|] == st';
      } else {
        InitKind(i, t);
        InitMerge(i', T0, n);
        InitKeys(i', T0);
        MergeRel(st, p.st, p'.st, t, gone, vis, InitNames(i));
      }
    }
  }

  lemma NoInitRuns(st: Store)
    ensures ExecInit(NoInit, st) == Normal(st)
  {
  }

  lemma NoInitKept(i: Init, t: Table)
    requires OptInit(i, t).Some? && OptInit(i, t).value.init == NoInit
    ensures i == NoInit
  {
    hide Optimize, OptOperands;
  }

  lemma InitKind(i: Init, t: Table)
    requires OptInit(i, t).Some?
    ensures var i' := OptInit(i, t).value.init; i'.InitDecl? ==> i'.decl.Decl? || i'.decl.DeclList?
  {
    hide Optimize, OptOperands;
  }

  lemma InvParts(st: Store, st': Store, t: Table, gone: seq<set<string>>, vis: set<string>)
    requires Inv(st, st', t, gone, vis)
    ensures Rel(st, st', gone) && AllOk(st) && Visible(st, vis)
  {
  }

  lemma ZeroRuns(s: Stmt, t: Table, st: Store, st': Store, gone: seq<set<string>>, vis: set<string>, n: nat)
    requires s.For? && Inv(st, st', t, gone, vis) && MaybeOk(s.cond, t) && Clear(Mentions(s), gone) && OptMaybe(s.cond, t) == Some(Some(Lit(0)))
    ensures ForLoop(s, st, n) == Normal(st) || ForLoop(s, st, n).Stuck?
  {
    hide Inv, Clear, Rel, AllOk, Steady, SoundIn, Optimize, Eval, OptMaybe;
    ClearLess(NamesMaybe(s.cond), Mentions(s), gone);
    MaybeOut(s.cond, t, st, st', gone, vis);
  }

  // ---------------------------------------------------------------- switch

  lemma {:induction false} SwitchCase(s: Stmt, t: Table, st: Store, st': Store, gone: seq<set<string>>, vis: set<string>, n: nat)
    requires Ready(s, t, st, st', gone, vis) && s.Switch?
    ensures Preserved(s, t, st, st', gone, n)
    decreases n, s, 1
  {
    hide Inv, Clear, Rel, AllOk, Steady, SoundIn, Optimize, Eval, Match, SeqOk, OptSeq, ExecSeq, Entry, Leave, Skipped;
    SwitchParts(s, t);
    ClearLess(NamesOf(s.c), Mentions(s), gone);
    ClearLess(MentionsIn(s.body.ss), Mentions(s), gone);
    ExprOut(s.c, t, st, st', gone, vis);
    var r, r' := Eval(s.c, st), Eval(Optimize(s.c, t).value, st');
    var ss, ss' := s.body.ss, OptSeq(s.body.ss, t).value;
    assert Opt(s, t).value.s == Switch(Optimize(s.c, t).value, Block(ss'));
    if !r.Val? {
      StuckAny(Exec(Opt(s, t).value.s, st', n), st, t, gone);
    } else {
      var k, k' := Entry(ss, r.v), Entry(ss', r.v);
      if k == |ss| {
        NowhereBoth(ss, t, vis, r.v);
        DoneMatch(r.st, r'.st, st, t, gone);
      } else {
        TableHeld(st, st', t, gone, vis);
        var l, tk, visk := EntryBoth(ss, t, vis, r.v);
        var f, f' := Skipped(ss[..k]), Skipped(ss'[..k']);
        var g := DeclaredIn(ss[..k]) - DeclaredIn(ss'[..k']);
        SwitchEnter(ss, t, vis, l, tk, visk, k, k', r.st, r'.st, gone);
        SeqCorrect(ss[k..], tk, Enter(r.st, f), Enter(r'.st, f'), gone + [g], visk, true, n);
        SwitchLeave(ss[k..], ss'[k'..], t, tk, st, r.st, r'.st, f, f', gone, g, n);
      }
    }
  }

  lemma SwitchParts(s: Stmt, t: Table)
    requires s.Switch? && s.body.Block? && Opt(s, t).Some?
    ensures OptSeq(s.body.ss, t).Some? && MentionsIn(s.body.ss) <= Mentions(s)
    ensures Optimize(s.c, t).Some? && Opt(s, t).value.s == Switch(Optimize(s.c, t).value, Block(OptSeq(s.body.ss, t).value))
  {
    assert Opt(s.body, t).Some? && Mentions(s.body) <= Mentions(s);
  }

  lemma NowhereBoth(ss: seq<Stmt>, t: Table, vis: set<string>, v: int)
    requires SeqOk(ss, t, vis, true) && OptSeq(ss, t).Some? && Entry(ss, v) == |ss|
    ensures Entry(OptSeq(ss, t).value, v) == |OptSeq(ss, t).value|
  {
    hide SeqOk, OptSeq, Position;
    NoEntryOpt(ss, t, vis, Case(v));
    NoEntryOpt(ss, t, vis, Default);
  }

  /** The two programs enter at the same label. */
  lemma EntryBoth(ss: seq<Stmt>, t: Table, vis: set<string>, v: int) returns (l: CaseLabel, tk: Table, visk: set<string>)
    requires SeqOk(ss, t, vis, true) && OptSeq(ss, t).Some? && Entry(ss, v) < |ss| && TableOk(t)
    ensures Entered(ss, t, vis, l, tk, visk) && Entry(ss, v) == Position(ss, l) && Entry(OptSeq(ss, t).value, v) == Position(OptSeq(ss, t).value, l)
  {
    hide SeqOk, OptSeq, Position, TableOk, DeclaredIn, MentionsIn, Lookup;
    l := Case(v);
    if Position(ss, l) == |ss| {
      NoEntryOpt(ss, t, vis, l);
      l := Default;
    }
    tk, visk := EntryOpt(ss, t, vis, l);
  }

  lemma SwitchEnter(ss: seq<Stmt>, t: Table, vis: set<string>, l: CaseLabel, tk: Table, visk: set<string>, k: nat, k': nat, st: Store, st': Store, gone: seq<set<string>>)
    requires Entered(ss, t, vis, l, tk, visk) && Inv(st, st', t, gone, vis) && Clear(MentionsIn(ss), gone)
    requires k == Position(ss, l) && k' == Position(OptSeq(ss, t).value, l)
    ensures k <= |ss| && k' < |OptSeq(ss, t).value|
    ensures var ss' := OptSeq(ss, t).value;
      var g := DeclaredIn(ss[..k]) - DeclaredIn(ss'[..k']);
      && SeqOk(ss[k..], tk, visk, true) && OptSeq(ss[k..], tk) == Some(ss'[k'..])
      && Inv(Enter(st, Skipped(ss[..k])), Enter(st', Skipped(ss'[..k'])), tk, gone + [g], visk)
      && Clear(MentionsIn(ss[k..]), gone + [g]) && (forall x :: Lookup(t, x).Some? ==> Lookup(tk, x).Some?)
  {
    hide SeqOk, OptSeq, Position, TableOk, DeclaredIn, MentionsIn, Lookup, Inv, Clear;
    var ss' := OptSeq(ss, t).value;
    var g := DeclaredIn(ss[..k]) - DeclaredIn(ss'[..k']);
    EnterInv(st, st', t, tk, gone, vis, Skipped(ss[..k]), Skipped(ss'[..k']), g, visk);
    MentionsSuffix(ss, k);
    ClearLess(MentionsIn(ss[k..]), MentionsIn(ss), gone);
    ClearEnter(MentionsIn(ss[k..]), gone, g);
  }

  lemma SwitchLeave(a: seq<Stmt>, a': seq<Stmt>, t: Table, tk: Table, st: Store, st1: Store, st1': Store, f: Frame, f': Frame, gone: seq<set<string>>, g: set<string>, n: nat)
    requires Match(ExecSeq(a, Enter(st1, f), n), ExecSeq(a', Enter(st1', f'), n), Enter(st1, f), tk, gone + [g], |st1|)
    requires Steady(st, st1, t, |st|) && forall x :: Lookup(t, x).Some? ==> Lookup(tk, x).Some?
    ensures Match(Unbreak(Leave(ExecSeq(a, Enter(st1, f), n))), Unbreak(Leave(ExecSeq(a', Enter(st1', f'), n))), st, t, gone, |st|)
  {
    hide Steady, Rel, AllOk, ExecSeq, Lookup, Leave, Match;
    var o, o' := ExecSeq(a, Enter(st1, f), n), ExecSeq(a', Enter(st1', f'), n);
    MatchTable(o, o', Enter(st1, f), t, tk, gone + [g], |st1|);
    LeaveMatch(o, o', st1, f, t, gone, g);
    SteadySize(st, st1, t);
    MatchFrom(Leave(o), Leave(o'), st, st1, t, gone, |st|);
    UnbreakMatch(Leave(o), Leave(o'), st, t, gone);
  }

  lemma UnbreakMatch(o: Out, o': Out, st: Store, t: Table, gone: seq<set<string>>)
    requires Match(o, o', st, t, gone, |st|)
    ensures Match(Unbreak(o), Unbreak(o'), st, t, gone, |st|)
  {
    hide Steady, Rel, AllOk;
  }
}
