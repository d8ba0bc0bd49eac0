/** Function bodies, and programs outside the conditions on which optimize_stmt changes the result. */
module StatementsLimits {
  import opened Options
  import opened Stores
  import opened Optimizer
  import opened Statements
  import opened StatementsOk
  import opened StoreRelation
  import opened StatementsCorrect
  import opened StatementsTheorem
  import opened StatementsMain

  /** Optimising a function body keeps its result, and its parameters and globals, for every bound on iterations. */
  lemma FunctionCorrect(ss: seq<Stmt>, params: Frame, n: nat)
    requires AllOk([params]) && SeqOk(ss, [], params.Keys, false) && OptSeq(ss, []).Some?
    ensures var o, o' := Exec(Block(ss), [params], n), Exec(Block(OptSeq(ss, []).value), [params], n);
      && SameShape(o, o')
      && (HasStore(o) ==> |o.st| == |o'.st| == 1 && o.st[0].Keys == params.Keys && forall x :: x in o.st[0] ==> x in o'.st[0] && o'.st[0][x] == o.st[0][x])
  {
    hide SeqOk, OptSeq, MentionsIn;
    var st, s := [params], Block(ss);
    assert Inv(st, st, [], [{}], params.Keys) by {
      assert forall x :: Lookup([], x).None?;
      assert forall x :: x in params ==> x in params.Keys;
    }
    assert Clear(Mentions(s), [{}]);
    assert Ready(s, [], st, st, [{}], params.Keys);
    StmtCorrect(s, [], st, st, [{}], params.Keys, n);
  }

  function Const(x: string, k: Kind, v: int): Stmt {
    Decl(Declarator(x, Some(k), Some(Lit(v))))
  }

  function Var(x: string, v: int): Stmt {
    Decl(Declarator(x, None, Some(Lit(v))))
  }

  function ReturnVar(x: string): Stmt {
    Return(Some(Ref(x)))
  }

  lemma Runs(s: Stmt, rest: seq<Stmt>, st: Store, n: nat)
    ensures var o := Exec(s, st, n); ExecSeq([s] + rest, st, n) == if o.Normal? then ExecSeq(rest, o.st, n) else o
  {
    hide Exec;
    assert ([s] + rest)[1..] == rest;
  }

  lemma Steps(s: Stmt, rest: seq<Stmt>, t: Table)
    requires Opt(s, t).Some? && !Terminal(Opt(s, t).value.s) && OptSeq(rest, Opt(s, t).value.t).Some?
    ensures OptSeq([s] + rest, t) == Some([Opt(s, t).value.s] + OptSeq(rest, Opt(s, t).value.t).value)
  {
    assert ([s] + rest)[1..] == rest;
    LiveAll(Opt(s, t).value.s, rest);
  }

  lemma StepsLast(s: Stmt, t: Table)
    requires Opt(s, t).Some?
    ensures OptSeq([s], t) == Some([Opt(s, t).value.s])
  {
    hide Opt;
    var o := Opt(s, t).value;
    assert [s][1..] == [];
    assert |Live(o.s, [])| == 0;
    assert OptSeq(Live(o.s, []), o.t) == Some([]);
    assert [o.s] + [] == [o.s];
  }

  /** A variable that shadows a recorded const is replaced by the const: this returns 5 instead of 7. */
  lemma ShadowedConst(n: nat)
    ensures var inner := [Var("x", 7), ReturnVar("x")];
      var ss := [Const("x", Long, 5), Block(inner)];
      && OptSeq(ss, []).Some?
      && Exec(Block(ss), [map[]], n) == Returned(Some(7), [map[]])
      && Exec(Block(OptSeq(ss, []).value), [map[]], n) == Returned(Some(5), [map[]])
  {
    hide *;
    var a, b, r, r' := Const("x", Long, 5), Var("x", 7), ReturnVar("x"), Return(Some(Lit(5)));
    var t := [ConstEntry("x", 5)];
    OptConst("x", Long, 5);
    OptVar("x", 7, t);
    OptReturnVar("x", 5);
    StepsLast(r, t);
    Steps(b, [r], t);
    assert [b, r] == [b] + [r] && [b, r'] == [b] + [r'];
    OptBlock([b, r], t);
    var inner, inner' := Block([b, r]), Block([b, r']);
    StepsLast(inner, t);
    Steps(a, [inner], []);
    assert [a, inner] == [a] + [inner] && [a, inner'] == [a] + [inner'];
    TwoScopes("x", 5, "x", 7, Ref("x"), n);
    TwoScopes("x", 5, "x", 7, Lit(5), n);
    ReturnsRef("x");
  }

  lemma ReturnsRef(x: string)
    ensures ReturnVar(x) == Return(Some(Ref(x)))
  {
  }

  lemma OptConst(x: string, k: Kind, v: int)
    ensures Opt(Const(x, k, v), []) == Some(OptResult(Const(x, k, v), [ConstEntry(x, v)])) && !Terminal(Const(x, k, v))
  {
    assert [] + [ConstEntry(x, v)] == [ConstEntry(x, v)];
  }

  lemma OptVar(x: string, v: int, t: Table)
    ensures Opt(Var(x, v), t) == Some(OptResult(Var(x, v), t)) && !Terminal(Var(x, v))
  {
  }

  lemma OptReturnVar(x: string, v: int)
    ensures Opt(ReturnVar(x), [ConstEntry(x, v)]) == Some(OptResult(Return(Some(Lit(v))), [ConstEntry(x, v)]))
    ensures Opt(ReturnVar(x), []) == Some(OptResult(ReturnVar(x), []))
  {
    assert Lookup([ConstEntry(x, v)], x) == Some(v);
  }

  lemma OptBlock(ss: seq<Stmt>, t: Table)
    requires OptSeq(ss, t).Some?
    ensures Opt(Block(ss), t) == Some(OptResult(Block(OptSeq(ss, t).value), t)) && !Terminal(Block(OptSeq(ss, t).value))
  {
  }

  /** Two declarations in nested scopes and a return. */
  lemma TwoScopes(x: string, v: int, y: string, w: int, e: Expr, n: nat)
    requires e.Lit? || e == Ref(y)
    ensures Exec(Block([Const(x, Long, v), Block([Var(y, w), Return(Some(e))])]), [map[]], n) == Returned(Some(if e.Lit? then e.v else w), [map[]])
  {
    var a, b, r := Const(x, Long, v), Var(y, w), Return(Some(e));
    var st1: Store := [map[], map[x := Some(v)]];
    var res := Some(if e.Lit? then e.v else w);
    InnerScope(st1, y, w, e, n);
    hide Leave;
    assert Exec(a, [map[], map[]], n) == Normal(st1) by { assert Declare([map[], map[]], x, Some(v)) == st1; }
    hide Exec, Const, Var;
    assert st1[..1] == [map[]];
    Two(a, Block([b, r]), res.value, st1, n);
  }

  lemma BlockRuns(ss: seq<Stmt>, st: Store, n: nat)
    ensures Exec(Block(ss), st, n) == Leave(ExecSeq(ss, Enter(st, map[]), n))
  {
  }

  lemma Leaves(v: Option<int>, st: Store)
    requires st != []
    ensures Leave(Returned(v, st)) == Returned(v, st[..|st| - 1])
  {
  }

  lemma InnerScope(st: Store, y: string, w: int, e: Expr, n: nat)
    requires e.Lit? || e == Ref(y)
    ensures Exec(Block([Var(y, w), Return(Some(e))]), st, n) == Returned(Some(if e.Lit? then e.v else w), st)
  {
    var b, r, st2 := Var(y, w), Return(Some(e)), Enter(st, map[y := Some(w)]);
    var res := Some(if e.Lit? then e.v else w);
    assert Exec(b, Enter(st, map[]), n) == Normal(st2) by { assert Declare(Enter(st, map[]), y, Some(w)) == st2; }
    FindIs(st2, y, |st|);
    assert Exec(r, st2, n) == Returned(res, st2);
    hide Exec, Leave;
    Runs(r, [], st2, n);
    assert [r] + [] == [r];
    Runs(b, [r], Enter(st, map[]), n);
    assert [b] + [r] == [b, r];
    BlockRuns([b, r], st, n);
    Leaves(res, st2);
    assert st2[..|st|] == st;
  }

  /** Code of the form: declaration, statement, return. */
  lemma Three(a: Stmt, b: Stmt, r: Stmt, st1: Store, st2: Store, n: nat)
    requires Exec(a, [map[], map[]], n) == Normal(st1) && Exec(b, st1, n) == Normal(st2)
    ensures Exec(Block([a, b, r]), [map[]], n) == Leave(Exec(r, st2, n))
  {
    Runs(r, [], st2, n);
    assert [r] + [] == [r];
    Runs(b, [r], st1, n);
    assert [b] + [r] == [b, r];
    Runs(a, [b, r], [map[], map[]], n);
    assert [a] + [b, r] == [a, b, r];
    assert Enter([map[]], map[]) == [map[], map[]];
  }

  lemma ThreeOpt(a: Stmt, b: Stmt, r: Stmt, t: Table, a': Stmt, b': Stmt, r': Stmt)
    requires Opt(a, []) == Some(OptResult(a', t)) && Opt(b, t) == Some(OptResult(b', t)) && Opt(r, t) == Some(OptResult(r', t))
    requires !Terminal(a') && !Terminal(b')
    ensures OptSeq([a, b, r], []) == Some([a', b', r'])
  {
    hide *;
    StepsLast(r, t);
    Steps(b, [r], t);
    Steps(a, [b] + [r], []);
    assert [a, b, r] == [a] + ([b] + [r]) && [a', b', r'] == [a'] + ([b'] + [r']);
  }

  lemma NoneOpt(t: Table)
    ensures Opt(Block([]), t) == Some(OptResult(Block([]), t)) && !Terminal(Block([]))
  {
    assert OptSeq([], t) == Some([]);
  }

  /** Returning a variable of the innermost of two scopes. */
  lemma ReturnsVar(x: string, v: int, n: nat)
    ensures Leave(Exec(ReturnVar(x), [map[], map[x := Some(v)]], n)) == Returned(Some(v), [map[]])
  {
    var st: Store := [map[], map[x := Some(v)]];
    FindIs(st, x, 1);
    assert st[..1] == [map[]];
  }

  lemma DeclaresVar(x: string, v: int, f: Frame, n: nat)
    ensures Exec(Var(x, v), [map[], f], n) == Normal([map[], f[x := Some(v)]])
  {
    var st: Store := [map[], f];
    assert Declare(st, x, Some(v)) == [map[], f[x := Some(v)]];
  }

  /** A loop that never runs has no effect in the source program. */
  lemma LoopSkipped(x: string, v: int, st: Store, n: nat)
    ensures Exec(For(InitDecl(Var(x, v)), Some(Lit(0)), None, Block([])), st, n) == Normal(st)
  {
    var loop := For(InitDecl(Var(x, v)), Some(Lit(0)), None, Block([]));
    var st1 := Enter(st, map[x := Some(v)]);
    assert Declare(Enter(st, map[]), x, Some(v)) == st1;
    assert ForLoop(loop, st1, n) == Normal(st1);
    assert st1[..|st|] == st;
  }

  /** The init of a loop that never runs is left in the scope around it: this returns 2 instead of 1. */
  lemma LeakedInit(n: nat)
    ensures var loop := For(InitDecl(Var("x", 2)), Some(Lit(0)), None, Block([]));
      var ss := [Var("x", 1), Block([loop, ReturnVar("x")])];
      && OptSeq(ss, []).Some?
      && Exec(Block(ss), [map[]], n) == Returned(Some(1), [map[]])
      && Exec(Block(OptSeq(ss, []).value), [map[]], n) == Returned(Some(2), [map[]])
  {
    hide *;
    var a, b, r := Var("x", 1), Var("x", 2), ReturnVar("x");
    var loop := For(InitDecl(b), Some(Lit(0)), None, Block([]));
    OptVar("x", 1, []);
    OptVar("x", 2, []);
    OptReturnVar("x", 0);
    LoopRemoved("x", 2);
    StepsLast(r, []);
    Steps(loop, [r], []);
    assert [loop, r] == [loop] + [r] && [b, r] == [b] + [r];
    OptBlock([loop, r], []);
    var inner, inner' := Block([loop, r]), Block([b, r]);
    StepsLast(inner, []);
    Steps(a, [inner], []);
    assert [a, inner] == [a] + [inner] && [a, inner'] == [a] + [inner'];
    var f: Frame := map["x" := Some(1)];
    var st1: Store := [map[], f];
    DeclaresVar("x", 1, map[], n);
    assert map[]["x" := Some(1)] == f;
    AfterLoop("x", 1, 2, n);
    InnerScope(st1, "x", 2, Ref("x"), n);
    ReturnsRef("x");
    assert st1[..1] == [map[]];
    Two(a, inner, 1, st1, n);
    Two(a, inner', 2, st1, n);
  }

  /** Code of the form: declaration, statement that returns. */
  lemma Two(a: Stmt, s: Stmt, v: int, st1: Store, n: nat)
    requires st1 != [] && st1[..|st1| - 1] == [map[]]
    requires Exec(a, [map[], map[]], n) == Normal(st1) && Exec(s, st1, n) == Returned(Some(v), st1)
    ensures Exec(Block([a, s]), [map[]], n) == Returned(Some(v), [map[]])
  {
    hide Exec, Leave;
    Runs(s, [], st1, n);
    assert [s] + [] == [s];
    Runs(a, [s], [map[], map[]], n);
    assert [a] + [s] == [a, s];
    BlockRuns([a, s], [map[]], n);
    assert Enter([map[]], map[]) == [map[], map[]];
    Leaves(Some(v), st1);
  }

  /** A loop that never runs, and a return of a variable from the scope around. */
  lemma AfterLoop(x: string, v: int, w: int, n: nat)
    ensures var st: Store := [map[], map[x := Some(v)]];
      Exec(Block([For(InitDecl(Var(x, w)), Some(Lit(0)), None, Block([])), ReturnVar(x)]), st, n) == Returned(Some(v), st)
  {
    var st: Store := [map[], map[x := Some(v)]];
    var st2 := Enter(st, map[]);
    var loop, r := For(InitDecl(Var(x, w)), Some(Lit(0)), None, Block([])), ReturnVar(x);
    LoopSkipped(x, w, st2, n);
    FindIs(st2, x, 1);
    assert Exec(r, st2, n) == Returned(Some(v), st2);
    hide Exec, Leave;
    Runs(r, [], st2, n);
    assert [r] + [] == [r];
    Runs(loop, [r], st2, n);
    assert [loop] + [r] == [loop, r];
    BlockRuns([loop, r], st, n);
    Leaves(Some(v), st2);
    assert st2[..|st|] == st;
  }

  lemma LoopRemoved(x: string, v: int)
    ensures Opt(For(InitDecl(Var(x, v)), Some(Lit(0)), None, Block([])), []) == Some(OptResult(Var(x, v), []))
  {
    NoneOpt([]);
  }

  lemma DeclaresChar(x: string, n: nat)
    ensures Exec(Const(x, Char(false), 300), [map[], map[]], n) == Normal([map[], map[x := Some(44)]])
  {
    assert Convert(300, Char(false)) == 44;
    assert Declare([map[], map[]], x, Some(44)) == [map[], map[x := Some(44)]];
  }

  /** The table records the initialiser before conversion: a const of type char returns 300 instead of 44. */
  lemma UnfittingConst(n: nat)
    ensures var ss := [Const("c", Char(false), 300), Block([]), ReturnVar("c")];
      && OptSeq(ss, []).Some?
      && Exec(Block(ss), [map[]], n) == Returned(Some(44), [map[]])
      && Exec(Block(OptSeq(ss, []).value), [map[]], n) == Returned(Some(300), [map[]])
  {
    hide *;
    var a, e, r := Const("c", Char(false), 300), Block([]), ReturnVar("c");
    var t, r' := [ConstEntry("c", 300)], Return(Some(Lit(300)));
    OptConst("c", Char(false), 300);
    OptReturnVar("c", 300);
    NoneOpt(t);
    ThreeOpt(a, e, r, t, a, e, r');
    var st1: Store := [map[], map["c" := Some(44)]];
    ReturnsLit(300, st1, n);
    assert st1[..1] == [map[]];
    DeclaresChar("c", n);
    EmptyBlock(st1, n);
    Three(a, e, r, st1, st1, n);
    Three(a, e, r', st1, st1, n);
    ReturnsVar("c", 44, n);
  }

  lemma ReturnsLit(v: int, st: Store, n: nat)
    requires st != []
    ensures Leave(Exec(Return(Some(Lit(v))), st, n)) == Returned(Some(v), st[..|st| - 1])
  {
  }

  /** A declaration removed as unreachable can be jumped over: the case after it loses its variable. */
  lemma RemovedDeclaration(n: nat)
    ensures var use := Use();
      var ss := [Return(None), Decl(Declarator("y", None, None)), use];
      && OptSeq(ss, []) == Some([Return(None), use])
      && Exec(Switch(Lit(1), Block(ss)), [map[]], n) == Returned(Some(3), [map[]])
      && Exec(Switch(Lit(1), Block([Return(None), use])), [map[]], n).Stuck?
  {
    hide *;
    var r0, d := Return(None), Decl(Declarator("y", None, None));
    DropsDeclaration();
    JumpsTo([r0, d, Use()], 2, [map[]], n);
    JumpsTo([r0, Use()], 1, [map[]], n);
    assert [r0, d, Use()][..2] == [r0, d] && [r0, Use()][..1] == [r0];
    SkipsDeclaration();
    UseRuns(n);
  }

  function Use(): Stmt {
    Label(Case(1), Return(Some(Assign("y", Lit(3)))))
  }

  lemma DropsDeclaration()
    ensures OptSeq([Return(None), Decl(Declarator("y", None, None)), Use()], []) == Some([Return(None), Use()])
  {
    hide *;
    var r0, d, use := Return(None), Decl(Declarator("y", None, None)), Use();
    UseStays();
    StepsLast(use, []);
    DropsOne(r0, d, use);
    StepsDead(r0, [d, use], [use], []);
    assert [r0] + [d, use] == [r0, d, use] && [r0] + [use] == [r0, use];
  }

  lemma UseStays()
    ensures Opt(Use(), []) == Some(OptResult(Use(), [])) && Opt(Return(None), []) == Some(OptResult(Return(None), []))
    ensures Terminal(Return(None)) && Use().Label?
  {
  }

  /** A terminal statement and the siblings that stay. */
  lemma StepsDead(s: Stmt, rest: seq<Stmt>, live: seq<Stmt>, t: Table)
    requires Opt(s, t).Some? && Live(Opt(s, t).value.s, rest) == live && OptSeq(live, Opt(s, t).value.t).Some?
    ensures OptSeq([s] + rest, t) == Some([Opt(s, t).value.s] + OptSeq(live, Opt(s, t).value.t).value)
  {
    hide Opt, Live;
    assert ([s] + rest)[1..] == rest;
  }

  lemma DropsOne(s: Stmt, d: Stmt, l: Stmt)
    requires Terminal(s) && !d.Label? && l.Label?
    ensures Live(s, [d, l]) == [l]
  {
    assert [d, l][1..] == [l];
    assert DropDead([l]) == [l];
    assert DropDead([d, l]) == DropDead([l]);
  }

  lemma SkipsDeclaration()
    ensures Skipped([Return(None), Decl(Declarator("y", None, None))]) == map["y" := None]
    ensures Skipped([Return(None)]) == map[]
  {
    var r0, d := Return(None), Decl(Declarator("y", None, None));
    DeclaredOne(d);
    DeclaredOne(r0);
    assert [r0, d][1..] == [d];
    assert DeclaredIn([r0, d]) == {"y"};
  }

  lemma UseRuns(n: nat)
    ensures Unbreak(Leave(Exec(Use(), Enter([map[]], map["y" := None]), n))) == Returned(Some(3), [map[]])
    ensures Unbreak(Leave(Exec(Use(), Enter([map[]], map[]), n))).Stuck?
  {
    var st, st1: Store := [map[], map["y" := None]], [map[], map["y" := Some(3)]];
    FindIs(st, "y", 1);
    assert st[1]["y" := Some(3)] == st1[1] && st[0] == st1[0];
    assert Set(st, "y", 3) == st1;
    assert st1[..1] == [map[]];
    assert Eval(Assign("y", Lit(3)), st) == Val(3, st1);
    assert Exec(Return(Some(Assign("y", Lit(3)))), st, n) == Returned(Some(3), st1);
    var none: Store := [map[], map[]];
    assert Find(none, "y").None?;
    assert Exec(Return(Some(Assign("y", Lit(3)))), none, n).Stuck?;
  }

  lemma JumpsTo(ss: seq<Stmt>, k: nat, st: Store, n: nat)
    requires |ss| == k + 1 && ss[k] == Use() && forall i :: 0 <= i < k ==> !ss[i].Label?
    ensures Exec(Switch(Lit(1), Block(ss)), st, n) == Unbreak(Leave(Exec(Use(), Enter(st, Skipped(ss[..k])), n)))
  {
    AtEnd(ss, k, Case(1));
    hide Position, Skipped, Leave;
    var e := Enter(st, Skipped(ss[..k]));
    assert ss[k..] == [Use()] + [];
    Runs(Use(), [], e, n);
  }

  lemma {:induction false} AtEnd(ss: seq<Stmt>, k: nat, l: CaseLabel)
    requires |ss| == k + 1 && Labelled(ss[k], l) && forall i :: 0 <= i < k ==> !ss[i].Label?
    ensures Position(ss, l) == k
    decreases k
  {
    if k > 0 { assert !Labelled(ss[0], l); AtEnd(ss[1..], k - 1, l); }
  }
}
