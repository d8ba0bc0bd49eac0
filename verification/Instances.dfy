/** The conditions of the main theorems can be met: each is used here on a small program. */
module Instances {
  import opened Options
  import opened Words
  import opened Machine
  import G = Codegen
  import E = ExprTheorem
  import P = ExprPeephole
  import R = CodegenCorrect
  import PR = PeepholeRules
  import O = Optimizer
  import S = Statements
  import K = StatementsOk
  import T = StatementsTheorem
  import M = StatementsMain
  import L = StatementsLimits
  import D = Stores
  import H = AstHeap
  import A = AstSurgery
  import AO = AstOptimize
  import AC = AstOptimizeCode

  // ---------------------------------------------------------------- generated and rewritten code

  const SUM := G.Binary(G.OpAdd, G.Literal(1, G.Int), G.Literal(2, G.Int))

  /** An empty frame with room for a push. */
  function Start(): State {
    State(0, seq(16, k => if k == RSP then 100 else 0), None, map[], [], 0)
  }

  /** The rewritten code of 1 + 2 stops with 3 in eax. */
  lemma SumRuns() returns (t: State)
    ensures Reaches(PR.Peep(G.Gen(SUM, [], 0).value.code), Start(), Done(t)) && R.Represents(t, G.Int, RAX, 3)
  {
    var s := Start();
    assert E.Represented([], map[], s);
    SumValue();
    SumShape();
    hide E.Represented, PR.Peep, Reaches, R.Represents;
    t := P.RewrittenCorrect(SUM, [], 0, s, map[]);
  }

  lemma SumValue()
    ensures G.Eval(SUM, [], map[]) == G.Val(3, map[])
  {
    assert G.BinaryValue(G.OpAdd, G.Int, 1, 2) == G.Number(3);
    hide G.BinaryValue;
  }

  lemma SumShape()
    ensures E.PushDepth(SUM) == 1 && G.Gen(SUM, [], 0).value.next == 0
    ensures G.Declared(SUM, []) && E.WideAssignments(SUM, []) && G.TypeOf(SUM, []) == G.Int
  {
    hide G.BinaryInstrs;
  }

  // ---------------------------------------------------------------- optimised statements

  /** const long x = 5; return x; returns 5 before and after its x is replaced. */
  lemma ConstReturned(n: nat)
    ensures var ss := [L.Const("x", O.Long, 5), L.ReturnVar("x")];
      && S.OptSeq(ss, []) == Some([L.Const("x", O.Long, 5), S.Return(Some(O.Lit(5)))])
      && T.SameShape(S.Exec(S.Block(ss), [map[]], n), S.Exec(S.Block(S.OptSeq(ss, []).value), [map[]], n))
  {
    hide *;
    var a, r, r' := L.Const("x", O.Long, 5), L.ReturnVar("x"), S.Return(Some(O.Lit(5)));
    var t := [O.ConstEntry("x", 5)];
    L.OptConst("x", O.Long, 5);
    L.OptReturnVar("x", 5);
    L.StepsLast(r, t);
    L.Steps(a, [r], []);
    assert [a, r] == [a] + [r] && [a, r'] == [a] + [r'];
    PartsOk();
    LastOk(r, t, {} + S.Declared(a) + {});
    FirstOk(a, [r], [], {}, t);
    var f: D.Frame := map[];
    assert f.Keys == {};
    EmptyOk();
    L.FunctionCorrect([a, r], f, n);
  }

  lemma EmptyOk()
    ensures K.AllOk([map[]])
  {
  }

  lemma PartsOk()
    ensures var a, r := L.Const("x", O.Long, 5), L.ReturnVar("x");
      K.StmtOk(a, [], {}) && K.StmtOk(r, [O.ConstEntry("x", 5)], {} + S.Declared(a) + {}) && !a.Label? && !r.Label?
  {
  }

  lemma FirstOk(s: S.Stmt, rest: seq<S.Stmt>, t: O.Table, vis: set<string>, t': O.Table)
    requires K.StmtOk(s, t, vis) && !s.Label? && S.Opt(s, t) == Some(S.OptResult(s, t')) && !S.Terminal(s)
    requires K.SeqOk(rest, t', vis + S.Declared(s) + {}, false)
    ensures K.SeqOk([s] + rest, t, vis, false)
  {
    assert ([s] + rest)[1..] == rest;
    M.LiveAll(s, rest);
    hide K.StmtOk, S.Opt, S.Live, K.Gone, S.DeclaredIn;
  }

  lemma LastOk(s: S.Stmt, t: O.Table, vis: set<string>)
    requires K.StmtOk(s, t, vis) && !s.Label? && S.Opt(s, t).Some?
    ensures K.SeqOk([s], t, vis, false)
  {
    hide K.StmtOk, S.Opt, O.Optimize;
    assert [s][1..] == [];
    assert K.Gone(S.Opt(s, t).value.s, []) == [];
    assert S.Live(S.Opt(s, t).value.s, []) == [];
  }

  // ---------------------------------------------------------------- nodes on the heap

  /** 2 + 3 is built, folded and freed: one literal node is left. */
  method FoldsOnHeap() returns (h: H.Heap<AO.Tag>, r: H.Addr)
    ensures fresh(h) && h.nodes == map[r := H.Node(AO.TLit(5), [])]
  {
    h := new H.Heap();
    var a := h.New(AO.TBinary(G.OpAdd));
    var x := h.New(AO.TLit(2));
    var y := h.New(AO.TLit(3));
    h.AddChild(a, x);
    h.AddChild(a, y);
    ghost var l, k := H.Tree(x, AO.TLit(2), []), H.Tree(y, AO.TLit(3), []);
    ghost var t := H.Tree(a, AO.TBinary(G.OpAdd), [Some(l), Some(k)]);
    ghost var t';
    SumOwned(h.nodes, t, l, k);
    SumFolds(t, l, k);
    hide AO.IsExpr, AO.ExprOf, H.Owns, O.Optimize;
    ghost var h0, n0 := h.nodes, h.next;
    assert h0.Keys == {a, x, y};
    r, t' := AC.OptimizeExpr(h, a, [], t);
    LiteralLeft(h0, n0, h.nodes, h.next, t, t');
  }

  lemma SumOwned(h: H.Nodes<AO.Tag>, t: H.Tree<AO.Tag>, l: H.Tree<AO.Tag>, k: H.Tree<AO.Tag>)
    requires t.kids == [Some(l), Some(k)] && t.at != l.at && t.at != k.at && l.at != k.at && l.kids == [] && k.kids == []
    requires t.at in h && l.at in h && k.at in h
    requires h[t.at] == H.Node(t.tag, [Some(l.at), Some(k.at)]) && h[l.at] == H.Node(l.tag, []) && h[k.at] == H.Node(k.tag, [])
    ensures H.Owns(h, t) && H.Ids(t) == {t.at, l.at, k.at}
  {
    A.LeafOwned(h, l);
    A.LeafOwned(h, k);
    A.TwoKids(h, t.kids);
    H.OwnsParts(h, t);
    hide H.Owns, H.OwnsAll, H.Ids, H.IdsAll;
    assert H.Links(t.kids) == [Some(l.at), Some(k.at)];
  }

  lemma SumFolds(t: H.Tree<AO.Tag>, l: H.Tree<AO.Tag>, k: H.Tree<AO.Tag>)
    requires t == H.Tree(t.at, AO.TBinary(G.OpAdd), [Some(l), Some(k)]) && l == H.Tree(l.at, AO.TLit(2), []) && k == H.Tree(k.at, AO.TLit(3), [])
    ensures AO.IsExpr(t) && O.Optimize(AO.ExprOf(t), []) == Some(O.Lit(5))
  {
    AC.LeafExpr(l.at, 2);
    AC.LeafExpr(k.at, 3);
    AC.PairExpr(t.at, G.OpAdd, l, k);
    hide AO.IsExpr, AO.ExprOf;
    FiveFolds();
  }

  lemma FiveFolds()
    ensures O.Optimize(O.Binary(G.OpAdd, O.Lit(2), O.Lit(3)), []) == Some(O.Lit(5))
  {
    FiveSum();
    hide O.FoldBinary;
  }

  lemma FiveSum()
    ensures O.FoldBinary(G.OpAdd, 2, 3) == O.Folded(5)
  {
    Pow2Values();
  }

  lemma LiteralLeft(h0: H.Nodes<AO.Tag>, n0: H.Addr, h: H.Nodes<AO.Tag>, n: H.Addr, t: H.Tree<AO.Tag>, t': H.Tree<AO.Tag>)
    requires AC.Yields(h0, n0, h, n, t, t', Some(O.Lit(5))) && h0.Keys == H.Ids(t)
    ensures h == map[t'.at := H.Node(AO.TLit(5), [])]
  {
    AO.TagTells(t');
    H.OwnsParts(h, t');
    assert t'.kids == [] && H.IdsAll(t'.kids) == {};
    assert h.Keys == {t'.at};
    assert forall x :: x in h ==> x == t'.at;
  }
}
