/** The code of optimize_stmt over heap nodes (src/optimize.c). */
module AstStatementsCode {
  import opened Options
  import opened AstHeap
  import opened AstSurgery
  import opened AstOptimize
  import opened AstOptimizeCode
  import opened Optimizer
  import opened Statements
  import opened AstStatements

  /** t has become a tree for the optimised statement, with the table it leaves. */
  ghost predicate YieldsStmt(h: Nodes<Tag>, n: Addr, h': Nodes<Tag>, n': Addr, t: Tree<Tag>, t': Tree<Tag>, table': Table, o: Option<OptResult>) {
    Becomes(h, n, h', n', t, t') && IsStmt(t') && Some(OptResult(StmtOf(t'), table')) == o
  }

  // ---------------------------------------------------------------- children

  method ExprKid(h: Heap<Tag>, a: Addr, i: nat, table: Table, ghost t: Tree<Tag>) returns (ghost k: Tree<Tag>, ghost t': Tree<Tag>)
    requires h.Valid() && Owns(h.nodes, t) && t.at == a && i < |t.kids| && IsKid(t.kids[i]) && Optimize(KidOf(t.kids[i]), table).Some?
    modifies h
    ensures h.Valid() && t' == WithKid(t, i, Some(k)) && IsExpr(k) && IsKid(Some(k)) && Some(KidOf(Some(k))) == Optimize(KidOf(t.kids[i]), table)
    ensures Becomes(old(h.nodes), old(h.next), h.nodes, h.next, t, t')
  {
    ghost var h1, n1, kid := h.nodes, h.next, t.kids[i].value;
    KidIs(kid);
    TagOfKid(h1, t, i);
    hide Optimize, Owns, IsExpr, ExprOf;
    var b;
    b, k := OptimizeExpr(h, h.nodes[a].kids[i].value, table, kid);
    BecomesKid(h1, n1, h.nodes, h.next, t, i, kid, k);
    h.SetKid(a, i, Some(b));
    t' := WithKid(t, i, Some(k));
    KidIs(k);
  }

  method StmtKid(h: Heap<Tag>, a: Addr, i: nat, table: Table, ghost t: Tree<Tag>, ghost kid: Tree<Tag>) returns (table': Table, ghost k: Tree<Tag>, ghost t': Tree<Tag>)
    requires h.Valid() && Owns(h.nodes, t) && t.at == a && i < |t.kids| && t.kids[i] == Some(kid) && IsStmt(kid) && Opt(StmtOf(kid), table).Some?
    modifies h
    ensures h.Valid() && t' == WithKid(t, i, Some(k)) && IsStmt(k) && IsSub(Some(k)) && SubOf(Some(k)) == StmtOf(k) && Some(OptResult(StmtOf(k), table')) == Opt(StmtOf(kid), table)
    ensures Becomes(old(h.nodes), old(h.next), h.nodes, h.next, t, t')
    decreases kid, 3
  {
    ghost var h1, n1 := h.nodes, h.next;
    TagOfKid(h1, t, i);
    hide Opt, Owns, IsStmt, StmtOf;
    var b;
    b, table', k := OptimizeStmt(h, h.nodes[a].kids[i].value, table, kid);
    BecomesKid(h1, n1, h.nodes, h.next, t, i, kid, k);
    h.SetKid(a, i, Some(b));
    t' := WithKid(t, i, Some(k));
    SubIs(k);
  }

  // ---------------------------------------------------------------- declarations

  method OptimizeDecl(h: Heap<Tag>, a: Addr, table: Table, ghost t: Tree<Tag>) returns (ghost t': Tree<Tag>)
    requires h.Valid() && Owns(h.nodes, t) && t.at == a && IsDecl(t) && OptDeclarator(DeclOf(t), table).Some?
    modifies h
    ensures h.Valid() && t'.at == a && IsDecl(t') && Some(DeclOf(t')) == OptDeclarator(DeclOf(t), table)
    ensures Becomes(old(h.nodes), old(h.next), h.nodes, h.next, t, t')
  {
    OwnsParts(h.nodes, t);
    t' := t;
    if |h.nodes[a].kids| > 0 {
      KidIs(t.kids[0].value);
      ghost var k;
      k, t' := ExprKid(h, a, 0, table, t);
      KidIs(k);
    } else {
      BecomesSelf(h.nodes, h.next, t);
    }
  }

  lemma DeclsAt(ks: seq<Option<Tree<Tag>>>, table: Table, i: nat)
    requires AreDecls(ks) && OptDeclarators(DeclsOf(ks), table).Some? && i < |ks|
    ensures OptDeclarator(DeclOf(ks[i].value), table).Some?
    decreases i
  {
    hide DeclOf, IsDecl, OptDeclarator;
    if i > 0 {
      assert DeclsOf(ks)[1..] == DeclsOf(ks[1..]);
      DeclsAt(ks[1..], table, i - 1);
    }
  }

  lemma {:induction false} DeclsDone(ks: seq<Option<Tree<Tag>>>, ks': seq<Option<Tree<Tag>>>, table: Table)
    requires AreDecls(ks) && AreDecls(ks') && |ks| == |ks'|
    requires forall i :: 0 <= i < |ks| ==> Some(DeclOf(ks'[i].value)) == OptDeclarator(DeclOf(ks[i].value), table)
    ensures OptDeclarators(DeclsOf(ks), table) == Some(DeclsOf(ks'))
    decreases |ks|
  {
    hide ExprOf, IsDecl, OptDeclarator;
    if ks != [] {
      assert DeclsOf(ks)[1..] == DeclsOf(ks[1..]) && DeclsOf(ks')[1..] == DeclsOf(ks'[1..]);
      assert forall i :: 0 <= i < |ks[1..]| ==> ks[1..][i] == ks[i + 1] && ks'[1..][i] == ks'[i + 1];
      DeclsDone(ks[1..], ks'[1..], table);
      assert DeclsOf(ks') == [DeclsOf(ks')[0]] + DeclsOf(ks')[1..];
    }
  }

  /** Part of the declarators are done. */
  ghost predicate DeclsUpTo(t: Tree<Tag>, t1: Tree<Tag>, i: nat, table: Table) {
    && t1.at == t.at && t1.tag == t.tag && |t1.kids| == |t.kids| && i <= |t.kids| && AreDecls(t.kids)
    && (forall j :: 0 <= j < i ==> t1.kids[j].Some? && IsDecl(t1.kids[j].value) && Some(DeclOf(t1.kids[j].value)) == OptDeclarator(DeclOf(t.kids[j].value), table))
    && (forall j :: i <= j < |t.kids| ==> t1.kids[j] == t.kids[j])
  }

  method OptimizeOneDecl(h: Heap<Tag>, a: Addr, i: nat, table: Table, ghost t: Tree<Tag>, ghost t1: Tree<Tag>) returns (ghost t2: Tree<Tag>)
    requires h.Valid() && Owns(h.nodes, t1) && t1.at == a && DeclsUpTo(t, t1, i, table) && i < |t.kids| && OptDeclarator(DeclOf(t.kids[i].value), table).Some?
    modifies h
    ensures h.Valid() && DeclsUpTo(t, t2, i + 1, table) && Becomes(old(h.nodes), old(h.next), h.nodes, h.next, t1, t2)
  {
    ghost var h1, n1, d := h.nodes, h.next, t1.kids[i].value;
    TagOfKid(h1, t1, i);
    var b := h.nodes[a].kids[i].value;
    ghost var d' := OptimizeDecl(h, b, table, d);
    BecomesKid(h1, n1, h.nodes, h.next, t1, i, d, d');
    h.SetKid(a, i, Some(b));
    t2 := WithKid(t1, i, Some(d'));
  }

  /** Each declarator of a list is optimised; none is recorded. */
  method OptimizeDecls(h: Heap<Tag>, a: Addr, table: Table, ghost t: Tree<Tag>) returns (ghost t': Tree<Tag>)
    requires h.Valid() && Owns(h.nodes, t) && t.at == a && t.tag.TDeclList? && AreDecls(t.kids) && OptDeclarators(DeclsOf(t.kids), table).Some?
    modifies h
    ensures h.Valid() && t'.at == a && t'.tag.TDeclList? && AreDecls(t'.kids) && OptDeclarators(DeclsOf(t.kids), table) == Some(DeclsOf(t'.kids))
    ensures Becomes(old(h.nodes), old(h.next), h.nodes, h.next, t, t')
  {
    ghost var h0, n0 := h.nodes, h.next;
    OwnsParts(h0, t);
    BecomesSelf(h0, n0, t);
    t' := t;
    var i, n := 0, |h.nodes[a].kids|;
    hide Owns;
    while i < n
      invariant 0 <= i <= n == |t.kids| && h.Valid() && DeclsUpTo(t, t', i, table) && Becomes(h0, n0, h.nodes, h.next, t, t')
    {
      ghost var h1, n1, t1 := h.nodes, h.next, t';
      DeclsAt(t.kids, table, i);
      t' := OptimizeOneDecl(h, a, i, table, t, t');
      BecomesThen(h0, n0, h1, n1, h.nodes, h.next, t, t1, t');
      i := i + 1;
    }
    DeclsDone(t.kids, t'.kids, table);
  }

  /** A declaration statement, with recording of consts. */
  method DeclStatement(h: Heap<Tag>, a: Addr, table: Table, ghost t: Tree<Tag>) returns (table': Table, ghost t': Tree<Tag>)
    requires h.Valid() && Owns(h.nodes, t) && t.at == a && IsDecl(t) && OptDecl(DeclOf(t), table).Some?
    modifies h
    ensures h.Valid() && t'.at == a && IsDecl(t') && Some(OptResult(Decl(DeclOf(t')), table')) == OptDecl(DeclOf(t), table)
    ensures Becomes(old(h.nodes), old(h.next), h.nodes, h.next, t, t')
  {
    t' := OptimizeDecl(h, a, table, t);
    OwnsParts(h.nodes, t');
    table' := table;
    var node := h.nodes[a];
    if node.tag.const_.Some? && |node.kids| > 0 && |table| < CONST_PROP_MAX {
      TagOfKid(h.nodes, t', 0);
      TagTells(t'.kids[0].value);
      var k := KidTag(h, a, 0);
      if k.TLit? { table' := table + [ConstEntry(node.tag.x, k.v)]; }
    }
  }

  // ---------------------------------------------------------------- the init of a for loop

  /** An expression in statement position: its operands are optimised, it is not. */
  method OptimizeOperands(h: Heap<Tag>, a: Addr, table: Table, ghost t: Tree<Tag>) returns (ghost t': Tree<Tag>)
    requires h.Valid() && Owns(h.nodes, t) && t.at == a && IsExpr(t) && OptOperands(ExprOf(t), table).Some?
    modifies h
    ensures h.Valid() && t'.at == a && IsExpr(t') && Some(ExprOf(t')) == OptOperands(ExprOf(t), table)
    ensures Becomes(old(h.nodes), old(h.next), h.nodes, h.next, t, t')
  {
    ghost var h0, n0 := h.nodes, h.next;
    KidsAreOperands(t);
    OwnsParts(h0, t);
    BecomesSelf(h0, n0, t);
    t' := t;
    var i, n := 0, |h.nodes[a].kids|;
    while i < n
      invariant 0 <= i <= n == |t.kids| && h.Valid() && OpsUpTo(t, t', i, table) && Becomes(h0, n0, h.nodes, h.next, t, t')
    {
      ghost var h1, n1, t1 := h.nodes, h.next, t';
      OperandsAll(ExprOf(t), table, i);
      KidIs(t.kids[i].value);
      ghost var k;
      k, t' := ExprKid(h, a, i, table, t');
      KidIs(k);
      BecomesThen(h0, n0, h1, n1, h.nodes, h.next, t, t1, t');
      i := i + 1;
    }
    ExprFromKids(t, t');
    KidsAreOperands(t');
    OperandsDone(ExprOf(t), ExprOf(t'), table);
  }

  ghost predicate OpsUpTo(t: Tree<Tag>, t1: Tree<Tag>, i: nat, table: Table) {
    && IsExpr(t) && t1.at == t.at && t1.tag == t.tag && |t1.kids| == |t.kids| == |Operands(ExprOf(t))| && i <= |t.kids|
    && (forall j :: 0 <= j < i ==> t1.kids[j].Some? && IsExpr(t1.kids[j].value) && Some(ExprOf(t1.kids[j].value)) == Optimize(Operands(ExprOf(t))[j], table))
    && (forall j :: i <= j < |t.kids| ==> t1.kids[j] == t.kids[j])
  }

  lemma OperandsAll(e: Expr, table: Table, i: nat)
    requires OptOperands(e, table).Some? && i < |Operands(e)|
    ensures Optimize(Operands(e)[i], table).Some?
  {
    hide Optimize;
  }

  lemma OperandsDone(e: Expr, f: Expr, table: Table)
    requires SameNode(e, f) && |Operands(e)| == |Operands(f)|
    requires forall i :: 0 <= i < |Operands(e)| ==> Optimize(Operands(e)[i], table) == Some(Operands(f)[i])
    ensures OptOperands(e, table) == Some(f)
  {
    hide Optimize;
    assert |Operands(e)| > 0 ==> Optimize(Operands(e)[0], table) == Some(Operands(f)[0]);
    assert |Operands(e)| > 1 ==> Optimize(Operands(e)[1], table) == Some(Operands(f)[1]);
    assert |Operands(e)| > 2 ==> Optimize(Operands(e)[2], table) == Some(Operands(f)[2]);
  }

  method OptimizeInit(h: Heap<Tag>, a: Addr, table: Table, ghost t: Tree<Tag>) returns (table': Table, ghost t': Tree<Tag>)
    requires h.Valid() && Owns(h.nodes, t) && t.at == a && IsInit(Some(t)) && OptInit(InitOf(Some(t)), table).Some?
    modifies h
    ensures h.Valid() && t'.at == a && IsInit(Some(t')) && Some(OptInitResult(InitOf(Some(t')), table')) == OptInit(InitOf(Some(t)), table)
    ensures Becomes(old(h.nodes), old(h.next), h.nodes, h.next, t, t')
  {
    OwnsParts(h.nodes, t);
    table' := table;
    var tag := h.nodes[a].tag;
    if tag.TDecl? {
      table', t' := DeclStatement(h, a, table, t);
    } else if tag.TDeclList? {
      t' := OptimizeDecls(h, a, table, t);
    } else {
      t' := OptimizeOperands(h, a, table, t);
    }
  }

  // ---------------------------------------------------------------- statements

  lemma SubKid(t: Tree<Tag>, i: nat)
    requires i < |t.kids| && IsSub(t.kids[i])
    ensures t.kids[i].Some? && IsStmt(t.kids[i].value) && SubOf(t.kids[i]) == StmtOf(t.kids[i].value) && t.kids[i].value < t
  {
    var k := t.kids[i];
    assert k < t;
    SubIs(k.value);
  }

  lemma EmptyBlock(a: Addr)
    ensures IsStmt(Tree(a, TBlock, [])) && StmtOf(Tree(a, TBlock, [])) == Block([])
  {
  }

  /** optimize_stmt: the result means the optimised statement; every node is in it once or freed. */
  method OptimizeStmt(h: Heap<Tag>, a: Addr, table: Table, ghost t: Tree<Tag>) returns (r: Addr, table': Table, ghost t': Tree<Tag>)
    requires h.Valid() && Owns(h.nodes, t) && t.at == a && IsStmt(t) && Opt(StmtOf(t), table).Some?
    modifies h
    ensures h.Valid() && t'.at == r && YieldsStmt(old(h.nodes), old(h.next), h.nodes, h.next, t, t', table', Opt(StmtOf(t), table))
    decreases t, 2
  {
    OwnsParts(h.nodes, t);
    r, table', t' := a, table, t;
    var tag := h.nodes[a].tag;
    hide Owns;
    if tag.TBlock? {
      t' := BlockNode(h, a, table, t);
    } else if tag.TIf? {
      r, table', t' := IfNode(h, a, table, t);
    } else if tag.TWhile? {
      r, table', t' := WhileNode(h, a, table, t);
    } else if tag.TDo? {
      table', t' := DoNode(h, a, table, t);
    } else if tag.TFor? {
      r, table', t' := ForNode(h, a, table, t);
    } else if tag.TSwitch? {
      table', t' := SwitchNode(h, a, table, t);
    } else if tag.TLabel? {
      SubKid(t, 0);
      ghost var k;
      table', k, t' := StmtKid(h, a, 0, table, t, t.kids[0].value);
    } else if tag.TReturn? || tag.TExprStmt? {
      if |h.nodes[a].kids| > 0 {
        ghost var k;
        k, t' := ExprKid(h, a, 0, table, t);
      } else {
        BecomesSelf(h.nodes, h.next, t);
      }
    } else if tag.TDecl? {
      table', t' := DeclStatement(h, a, table, t);
    } else if tag.TDeclList? {
      t' := OptimizeDecls(h, a, table, t);
    } else {
      BecomesSelf(h.nodes, h.next, t);
    }
  }

  lemma OptIf(s: Stmt, table: Table)
    requires s.If? && Opt(s, table).Some?
    ensures Optimize(s.c, table).Some? && Opt(s.yes, table).Some?
    ensures var t1 := Opt(s.yes, table).value.t;
      && (s.no.Some? ==> Opt(s.no.value, t1).Some?)
      && var c, y := Optimize(s.c, table).value, Opt(s.yes, table).value.s;
         var n := if s.no.Some? then Opt(s.no.value, t1).value else OptResult(Block([]), t1);
         Opt(s, table).value == OptResult(if c.Lit? then (if c.v != 0 then y else n.s) else If(c, y, if s.no.Some? then Some(n.s) else None), n.t)
  {
    hide Optimize;
  }

  method IfNode(h: Heap<Tag>, a: Addr, table: Table, ghost t: Tree<Tag>) returns (r: Addr, table': Table, ghost t': Tree<Tag>)
    requires h.Valid() && Owns(h.nodes, t) && t.at == a && IsStmt(t) && t.tag.TIf? && Opt(StmtOf(t), table).Some?
    modifies h
    ensures h.Valid() && t'.at == r && YieldsStmt(old(h.nodes), old(h.next), h.nodes, h.next, t, t', table', Opt(StmtOf(t), table))
    decreases t, 1
  {
    hide Opt, Optimize, Owns, IsStmt, StmtOf, IsExpr, ExprOf;
    ghost var h0, n0, s := h.nodes, h.next, StmtOf(t);
    IfShape(t);
    OptIf(s, table);
    OwnsParts(h0, t);
    SubKid(t, 1);
    var count := |h.nodes[a].kids|;
    ghost var c, t1 := ExprKid(h, a, 0, table, t);
    ghost var h1, n1 := h.nodes, h.next;
    ghost var y, t2;
    table', y, t2 := StmtKid(h, a, 1, table, t1, t.kids[1].value);
    BecomesThen(h0, n0, h1, n1, h.nodes, h.next, t, t1, t2);
    if count > 2 {
      SubKid(t, 2);
      ghost var h2, n2, t0, m := h.nodes, h.next, t2, y;
      table', m, t2 := StmtKid(h, a, 2, table', t2, t.kids[2].value);
      BecomesThen(h0, n0, h2, n2, h.nodes, h.next, t, t0, t2);
    }
    TagOfKid(h.nodes, t2, 0);
    KidIs(c);
    TagTells(c);
    var cond := KidTag(h, a, 0);
    if cond.TLit? {
      ghost var h3, n3 := h.nodes, h.next;
      if cond.v != 0 {
        r, t' := KeepKid(h, a, 1, t2);
      } else if count > 2 {
        r, t' := KeepKid(h, a, 2, t2);
      } else {
        r, t' := ReplaceByLeaf(h, a, TBlock, t2);
        EmptyBlock(r);
      }
      BecomesThen(h0, n0, h3, n3, h.nodes, h.next, t, t2, t');
    } else {
      r, t' := a, t2;
      IfMeans(t2);
    }
  }

  lemma IfShape(t: Tree<Tag>)
    requires IsStmt(t) && t.tag.TIf?
    ensures (|t.kids| == 2 || |t.kids| == 3) && IsKid(t.kids[0]) && IsSub(t.kids[1]) && (|t.kids| == 3 ==> IsSub(t.kids[2]))
    ensures StmtOf(t) == If(KidOf(t.kids[0]), SubOf(t.kids[1]), if |t.kids| == 3 then Some(SubOf(t.kids[2])) else None)
  {
  }

  lemma IfMeans(t: Tree<Tag>)
    requires t.tag.TIf? && (|t.kids| == 2 || |t.kids| == 3) && IsKid(t.kids[0]) && IsSub(t.kids[1]) && (|t.kids| == 3 ==> IsSub(t.kids[2]))
    ensures IsStmt(t) && StmtOf(t) == If(KidOf(t.kids[0]), SubOf(t.kids[1]), if |t.kids| == 3 then Some(SubOf(t.kids[2])) else None)
  {
  }

  lemma OptWhile(s: Stmt, table: Table)
    requires (s.While? || s.Switch?) && Opt(s, table).Some?
    ensures Optimize(s.c, table).Some? && Opt(s.body, table).Some?
    ensures var c, b := Optimize(s.c, table).value, Opt(s.body, table).value;
      Opt(s, table).value == OptResult(if s.Switch? then Switch(c, b.s) else if IsZero(c) then Block([]) else While(c, b.s), b.t)
  {
    hide Optimize;
  }

  method WhileNode(h: Heap<Tag>, a: Addr, table: Table, ghost t: Tree<Tag>) returns (r: Addr, table': Table, ghost t': Tree<Tag>)
    requires h.Valid() && Owns(h.nodes, t) && t.at == a && IsStmt(t) && t.tag.TWhile? && Opt(StmtOf(t), table).Some?
    modifies h
    ensures h.Valid() && t'.at == r && YieldsStmt(old(h.nodes), old(h.next), h.nodes, h.next, t, t', table', Opt(StmtOf(t), table))
    decreases t, 1
  {
    ghost var h0, n0, s := h.nodes, h.next, StmtOf(t);
    OptWhile(s, table);
    SubKid(t, 1);
    hide Opt, Optimize, Owns;
    ghost var c, t1 := ExprKid(h, a, 0, table, t);
    ghost var h1, n1 := h.nodes, h.next;
    ghost var b, t2;
    table', b, t2 := StmtKid(h, a, 1, table, t1, t.kids[1].value);
    BecomesThen(h0, n0, h1, n1, h.nodes, h.next, t, t1, t2);
    TagOfKid(h.nodes, t2, 0);
    KidIs(c);
    TagTells(c);
    var cond := KidTag(h, a, 0);
    if cond == TLit(0) {
      ghost var h3, n3 := h.nodes, h.next;
      r, t' := ReplaceByLeaf(h, a, TBlock, t2);
      EmptyBlock(r);
      BecomesThen(h0, n0, h3, n3, h.nodes, h.next, t, t2, t');
    } else {
      r, t' := a, t2;
    }
  }

  method SwitchNode(h: Heap<Tag>, a: Addr, table: Table, ghost t: Tree<Tag>) returns (table': Table, ghost t': Tree<Tag>)
    requires h.Valid() && Owns(h.nodes, t) && t.at == a && IsStmt(t) && t.tag.TSwitch? && Opt(StmtOf(t), table).Some?
    modifies h
    ensures h.Valid() && t'.at == a && YieldsStmt(old(h.nodes), old(h.next), h.nodes, h.next, t, t', table', Opt(StmtOf(t), table))
    decreases t, 1
  {
    ghost var h0, n0, s := h.nodes, h.next, StmtOf(t);
    OptWhile(s, table);
    SubKid(t, 1);
    hide Opt, Optimize, Owns;
    ghost var c, t1 := ExprKid(h, a, 0, table, t);
    ghost var h1, n1 := h.nodes, h.next;
    ghost var b;
    table', b, t' := StmtKid(h, a, 1, table, t1, t.kids[1].value);
    BecomesThen(h0, n0, h1, n1, h.nodes, h.next, t, t1, t');
  }

  lemma OptDo(s: Stmt, table: Table)
    requires s.DoWhile? && Opt(s, table).Some?
    ensures Opt(s.body, table).Some? && Optimize(s.c, Opt(s.body, table).value.t).Some?
    ensures var b := Opt(s.body, table).value; Opt(s, table).value == OptResult(DoWhile(b.s, Optimize(s.c, b.t).value), b.t)
  {
    hide Optimize;
  }

  method DoNode(h: Heap<Tag>, a: Addr, table: Table, ghost t: Tree<Tag>) returns (table': Table, ghost t': Tree<Tag>)
    requires h.Valid() && Owns(h.nodes, t) && t.at == a && IsStmt(t) && t.tag.TDo? && Opt(StmtOf(t), table).Some?
    modifies h
    ensures h.Valid() && t'.at == a && YieldsStmt(old(h.nodes), old(h.next), h.nodes, h.next, t, t', table', Opt(StmtOf(t), table))
    decreases t, 1
  {
    ghost var h0, n0, s := h.nodes, h.next, StmtOf(t);
    OptDo(s, table);
    SubKid(t, 0);
    hide Opt, Optimize, Owns;
    ghost var b, t1;
    table', b, t1 := StmtKid(h, a, 0, table, t, t.kids[0].value);
    ghost var h1, n1, c := h.nodes, h.next, b;
    c, t' := ExprKid(h, a, 1, table', t1);
    BecomesThen(h0, n0, h1, n1, h.nodes, h.next, t, t1, t');
  }

  // ---------------------------------------------------------------- for

  lemma OptFor(s: Stmt, table: Table)
    requires s.For? && Opt(s, table).Some?
    ensures OptInit(s.init, table).Some?
    ensures var i := OptInit(s.init, table).value;
      && OptMaybe(s.cond, i.t).Some? && OptMaybe(s.step, i.t).Some? && Opt(s.body, i.t).Some?
      && var c, p, b := OptMaybe(s.cond, i.t).value, OptMaybe(s.step, i.t).value, Opt(s.body, i.t).value;
         Opt(s, table).value == OptResult(if c == Some(Lit(0)) then InitOnly(i.init) else For(i.init, c, p, b.s), b.t)
  {
    hide Optimize;
  }

  /** An optional expression in slot i. */
  method MaybeKid(h: Heap<Tag>, a: Addr, i: nat, table: Table, ghost t: Tree<Tag>) returns (ghost k: Option<Tree<Tag>>, ghost t': Tree<Tag>)
    requires h.Valid() && Owns(h.nodes, t) && t.at == a && i < |t.kids| && MaybeExpr(t.kids[i]) && OptMaybe(MaybeOf(t.kids[i]), table).Some?
    modifies h
    ensures h.Valid() && t' == WithKid(t, i, k) && MaybeExpr(k) && Some(MaybeOf(k)) == OptMaybe(MaybeOf(t.kids[i]), table)
    ensures Becomes(old(h.nodes), old(h.next), h.nodes, h.next, t, t')
  {
    OwnsParts(h.nodes, t);
    hide Optimize, Owns;
    if h.nodes[a].kids[i].Some? {
      KidIs(t.kids[i].value);
      ghost var e;
      e, t' := ExprKid(h, a, i, table, t);
      KidIs(e);
      k := Some(e);
    } else {
      k, t' := None, t;
      assert t.kids[i := None] == t.kids;
      BecomesSelf(h.nodes, h.next, t);
    }
  }

  method InitKid(h: Heap<Tag>, a: Addr, table: Table, ghost t: Tree<Tag>) returns (table': Table, ghost k: Option<Tree<Tag>>, ghost t': Tree<Tag>)
    requires h.Valid() && Owns(h.nodes, t) && t.at == a && |t.kids| == 4 && IsInit(t.kids[0]) && OptInit(InitOf(t.kids[0]), table).Some?
    modifies h
    ensures h.Valid() && t' == WithKid(t, 0, k) && IsInit(k) && Some(OptInitResult(InitOf(k), table')) == OptInit(InitOf(t.kids[0]), table)
    ensures Becomes(old(h.nodes), old(h.next), h.nodes, h.next, t, t')
  {
    ghost var h1, n1 := h.nodes, h.next;
    OwnsParts(h1, t);
    hide Owns, OptInit;
    if h.nodes[a].kids[0].Some? {
      ghost var kid := t.kids[0].value;
      TagOfKid(h1, t, 0);
      var b := h.nodes[a].kids[0].value;
      ghost var kid';
      table', kid' := OptimizeInit(h, b, table, kid);
      BecomesKid(h1, n1, h.nodes, h.next, t, 0, kid, kid');
      h.SetKid(a, 0, Some(b));
      k, t' := Some(kid'), WithKid(t, 0, Some(kid'));
    } else {
      table', k, t' := table, None, t;
      NoInitDone(table);
      assert t.kids[0 := None] == t.kids;
      BecomesSelf(h.nodes, h.next, t);
    }
  }

  lemma NoInitDone(table: Table)
    ensures OptInit(NoInit, table) == Some(OptInitResult(NoInit, table))
  {
  }

  method ForNode(h: Heap<Tag>, a: Addr, table: Table, ghost t: Tree<Tag>) returns (r: Addr, table': Table, ghost t': Tree<Tag>)
    requires h.Valid() && Owns(h.nodes, t) && t.at == a && IsStmt(t) && t.tag.TFor? && Opt(StmtOf(t), table).Some?
    modifies h
    ensures h.Valid() && t'.at == r && YieldsStmt(old(h.nodes), old(h.next), h.nodes, h.next, t, t', table', Opt(StmtOf(t), table))
    decreases t, 1
  {
    hide Opt, Optimize, Owns, OptInit, OptMaybe, IsStmt, StmtOf, IsExpr, ExprOf, InitOf, IsInit, MaybeOf, MaybeExpr, Becomes;
    ghost var h0, n0, s := h.nodes, h.next, StmtOf(t);
    ForShape(t);
    OptFor(s, table);
    SubKid(t, 3);
    var table1;
    ghost var i, c, p, b, t1, t2, t3, t4;
    table1, i, t1 := InitKid(h, a, table, t);
    ghost var h1, n1 := h.nodes, h.next;
    BecomesOwns(h0, n0, h1, n1, t, t1);
    c, t2 := MaybeKid(h, a, 1, table1, t1);
    BecomesThen(h0, n0, h1, n1, h.nodes, h.next, t, t1, t2);
    ghost var h2, n2 := h.nodes, h.next;
    BecomesOwns(h0, n0, h2, n2, t, t2);
    p, t3 := MaybeKid(h, a, 2, table1, t2);
    BecomesThen(h0, n0, h2, n2, h.nodes, h.next, t, t2, t3);
    ghost var h3, n3 := h.nodes, h.next;
    BecomesOwns(h0, n0, h3, n3, t, t3);
    table', b, t4 := StmtKid(h, a, 3, table1, t3, t.kids[3].value);
    BecomesThen(h0, n0, h3, n3, h.nodes, h.next, t, t3, t4);
    assert t4.kids == [i, c, p, Some(b)];
    BecomesOwns(h0, n0, h.nodes, h.next, t, t4);
    var zero := CondIsZero(h, a, t4);
    if zero {
      ghost var h4, n4 := h.nodes, h.next;
      r, t' := LeaveInit(h, a, t4);
      BecomesThen(h0, n0, h4, n4, h.nodes, h.next, t, t4, t');
    } else {
      r, t' := a, t4;
      ForMeans(t4);
    }
  }

  lemma ForShape(t: Tree<Tag>)
    requires IsStmt(t) && t.tag.TFor?
    ensures |t.kids| == 4 && IsInit(t.kids[0]) && MaybeExpr(t.kids[1]) && MaybeExpr(t.kids[2]) && IsSub(t.kids[3])
    ensures StmtOf(t) == For(InitOf(t.kids[0]), MaybeOf(t.kids[1]), MaybeOf(t.kids[2]), SubOf(t.kids[3]))
  {
  }

  lemma ForMeans(t: Tree<Tag>)
    requires t.tag.TFor? && |t.kids| == 4 && IsInit(t.kids[0]) && MaybeExpr(t.kids[1]) && MaybeExpr(t.kids[2]) && IsSub(t.kids[3])
    ensures IsStmt(t) && StmtOf(t) == For(InitOf(t.kids[0]), MaybeOf(t.kids[1]), MaybeOf(t.kids[2]), SubOf(t.kids[3]))
  {
  }

  method CondIsZero(h: Heap<Tag>, a: Addr, ghost t: Tree<Tag>) returns (zero: bool)
    requires h.Valid() && Owns(h.nodes, t) && t.at == a && |t.kids| == 4 && MaybeExpr(t.kids[1])
    ensures zero <==> MaybeOf(t.kids[1]) == Some(Lit(0))
  {
    OwnsParts(h.nodes, t);
    zero := false;
    if h.nodes[a].kids[1].Some? {
      TagOfKid(h.nodes, t, 1);
      TagTells(t.kids[1].value);
      zero := KidTag(h, a, 1) == TLit(0);
    }
  }

  /** A loop that never runs: only its init is left. */
  method LeaveInit(h: Heap<Tag>, a: Addr, ghost t: Tree<Tag>) returns (r: Addr, ghost t': Tree<Tag>)
    requires h.Valid() && Owns(h.nodes, t) && t.at == a && |t.kids| == 4 && IsInit(t.kids[0])
    modifies h
    ensures h.Valid() && t'.at == r && IsStmt(t') && StmtOf(t') == InitOnly(InitOf(t.kids[0]))
    ensures Becomes(old(h.nodes), old(h.next), h.nodes, h.next, t, t')
  {
    ghost var h0, n0 := h.nodes, h.next;
    OwnsParts(h0, t);
    if h.nodes[a].kids[0].None? {
      r, t' := ReplaceByLeaf(h, a, TBlock, t);
      EmptyBlock(r);
      return;
    }
    r, t' := KeepKid(h, a, 0, t);
    OwnsParts(h.nodes, t');
    var tag := h.nodes[r].tag;
    if !tag.TDecl? && !tag.TDeclList? {
      ghost var t1, h1, n1 := t', h.nodes, h.next;
      r, t' := WrapOne(h, r, TExprStmt, t1);
      KidIs(t1);
      BecomesThen(h0, n0, h1, n1, h.nodes, h.next, t, t1, t');
    }
  }

  // ---------------------------------------------------------------- blocks

  /** The children before i are optimised; what is left is the tail of the original children. */
  ghost predicate BlockUpTo(t: Tree<Tag>, t1: Tree<Tag>, i: nat, table: Table, table1: Table) {
    && IsStmt(t) && t.tag.TBlock? && t1.at == t.at && t1.tag == t.tag && i <= |t1.kids| <= |t.kids|
    && AreStmts(t1.kids[..i]) && AreStmts(t1.kids[i..])
    && t1.kids[i..] == t.kids[|t.kids| - (|t1.kids| - i)..]
    && OptSeq(StmtsOf(t1.kids[i..]), table1).Some?
    && OptSeq(StmtsOf(t.kids), table) == Some(StmtsOf(t1.kids[..i]) + OptSeq(StmtsOf(t1.kids[i..]), table1).value)
  }

  lemma OptBlock(ss: seq<Stmt>, table: Table)
    requires Opt(Block(ss), table).Some?
    ensures OptSeq(ss, table).Some? && Opt(Block(ss), table).value == OptResult(Block(OptSeq(ss, table).value), table)
  {
  }

  method BlockNode(h: Heap<Tag>, a: Addr, table: Table, ghost t: Tree<Tag>) returns (ghost t': Tree<Tag>)
    requires h.Valid() && Owns(h.nodes, t) && t.at == a && IsStmt(t) && t.tag.TBlock? && Opt(StmtOf(t), table).Some?
    modifies h
    ensures h.Valid() && t'.at == a && YieldsStmt(old(h.nodes), old(h.next), h.nodes, h.next, t, t', table, Opt(StmtOf(t), table))
    decreases t, 1
  {
    hide *;
    ghost var h0, n0 := h.nodes, h.next;
    OwnsParts(h0, t);
    BlockOf(t, table);
    BlockStart(t, table);
    ValidBelow(h);
    BecomesSelf(h0, n0, t);
    t' := t;
    var i, table1, count := 0, table, |h.nodes[a].kids|;
    while i < count
      invariant 0 <= i <= count == |t'.kids| && h.Valid() && BlockUpTo(t, t', i, table, table1) && Becomes(h0, n0, h.nodes, h.next, t, t')
    {
      ghost var h1, n1, t1 := h.nodes, h.next, t';
      BecomesOwns(h0, n0, h1, n1, t, t1);
      BlockAt(t, t1, i, table, table1);
      table1, count, t' := BlockStep(h, a, i, table, table1, t, t1);
      BecomesThen(h0, n0, h1, n1, h.nodes, h.next, t, t1, t');
      i := i + 1;
      BlockAt(t, t', i, table, table1);
    }
    BlockAt(t, t', i, table, table1);
    BlockDone(t, t', i, table, table1);
    YieldsBy(h0, n0, h.nodes, h.next, t, t', table, Opt(StmtOf(t), table));
  }

  lemma ValidBelow(h: Heap<Tag>)
    ensures h.Valid() <==> Below(h.nodes, h.next)
  {
  }

  lemma YieldsBy(h: Nodes<Tag>, n: Addr, h': Nodes<Tag>, n': Addr, t: Tree<Tag>, t': Tree<Tag>, table': Table, o: Option<OptResult>)
    requires Becomes(h, n, h', n', t, t') && IsStmt(t') && Some(OptResult(StmtOf(t'), table')) == o
    ensures YieldsStmt(h, n, h', n', t, t', table', o)
  {
  }

  lemma BlockOf(t: Tree<Tag>, table: Table)
    requires IsStmt(t) && t.tag.TBlock? && Opt(StmtOf(t), table).Some?
    ensures OptSeq(StmtsOf(t.kids), table).Some? && Opt(StmtOf(t), table).value == OptResult(Block(OptSeq(StmtsOf(t.kids), table).value), table)
  {
    OptBlock(StmtsOf(t.kids), table);
  }

  lemma BecomesOwns(h: Nodes<Tag>, n: Addr, h1: Nodes<Tag>, n1: Addr, t: Tree<Tag>, t1: Tree<Tag>)
    requires Becomes(h, n, h1, n1, t, t1)
    ensures Owns(h1, t1) && Below(h1, n1)
  {
  }

  lemma BlockAt(t: Tree<Tag>, t1: Tree<Tag>, i: nat, table: Table, table1: Table)
    requires BlockUpTo(t, t1, i, table, table1)
    ensures t1.at == t.at && t1.tag == t.tag && i <= |t1.kids| && t.tag.TBlock? && IsStmt(t)
  {
  }

  lemma BlockStart(t: Tree<Tag>, table: Table)
    requires IsStmt(t) && t.tag.TBlock? && OptSeq(StmtsOf(t.kids), table).Some?
    ensures BlockUpTo(t, t, 0, table, table)
  {
    assert t.kids[..0] == [] && t.kids[0..] == t.kids;
    assert [] + OptSeq(StmtsOf(t.kids), table).value == OptSeq(StmtsOf(t.kids), table).value;
  }

  lemma BlockDone(t: Tree<Tag>, t1: Tree<Tag>, i: nat, table: Table, table1: Table)
    requires BlockUpTo(t, t1, i, table, table1) && i == |t1.kids|
    ensures IsStmt(t1) && StmtOf(t1).Block? && OptSeq(StmtsOf(t.kids), table) == Some(StmtOf(t1).ss) && StmtOf(t1) == Block(StmtOf(t1).ss)
  {
    hide DeclOf, DeclsOf, InitOf, IsInit, KidOf, MaybeOf, Opt;
    assert t1.kids[..i] == t1.kids && t1.kids[i..] == [];
    assert StmtsOf(t1.kids) + [] == StmtsOf(t1.kids);
  }

  /** One child: optimise it; after a terminal statement free the dead siblings up to the next label. */
  method BlockStep(h: Heap<Tag>, a: Addr, i: nat, table: Table, table1: Table, ghost t: Tree<Tag>, ghost t1: Tree<Tag>) returns (table2: Table, count: nat, ghost t2: Tree<Tag>)
    requires h.Valid() && Owns(h.nodes, t1) && t1.at == a && BlockUpTo(t, t1, i, table, table1) && i < |t1.kids|
    modifies h
    ensures h.Valid() && count == |t2.kids| <= |t1.kids| && BlockUpTo(t, t2, i + 1, table, table2) && Becomes(old(h.nodes), old(h.next), h.nodes, h.next, t1, t2)
    decreases t, 0
  {
    hide *;
    ghost var h1, n1 := h.nodes, h.next;
    ValidBelow(h);
    NextOfBlock(t, t1, i, table, table1);
    ghost var kid, k := t1.kids[i].value, t1;
    table2, k, t2 := StmtKid(h, a, i, table1, t1, kid);
    TagKinds(k);
    BecomesOwns(h1, n1, h.nodes, h.next, t1, t2);
    WithKidIs(t1, i, Some(k));
    TagOfKid(h.nodes, t2, i);
    var tag := h.nodes[h.nodes[a].kids[i].value].tag;
    assert t2.kids[i + 1..] == t1.kids[i + 1..];
    count := |h.nodes[a].kids|;
    if tag.TReturn? || tag.TBreak? || tag.TContinue? {
      var j := FindLabel(h, a, i + 1, t2);
      ghost var h2, n2, t0 := h.nodes, h.next, t2;
      t2 := DropKids(h, a, i + 1, j, t2);
      BecomesThen(h1, n1, h2, n2, h.nodes, h.next, t1, t0, t2);
      BecomesOwns(h1, n1, h.nodes, h.next, t1, t2);
      ValidBelow(h);
      count := count - (j - (i + 1));
      assert t0.kids[..i + 1] == t1.kids[..i] + [Some(k)] && t0.kids[j..] == t1.kids[j..];
      BlockGrows(t, t1, t2, i, j, table, table1, table2, k);
    } else {
      assert t2.kids == t1.kids[..i] + [Some(k)] + t1.kids[i + 1..];
      BlockGrows(t, t1, t2, i, i + 1, table, table1, table2, k);
    }
  }

  lemma WithKidIs(t: Tree<Tag>, i: nat, k: Option<Tree<Tag>>)
    requires i < |t.kids|
    ensures WithKid(t, i, k) == Tree(t.at, t.tag, t.kids[i := k])
  {
  }

  /** The next child of a block and what its optimisation contributes. */
  lemma NextOfBlock(t: Tree<Tag>, t1: Tree<Tag>, i: nat, table: Table, table1: Table)
    requires BlockUpTo(t, t1, i, table, table1) && i < |t1.kids|
    ensures t1.kids[i].Some? && IsStmt(t1.kids[i].value) && t1.kids[i].value < t && Opt(StmtOf(t1.kids[i].value), table1).Some?
    ensures AreStmts(t1.kids[i + 1..])
  {
    hide IsStmt, IsSub, Opt, StmtOf;
    var rest := t1.kids[i..];
    var m := |t.kids| - |rest|;
    assert rest[0] == t1.kids[i] && rest[0] == t.kids[m] && rest[1..] == t1.kids[i + 1..];
    SubKid(t, m);
    StmtsAt(rest, 0);
  }

  /** The first label from j on, or the end. */
  method FindLabel(h: Heap<Tag>, a: Addr, i: nat, ghost t: Tree<Tag>) returns (j: nat)
    requires h.Valid() && Owns(h.nodes, t) && t.at == a && i <= |t.kids| && AreStmts(t.kids[i..])
    ensures i <= j <= |t.kids| && AreStmts(t.kids[j..]) && StmtsOf(t.kids[j..]) == DropDead(StmtsOf(t.kids[i..]))
  {
    hide Owns, AreStmts, StmtsOf, DropDead;
    OwnsParts(h.nodes, t);
    j := i;
    while j < |h.nodes[a].kids| && !KidIsLabel(h, a, j)
      invariant i <= j <= |t.kids| && a in h.nodes && h.nodes[a].kids == Links(t.kids) && Owns(h.nodes, t)
      invariant AreStmts(t.kids[j..]) && DropDead(StmtsOf(t.kids[j..])) == DropDead(StmtsOf(t.kids[i..]))
      decreases |t.kids| - j
    {
      LabelAt(h.nodes, t, j);
      j := j + 1;
    }
    if j < |t.kids| { LabelAt(h.nodes, t, j); } else { LabelNone(t.kids, j); }
  }

  lemma LabelNone(ks: seq<Option<Tree<Tag>>>, j: nat)
    requires j == |ks| && AreStmts(ks[j..])
    ensures DropDead(StmtsOf(ks[j..])) == StmtsOf(ks[j..])
  {
    assert ks[j..] == [];
  }

  predicate KidIsLabel(h: Heap<Tag>, a: Addr, j: nat)
    reads h
  {
    a in h.nodes && j < |h.nodes[a].kids| && h.nodes[a].kids[j].Some? && h.nodes[a].kids[j].value in h.nodes && h.nodes[h.nodes[a].kids[j].value].tag.TLabel?
  }

  lemma LabelAt(h: Nodes<Tag>, t: Tree<Tag>, j: nat)
    requires Owns(h, t) && j < |t.kids| && AreStmts(t.kids[j..])
    ensures t.kids[j].Some? && t.kids[j].value.at in h && AreStmts(t.kids[j + 1..])
    ensures if h[t.kids[j].value.at].tag.TLabel? then DropDead(StmtsOf(t.kids[j..])) == StmtsOf(t.kids[j..])
            else DropDead(StmtsOf(t.kids[j..])) == DropDead(StmtsOf(t.kids[j + 1..]))
  {
    var rest := t.kids[j..];
    assert rest[0] == t.kids[j] && rest[1..] == t.kids[j + 1..];
    StmtsAt(rest, 0);
    SubIs(t.kids[j].value);
    TagKinds(t.kids[j].value);
    TagOfKid(h, t, j);
  }

  /** The block invariant after one child; j is where the kept siblings start. */
  lemma {:induction false} BlockGrows(t: Tree<Tag>, t1: Tree<Tag>, t2: Tree<Tag>, i: nat, j: nat, table: Table, table1: Table, table2: Table, k: Tree<Tag>)
    requires BlockUpTo(t, t1, i, table, table1) && i < j <= |t1.kids| && t1.kids[i].Some? && IsStmt(t1.kids[i].value) && IsStmt(k)
    requires t2.at == t1.at && t2.tag == t1.tag && t2.kids == t1.kids[..i] + [Some(k)] + t1.kids[j..]
    requires Opt(StmtOf(t1.kids[i].value), table1) == Some(OptResult(StmtOf(k), table2))
    requires AreStmts(t1.kids[i + 1..]) && AreStmts(t1.kids[j..])
    requires StmtsOf(t1.kids[j..]) == if Terminal(StmtOf(k)) then DropDead(StmtsOf(t1.kids[i + 1..])) else StmtsOf(t1.kids[i + 1..])
    ensures BlockUpTo(t, t2, i + 1, table, table2)
  {
    hide *;
    BlockView(t, t1, i, table, table1);
    var rest, live := t1.kids[i..], t1.kids[j..];
    var ss := StmtsOf(rest);
    FirstOf(t1, i);
    LiveIs(StmtOf(k), ss[1..], StmtsOf(live));
    OneOfSeq(ss, table1, StmtOf(k), table2, StmtsOf(live));
    Rejoined(t1.kids, t2.kids, i, j, Some(k));
    StmtsAppend(t1.kids[..i], [Some(k)]);
    OneStmt(k);
    Associate(StmtsOf(t1.kids[..i]), StmtOf(k), OptSeq(StmtsOf(live), table2).value);
    Suffix(t, t1, t2, i, j);
    BlockBy(t, t2, i + 1, table, table2);
  }

  lemma Rejoined(ks: seq<Option<Tree<Tag>>>, ks': seq<Option<Tree<Tag>>>, i: nat, j: nat, k: Option<Tree<Tag>>)
    requires i < j <= |ks| && ks' == ks[..i] + [k] + ks[j..]
    ensures |ks'| == i + 1 + |ks| - j && ks'[..i + 1] == ks[..i] + [k] && ks'[i + 1..] == ks[j..]
  {
  }

  lemma Associate(d: seq<Stmt>, s: Stmt, x: seq<Stmt>)
    ensures d + ([s] + x) == (d + [s]) + x
  {
  }

  lemma BlockView(t: Tree<Tag>, t1: Tree<Tag>, i: nat, table: Table, table1: Table)
    requires BlockUpTo(t, t1, i, table, table1)
    ensures IsStmt(t) && t.tag.TBlock? && AreStmts(t.kids) && t1.at == t.at && t1.tag == t.tag && i <= |t1.kids| <= |t.kids|
    ensures AreStmts(t1.kids[..i]) && AreStmts(t1.kids[i..]) && t1.kids[i..] == t.kids[|t.kids| - (|t1.kids| - i)..]
    ensures OptSeq(StmtsOf(t1.kids[i..]), table1).Some?
    ensures OptSeq(StmtsOf(t.kids), table) == Some(StmtsOf(t1.kids[..i]) + OptSeq(StmtsOf(t1.kids[i..]), table1).value)
  {
    hide OptSeq;
  }

  lemma BlockBy(t: Tree<Tag>, t1: Tree<Tag>, i: nat, table: Table, table1: Table)
    requires IsStmt(t) && t.tag.TBlock? && AreStmts(t.kids) && t1.at == t.at && t1.tag == t.tag && i <= |t1.kids| <= |t.kids|
    requires AreStmts(t1.kids[..i]) && AreStmts(t1.kids[i..]) && t1.kids[i..] == t.kids[|t.kids| - (|t1.kids| - i)..]
    requires OptSeq(StmtsOf(t1.kids[i..]), table1).Some?
    requires OptSeq(StmtsOf(t.kids), table) == Some(StmtsOf(t1.kids[..i]) + OptSeq(StmtsOf(t1.kids[i..]), table1).value)
    ensures BlockUpTo(t, t1, i, table, table1)
  {
    hide OptSeq;
  }

  lemma FirstOf(t1: Tree<Tag>, i: nat)
    requires i < |t1.kids| && AreStmts(t1.kids[i..]) && t1.kids[i].Some? && IsStmt(t1.kids[i].value) && AreStmts(t1.kids[i + 1..])
    ensures var ss := StmtsOf(t1.kids[i..]); ss != [] && ss[0] == StmtOf(t1.kids[i].value) && ss[1..] == StmtsOf(t1.kids[i + 1..])
  {
    var rest := t1.kids[i..];
    assert rest[0] == t1.kids[i] && rest[1..] == t1.kids[i + 1..];
    SubIs(t1.kids[i].value);
  }

  lemma LiveIs(s: Stmt, rest: seq<Stmt>, live: seq<Stmt>)
    requires live == if Terminal(s) then DropDead(rest) else rest
    ensures Live(s, rest) == live
  {
    hide DropDead;
  }

  lemma OneOfSeq(ss: seq<Stmt>, table: Table, s': Stmt, table': Table, live: seq<Stmt>)
    requires ss != [] && Opt(ss[0], table) == Some(OptResult(s', table')) && Live(s', ss[1..]) == live && OptSeq(ss, table).Some?
    ensures OptSeq(live, table').Some? && OptSeq(ss, table).value == [s'] + OptSeq(live, table').value
  {
    hide Opt, Live;
  }

  lemma OneStmt(k: Tree<Tag>)
    requires IsStmt(k)
    ensures AreStmts([Some(k)]) && StmtsOf([Some(k)]) == [StmtOf(k)]
  {
    SubIs(k);
    var ks := [Some(k)];
    assert ks[1..] == [];
    assert AreStmts(ks[1..]) && StmtsOf(ks[1..]) == [];
    assert [StmtOf(k)] + [] == [StmtOf(k)];
  }

  lemma Suffix(t: Tree<Tag>, t1: Tree<Tag>, t2: Tree<Tag>, i: nat, j: nat)
    requires i < j <= |t1.kids| <= |t.kids| && t1.kids[i..] == t.kids[|t.kids| - (|t1.kids| - i)..] && |t2.kids| == i + 1 + |t1.kids| - j && t2.kids[i + 1..] == t1.kids[j..]
    ensures |t2.kids| <= |t.kids| && t2.kids[i + 1..] == t.kids[|t.kids| - (|t2.kids| - (i + 1))..]
  {
    var m := |t.kids| - (|t1.kids| - i);
    assert t1.kids[j..] == t1.kids[i..][j - i..];
    assert t.kids[m..][j - i..] == t.kids[m + j - i..];
  }
}
