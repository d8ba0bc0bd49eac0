/** The code of optimize_expr over heap nodes. */
module AstOptimizeCode {
  import opened Options
  import opened AstHeap
  import opened AstSurgery
  import opened AstOptimize
  import opened Optimizer
  import C = Codegen

  /** t has become a tree for e. */
  ghost predicate Yields(h: Nodes<Tag>, n: Addr, h': Nodes<Tag>, n': Addr, t: Tree<Tag>, t': Tree<Tag>, e: Option<Expr>) {
    Becomes(h, n, h', n', t, t') && IsExpr(t') && Some(ExprOf(t')) == e
  }

  lemma LeafExpr(a: Addr, v: int)
    ensures IsExpr(Tree(a, TLit(v), [])) && ExprOf(Tree(a, TLit(v), [])) == Lit(v)
  {
  }

  lemma PairExpr(a: Addr, op: C.BinaryOp, l: Tree<Tag>, r: Tree<Tag>)
    requires IsExpr(l) && IsExpr(r)
    ensures var t := Tree(a, TBinary(op), [Some(l), Some(r)]); IsExpr(t) && ExprOf(t) == Binary(op, ExprOf(l), ExprOf(r))
  {
    KidIs(l);
    KidIs(r);
  }

  method Literal(h: Heap<Tag>, a: Addr, v: int, ghost t: Tree<Tag>) returns (r: Addr, ghost t': Tree<Tag>)
    requires h.Valid() && Owns(h.nodes, t) && t.at == a
    modifies h
    ensures h.Valid() && t'.at == r && Yields(old(h.nodes), old(h.next), h.nodes, h.next, t, t', Some(Lit(v)))
  {
    r, t' := ReplaceByLeaf(h, a, TLit(v), t);
    LeafExpr(r, v);
  }

  method Keep(h: Heap<Tag>, a: Addr, i: nat, ghost t: Tree<Tag>) returns (r: Addr, ghost t': Tree<Tag>)
    requires h.Valid() && Owns(h.nodes, t) && t.at == a && IsExpr(t) && i < |t.kids|
    modifies h
    ensures h.Valid() && t'.at == r && t.kids[i].Some? && IsExpr(t.kids[i].value)
    ensures Yields(old(h.nodes), old(h.next), h.nodes, h.next, t, t', Some(ExprOf(t.kids[i].value)))
  {
    KidsAreOperands(t);
    r, t' := KeepKid(h, a, i, t);
  }

  /** The right operand becomes a literal and the operator changes. */
  method NewRight(h: Heap<Tag>, a: Addr, v: int, op: C.BinaryOp, ghost t: Tree<Tag>) returns (ghost t': Tree<Tag>)
    requires h.Valid() && Owns(h.nodes, t) && t.at == a && IsExpr(t) && |t.kids| == 2
    modifies h
    ensures h.Valid() && t'.at == a && t.kids[0].Some? && IsExpr(t.kids[0].value)
    ensures Yields(old(h.nodes), old(h.next), h.nodes, h.next, t, t', Some(Binary(op, ExprOf(t.kids[0].value), Lit(v))))
  {
    KidsAreOperands(t);
    ghost var h0, n0 := h.nodes, h.next;
    ghost var t1 := NewKid(h, a, 1, TLit(v), t);
    ghost var at :| t1 == WithKid(t, 1, Some(Tree(at, TLit(v), [])));
    ghost var h1, n1 := h.nodes, h.next;
    t' := Retag(h, a, TBinary(op), t1);
    BecomesThen(h0, n0, h1, n1, h.nodes, h.next, t, t1, t');
    LeafExpr(at, v);
    assert t1.kids == [t.kids[0], Some(Tree(at, TLit(v), []))];
    PairExpr(a, op, t.kids[0].value, Tree(at, TLit(v), []));
  }

  lemma TagOfKid(h: Nodes<Tag>, t: Tree<Tag>, i: nat)
    requires Owns(h, t) && i < |t.kids| && t.kids[i].Some?
    ensures t.at in h && h[t.at] == Node(t.tag, Links(t.kids)) && i < |h[t.at].kids| && h[t.at].kids[i] == Some(t.kids[i].value.at)
    ensures var k := t.kids[i].value; Owns(h, k) && k.at in h && h[k.at].tag == k.tag && h[k.at].kids == Links(k.kids)
  {
    OwnsParts(h, t);
    KidAt(h, t.kids, i);
    OwnsParts(h, t.kids[i].value);
  }

  function KidTag(h: Heap<Tag>, a: Addr, i: nat): Tag
    requires a in h.nodes && i < |h.nodes[a].kids| && h.nodes[a].kids[i].Some? && h.nodes[a].kids[i].value in h.nodes
    reads h
  {
    h.nodes[h.nodes[a].kids[i].value].tag
  }

  method SimplifyBinaryNode(h: Heap<Tag>, a: Addr, ghost t: Tree<Tag>) returns (r: Addr, ghost t': Tree<Tag>)
    requires h.Valid() && Owns(h.nodes, t) && t.at == a && IsExpr(t) && t.tag.TBinary? && Top(ExprOf(t), []).Some?
    modifies h
    ensures h.Valid() && t'.at == r && Yields(old(h.nodes), old(h.next), h.nodes, h.next, t, t', Top(ExprOf(t), []))
  {
    KidsAreOperands(t);
    ghost var x, y := t.kids[0].value, t.kids[1].value;
    TagOfKid(h.nodes, t, 0);
    TagOfKid(h.nodes, t, 1);
    TagTells(x);
    TagTells(y);
    var op, l, q := h.nodes[a].tag.op, KidTag(h, a, 0), KidTag(h, a, 1);
    DecisionsAgree(op, x, y);
    assert ExprOf(t) == Binary(op, ExprOf(x), ExprOf(y));
    hide IsExpr, ExprOf, Owns, FoldBinary, KeepIndex, Identity, Vanishes, VanishTags, IsPow2;
    if l.TLit? && q.TLit? && FoldBinary(op, l.v, q.v).Folded? {
      r, t' := Literal(h, a, FoldBinary(op, l.v, q.v).v, t);
      return;
    }
    var k := KeepIndex(op, l, q);
    if k.Some? {
      r, t' := Keep(h, a, k.value, t);
    } else if VanishTags(op, l, q) {
      r, t' := Literal(h, a, 0, t);
    } else {
      r, t' := ReduceNode(h, a, t);
    }
  }

  method ReduceNode(h: Heap<Tag>, a: Addr, ghost t: Tree<Tag>) returns (r: Addr, ghost t': Tree<Tag>)
    requires h.Valid() && Owns(h.nodes, t) && t.at == a && IsExpr(t) && t.tag.TBinary?
    modifies h
    ensures h.Valid() && t'.at == r && ExprOf(t).Binary?
    ensures Yields(old(h.nodes), old(h.next), h.nodes, h.next, t, t', Some(Reduce(t.tag.op, ExprOf(t).left, ExprOf(t).right)))
  {
    KidsAreOperands(t);
    ghost var x, y := t.kids[0].value, t.kids[1].value;
    TagOfKid(h.nodes, t, 0);
    TagOfKid(h.nodes, t, 1);
    TagTells(x);
    TagTells(y);
    var op, l, q := h.nodes[a].tag.op, KidTag(h, a, 0), KidTag(h, a, 1);
    assert ExprOf(t) == Binary(op, ExprOf(x), ExprOf(y));
    hide IsExpr, ExprOf, Owns, IsPow2, Log2;
    r := a;
    if op == C.OpMul && q.TLit? && IsPow2(q.v) {
      var n := ShiftCount(q.v);
      t' := NewRight(h, a, n, C.OpShl, t);
    } else if op == C.OpMul && l.TLit? && IsPow2(l.v) {
      var n := ShiftCount(l.v);
      t' := ShiftLeftBy(h, a, n, t);
    } else if op == C.OpDiv && q.TLit? && IsPow2(q.v) && l.TLit? && l.v >= 0 {
      var n := ShiftCount(q.v);
      t' := NewRight(h, a, n, C.OpShr, t);
    } else {
      t' := t;
      BecomesSelf(h.nodes, h.next, t);
    }
  }

  /** 2^n * x becomes x << n. */
  method ShiftLeftBy(h: Heap<Tag>, a: Addr, n: nat, ghost t: Tree<Tag>) returns (ghost t': Tree<Tag>)
    requires h.Valid() && Owns(h.nodes, t) && t.at == a && IsExpr(t) && |t.kids| == 2
    modifies h
    ensures h.Valid() && t'.at == a && t.kids[1].Some? && IsExpr(t.kids[1].value)
    ensures Yields(old(h.nodes), old(h.next), h.nodes, h.next, t, t', Some(Binary(C.OpShl, ExprOf(t.kids[1].value), Lit(n))))
  {
    KidsAreOperands(t);
    ghost var h0, n0 := h.nodes, h.next;
    ghost var t1 := MoveRight(h, a, TLit(n), t);
    ghost var at :| t1 == Tree(a, t.tag, [t.kids[1], Some(Tree(at, TLit(n), []))]);
    ghost var h1, n1 := h.nodes, h.next;
    t' := Retag(h, a, TBinary(C.OpShl), t1);
    BecomesThen(h0, n0, h1, n1, h.nodes, h.next, t, t1, t');
    LeafExpr(at, n);
    PairExpr(a, C.OpShl, t.kids[1].value, Tree(at, TLit(n), []));
  }

  method SimplifyUnaryNode(h: Heap<Tag>, a: Addr, ghost t: Tree<Tag>) returns (r: Addr, ghost t': Tree<Tag>)
    requires h.Valid() && Owns(h.nodes, t) && t.at == a && IsExpr(t) && t.tag.TUnary?
    modifies h
    ensures h.Valid() && t'.at == r && Yields(old(h.nodes), old(h.next), h.nodes, h.next, t, t', Top(ExprOf(t), []))
  {
    KidsAreOperands(t);
    ghost var x := t.kids[0].value;
    TagOfKid(h.nodes, t, 0);
    TagTells(x);
    TagTells(t);
    var op, k := h.nodes[a].tag.uop, KidTag(h, a, 0);
    if k.TLit? {
      r, t' := Literal(h, a, C.UnaryValue(op, C.Long, k.v), t);
      return;
    }
    if k.TUnary? && k.uop == op && (op == C.LogNot || op == C.Minus) {
      KidsAreOperands(x);
      ghost var z := x.kids[0].value;
      TagOfKid(h.nodes, x, 0);
      TagTells(z);
      var g := KidTag(h, h.nodes[a].kids[0].value, 0);
      if !g.TLit? {
        hide IsExpr, ExprOf, Owns;
        ghost var h0, n0 := h.nodes, h.next;
        r, t' := KeepGrandkid(h, a, t);
        if op == C.LogNot {
          ghost var t1, h1, n1 := t', h.nodes, h.next;
          r, t' := Wrap(h, r, TBinary(C.OpNe), TLit(0), t1);
          ghost var at :| t' == Tree(r, TBinary(C.OpNe), [Some(t1), Some(Tree(at, TLit(0), []))]);
          BecomesThen(h0, n0, h1, n1, h.nodes, h.next, t, t1, t');
          LeafExpr(at, 0);
          PairExpr(r, C.OpNe, t1, Tree(at, TLit(0), []));
        }
        return;
      }
    }
    r, t' := a, t;
    BecomesSelf(h.nodes, h.next, t);
  }

  method SimplifyLogicNode(h: Heap<Tag>, a: Addr, ghost t: Tree<Tag>) returns (r: Addr, ghost t': Tree<Tag>)
    requires h.Valid() && Owns(h.nodes, t) && t.at == a && IsExpr(t) && (t.tag.TAnd? || t.tag.TOr?)
    modifies h
    ensures h.Valid() && t'.at == r && Yields(old(h.nodes), old(h.next), h.nodes, h.next, t, t', Top(ExprOf(t), []))
  {
    KidsAreOperands(t);
    ghost var x, y := t.kids[0].value, t.kids[1].value;
    TagOfKid(h.nodes, t, 0);
    TagOfKid(h.nodes, t, 1);
    TagTells(x);
    TagTells(y);
    var and, l, q := h.nodes[a].tag.TAnd?, KidTag(h, a, 0), KidTag(h, a, 1);
    assert ExprOf(t) == if and then AndAlso(ExprOf(x), ExprOf(y)) else OrElse(ExprOf(x), ExprOf(y));
    hide IsExpr, ExprOf, Owns;
    r := a;
    if l.TLit? && (l.v == 0) == and {
      r, t' := Literal(h, a, if and then 0 else 1, t);
    } else if l.TLit? && q.TLit? {
      r, t' := Literal(h, a, C.Truth(q.v != 0), t);
    } else if q.TLit? && (q.v == 0) == and {
      r, t' := Literal(h, a, if and then 0 else 1, t);
    } else if q.TLit? && and {
      t' := NewRight(h, a, 0, C.OpNe, t);
    } else if q.TLit? {
      t' := Retag(h, a, TBinary(C.OpNe), t);
      assert t.kids == [t.kids[0], t.kids[1]];
      PairExpr(a, C.OpNe, x, y);
    } else {
      t' := t;
      BecomesSelf(h.nodes, h.next, t);
    }
  }

  /** The rule at the root. */
  method SimplifyNode(h: Heap<Tag>, a: Addr, table: Table, ghost t: Tree<Tag>) returns (r: Addr, ghost t': Tree<Tag>)
    requires h.Valid() && Owns(h.nodes, t) && t.at == a && IsExpr(t) && Top(ExprOf(t), table).Some?
    modifies h
    ensures h.Valid() && t'.at == r && Yields(old(h.nodes), old(h.next), h.nodes, h.next, t, t', Top(ExprOf(t), table))
  {
    OwnsParts(h.nodes, t);
    TagTells(t);
    r, t' := a, t;
    var tag := h.nodes[a].tag;
    if tag.TBinary? {
      r, t' := SimplifyBinaryNode(h, a, t);
    } else if tag.TUnary? {
      r, t' := SimplifyUnaryNode(h, a, t);
    } else if tag.TAnd? || tag.TOr? {
      r, t' := SimplifyLogicNode(h, a, t);
    } else if tag.TCond? {
      r, t' := SimplifyCondNode(h, a, t);
    } else if tag.TCast? {
      r, t' := SimplifyCastNode(h, a, t);
    } else {
      var c := None;
      if tag.TRef? { c := ConstPropLookup(table, tag.x); }
      if c.Some? { r, t' := Literal(h, a, c.value, t); } else { BecomesSelf(h.nodes, h.next, t); }
    }
  }

  method SimplifyCondNode(h: Heap<Tag>, a: Addr, ghost t: Tree<Tag>) returns (r: Addr, ghost t': Tree<Tag>)
    requires h.Valid() && Owns(h.nodes, t) && t.at == a && IsExpr(t) && t.tag.TCond?
    modifies h
    ensures h.Valid() && t'.at == r && Yields(old(h.nodes), old(h.next), h.nodes, h.next, t, t', Top(ExprOf(t), []))
  {
    KidsAreOperands(t);
    TagOfKid(h.nodes, t, 0);
    TagTells(t.kids[0].value);
    var c := KidTag(h, a, 0);
    if c.TLit? {
      r, t' := Keep(h, a, if c.v != 0 then 1 else 2, t);
    } else {
      r, t' := a, t;
      BecomesSelf(h.nodes, h.next, t);
    }
  }

  method SimplifyCastNode(h: Heap<Tag>, a: Addr, ghost t: Tree<Tag>) returns (r: Addr, ghost t': Tree<Tag>)
    requires h.Valid() && Owns(h.nodes, t) && t.at == a && IsExpr(t) && t.tag.TCast?
    modifies h
    ensures h.Valid() && t'.at == r && Yields(old(h.nodes), old(h.next), h.nodes, h.next, t, t', Top(ExprOf(t), []))
  {
    KidsAreOperands(t);
    TagOfKid(h.nodes, t, 0);
    TagTells(t.kids[0].value);
    var to, k := h.nodes[a].tag.to, KidTag(h, a, 0);
    if k.TLit? && CastSafe(k.v, to) {
      r, t' := Literal(h, a, k.v, t);
    } else {
      r, t' := a, t;
      BecomesSelf(h.nodes, h.next, t);
    }
  }

  /** The child is optimised and its slot updated. */
  ghost predicate DoneUpTo(t: Tree<Tag>, t1: Tree<Tag>, i: nat, table: Table)
    requires IsExpr(t)
  {
    && t1.at == t.at && t1.tag == t.tag && |t1.kids| == |t.kids| == |Operands(ExprOf(t))| && i <= |t.kids|
    && (forall j :: 0 <= j < i ==> t1.kids[j].Some? && IsExpr(t1.kids[j].value) && Some(ExprOf(t1.kids[j].value)) == Optimize(Operands(ExprOf(t))[j], table))
    && (forall j :: i <= j < |t.kids| ==> t1.kids[j] == t.kids[j])
  }

  method OptimizeKid(h: Heap<Tag>, a: Addr, i: nat, table: Table, ghost t: Tree<Tag>, ghost t1: Tree<Tag>) returns (ghost t2: Tree<Tag>)
    requires h.Valid() && Owns(h.nodes, t1) && t.at == a && IsExpr(t) && i < |t.kids| && Optimize(ExprOf(t), table).Some? && DoneUpTo(t, t1, i, table)
    modifies h
    ensures h.Valid() && DoneUpTo(t, t2, i + 1, table) && Becomes(old(h.nodes), old(h.next), h.nodes, h.next, t1, t2)
    decreases t, 0
  {
    KidsAreOperands(t);
    OperandsSome(ExprOf(t), table);
    ghost var h1, n1, k := h.nodes, h.next, t.kids[i].value;
    TagOfKid(h1, t1, i);
    KidSmaller(t, i);
    hide Optimize, IsExpr, ExprOf, Owns;
    var b, k' := OptimizeExpr(h, h.nodes[a].kids[i].value, table, k);
    BecomesKid(h1, n1, h.nodes, h.next, t1, i, k, k');
    h.SetKid(a, i, Some(b));
    t2 := WithKid(t1, i, Some(k'));
  }

  /** optimize_expr: the result means the folded expression; every node is in it once or freed. */
  method OptimizeExpr(h: Heap<Tag>, a: Addr, table: Table, ghost t: Tree<Tag>) returns (r: Addr, ghost t': Tree<Tag>)
    requires h.Valid() && Owns(h.nodes, t) && t.at == a && IsExpr(t) && Optimize(ExprOf(t), table).Some?
    modifies h
    ensures h.Valid() && t'.at == r && Yields(old(h.nodes), old(h.next), h.nodes, h.next, t, t', Optimize(ExprOf(t), table))
    decreases t, 1
  {
    ghost var h0, n0, t1 := h.nodes, h.next, t;
    KidsAreOperands(t);
    OwnsParts(h0, t);
    BecomesSelf(h0, n0, t);
    hide Optimize, IsExpr, ExprOf, Owns, Top;
    var i, n := 0, |h.nodes[a].kids|;
    while i < n
      invariant 0 <= i <= n == |t.kids| && h.Valid() && DoneUpTo(t, t1, i, table) && Becomes(h0, n0, h.nodes, h.next, t, t1)
    {
      ghost var h1, n1, t0 := h.nodes, h.next, t1;
      t1 := OptimizeKid(h, a, i, table, t, t1);
      BecomesThen(h0, n0, h1, n1, h.nodes, h.next, t, t0, t1);
      i := i + 1;
    }
    ExprFromKids(t, t1);
    KidsAreOperands(t1);
    OptimizeTop(ExprOf(t), ExprOf(t1), table);
    ghost var h1, n1 := h.nodes, h.next;
    r, t' := SimplifyNode(h, a, table, t1);
    BecomesThen(h0, n0, h1, n1, h.nodes, h.next, t, t1, t');
  }

  lemma KidSmaller(t: Tree<Tag>, i: nat)
    requires i < |t.kids| && t.kids[i].Some?
    ensures t.kids[i].value < t
  {
    var k := t.kids[i];
    assert k < t;
  }
}
