/** optimize_expr on the heap (src/optimize.c): it computes the folding of Optimizer.Optimize by rearranging
    nodes in place, and every node stays owned exactly once or is freed. */
module AstOptimize {
  import opened Options
  import opened AstHeap
  import opened Optimizer
  import S = Statements
  import C = Codegen

  /** The kinds of nodes, with what they carry besides children. */
  datatype Tag =
    | TLit(v: int) | TRef(x: string) | TUnary(uop: C.UnaryOp) | TBinary(op: C.BinaryOp) | TAnd | TOr | TCond | TCast(to: Kind) | TAssign(x: string)
    | TBlock | TIf | TWhile | TDo | TFor | TSwitch | TLabel(l: S.CaseLabel) | TReturn | TBreak | TContinue | TExprStmt
    | TDecl(x: string, const_: Option<Kind>) | TDeclList

  // ---------------------------------------------------------------- the expression a tree means

  ghost predicate IsExpr(t: Tree<Tag>)
    decreases t, 1
  {
    match t.tag
    case TLit(_) => t.kids == []
    case TRef(_) => t.kids == []
    case TUnary(_) => |t.kids| == 1 && IsKid(t.kids[0])
    case TCast(_) => |t.kids| == 1 && IsKid(t.kids[0])
    case TAssign(_) => |t.kids| == 1 && IsKid(t.kids[0])
    case TBinary(_) => |t.kids| == 2 && IsKid(t.kids[0]) && IsKid(t.kids[1])
    case TAnd => |t.kids| == 2 && IsKid(t.kids[0]) && IsKid(t.kids[1])
    case TOr => |t.kids| == 2 && IsKid(t.kids[0]) && IsKid(t.kids[1])
    case TCond => |t.kids| == 3 && IsKid(t.kids[0]) && IsKid(t.kids[1]) && IsKid(t.kids[2])
    case _ => false
  }

  ghost predicate IsKid(k: Option<Tree<Tag>>)
    decreases k, 2
  {
    match k case None => false case Some(t) => IsExpr(t)
  }

  ghost function ExprOf(t: Tree<Tag>): Expr
    requires IsExpr(t)
    decreases t, 1
  {
    match t.tag
    case TLit(v) => Lit(v)
    case TRef(x) => Ref(x)
    case TUnary(op) => Unary(op, KidOf(t.kids[0]))
    case TCast(to) => Cast(to, KidOf(t.kids[0]))
    case TAssign(x) => Assign(x, KidOf(t.kids[0]))
    case TBinary(op) => Binary(op, KidOf(t.kids[0]), KidOf(t.kids[1]))
    case TAnd => AndAlso(KidOf(t.kids[0]), KidOf(t.kids[1]))
    case TOr => OrElse(KidOf(t.kids[0]), KidOf(t.kids[1]))
    case TCond => Cond(KidOf(t.kids[0]), KidOf(t.kids[1]), KidOf(t.kids[2]))
  }

  ghost function KidOf(k: Option<Tree<Tag>>): Expr
    requires IsKid(k)
    decreases k, 2
  {
    match k case Some(t) => ExprOf(t)
  }

  lemma KidIs(t: Tree<Tag>)
    ensures (IsKid(Some(t)) <==> IsExpr(t)) && (IsExpr(t) ==> KidOf(Some(t)) == ExprOf(t))
  {
  }

  /** A tag tells the kind of expression. */
  lemma TagTells(t: Tree<Tag>)
    requires IsExpr(t)
    ensures ExprOf(t).Lit? <==> t.tag.TLit?
    ensures t.tag.TLit? ==> ExprOf(t) == Lit(t.tag.v)
    ensures ExprOf(t).Ref? <==> t.tag.TRef?
    ensures t.tag.TRef? ==> ExprOf(t) == Ref(t.tag.x)
    ensures ExprOf(t).Unary? <==> t.tag.TUnary?
    ensures t.tag.TUnary? ==> |t.kids| == 1 && t.kids[0].Some? && IsExpr(t.kids[0].value) && ExprOf(t) == Unary(t.tag.uop, ExprOf(t.kids[0].value))
  {
    if t.tag.TUnary? { assert IsKid(t.kids[0]); KidIs(t.kids[0].value); }
  }

  // ---------------------------------------------------------------- one level of optimisation

  /** The rule at the root, the operands being optimised already. */
  function Top(e: Expr, table: Table): Option<Expr> {
    match e
    case Lit(_) => Some(e)
    case Ref(x) => var c := Lookup(table, x); Some(if c.Some? then Lit(c.value) else e)
    case Unary(op, a) => Some(SimplifyUnary(op, a))
    case Binary(op, l, r) => SimplifyBinary(op, l, r)
    case AndAlso(l, r) => Some(SimplifyAnd(l, r))
    case OrElse(l, r) => Some(SimplifyOr(l, r))
    case Cond(c, y, n) => Some(if c.Lit? then (if c.v != 0 then y else n) else e)
    case Cast(to, a) => Some(if a.Lit? && CastSafe(a.v, to) then a else e)
    case Assign(_, _) => Some(e)
  }

  /** Operands of a node, in order. */
  function Operands(e: Expr): seq<Expr> {
    match e
    case Lit(_) => []
    case Ref(_) => []
    case Unary(_, a) => [a]
    case Binary(_, l, r) => [l, r]
    case AndAlso(l, r) => [l, r]
    case OrElse(l, r) => [l, r]
    case Cond(c, y, n) => [c, y, n]
    case Cast(_, a) => [a]
    case Assign(_, a) => [a]
  }

  /** The same node over other operands. */
  ghost predicate SameNode(e: Expr, f: Expr) {
    match e
    case Lit(_) => f == e
    case Ref(_) => f == e
    case Unary(op, _) => f.Unary? && f.uop == op
    case Binary(op, _, _) => f.Binary? && f.op == op
    case AndAlso(_, _) => f.AndAlso?
    case OrElse(_, _) => f.OrElse?
    case Cond(_, _, _) => f.Cond?
    case Cast(to, _) => f.Cast? && f.to == to
    case Assign(x, _) => f.Assign? && f.x == x
  }

  /** Optimising is optimising the operands and then the root. */
  lemma OptimizeTop(e: Expr, f: Expr, table: Table)
    requires SameNode(e, f) && |Operands(e)| == |Operands(f)|
    requires forall i :: 0 <= i < |Operands(e)| ==> Optimize(Operands(e)[i], table) == Some(Operands(f)[i])
    ensures Optimize(e, table) == Top(f, table)
  {
    hide SimplifyBinary, SimplifyUnary, SimplifyAnd, SimplifyOr;
    match e
    case Lit(_) =>
    case Ref(_) =>
    case Unary(_, a) => assert Optimize(Operands(e)[0], table) == Some(Operands(f)[0]);
    case Binary(_, _, _) => assert Optimize(Operands(e)[0], table) == Some(Operands(f)[0]) && Optimize(Operands(e)[1], table) == Some(Operands(f)[1]);
    case AndAlso(_, _) => assert Optimize(Operands(e)[0], table) == Some(Operands(f)[0]) && Optimize(Operands(e)[1], table) == Some(Operands(f)[1]);
    case OrElse(_, _) => assert Optimize(Operands(e)[0], table) == Some(Operands(f)[0]) && Optimize(Operands(e)[1], table) == Some(Operands(f)[1]);
    case Cond(_, _, _) =>
      assert Optimize(Operands(e)[0], table) == Some(Operands(f)[0]) && Optimize(Operands(e)[1], table) == Some(Operands(f)[1]);
      assert Optimize(Operands(e)[2], table) == Some(Operands(f)[2]);
    case Cast(_, _) => assert Optimize(Operands(e)[0], table) == Some(Operands(f)[0]);
    case Assign(_, _) => assert Optimize(Operands(e)[0], table) == Some(Operands(f)[0]);
  }

  lemma OperandsSome(e: Expr, table: Table)
    requires Optimize(e, table).Some?
    ensures forall i :: 0 <= i < |Operands(e)| ==> Optimize(Operands(e)[i], table).Some?
  {
    hide SimplifyBinary, SimplifyUnary, SimplifyAnd, SimplifyOr;
  }

  /** The children of a tree are the operands of its expression. */
  lemma KidsAreOperands(t: Tree<Tag>)
    requires IsExpr(t)
    ensures |t.kids| == |Operands(ExprOf(t))|
    ensures forall i :: 0 <= i < |t.kids| ==> t.kids[i].Some? && IsExpr(t.kids[i].value) && ExprOf(t.kids[i].value) == Operands(ExprOf(t))[i]
  {
    forall i | 0 <= i < |t.kids| ensures t.kids[i].Some? && IsExpr(t.kids[i].value) && ExprOf(t.kids[i].value) == Operands(ExprOf(t))[i] {
      assert IsKid(t.kids[i]);
      KidIs(t.kids[i].value);
    }
  }

  /** Exchanging the children of a tree. */
  lemma ExprFromKids(t: Tree<Tag>, t': Tree<Tag>)
    requires IsExpr(t) && t'.tag == t.tag && |t'.kids| == |t.kids| && forall i :: 0 <= i < |t.kids| ==> t'.kids[i].Some? && IsExpr(t'.kids[i].value)
    ensures IsExpr(t') && SameNode(ExprOf(t), ExprOf(t'))
  {
    forall i | 0 <= i < |t.kids| ensures IsKid(t'.kids[i]) { KidIs(t'.kids[i].value); }
  }

  // ---------------------------------------------------------------- decisions read off the nodes

  predicate TagIs(t: Tag, v: int) {
    t == TLit(v)
  }

  /** Which child an identity rule keeps. */
  function KeepIndex(op: C.BinaryOp, l: Tag, r: Tag): Option<nat> {
    match op
    case OpAdd => if TagIs(r, 0) then Some(0) else if TagIs(l, 0) then Some(1) else None
    case OpSub => if TagIs(r, 0) then Some(0) else None
    case OpMul => if TagIs(r, 1) then Some(0) else if TagIs(l, 1) then Some(1) else None
    case OpDiv => if TagIs(r, 1) then Some(0) else None
    case OpOr => if TagIs(r, 0) then Some(0) else if TagIs(l, 0) then Some(1) else None
    case OpAnd => if TagIs(r, -1) then Some(0) else if TagIs(l, -1) then Some(1) else None
    case _ => None
  }

  predicate SameTagVar(l: Tag, r: Tag) {
    l.TRef? && r.TRef? && l.x == r.x
  }

  predicate VanishTags(op: C.BinaryOp, l: Tag, r: Tag) {
    match op
    case OpMul => TagIs(r, 0) || TagIs(l, 0)
    case OpDiv => TagIs(l, 0)
    case OpAnd => TagIs(r, 0) || TagIs(l, 0)
    case OpSub => SameTagVar(l, r)
    case OpXor => SameTagVar(l, r)
    case _ => false
  }

  lemma DecisionsAgree(op: C.BinaryOp, l: Tree<Tag>, r: Tree<Tag>)
    requires IsExpr(l) && IsExpr(r)
    ensures Identity(op, ExprOf(l), ExprOf(r)) ==
      match KeepIndex(op, l.tag, r.tag) case None => None case Some(i) => Some(if i == 0 then ExprOf(l) else ExprOf(r))
    ensures KeepIndex(op, l.tag, r.tag).Some? ==> KeepIndex(op, l.tag, r.tag).value < 2
    ensures Vanishes(op, ExprOf(l), ExprOf(r)) <==> VanishTags(op, l.tag, r.tag)
  {
    TagTells(l);
    TagTells(r);
    hide ExprOf, IsExpr;
  }
}
