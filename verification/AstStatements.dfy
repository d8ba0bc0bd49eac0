/** The statements that trees in memory mean. */
module AstStatements {
  import opened Options
  import opened AstHeap
  import opened AstOptimize
  import opened Optimizer
  import opened Statements

  ghost predicate IsDecl(t: Tree<Tag>) {
    t.tag.TDecl? && |t.kids| <= 1 && (|t.kids| == 1 ==> t.kids[0].Some? && IsExpr(t.kids[0].value))
  }

  ghost function DeclOf(t: Tree<Tag>): Declarator
    requires IsDecl(t)
  {
    Declarator(t.tag.x, t.tag.const_, if t.kids == [] then None else Some(ExprOf(t.kids[0].value)))
  }

  ghost predicate AreDecls(ks: seq<Option<Tree<Tag>>>) {
    forall i :: 0 <= i < |ks| ==> ks[i].Some? && IsDecl(ks[i].value)
  }

  ghost function DeclsOf(ks: seq<Option<Tree<Tag>>>): seq<Declarator>
    requires AreDecls(ks)
  {
    seq(|ks|, i requires 0 <= i < |ks| => DeclOf(ks[i].value))
  }

  ghost predicate MaybeExpr(k: Option<Tree<Tag>>) {
    k.Some? ==> IsExpr(k.value)
  }

  ghost function MaybeOf(k: Option<Tree<Tag>>): Option<Expr>
    requires MaybeExpr(k)
  {
    if k.Some? then Some(ExprOf(k.value)) else None
  }

  /** The first slot of a for loop: empty, a declaration or an expression. */
  ghost predicate IsInit(k: Option<Tree<Tag>>) {
    k.Some? ==> IsDecl(k.value) || (k.value.tag.TDeclList? && AreDecls(k.value.kids)) || IsExpr(k.value)
  }

  ghost function InitOf(k: Option<Tree<Tag>>): Init
    requires IsInit(k)
  {
    if k.None? then NoInit
    else if k.value.tag.TDecl? then InitDecl(Decl(DeclOf(k.value)))
    else if k.value.tag.TDeclList? then InitDecl(DeclList(DeclsOf(k.value.kids)))
    else InitExpr(ExprOf(k.value))
  }

  ghost predicate IsStmt(t: Tree<Tag>)
    decreases t, 1
  {
    match t.tag
    case TBlock => AreStmts(t.kids)
    case TIf => (|t.kids| == 2 || |t.kids| == 3) && IsKid(t.kids[0]) && IsSub(t.kids[1]) && (|t.kids| == 3 ==> IsSub(t.kids[2]))
    case TWhile => |t.kids| == 2 && IsKid(t.kids[0]) && IsSub(t.kids[1])
    case TDo => |t.kids| == 2 && IsSub(t.kids[0]) && IsKid(t.kids[1])
    case TFor => |t.kids| == 4 && IsInit(t.kids[0]) && MaybeExpr(t.kids[1]) && MaybeExpr(t.kids[2]) && IsSub(t.kids[3])
    case TSwitch => |t.kids| == 2 && IsKid(t.kids[0]) && IsSub(t.kids[1])
    case TLabel(_) => |t.kids| == 1 && IsSub(t.kids[0])
    case TReturn => |t.kids| <= 1 && (|t.kids| == 1 ==> IsKid(t.kids[0]))
    case TBreak => t.kids == []
    case TContinue => t.kids == []
    case TExprStmt => |t.kids| == 1 && IsKid(t.kids[0])
    case TDecl(_, _) => IsDecl(t)
    case TDeclList => AreDecls(t.kids)
    case _ => false
  }

  ghost predicate IsSub(k: Option<Tree<Tag>>)
    decreases k, 2
  {
    match k case None => false case Some(t) => IsStmt(t)
  }

  ghost predicate AreStmts(ks: seq<Option<Tree<Tag>>>)
    decreases ks, 0
  {
    ks != [] ==> IsSub(ks[0]) && AreStmts(ks[1..])
  }

  ghost function StmtOf(t: Tree<Tag>): Stmt
    requires IsStmt(t)
    decreases t, 1
  {
    match t.tag
    case TBlock => Block(StmtsOf(t.kids))
    case TIf => If(KidOf(t.kids[0]), SubOf(t.kids[1]), if |t.kids| == 3 then Some(SubOf(t.kids[2])) else None)
    case TWhile => While(KidOf(t.kids[0]), SubOf(t.kids[1]))
    case TDo => DoWhile(SubOf(t.kids[0]), KidOf(t.kids[1]))
    case TFor => For(InitOf(t.kids[0]), MaybeOf(t.kids[1]), MaybeOf(t.kids[2]), SubOf(t.kids[3]))
    case TSwitch => Switch(KidOf(t.kids[0]), SubOf(t.kids[1]))
    case TLabel(l) => Label(l, SubOf(t.kids[0]))
    case TReturn => Return(if t.kids == [] then None else Some(KidOf(t.kids[0])))
    case TBreak => Break
    case TContinue => Continue
    case TExprStmt => ExprStmt(KidOf(t.kids[0]))
    case TDecl(_, _) => Decl(DeclOf(t))
    case TDeclList => DeclList(DeclsOf(t.kids))
  }

  ghost function SubOf(k: Option<Tree<Tag>>): Stmt
    requires IsSub(k)
    decreases k, 2
  {
    match k case Some(t) => StmtOf(t)
  }

  ghost function StmtsOf(ks: seq<Option<Tree<Tag>>>): seq<Stmt>
    requires AreStmts(ks)
    decreases ks, 0
  {
    if ks == [] then [] else [SubOf(ks[0])] + StmtsOf(ks[1..])
  }

  lemma SubIs(t: Tree<Tag>)
    ensures (IsSub(Some(t)) <==> IsStmt(t)) && (IsStmt(t) ==> SubOf(Some(t)) == StmtOf(t))
  {
  }

  lemma {:induction false} StmtsAt(ks: seq<Option<Tree<Tag>>>, i: nat)
    requires AreStmts(ks) && i < |ks|
    ensures |StmtsOf(ks)| == |ks| && IsSub(ks[i]) && StmtsOf(ks)[i] == SubOf(ks[i]) && AreStmts(ks[i..]) && StmtsOf(ks[i..]) == StmtsOf(ks)[i..]
    ensures AreStmts(ks[i + 1..]) && StmtsOf(ks[i + 1..]) == StmtsOf(ks)[i + 1..]
    decreases i
  {
    StmtsLength(ks);
    if i > 0 {
      StmtsAt(ks[1..], i - 1);
      assert ks[1..][i - 1..] == ks[i..] && ks[1..][i..] == ks[i + 1..];
    } else {
      assert ks[0..] == ks;
    }
  }

  lemma {:induction false} StmtsLength(ks: seq<Option<Tree<Tag>>>)
    requires AreStmts(ks)
    ensures |StmtsOf(ks)| == |ks|
    decreases |ks|
  {
    if ks != [] { StmtsLength(ks[1..]); }
  }

  lemma {:induction false} StmtsAppend(a: seq<Option<Tree<Tag>>>, b: seq<Option<Tree<Tag>>>)
    ensures AreStmts(a + b) <==> AreStmts(a) && AreStmts(b)
    ensures AreStmts(a) && AreStmts(b) ==> StmtsOf(a + b) == StmtsOf(a) + StmtsOf(b)
    decreases |a|
  {
    hide IsSub, SubOf, IsStmt, StmtOf;
    if a == [] {
      assert a + b == b;
    } else {
      assert (a + b)[0] == a[0] && (a + b)[1..] == a[1..] + b;
      StmtsAppend(a[1..], b);
    }
  }

  /** The tag tells the kind of statement. */
  lemma TagKinds(t: Tree<Tag>)
    requires IsStmt(t)
    ensures (StmtOf(t).Label? <==> t.tag.TLabel?) && (Terminal(StmtOf(t)) <==> t.tag.TReturn? || t.tag.TBreak? || t.tag.TContinue?)
  {
  }
}
