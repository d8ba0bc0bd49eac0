/** Statements, their meaning with a bound on loop iterations, and optimize_stmt (src/optimize.c). */
module Statements {
  import opened Options
  import opened Stores
  import opened Optimizer

  /** One declared name; const_ is the type of a const scalar. */
  datatype Declarator = Declarator(x: string, const_: Option<Kind>, init: Option<Expr>)

  datatype CaseLabel = Case(v: int) | Default

  datatype Init = NoInit | InitDecl(decl: Stmt) | InitExpr(e: Expr)

  datatype Stmt =
    | Block(ss: seq<Stmt>)
    | If(c: Expr, yes: Stmt, no: Option<Stmt>)
    | While(c: Expr, body: Stmt)
    | DoWhile(body: Stmt, c: Expr)
    | For(init: Init, cond: Option<Expr>, step: Option<Expr>, body: Stmt)
    | Switch(c: Expr, body: Stmt)
    | Label(l: CaseLabel, s: Stmt)
    | Return(value: Option<Expr>)
    | Break
    | Continue
    | ExprStmt(e: Expr)
    | Decl(d: Declarator)
    | DeclList(ds: seq<Declarator>)

  // ---------------------------------------------------------------- meaning

  /** Stuck is undefined behaviour; Timeout means the bound was too small. */
  datatype Out =
    | Normal(st: Store)
    | Broke(st: Store)
    | Continued(st: Store)
    | Returned(v: Option<int>, st: Store)
    | Timeout
    | Stuck

  function Leave(o: Out): Out {
    match o
    case Normal(st) => if st == [] then Stuck else Normal(st[..|st| - 1])
    case Broke(st) => if st == [] then Stuck else Broke(st[..|st| - 1])
    case Continued(st) => if st == [] then Stuck else Continued(st[..|st| - 1])
    case Returned(v, st) => if st == [] then Stuck else Returned(v, st[..|st| - 1])
    case _ => o
  }

  function Enter(st: Store, f: Frame): Store {
    st + [f]
  }

  function ExecDecl(d: Declarator, st: Store): Out {
    if st == [] then Stuck
    else if d.init.None? then Normal(Declare(st, d.x, None))
    else
      var r := Eval(d.init.value, st);
      if !r.Val? || r.st == [] then Stuck
      else Normal(Declare(r.st, d.x, Some(if d.const_.Some? then Convert(r.v, d.const_.value) else r.v)))
  }

  function ExecDecls(ds: seq<Declarator>, st: Store): Out {
    if ds == [] then Normal(st)
    else
      match ExecDecl(ds[0], st)
      case Normal(st') => ExecDecls(ds[1..], st')
      case o => o
  }

  function ExecExpr(e: Option<Expr>, st: Store): Out {
    if e.None? then Normal(st)
    else var r := Eval(e.value, st); if r.Val? then Normal(r.st) else Stuck
  }

  /** Names declared by a statement in the scope it stands in. */
  function Declared(s: Stmt): set<string> {
    match s
    case Decl(d) => {d.x}
    case DeclList(ds) => set d | d in ds :: d.x
    case _ => {}
  }

  function DeclaredIn(ss: seq<Stmt>): set<string> {
    if ss == [] then {} else Declared(ss[0]) + DeclaredIn(ss[1..])
  }

  predicate Labelled(s: Stmt, l: CaseLabel) {
    s.Label? && (s.l == l || Labelled(s.s, l))
  }

  /** The first statement that carries the label, or the length. */
  function Position(ss: seq<Stmt>, l: CaseLabel): (k: nat)
    ensures k <= |ss| && (k < |ss| ==> Labelled(ss[k], l))
  {
    if ss == [] || Labelled(ss[0], l) then 0 else 1 + Position(ss[1..], l)
  }

  /** Where a switch enters its block: the matching case, else the default, else nowhere. */
  function Entry(ss: seq<Stmt>, v: int): (k: nat)
    ensures k <= |ss|
  {
    var k := Position(ss, Case(v));
    if k < |ss| then k else Position(ss, Default)
  }

  /** A jump into a block passes over declarations: their names are in scope without a value. */
  function Skipped(ss: seq<Stmt>): Frame {
    map x | x in DeclaredIn(ss) :: None
  }

  function Unbreak(o: Out): Out {
    if o.Broke? then Normal(o.st) else o
  }

  function Exec(s: Stmt, st: Store, n: nat): Out
    decreases n, s, 1
  {
    match s
    case Block(ss) => Leave(ExecSeq(ss, Enter(st, map[]), n))
    case If(c, yes, no) =>
      var r := Eval(c, st);
      if !r.Val? then Stuck
      else if r.v != 0 then Exec(yes, r.st, n)
      else if no.Some? then Exec(no.value, r.st, n)
      else Normal(r.st)
    case While(c, body) =>
      var r := Eval(c, st);
      if !r.Val? then Stuck
      else if r.v == 0 then Normal(r.st)
      else if n == 0 then Timeout
      else
        (match Exec(body, r.st, n)
         case Normal(st') => Exec(s, st', n - 1)
         case Continued(st') => Exec(s, st', n - 1)
         case Broke(st') => Normal(st')
         case o => o)
    case DoWhile(body, c) =>
      (match Exec(body, st, n)
       case Normal(st') => DoAgain(s, st', n)
       case Continued(st') => DoAgain(s, st', n)
       case Broke(st') => Normal(st')
       case o => o)
    case For(init, _, _, _) =>
      (match ExecInit(init, Enter(st, map[]))
       case Normal(st') => Leave(ForLoop(s, st', n))
       case o => o)
    case Switch(c, body) =>
      var r := Eval(c, st);
      if !r.Val? || !body.Block? then Stuck
      else
        var ss := body.ss;
        var k := Entry(ss, r.v);
        if k == |ss| then Normal(r.st)
        else Unbreak(Leave(ExecSeq(ss[k..], Enter(r.st, Skipped(ss[..k])), n)))
    case Label(_, body) => Exec(body, st, n)
    case Return(e) =>
      if e.None? then Returned(None, st)
      else var r := Eval(e.value, st); if r.Val? then Returned(Some(r.v), r.st) else Stuck
    case Break => Broke(st)
    case Continue => Continued(st)
    case ExprStmt(e) => ExecExpr(Some(e), st)
    case Decl(d) => ExecDecl(d, st)
    case DeclList(ds) => ExecDecls(ds, st)
  }

  function ExecSeq(ss: seq<Stmt>, st: Store, n: nat): Out
    decreases n, ss, 0
  {
    if ss == [] then Normal(st)
    else
      match Exec(ss[0], st, n)
      case Normal(st') => ExecSeq(ss[1..], st', n)
      case o => o
  }

  function DoAgain(s: Stmt, st: Store, n: nat): Out
    requires s.DoWhile?
    decreases n, s, 0
  {
    var r := Eval(s.c, st);
    if !r.Val? then Stuck
    else if r.v == 0 then Normal(r.st)
    else if n == 0 then Timeout
    else Exec(s, r.st, n - 1)
  }

  function ExecInit(i: Init, st: Store): Out {
    match i
    case NoInit => Normal(st)
    case InitExpr(e) => ExecExpr(Some(e), st)
    case InitDecl(Decl(d)) => ExecDecl(d, st)
    case InitDecl(DeclList(ds)) => ExecDecls(ds, st)
    case InitDecl(_) => Stuck
  }

  function Test(c: Option<Expr>, st: Store): Result {
    if c.Some? then Eval(c.value, st) else Val(1, st)
  }

  function ForLoop(s: Stmt, st: Store, n: nat): Out
    requires s.For?
    decreases n, s, 0
  {
    var r := Test(s.cond, st);
    if !r.Val? then Stuck
    else if r.v == 0 then Normal(r.st)
    else if n == 0 then Timeout
    else
      match Exec(s.body, r.st, n)
      case Normal(st') => ForNext(s, st', n)
      case Continued(st') => ForNext(s, st', n)
      case Broke(st') => Normal(st')
      case o => o
  }

  function ForNext(s: Stmt, st: Store, n: nat): Out
    requires s.For? && n > 0
    decreases n - 1, s, 1
  {
    match ExecExpr(s.step, st)
    case Normal(st') => ForLoop(s, st', n - 1)
    case o => o
  }

  // ---------------------------------------------------------------- optimize_stmt

  predicate Terminal(s: Stmt) {
    s.Return? || s.Break? || s.Continue?
  }

  /** Siblings after a terminal statement go, up to the next label. */
  function DropDead(ss: seq<Stmt>): seq<Stmt> {
    if ss == [] || ss[0].Label? then ss else DropDead(ss[1..])
  }

  const CONST_PROP_MAX := 64

  predicate Recorded(d: Declarator, init: Option<Expr>, t: Table) {
    d.const_.Some? && init.Some? && init.value.Lit? && |t| < CONST_PROP_MAX
  }

  datatype OptResult = OptResult(s: Stmt, t: Table)

  function OptMaybe(e: Option<Expr>, t: Table): Option<Option<Expr>> {
    if e.None? then Some(None)
    else var o := Optimize(e.value, t); if o.None? then None else Some(o)
  }

  function OptDeclarator(d: Declarator, t: Table): Option<Declarator> {
    var o := OptMaybe(d.init, t);
    if o.None? then None else Some(d.(init := o.value))
  }

  function OptDeclarators(ds: seq<Declarator>, t: Table): Option<seq<Declarator>> {
    if ds == [] then Some([])
    else
      var d, rest := OptDeclarator(ds[0], t), OptDeclarators(ds[1..], t);
      if d.None? || rest.None? then None else Some([d.value] + rest.value)
  }

  /** An expression in statement position reaches the default case: its operands are optimised, it is not. */
  function OptOperands(e: Expr, t: Table): Option<Expr> {
    match e
    case Lit(_) => Some(e)
    case Ref(_) => Some(e)
    case Unary(op, a) => var o := Optimize(a, t); if o.None? then None else Some(Unary(op, o.value))
    case Binary(op, l, r) =>
      var ol, or := Optimize(l, t), Optimize(r, t);
      if ol.None? || or.None? then None else Some(Binary(op, ol.value, or.value))
    case AndAlso(l, r) =>
      var ol, or := Optimize(l, t), Optimize(r, t);
      if ol.None? || or.None? then None else Some(AndAlso(ol.value, or.value))
    case OrElse(l, r) =>
      var ol, or := Optimize(l, t), Optimize(r, t);
      if ol.None? || or.None? then None else Some(OrElse(ol.value, or.value))
    case Cond(c, y, n) =>
      var oc, oy, on := Optimize(c, t), Optimize(y, t), Optimize(n, t);
      if oc.None? || oy.None? || on.None? then None else Some(Cond(oc.value, oy.value, on.value))
    case Cast(to, a) => var o := Optimize(a, t); if o.None? then None else Some(Cast(to, o.value))
    case Assign(x, a) => var o := Optimize(a, t); if o.None? then None else Some(Assign(x, o.value))
  }

  datatype OptInitResult = OptInitResult(init: Init, t: Table)

  function OptDecl(d: Declarator, t: Table): Option<OptResult> {
    var o := OptDeclarator(d, t);
    if o.None? then None
    else
      var d' := o.value;
      Some(OptResult(Decl(d'), if Recorded(d', d'.init, t) then t + [ConstEntry(d'.x, d'.init.value.v)] else t))
  }

  function OptInit(i: Init, t: Table): Option<OptInitResult> {
    match i
    case NoInit => Some(OptInitResult(NoInit, t))
    case InitExpr(e) => var o := OptOperands(e, t); if o.None? then None else Some(OptInitResult(InitExpr(o.value), t))
    case InitDecl(Decl(d)) => var o := OptDecl(d, t); if o.None? then None else Some(OptInitResult(InitDecl(o.value.s), o.value.t))
    case InitDecl(DeclList(ds)) =>
      var o := OptDeclarators(ds, t);
      if o.None? then None else Some(OptInitResult(InitDecl(DeclList(o.value)), t))
    case InitDecl(_) => None
  }

  /** What is left of a for loop whose condition is the literal zero. */
  function InitOnly(i: Init): Stmt {
    match i
    case NoInit => Block([])
    case InitDecl(s) => s
    case InitExpr(e) => ExprStmt(e)
  }

  predicate IsZero(e: Expr) {
    e == Lit(0)
  }

  /** optimize_stmt with the table it leaves; None where folding crashes the compiler. */
  function Opt(s: Stmt, t: Table): Option<OptResult>
    decreases s, 1
  {
    match s
    case Block(ss) =>
      var o := OptSeq(ss, t);
      if o.None? then None else Some(OptResult(Block(o.value), t))
    case If(c, yes, no) =>
      var oc, oy := Optimize(c, t), Opt(yes, t);
      if oc.None? || oy.None? then None else
      var on := if no.Some? then Opt(no.value, oy.value.t) else Some(OptResult(Block([]), oy.value.t));
      if on.None? then None
      else if oc.value.Lit? then Some(OptResult(if oc.value.v != 0 then oy.value.s else on.value.s, on.value.t))
      else Some(OptResult(If(oc.value, oy.value.s, if no.Some? then Some(on.value.s) else None), on.value.t))
    case While(c, body) =>
      var oc, ob := Optimize(c, t), Opt(body, t);
      if oc.None? || ob.None? then None
      else Some(OptResult(if IsZero(oc.value) then Block([]) else While(oc.value, ob.value.s), ob.value.t))
    case DoWhile(body, c) =>
      var ob := Opt(body, t);
      if ob.None? then None else
      var oc := Optimize(c, ob.value.t);
      if oc.None? then None else Some(OptResult(DoWhile(ob.value.s, oc.value), ob.value.t))
    case For(init, cond, step, body) =>
      var oi := OptInit(init, t);
      if oi.None? then None else
      var oc, os, ob := OptMaybe(cond, oi.value.t), OptMaybe(step, oi.value.t), Opt(body, oi.value.t);
      if oc.None? || os.None? || ob.None? then None
      else if oc.value.Some? && IsZero(oc.value.value) then Some(OptResult(InitOnly(oi.value.init), ob.value.t))
      else Some(OptResult(For(oi.value.init, oc.value, os.value, ob.value.s), ob.value.t))
    case Switch(c, body) =>
      var oc, ob := Optimize(c, t), Opt(body, t);
      if oc.None? || ob.None? then None else Some(OptResult(Switch(oc.value, ob.value.s), ob.value.t))
    case Label(l, body) =>
      var ob := Opt(body, t);
      if ob.None? then None else Some(OptResult(Label(l, ob.value.s), ob.value.t))
    case Return(e) => var o := OptMaybe(e, t); if o.None? then None else Some(OptResult(Return(o.value), t))
    case Break => Some(OptResult(s, t))
    case Continue => Some(OptResult(s, t))
    case ExprStmt(e) => var o := Optimize(e, t); if o.None? then None else Some(OptResult(ExprStmt(o.value), t))
    case Decl(d) => OptDecl(d, t)
    case DeclList(ds) =>
      var o := OptDeclarators(ds, t);
      if o.None? then None else Some(OptResult(DeclList(o.value), t))
  }

  lemma DropDeadShorter(ss: seq<Stmt>)
    ensures |DropDead(ss)| <= |ss|
    ensures DropDead(ss) == ss[|ss| - |DropDead(ss)|..]
  {
  }

  function Live(s: Stmt, rest: seq<Stmt>): (r: seq<Stmt>)
    ensures |r| <= |rest| && r == rest[|rest| - |r|..]
  {
    DropDeadShorter(rest);
    if Terminal(s) then DropDead(rest) else rest
  }

  function OptSeq(ss: seq<Stmt>, t: Table): Option<seq<Stmt>>
    decreases ss, 0
  {
    if ss == [] then Some([])
    else
      var o := Opt(ss[0], t);
      if o.None? then None else
      var rest := OptSeq(Live(o.value.s, ss[1..]), o.value.t);
      if rest.None? then None else Some([o.value.s] + rest.value)
  }
}
