/** Stack depth and labels of the emitted code (src/codegen.c).

    Every emitted instruction is recorded with the number of words that, by the generator's own count
    (push_depth, plus the pad word around a call), lie below the frame when it runs. Instructions that
    neither move rsp nor jump are Plain.
 */
module Emission {
  import opened Options

  datatype LabelKind =
    | AndFalse | AndEnd | OrTrue | OrEnd | CondFalse | CondEnd | ElsePart | EndIf
    | WhileStart | WhileEnd | DoStart | DoEnd | ForStart | ForEnd | ContinueTo | BreakTo
    | SwitchSec | SwitchEnd

  datatype Label = Numbered(kind: LabelKind, id: nat) | User(name: string)

  /** Amounts are in words of 8 bytes. Work is the code of a leaf expression, Test compares rax with zero, Match
      compares the word on top of the stack with the value of a case (all 64 bits of it where wide), and Jcc jumps
      where the last comparison found them equal (zero), or where it did not. */
  datatype Ins =
    | Plain | Work(id: nat) | Test | Match(value: int, wide: bool) | Push | Pop | Sub(words: nat) | Add(words: nat) | Call
    | Def(l: Label) | Jmp(l: Label) | Jcc(l: Label, zero: bool) | Ret

  datatype Item = Item(ins: Ins, d: nat)

  /** Code, and for every label number taken the depth at which its labels stand. */
  datatype Emitted = Emitted(code: seq<Item>, depths: seq<nat>)

  const NOTHING := Emitted([], [])

  function Then(a: Emitted, b: Emitted): Emitted {
    Emitted(a.code + b.code, a.depths + b.depths)
  }

  function One(ins: Ins, d: nat): Emitted {
    Emitted([Item(ins, d)], [])
  }

  /** Takes the next label number for labels at depth d. */
  function Take(d: nat): Emitted {
    Emitted([], [d])
  }

  // ---------------------------------------------------------------- expressions

  /** How an argument travels: on the stack, in one or two general registers, or in an xmm register. */
  datatype Class = OnStack | OneGp | TwoGp | Xmm

  datatype Arg = Arg(e: Expr, c: Class)

  datatype Expr =
    | Leaf(id: nat)
    | Unary(e: Expr)
    | Binary(l: Expr, r: Expr)
    | And(l: Expr, r: Expr)
    | Or(l: Expr, r: Expr)
    | Cond(c: Expr, y: Expr, n: Expr)
    | CallPlain(args: seq<Expr>)
    | CallLaidOut(slots: seq<Arg>, sret: bool, stackBytes: nat)
    | Indirect(f: Expr, args: seq<Expr>)
    | IndirectLaidOut(f: Expr, slots: seq<Arg>, stackBytes: nat)

  function Jump(kind: LabelKind, n: nat): Label {
    Numbered(kind, n)
  }

  /** Evaluate and push each, left to right. */
  function PushAll(es: seq<Expr>, d: nat, n: nat): Emitted
    decreases es, 0
  {
    if es == [] then NOTHING
    else
      var a := Expression(es[0], d, n);
      Then(Then(a, One(Push, d)), PushAll(es[1..], d + 1, n + |a.depths|))
  }

  /** Evaluate and push each, right to left. */
  function PushBack(es: seq<Expr>, d: nat, n: nat): Emitted
    decreases es, 0
  {
    if es == [] then NOTHING
    else
      var last := |es| - 1;
      var a := Expression(es[last], d, n);
      Then(Then(a, One(Push, d)), PushBack(es[..last], d + 1, n + |a.depths|))
  }

  function PopAll(k: nat, d: nat): Emitted
    requires k <= d
  {
    if k == 0 then NOTHING else Then(One(Pop, d), PopAll(k - 1, d - 1))
  }

  function Words(bytes: nat): nat {
    (bytes + 7) / 8
  }

  /** The outgoing area, rounded so that rsp is aligned at the call. */
  function Region(d: nat, stackBytes: nat): nat {
    var w := Words(stackBytes);
    if (d + w) % 2 != 0 then w + 1 else w
  }

  function SubIf(k: nat, d: nat): Emitted {
    if k > 0 then One(Sub(k), d) else NOTHING
  }

  function AddIf(k: nat, d: nat): Emitted {
    if k > 0 then One(Add(k), d) else NOTHING
  }

  function StoreArg(a: Arg, d: nat, n: nat): Emitted
    decreases a, 3
  {
    match a case Arg(e, c) => if c == OnStack then Then(Expression(e, d, n), One(Plain, d)) else NOTHING
  }

  function SpillArg(a: Arg, d: nat, n: nat): Emitted
    decreases a, 3
  {
    match a case Arg(e, c) => if c == OnStack then NOTHING else Then(Expression(e, d, n), Spill(c, d))
  }

  /** First phase: arguments that travel on the stack are stored into the area. */
  function StoreArgs(slots: seq<Arg>, d: nat, n: nat): Emitted
    decreases slots, 0
  {
    if slots == [] then NOTHING
    else
      var a := StoreArg(slots[0], d, n);
      Then(a, StoreArgs(slots[1..], d, n + |a.depths|))
  }

  function SpillCount(c: Class): nat {
    match c
    case OnStack => 0
    case OneGp => 1
    case TwoGp => 2
    case Xmm => 1
  }

  function Spills(slots: seq<Arg>): nat {
    if slots == [] then 0 else SpillCount(slots[0].c) + Spills(slots[1..])
  }

  function Spill(c: Class, d: nat): Emitted {
    match c
    case OnStack => NOTHING
    case OneGp => One(Push, d)
    case TwoGp => Then(One(Push, d), One(Push, d + 1))
    case Xmm => Then(One(Sub(1), d), One(Plain, d + 1))
  }

  /** Second phase: arguments that travel in registers are spilled. */
  function SpillArgs(slots: seq<Arg>, d: nat, n: nat): Emitted
    decreases slots, 0
  {
    if slots == [] then NOTHING
    else
      var a := SpillArg(slots[0], d, n);
      Then(a, SpillArgs(slots[1..], d + SpillCount(slots[0].c), n + |a.depths|))
  }

  /** A call at depth d that needs no stack arguments. */
  function PaddedCall(d: nat): Emitted {
    if d % 2 != 0 then Then(Then(One(Sub(1), d), One(Call, d + 1)), One(Add(1), d + 1)) else One(Call, d)
  }

  /** Seven or more plain arguments from depth d; the callee address may lie below. */
  function PushMany(es: seq<Expr>, d: nat, n: nat): Emitted
    requires |es| > 6
    decreases es, 1
  {
    var k := |es| - 6;
    var pad := (d + k) % 2;
    var a := Then(SubIf(pad, d), PushBack(es[6..], d + pad, n));
    var b := PushAll(es[..6], d + pad + k, n + |a.depths|);
    Then(Then(a, b), Then(PopAll(6, d + pad + k + 6), One(Call, d + pad + k)))
  }

  /** The phases of a laid-out call up to and with the call. */
  function LaidOut(slots: seq<Arg>, sret: bool, stackBytes: nat, d: nat, n: nat): Emitted
    decreases slots, 1
  {
    var region := Region(d, stackBytes);
    var d1 := d + region;
    var a := Then(SubIf(region, d), StoreArgs(slots, d1, n));
    var s := if sret then Then(One(Plain, d1), One(Push, d1)) else NOTHING;
    var h := if sret then 1 else 0;
    var b := SpillArgs(slots, d1 + h, n + |a.depths|);
    var k := h + Spills(slots);
    Then(Then(a, Then(s, b)), Then(Then(One(Plain, d1 + k), AddIf(k, d1 + k)), One(Call, d1)))
  }

  /** codegen_expression at depth d with n label numbers taken. */
  function Expression(e: Expr, d: nat, n: nat): Emitted
    decreases e, 2
  {
    match e
    case Leaf(id) => One(Work(id), d)
    case Unary(a) => Then(Expression(a, d, n), One(Plain, d))
    case Binary(l, r) =>
      var a := Then(Expression(l, d, n), One(Push, d));
      var b := Expression(r, d + 1, n + |a.depths|);
      Then(Then(a, b), Then(One(Pop, d + 1), One(Plain, d)))
    case And(l, r) =>
      var a := Then(Then(Take(d), Expression(l, d, n + 1)), Then(One(Test, d), One(Jcc(Jump(AndFalse, n), true), d)));
      var b := Expression(r, d, n + |a.depths|);
      Then(Then(a, b), ShortEnd(AndFalse, AndEnd, d, n))
    case Or(l, r) =>
      var a := Then(Then(Take(d), Expression(l, d, n + 1)), Then(One(Test, d), One(Jcc(Jump(OrTrue, n), false), d)));
      var b := Expression(r, d, n + |a.depths|);
      Then(Then(a, b), ShortEnd(OrTrue, OrEnd, d, n))
    case Cond(c, y, m) =>
      var a := Then(Then(Take(d), Expression(c, d, n + 1)), Then(One(Test, d), One(Jcc(Jump(CondFalse, n), true), d)));
      var b := Then(Expression(y, d, n + |a.depths|), Then(One(Jmp(Jump(CondEnd, n)), d), One(Def(Jump(CondFalse, n)), d)));
      var f := Expression(m, d, n + |a.depths| + |b.depths|);
      Then(Then(a, b), Then(f, One(Def(Jump(CondEnd, n)), d)))
    case CallPlain(args) =>
      if |args| <= 6 then
        Then(Then(PushAll(args, d, n), PopAll(|args|, d + |args|)), PaddedCall(d))
      else
        var k := |args| - 6;
        var pad := (d + k) % 2;
        Then(PushMany(args, d, n), One(Add(k + pad), d + k + pad))
    case CallLaidOut(slots, sret, stackBytes) =>
      var region := Region(d, stackBytes);
      Then(LaidOut(slots, sret, stackBytes, d, n), Then(AddIf(region, d + region), One(Plain, d)))
    case Indirect(f, args) =>
      var a := Then(Expression(f, d, n), One(Push, d));
      if |args| <= 6 then
        Then(a, Then(Then(PushAll(args, d + 1, n + |a.depths|), PopAll(|args|, d + 1 + |args|)), Then(One(Pop, d + 1), PaddedCall(d))))
      else
        var k := |args| - 6;
        var pad := (d + 1 + k) % 2;
        Then(a, Then(PushMany(args, d + 1, n + |a.depths|), One(Add(k + pad + 1), d + 1 + k + pad)))
    case IndirectLaidOut(f, slots, stackBytes) =>
      var a := Then(Expression(f, d, n), One(Push, d));
      var region := Region(d + 1, stackBytes);
      Then(a, Then(LaidOut(slots, false, stackBytes, d + 1, n + |a.depths|), One(Add(region + 1), d + 1 + region)))
  }

  /** The end of a short-circuit operator. */
  function ShortEnd(skip: LabelKind, end: LabelKind, d: nat, n: nat): Emitted {
    Then(Then(One(Plain, d), One(Jmp(Jump(end, n)), d)),
         Then(One(Def(Jump(skip, n)), d), Then(One(Plain, d), One(Def(Jump(end, n)), d))))
  }

  // ---------------------------------------------------------------- statements

  /** Case and default sections carry the identity of their node and the value of the case; a switch, whether its
      expression has 64 bits. */
  datatype Stmt =
    | Eval(e: Expr)
    | Return(value: Option<Expr>)
    | If(c: Expr, yes: Stmt, no: Option<Stmt>)
    | While(c: Expr, body: Stmt)
    | DoWhile(body: Stmt, c: Expr)
    | For(init: Option<Stmt>, cond: Option<Expr>, step: Option<Expr>, body: Stmt)
    | Switch(c: Expr, wide: bool, body: Stmt)
    | Section(node: nat, caseValue: Option<int>, s: Stmt)
    | Labelled(name: string, s: Stmt)
    | Goto(name: string)
    | Break
    | Continue
    | Block(ss: seq<Stmt>)

  /** Label number of a section node. */
  datatype SwitchLabel = SwitchLabel(node: nat, value: Option<int>, num: nat)

  type SwitchCtx = seq<SwitchLabel>

  /** collect_switch_labels: numbers the sections of one switch in walk order, not those of nested switches. */
  function Collect(s: Stmt, n: nat): SwitchCtx
    decreases s, 1
  {
    match s
    case Section(node, v, b) => [SwitchLabel(node, v, n)] + Collect(b, n + 1)
    case If(_, y, m) =>
      var a := Collect(y, n);
      if m.Some? then a + Collect(m.value, n + |a|) else a
    case While(_, b) => Collect(b, n)
    case DoWhile(b, _) => Collect(b, n)
    case For(i, _, _, b) =>
      var a := if i.Some? then Collect(i.value, n) else [];
      a + Collect(b, n + |a|)
    case Labelled(_, b) => Collect(b, n)
    case Block(ss) => CollectAll(ss, n)
    case _ => []
  }

  function CollectAll(ss: seq<Stmt>, n: nat): SwitchCtx
    decreases ss, 0
  {
    if ss == [] then [] else var a := Collect(ss[0], n); a + CollectAll(ss[1..], n + |a|)
  }

  /** switch_lookup_label: the first entry of that node; None where the source returns -1. */
  function Lookup(ctx: SwitchCtx, node: nat): Option<nat> {
    if ctx == [] then None
    else if ctx[0].node == node then Some(ctx[0].num)
    else Lookup(ctx[1..], node)
  }

  /** The last default section recorded wins. */
  function DefaultOf(ctx: SwitchCtx): Option<nat> {
    if ctx == [] then None
    else if ctx[|ctx| - 1].value.None? then Some(ctx[|ctx| - 1].num)
    else DefaultOf(ctx[..|ctx| - 1])
  }

  /** One entry of break_stack; a switch has no continue target. */
  datatype BreakFrame = BreakFrame(breakLabel: nat, continueLabel: Option<nat>)

  /** break_stack and switch_stack. */
  datatype Env = Env(breaks: seq<BreakFrame>, ctx: SwitchCtx)

  function NearestLoop(breaks: seq<BreakFrame>): Option<nat> {
    if breaks == [] then None
    else if breaks[|breaks| - 1].continueLabel.Some? then breaks[|breaks| - 1].continueLabel
    else NearestLoop(breaks[..|breaks| - 1])
  }

  function InLoop(env: Env, n: nat): Env {
    env.(breaks := env.breaks + [BreakFrame(n, Some(n))])
  }

  function InSwitch(env: Env, n: nat, ctx: SwitchCtx): Env {
    Env(env.breaks + [BreakFrame(n, None)], ctx)
  }

  /** Compare and branch for every case, then the jump to the default or the end. */
  function Cases(ctx: SwitchCtx, wide: bool, d: nat): Emitted {
    if ctx == [] then NOTHING
    else
      var rest := Cases(ctx[1..], wide, d);
      if ctx[0].value.None? then rest
      else Then(Then(One(Match(ctx[0].value.value, wide), d), One(Jcc(Jump(SwitchSec, ctx[0].num), true), d)), rest)
  }

  function Dispatch(ctx: SwitchCtx, wide: bool, d: nat, n: nat): Emitted {
    var def := DefaultOf(ctx);
    Then(Cases(ctx, wide, d), One(Jmp(if def.Some? then Jump(SwitchSec, def.value) else Jump(SwitchEnd, n)), d))
  }

  /** The numbers of the sections, all one word deeper than the switch. */
  function TakeMany(k: nat, d: nat): Emitted {
    Emitted([], seq(k, i => d))
  }

  function Maybe(e: Option<Expr>, d: nat, n: nat): Emitted {
    if e.Some? then Expression(e.value, d, n) else NOTHING
  }

  /** codegen_statement; where the source would use label -1 nothing is emitted. */
  function Statement(s: Stmt, d: nat, n: nat, env: Env): Emitted
    decreases s, 1
  {
    match s
    case Eval(e) => Expression(e, d, n)
    case Return(e) => Then(Maybe(e, d, n), One(Ret, d))
    case If(c, y, m) =>
      var a := Then(Then(Take(d), Expression(c, d, n + 1)), One(Test, d));
      if m.Some? then
        var b := Then(One(Jcc(Jump(ElsePart, n), true), d), Statement(y, d, n + |a.depths|, env));
        var f := Statement(m.value, d, n + |a.depths| + |b.depths|, env);
        Then(Then(a, b), Then(Then(One(Jmp(Jump(EndIf, n)), d), One(Def(Jump(ElsePart, n)), d)), Then(f, One(Def(Jump(EndIf, n)), d))))
      else
        var b := Then(One(Jcc(Jump(EndIf, n), true), d), Statement(y, d, n + |a.depths|, env));
        Then(Then(a, b), One(Def(Jump(EndIf, n)), d))
    case While(c, body) =>
      var a := Then(Take(d), Then(One(Def(Jump(WhileStart, n)), d), One(Def(Jump(ContinueTo, n)), d)));
      var b := Then(Expression(c, d, n + 1), Then(One(Test, d), One(Jcc(Jump(WhileEnd, n), true), d)));
      var f := Statement(body, d, n + 1 + |b.depths|, InLoop(env, n));
      Then(Then(a, b), Then(f, LoopEnd(WhileStart, WhileEnd, d, n)))
    case DoWhile(body, c) =>
      var a := Then(Take(d), One(Def(Jump(DoStart, n)), d));
      var b := Then(Statement(body, d, n + 1, InLoop(env, n)), One(Def(Jump(ContinueTo, n)), d));
      var f := Then(Expression(c, d, n + 1 + |b.depths|), Then(One(Test, d), One(Jcc(Jump(DoStart, n), false), d)));
      Then(Then(a, b), Then(f, Then(One(Def(Jump(DoEnd, n)), d), One(Def(Jump(BreakTo, n)), d))))
    case For(i, c, p, body) =>
      var env1 := InLoop(env, n);
      var a := Then(Then(Take(d), if i.Some? then Statement(i.value, d, n + 1, env1) else NOTHING), One(Def(Jump(ForStart, n)), d));
      var b := if c.Some? then Then(Expression(c.value, d, n + |a.depths|), Then(One(Test, d), One(Jcc(Jump(ForEnd, n), true), d))) else NOTHING;
      var f := Then(Statement(body, d, n + |a.depths| + |b.depths|, env1), One(Def(Jump(ContinueTo, n)), d));
      var g := Maybe(p, d, n + |a.depths| + |b.depths| + |f.depths|);
      Then(Then(Then(a, b), f), Then(g, LoopEnd(ForStart, ForEnd, d, n)))
    case Switch(c, wide, body) =>
      var ctx := Collect(body, n + 1);
      var a := Then(Take(d + 1), TakeMany(|ctx|, d + 1));
      var b := Then(Expression(c, d, n + |a.depths|), One(Push, d));
      var f := Statement(body, d + 1, n + |a.depths| + |b.depths|, InSwitch(env, n, ctx));
      Then(Then(Then(a, b), Dispatch(ctx, wide, d + 1, n)),
           Then(f, Then(Then(One(Def(Jump(SwitchEnd, n)), d + 1), One(Def(Jump(BreakTo, n)), d + 1)), One(Add(1), d + 1))))
    case Section(node, _, b) =>
      var l := Lookup(env.ctx, node);
      Then(if l.Some? then One(Def(Jump(SwitchSec, l.value)), d) else NOTHING, Statement(b, d, n, env))
    case Labelled(x, b) => Then(One(Def(User(x)), d), Statement(b, d, n, env))
    case Goto(x) => One(Jmp(User(x)), d)
    case Break => if env.breaks == [] then NOTHING else One(Jmp(Jump(BreakTo, env.breaks[|env.breaks| - 1].breakLabel)), d)
    case Continue => var l := NearestLoop(env.breaks); if l.None? then NOTHING else One(Jmp(Jump(ContinueTo, l.value)), d)
    case Block(ss) => Statements(ss, d, n, env)
  }

  function Statements(ss: seq<Stmt>, d: nat, n: nat, env: Env): Emitted
    decreases ss, 0
  {
    if ss == [] then NOTHING
    else var a := Statement(ss[0], d, n, env); Then(a, Statements(ss[1..], d, n + |a.depths|, env))
  }

  function LoopEnd(start: LabelKind, end: LabelKind, d: nat, n: nat): Emitted {
    Then(One(Jmp(Jump(start, n)), d), Then(One(Def(Jump(end, n)), d), One(Def(Jump(BreakTo, n)), d)))
  }
}
