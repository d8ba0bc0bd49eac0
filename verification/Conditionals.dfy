/** Conditional compilation (src/preprocessor.c): the streaming stack of CondFrames, and the meaning of
    section 6.10.1 of ISO/IEC 9899:1999 as a recursion over nested groups. */
module Conditionals {
  import opened Options

  datatype Test = Defined(name: string) | NotDefined(name: string) | Holds(expr: string)

  /** A logical line: a conditional directive, or anything else. */
  datatype Line = If(test: Test) | Elif(test: Test) | Else | EndIf | Other(text: string)

  /** The rest of the preprocessor: condition evaluation (None: the condition has no value), macro lookup, and what
      an active line of another kind emits and does to the macro table M. */
  datatype Host<!M> = Host(
    truth: (string, M) -> Option<bool>,
    defined: (string, M) -> bool,
    active: (string, M) -> Option<(string, M)>)

  /** Text emitted so far, the macro table, and every condition evaluated with the table it saw. */
  datatype World<M> = World(out: string, macros: M, asked: seq<(string, M)>)

  /** A line end is emitted whether or not the region is active. */
  function NewLine<M>(w: World<M>): World<M> {
    w.(out := w.out + "\n")
  }

  function Ask<M>(h: Host<M>, t: Test, w: World<M>): Option<(bool, World<M>)> {
    match t
    case Defined(x) => Some((h.defined(x, w.macros), w))
    case NotDefined(x) => Some((!h.defined(x, w.macros), w))
    case Holds(e) =>
      var b := h.truth(e, w.macros);
      if b.None? then None else Some((b.value, w.(asked := w.asked + [(e, w.macros)])))
  }

  // ---------------------------------------------------------------- streaming

  const MAX_COND_DEPTH := 64

  datatype CondFrame = CondFrame(emitting: bool, parentEmitting: bool, seenElse: bool, branchTaken: bool)

  datatype State<M> = State(stack: seq<CondFrame>, emitting: bool, w: World<M>)

  function Top<M>(s: State<M>): CondFrame
    requires s.stack != []
  {
    s.stack[|s.stack| - 1]
  }

  function SetTop<M>(s: State<M>, f: CondFrame, w: World<M>): State<M>
    requires s.stack != []
  {
    State(s.stack[|s.stack| - 1 := f], f.emitting, w)
  }

  function StepIf<M>(h: Host<M>, t: Test, s: State<M>): Option<State<M>> {
    if |s.stack| >= MAX_COND_DEPTH then None
    else
      var a := if s.emitting then Ask(h, t, s.w) else Some((false, s.w));
      if a.None? then None
      else
        var e := s.emitting && a.value.0;
        Some(State(s.stack + [CondFrame(e, s.emitting, false, e)], e, NewLine(a.value.1)))
  }

  function StepElif<M>(h: Host<M>, t: Test, s: State<M>): Option<State<M>> {
    if s.stack == [] || Top(s).seenElse then None
    else
      var top := Top(s);
      var a := if top.parentEmitting && !top.branchTaken then Ask(h, t, s.w) else Some((false, s.w));
      if a.None? then None
      else
        var e := !top.branchTaken && a.value.0;
        var top' := if top.parentEmitting then top.(emitting := e, branchTaken := top.branchTaken || e) else top;
        Some(SetTop(s, top', NewLine(a.value.1)))
  }

  function StepElse<M>(s: State<M>): Option<State<M>> {
    if s.stack == [] || Top(s).seenElse then None
    else
      var top := Top(s);
      var e := if top.parentEmitting then !top.branchTaken else top.emitting;
      Some(SetTop(s, top.(seenElse := true, emitting := e), NewLine(s.w)))
  }

  function StepEndIf<M>(s: State<M>): Option<State<M>> {
    if s.stack == [] then None
    else
      var rest := s.stack[..|s.stack| - 1];
      Some(State(rest, if rest == [] then true else rest[|rest| - 1].emitting, NewLine(s.w)))
  }

  function Act<M>(h: Host<M>, text: string, w: World<M>): Option<World<M>> {
    var r := h.active(text, w.macros);
    if r.None? then None else Some(NewLine(w.(out := w.out + r.value.0, macros := r.value.1)))
  }

  function StepOther<M>(h: Host<M>, text: string, s: State<M>): Option<State<M>> {
    if !s.emitting then Some(s.(w := NewLine(s.w)))
    else var w := Act(h, text, s.w); if w.None? then None else Some(s.(w := w.value))
  }

  /** One line; None is a fatal error. */
  function Step<M>(h: Host<M>, l: Line, s: State<M>): Option<State<M>> {
    match l
    case If(t) => StepIf(h, t, s)
    case Elif(t) => StepElif(h, t, s)
    case Else => StepElse(s)
    case EndIf => StepEndIf(s)
    case Other(text) => StepOther(h, text, s)
  }

  function Steps<M>(h: Host<M>, ls: seq<Line>, s: State<M>): Option<State<M>>
    decreases |ls|
  {
    if ls == [] then Some(s)
    else
      var s' := Step(h, ls[0], s);
      if s'.None? then None else Steps(h, ls[1..], s'.value)
  }

  /** The whole input; a group still open at the end is an error. */
  function Process<M>(h: Host<M>, ls: seq<Line>, w: World<M>): Option<World<M>> {
    var s := Steps(h, ls, State([], true, w));
    if s.None? || s.value.stack != [] then None else Some(s.value.w)
  }

  /** The loop of preprocess_internal with its fixed-size stack. */
  class Preprocessor<M> {
    const h: Host<M>
    const condStack: array<CondFrame>
    var condDepth: nat
    var emitting: bool
    var w: World<M>

    ghost predicate Valid()
      reads this
    {
      condStack.Length == MAX_COND_DEPTH && condDepth <= MAX_COND_DEPTH
    }

    ghost function Abstract(): State<M>
      reads this, condStack
      requires Valid()
    {
      State(condStack[..condDepth], emitting, w)
    }

    constructor (h: Host<M>, w: World<M>)
      ensures Valid() && fresh(condStack) && this.h == h && Abstract() == State([], true, w)
    {
      this.h := h;
      this.w := w;
      condStack := new CondFrame[MAX_COND_DEPTH](_ => CondFrame(false, false, false, false));
      condDepth := 0;
      emitting := true;
    }

    method Query(t: Test, needed: bool) returns (ok: bool, v: bool)
      requires Valid()
      modifies this`w
      ensures var a := if needed then Ask(h, t, old(w)) else Some((false, old(w)));
        ok == a.Some? && (ok ==> v == a.value.0 && w == a.value.1)
    {
      ok, v := true, false;
      if needed {
        match t
        case Defined(x) => v := h.defined(x, w.macros);
        case NotDefined(x) => v := !h.defined(x, w.macros);
        case Holds(e) =>
          var b := h.truth(e, w.macros);
          ok := b.Some?;
          if ok {
            v := b.value;
            w := w.(asked := w.asked + [(e, w.macros)]);
          }
      }
    }

    method OpenGroup(t: Test) returns (ok: bool)
      requires Valid()
      modifies this, condStack
      ensures Valid()
      ensures var r := StepIf(h, t, old(Abstract())); ok == r.Some? && (ok ==> Abstract() == r.value)
    {
      if condDepth >= MAX_COND_DEPTH { return false; }
      ghost var below := condStack[..condDepth];
      var v;
      ok, v := Query(t, emitting);
      if !ok { return; }
      condStack[condDepth] := CondFrame(emitting && v, emitting, false, emitting && v);
      condDepth := condDepth + 1;
      emitting := condStack[condDepth - 1].emitting;
      w := NewLine(w);
      assert condStack[..condDepth - 1] == below;
      assert condStack[..condDepth] == below + [condStack[condDepth - 1]];
    }

    method NextBranch(t: Test) returns (ok: bool)
      requires Valid()
      modifies this, condStack
      ensures Valid()
      ensures var r := StepElif(h, t, old(Abstract())); ok == r.Some? && (ok ==> Abstract() == r.value)
    {
      if condDepth == 0 { return false; }
      var top := condStack[condDepth - 1];
      if top.seenElse { return false; }
      var v;
      ok, v := Query(t, top.parentEmitting && !top.branchTaken);
      if !ok { return; }
      if top.parentEmitting {
        if !top.branchTaken && v {
          top := top.(emitting := true, branchTaken := true);
        } else {
          top := top.(emitting := false);
        }
      }
      condStack[condDepth - 1] := top;
      emitting := top.emitting;
      w := NewLine(w);
    }

    method ElseBranch() returns (ok: bool)
      requires Valid()
      modifies this, condStack
      ensures Valid()
      ensures var r := StepElse(old(Abstract())); ok == r.Some? && (ok ==> Abstract() == r.value)
    {
      if condDepth == 0 { return false; }
      var top := condStack[condDepth - 1];
      if top.seenElse { return false; }
      top := top.(seenElse := true);
      if top.parentEmitting { top := top.(emitting := !top.branchTaken); }
      condStack[condDepth - 1] := top;
      emitting := top.emitting;
      w := NewLine(w);
      return true;
    }

    method CloseGroup() returns (ok: bool)
      requires Valid()
      modifies this
      ensures Valid()
      ensures var r := StepEndIf(old(Abstract())); ok == r.Some? && (ok ==> Abstract() == r.value)
    {
      if condDepth == 0 { return false; }
      condDepth := condDepth - 1;
      emitting := if condDepth > 0 then condStack[condDepth - 1].emitting else true;
      w := NewLine(w);
      return true;
    }

    method OtherLine(text: string) returns (ok: bool)
      requires Valid()
      modifies this
      ensures Valid()
      ensures var r := StepOther(h, text, old(Abstract())); ok == r.Some? && (ok ==> Abstract() == r.value)
    {
      if emitting {
        var r := h.active(text, w.macros);
        if r.None? { return false; }
        w := w.(out := w.out + r.value.0, macros := r.value.1);
      }
      w := NewLine(w);
      return true;
    }

    method Run(ls: seq<Line>) returns (ok: bool)
      requires Valid()
      modifies this, condStack
      ensures Valid()
      ensures var r := Steps(h, ls, old(Abstract()));
        ok == (r.Some? && r.value.stack == []) && (ok ==> Abstract() == r.value)
    {
      var i := 0;
      while i < |ls|
        invariant 0 <= i <= |ls| && Valid()
        invariant Steps(h, ls, old(Abstract())) == Steps(h, ls[i..], Abstract())
      {
        match ls[i] {
          case If(t) => ok := OpenGroup(t);
          case Elif(t) => ok := NextBranch(t);
          case Else => ok := ElseBranch();
          case EndIf => ok := CloseGroup();
          case Other(text) => ok := OtherLine(text);
        }
        assert ls[i..][1..] == ls[i + 1..];
        if !ok { return; }
        i := i + 1;
      }
      assert ls[i..] == [];
      assert Abstract().stack == condStack[..condDepth];
      return condDepth == 0;
    }
  }

  // ---------------------------------------------------------------- the meaning of nested groups

  datatype Item =
    | Plain(text: string)
    | Group(test: Test, body: seq<Item>, rest: Tail)

  /** What follows the first branch of a group. */
  datatype Tail =
    | Branch(test: Test, body: seq<Item>, rest: Tail)
    | Otherwise(body: seq<Item>)
    | End

  function FlattenAll(items: seq<Item>): seq<Line>
    decreases items, 0
  {
    if items == [] then [] else Flatten(items[0]) + FlattenAll(items[1..])
  }

  function Flatten(i: Item): seq<Line>
    decreases i, 1
  {
    match i
    case Plain(text) => [Other(text)]
    case Group(t, body, rest) => [If(t)] + FlattenAll(body) + FlattenTail(rest)
  }

  function FlattenTail(r: Tail): seq<Line>
    decreases r, 1
  {
    match r
    case Branch(t, body, rest) => [Elif(t)] + FlattenAll(body) + FlattenTail(rest)
    case Otherwise(body) => [Else] + FlattenAll(body) + [EndIf]
    case End => [EndIf]
  }

  /** How deeply groups nest. */
  function DepthAll(items: seq<Item>): nat
    decreases items, 0
  {
    if items == [] then 0 else Max(Depth(items[0]), DepthAll(items[1..]))
  }

  function Depth(i: Item): nat
    decreases i, 1
  {
    if i.Plain? then 0 else 1 + Max(DepthAll(i.body), DepthTail(i.rest))
  }

  /** Depth of the bodies in a tail. */
  function DepthTail(r: Tail): nat
    decreases r, 1
  {
    match r
    case Branch(_, body, rest) => Max(DepthAll(body), DepthTail(rest))
    case Otherwise(body) => DepthAll(body)
    case End => 0
  }

  function Max(a: nat, b: nat): nat {
    if a < b then b else a
  }

  /** Lines that contribute only their line ends. */
  function Blank<M>(n: nat, w: World<M>): World<M> {
    if n == 0 then w else Blank(n - 1, NewLine(w))
  }

  /** Take the first branch whose test holds, else the #else branch; evaluate no test after it. */
  function MeanAll<M>(h: Host<M>, items: seq<Item>, w: World<M>): Option<World<M>>
    decreases items, 0
  {
    if items == [] then Some(w)
    else
      var w' := Mean(h, items[0], w);
      if w'.None? then None else MeanAll(h, items[1..], w'.value)
  }

  function Mean<M>(h: Host<M>, i: Item, w: World<M>): Option<World<M>>
    decreases i, 1
  {
    match i
    case Plain(text) => Act(h, text, w)
    case Group(t, body, rest) =>
      var a := Ask(h, t, w);
      if a.None? then None
      else if a.value.0 then Then(MeanAll(h, body, NewLine(a.value.1)), |FlattenTail(rest)|)
      else MeanTail(h, rest, Blank(|FlattenAll(body)|, NewLine(a.value.1)))
  }

  function Then<M>(w: Option<World<M>>, blank: nat): Option<World<M>> {
    if w.None? then None else Some(Blank(blank, w.value))
  }

  /** The rest of a group none of whose branches has been taken. */
  function MeanTail<M>(h: Host<M>, r: Tail, w: World<M>): Option<World<M>>
    decreases r, 1
  {
    match r
    case Branch(t, body, rest) =>
      var a := Ask(h, t, w);
      if a.None? then None
      else if a.value.0 then Then(MeanAll(h, body, NewLine(a.value.1)), |FlattenTail(rest)|)
      else MeanTail(h, rest, Blank(|FlattenAll(body)|, NewLine(a.value.1)))
    case Otherwise(body) => Then(MeanAll(h, body, NewLine(w)), 1)
    case End => Some(NewLine(w))
  }
}
