/** What C says about the order in which a function body does its work (section 6.8 of ISO/IEC 9899:1999).

    The work done so far is a history of leaf expressions, operations and calls; the value an expression ends with is
    any function of that history.
 */
module Flow {
  import opened Options
  import opened Emission
  import opened EmissionTargets

  type History = seq<Ins>

  /** The value left by the last piece of work. */
  type Values = History -> int

  // ---------------------------------------------------------------- expressions

  /** Left to right. */
  function Forward(es: seq<Expr>, h: History, o: Values): History
    decreases es, 0
  {
    if es == [] then h else Forward(es[1..], Trace(es[0], h, o), o)
  }

  /** Right to left. */
  function Backward(es: seq<Expr>, h: History, o: Values): History
    decreases es, 0
  {
    if es == [] then h else Backward(es[..|es| - 1], Trace(es[|es| - 1], h, o), o)
  }

  /** Up to six arguments are evaluated left to right; of more, first those after the sixth, right to left. */
  function Arguments(es: seq<Expr>, h: History, o: Values): History
    decreases es, 1
  {
    if |es| <= 6 then Forward(es, h, o) else Forward(es[..6], Backward(es[6..], h, o), o)
  }

  /** Arguments that travel on the stack, each copied to its place. */
  function Stored(slots: seq<Arg>, h: History, o: Values): History
    decreases slots, 0
  {
    if slots == [] then h else Stored(slots[1..], StoredOne(slots[0], h, o), o)
  }

  function StoredOne(a: Arg, h: History, o: Values): History
    decreases a, 3
  {
    match a case Arg(e, c) => if c == OnStack then Trace(e, h, o) + [Plain] else h
  }

  /** Arguments that travel in registers. */
  function Spilled(slots: seq<Arg>, h: History, o: Values): History
    decreases slots, 0
  {
    if slots == [] then h else Spilled(slots[1..], SpilledOne(slots[0], h, o), o)
  }

  function SpilledOne(a: Arg, h: History, o: Values): History
    decreases a, 3
  {
    match a case Arg(e, c) => if c == OnStack then h else if c == Xmm then Trace(e, h, o) + [Plain] else Trace(e, h, o)
  }

  /** Stack arguments first; the address of the result object, where there is one, before the register arguments. */
  function LaidOutTrace(slots: seq<Arg>, sret: bool, h: History, o: Values): History
    decreases slots, 1
  {
    var a := Stored(slots, h, o);
    Spilled(slots, if sret then a + [Plain] else a, o) + [Plain, Call]
  }

  /** The right operand of && and || is evaluated only where the left one does not decide, and one arm of ?: only. */
  function Trace(e: Expr, h: History, o: Values): History
    decreases e, 2
  {
    match e
    case Leaf(id) => h + [Work(id)]
    case Unary(a) => Trace(a, h, o) + [Plain]
    case Binary(l, r) => Trace(r, Trace(l, h, o), o) + [Plain]
    case And(l, r) => var a := Trace(l, h, o); (if o(a) == 0 then a else Trace(r, a, o)) + [Plain]
    case Or(l, r) => var a := Trace(l, h, o); (if o(a) == 0 then Trace(r, a, o) else a) + [Plain]
    case Cond(c, y, n) => var a := Trace(c, h, o); if o(a) == 0 then Trace(n, a, o) else Trace(y, a, o)
    case CallPlain(args) => Arguments(args, h, o) + [Call]
    case CallLaidOut(slots, sret, _) => LaidOutTrace(slots, sret, h, o) + [Plain]
    case Indirect(f, args) => Arguments(args, Trace(f, h, o), o) + [Call]
    case IndirectLaidOut(f, slots, _) => LaidOutTrace(slots, false, Trace(f, h, o), o)
  }

  function MaybeTrace(e: Option<Expr>, h: History, o: Values): History {
    if e.Some? then Trace(e.value, h, o) else h
  }

  // ---------------------------------------------------------------- the section a switch enters

  /** A section of a switch, in the order of the text. */
  datatype Place = Place(node: nat, value: Option<int>)

  function Listed(s: Stmt): seq<Place>
    decreases s, 1
  {
    match s
    case Section(x, v, b) => [Place(x, v)] + Listed(b)
    case If(_, y, m) => Listed(y) + if m.Some? then Listed(m.value) else []
    case While(_, b) => Listed(b)
    case DoWhile(b, _) => Listed(b)
    case For(i, _, _, b) => (if i.Some? then Listed(i.value) else []) + Listed(b)
    case Labelled(_, b) => Listed(b)
    case Block(ss) => ListedAll(ss)
    case _ => []
  }

  function ListedAll(ss: seq<Stmt>): seq<Place>
    decreases ss, 0
  {
    if ss == [] then [] else Listed(ss[0]) + ListedAll(ss[1..])
  }

  /** Equal in the width of the controlling expression. */
  predicate Equal(wide: bool, x: int, y: int) {
    if wide then x % 0x1_0000_0000_0000_0000 == y % 0x1_0000_0000_0000_0000 else x % 0x1_0000_0000 == y % 0x1_0000_0000
  }

  predicate Hit(p: Place, wide: bool, v: int) {
    p.value.Some? && Equal(wide, v, p.value.value)
  }

  /** The first case of that value. */
  function CaseNode(ps: seq<Place>, wide: bool, v: int): Option<nat> {
    if ps == [] then None else if Hit(ps[0], wide, v) then Some(ps[0].node) else CaseNode(ps[1..], wide, v)
  }

  /** The last default. */
  function DefaultNode(ps: seq<Place>): Option<nat> {
    if ps == [] then None
    else if ps[|ps| - 1].value.None? then Some(ps[|ps| - 1].node)
    else DefaultNode(ps[..|ps| - 1])
  }

  function Chosen(s: Stmt, wide: bool, v: int): (r: Option<nat>)
    ensures r.Some? ==> r.value in Nodes(s)
  {
    var ps := Listed(s);
    ListedNodes(s);
    var c := CaseNode(ps, wide, v);
    CaseListed(ps, wide, v);
    DefaultListed(ps);
    if c.Some? then c else DefaultNode(ps)
  }

  lemma {:induction false} ListedNodes(s: Stmt)
    ensures forall p :: p in Listed(s) ==> p.node in Nodes(s)
    decreases s, 1
  {
    match s
    case Section(_, _, b) => ListedNodes(b);
    case If(_, y, m) => ListedNodes(y); if m.Some? { ListedNodes(m.value); }
    case While(_, b) => ListedNodes(b);
    case DoWhile(b, _) => ListedNodes(b);
    case For(i, _, _, b) => ListedNodes(b); if i.Some? { ListedNodes(i.value); }
    case Labelled(_, b) => ListedNodes(b);
    case Block(ss) => ListedAllNodes(ss);
    case _ =>
  }

  lemma {:induction false} ListedAllNodes(ss: seq<Stmt>)
    ensures forall p :: p in ListedAll(ss) ==> p.node in NodesAll(ss)
    decreases ss, 0
  {
    if ss != [] {
      ListedNodes(ss[0]);
      ListedAllNodes(ss[1..]);
    }
  }

  lemma {:induction false} CaseListed(ps: seq<Place>, wide: bool, v: int)
    ensures CaseNode(ps, wide, v).Some? ==> exists i :: 0 <= i < |ps| && ps[i].node == CaseNode(ps, wide, v).value && Hit(ps[i], wide, v)
    ensures CaseNode(ps, wide, v).None? ==> forall i :: 0 <= i < |ps| ==> !Hit(ps[i], wide, v)
  {
    hide Hit;
    if ps != [] && !Hit(ps[0], wide, v) {
      CaseListed(ps[1..], wide, v);
      assert forall i :: 0 < i < |ps| ==> ps[i] == ps[1..][i - 1];
    }
  }

  lemma {:induction false} DefaultListed(ps: seq<Place>)
    ensures DefaultNode(ps).Some? ==> exists i :: 0 <= i < |ps| && ps[i].node == DefaultNode(ps).value && ps[i].value.None?
    ensures DefaultNode(ps).None? ==> forall i :: 0 <= i < |ps| ==> ps[i].value.Some?
  {
    if ps != [] && ps[|ps| - 1].value.Some? { DefaultListed(ps[..|ps| - 1]); }
  }

  /** A switch enters the case of that value where the values differ, else the default where there is one, else nothing. */
  lemma ChosenExact(s: Stmt, wide: bool, v: int, i: nat)
    requires i < |Listed(s)| && var ps := Listed(s);
      && (forall j, k :: 0 <= j < k < |ps| && ps[j].value.Some? && ps[k].value.Some? ==> !Equal(wide, ps[j].value.value, ps[k].value.value))
      && (forall j, k :: 0 <= j < k < |ps| ==> ps[j].value.Some? || ps[k].value.Some?)
      && (forall j, k :: 0 <= j < k < |ps| ==> ps[j].node != ps[k].node)
    ensures var ps := Listed(s);
      Chosen(s, wide, v) == Some(ps[i].node) <==>
        (if ps[i].value.Some? then Equal(wide, v, ps[i].value.value) else forall j :: 0 <= j < |ps| ==> !Hit(ps[j], wide, v))
  {
    var ps := Listed(s);
    hide Listed, Equal, CaseNode, DefaultNode;
    CaseListed(ps, wide, v);
    DefaultListed(ps);
    EqualMeans(wide);
  }

  lemma EqualMeans(wide: bool)
    ensures forall x, y, z :: Equal(wide, x, y) && Equal(wide, x, z) ==> Equal(wide, y, z)
  {
  }

  // ---------------------------------------------------------------- statements

  /** Where execution of a statement begins: at its start, at the test of a loop, at a case, or at a label. */
  datatype Entry = Top | Again | AtNode(node: nat) | AtName(name: string)

  datatype Outcome = Normal | Broke | Continued | Returned | Left(name: string) | OutOfFuel

  datatype Done = Done(out: Outcome, h: History)

  predicate Within(s: Stmt, at: Entry) {
    match at
    case Top => true
    case Again => s.For? || s.While?
    case AtNode(x) => x in Nodes(s)
    case AtName(x) => x in Users(s)
  }

  predicate WithinAll(ss: seq<Stmt>, at: Entry) {
    match at
    case Top => true
    case Again => false
    case AtNode(x) => x in NodesAll(ss)
    case AtName(x) => x in UsersAll(ss)
  }

  /** A break ends here. */
  function Leave(r: Done): Done {
    if r.out.Broke? then Done(Normal, r.h) else r
  }

  /** Execution from an entry; fuel bounds how often each loop starts again. */
  function Exec(s: Stmt, at: Entry, h: History, o: Values, fuel: nat): Done
    requires Within(s, at)
    decreases fuel, s, 2
  {
    match s
    case Eval(e) => Done(Normal, Trace(e, h, o))
    case Return(e) => Done(Returned, MaybeTrace(e, h, o))
    case If(c, y, m) =>
      if at.Top? then
        var a := Trace(c, h, o);
        if o(a) != 0 then Exec(y, Top, a, o, fuel)
        else if m.Some? then Exec(m.value, Top, a, o, fuel)
        else Done(Normal, a)
      else if Within(y, at) then Exec(y, at, h, o, fuel)
      else Exec(m.value, at, h, o, fuel)
    case While(c, b) =>
      var test := at.Top? || at.Again?;
      var a := if test then Trace(c, h, o) else h;
      if test && o(a) == 0 then Done(Normal, a)
      else
        var r := Exec(b, if test then Top else at, a, o, fuel);
        if r.out.Normal? || r.out.Continued? then if fuel == 0 then Done(OutOfFuel, r.h) else Exec(s, Again, r.h, o, fuel - 1)
        else Leave(r)
    case DoWhile(b, c) =>
      var r := Exec(b, at, h, o, fuel);
      if r.out.Normal? || r.out.Continued? then
        var a := Trace(c, r.h, o);
        if o(a) == 0 then Done(Normal, a) else if fuel == 0 then Done(OutOfFuel, a) else Exec(s, Top, a, o, fuel - 1)
      else Leave(r)
    case For(i, _, _, b) =>
      if at.Again? || (at.Top? && i.None?) then ForTest(s, h, o, fuel)
      else if i.Some? && Within(i.value, at) then
        var r := Exec(i.value, at, h, o, fuel);
        if r.out.Normal? then ForTest(s, r.h, o, fuel) else ForNext(s, r, o, fuel)
      else ForNext(s, Exec(b, at, h, o, fuel), o, fuel)
    case Switch(c, wide, b) =>
      if at.Top? then
        var a := Trace(c, h, o);
        var x := Chosen(b, wide, o(a));
        if x.None? then Done(Normal, a) else Leave(Exec(b, AtNode(x.value), a, o, fuel))
      else Leave(Exec(b, at, h, o, fuel))
    case Section(x, _, b) => Exec(b, if at == AtNode(x) then Top else at, h, o, fuel)
    case Labelled(x, b) => Exec(b, if at == AtName(x) then Top else at, h, o, fuel)
    case Goto(x) => Done(Left(x), h)
    case Break => Done(Broke, h)
    case Continue => Done(Continued, h)
    case Block(ss) => ExecAll(ss, at, h, o, fuel)
  }

  /** The test of a for loop, its body, and what follows. */
  function ForTest(s: Stmt, h: History, o: Values, fuel: nat): Done
    requires s.For?
    decreases fuel, s, 1
  {
    var a := MaybeTrace(s.cond, h, o);
    if s.cond.Some? && o(a) == 0 then Done(Normal, a) else ForNext(s, Exec(s.body, Top, a, o, fuel), o, fuel)
  }

  function ForNext(s: Stmt, r: Done, o: Values, fuel: nat): Done
    requires s.For?
    decreases fuel, s, 0
  {
    if r.out.Normal? || r.out.Continued? then
      var a := MaybeTrace(s.step, r.h, o);
      if fuel == 0 then Done(OutOfFuel, a) else Exec(s, Again, a, o, fuel - 1)
    else Leave(r)
  }

  function ExecAll(ss: seq<Stmt>, at: Entry, h: History, o: Values, fuel: nat): Done
    requires WithinAll(ss, at)
    decreases fuel, ss, 0
  {
    if ss == [] then Done(Normal, h)
    else if Within(ss[0], at) then
      var r := Exec(ss[0], at, h, o, fuel);
      if r.out.Normal? then ExecAll(ss[1..], Top, r.h, o, fuel) else r
    else ExecAll(ss[1..], at, h, o, fuel)
  }

  /** A whole body: a goto starts it again at the label. */
  function Whole(s: Stmt, at: Entry, h: History, o: Values, fuel: nat): Done
    requires Within(s, at)
    decreases fuel
  {
    var r := Exec(s, at, h, o, fuel);
    if r.out.Left? && r.out.name in Users(s) then
      if fuel == 0 then Done(OutOfFuel, r.h) else Whole(s, AtName(r.out.name), r.h, o, fuel - 1)
    else r
  }

  /** A break stands in a loop or switch and a continue in a loop, as the parser demands. */
  predicate Proper(s: Stmt, breakable: bool, looped: bool)
    decreases s, 1
  {
    match s
    case If(_, y, m) => Proper(y, breakable, looped) && (m.Some? ==> Proper(m.value, breakable, looped))
    case While(_, b) => Proper(b, true, true)
    case DoWhile(b, _) => Proper(b, true, true)
    case For(i, _, _, b) => (i.Some? ==> Proper(i.value, true, true)) && Proper(b, true, true)
    case Switch(_, _, b) => Proper(b, true, looped)
    case Section(_, _, b) => Proper(b, breakable, looped)
    case Labelled(_, b) => Proper(b, breakable, looped)
    case Break => breakable
    case Continue => looped
    case Block(ss) => ProperAll(ss, breakable, looped)
    case _ => true
  }

  predicate ProperAll(ss: seq<Stmt>, breakable: bool, looped: bool)
    decreases ss, 0
  {
    ss != [] ==> Proper(ss[0], breakable, looped) && ProperAll(ss[1..], breakable, looped)
  }
}
