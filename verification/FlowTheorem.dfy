/** The code of a function body does the work that C says, and stops exactly where C does. */
module FlowTheorem {
  import opened Options
  import opened Emission
  import opened EmissionLabels
  import opened EmissionTargets
  import opened EmissionJumps
  import opened EmissionPaths
  import opened Flow
  import opened FlowMachine
  import opened FlowStatements

  function Labels(s: Stmt): set<Label> {
    set x | x in Users(s) :: User(x)
  }

  /** What the parser and the generator demand of a function body: sections stand in switches, break and continue in
      their statements, no label is declared twice, and every goto names one. */
  ghost predicate Accepted(s: Stmt) {
    TreeOk(s) && Nodes(s) == {} && GotosIn(s, Labels(s)) && Proper(s, false, false)
  }

  const OUTSIDE := Env([], [])

  lemma BodyFits(s: Stmt, n: nat)
    requires Accepted(s)
    ensures Fit(Body(s, n), 0, s, 0, n, OUTSIDE, Labels(s))
  {
    hide Statement, Find, Proper, TreeOk, GotosIn;
    var code, out := Body(s, n), Labels(s);
    assert Placed(s, n, OUTSIDE, out) by { assert NodeSet([]) == {}; }
    StatementFacts(s, 0, n, OUTSIDE, out);
    assert Own(s, []) == out;
    assert Here(code, 0, code) by { assert code[0..0 + |code|] == code; }
    forall l | l in out
      ensures Find(code, l, 0).Some?
    {
      DefsFound(code, 0, code, l);
    }
  }

  /** Where the run stands when the body is over: behind its last instruction, or at a return. */
  predicate Over(code: seq<Item>, t: State, out: Outcome) {
    if out.Normal? then t.pc == |code| else out.Returned? && t.pc < |code| && code[t.pc].ins == Ret
  }

  /** With enough fuel the machine ends as C does; without, it has not ended within that many steps. */
  lemma {:induction false} WholeRuns(s: Stmt, n: nat, o: Values, at: Entry, st: State, fuel: nat) returns (k: nat, t: State)
    requires Accepted(s) && (at.Top? || at.AtName?) && Within(s, at) && Starts(Body(s, n), 0, s, n, [], at, st.pc)
    ensures var r := Whole(s, at, st.h, o, fuel);
      && Arrives(Body(s, n), o, st, k, t)
      && (if r.out.OutOfFuel? then k >= fuel else t.h == r.h && Over(Body(s, n), t, r.out))
    decreases fuel
  {
    hide Statement, Find, Run, Fit, Accepted, Exec;
    var code := Body(s, n);
    BodyFits(s, n);
    k, t := StmtRuns(code, o, 0, s, 0, n, OUTSIDE, Labels(s), at, st, fuel);
    var r := Exec(s, at, st.h, o, fuel);
    if r.out.Left? {
      LeftKnown(s, n, r.out.name, t.pc);
      if fuel > 0 {
        var i, v := WholeRuns(s, n, o, AtName(r.out.name), t, fuel - 1);
        ArrivesOn(code, o, st, k, t, i, v);
        k, t := k + i, v;
      }
    }
  }

  /** A label that stands in the code of a body is one of its own. */
  lemma LeftKnown(s: Stmt, n: nat, x: string, pc: nat)
    requires Accepted(s) && Find(Body(s, n), User(x), 0) == Some(pc)
    ensures x in Users(s)
  {
    hide Statement, Proper, TreeOk, GotosIn;
    var code, out := Body(s, n), Labels(s);
    assert Placed(s, n, OUTSIDE, out) by { assert NodeSet([]) == {}; }
    StatementFacts(s, 0, n, OUTSIDE, out);
    assert Own(s, []) == out;
    DefsSome(code, pc, User(x));
    assert Defs(code, User(x)) == 1;
  }

  // ---------------------------------------------------------------- both directions

  const START := State(0, [], false, [])

  /** C brings the body to that end with that work done. */
  ghost predicate Executes(s: Stmt, o: Values, out: Outcome, h: History) {
    exists fuel :: Whole(s, Top, [], o, fuel) == Done(out, h)
  }

  ghost predicate EndsAfter(code: seq<Item>, o: Values, k: nat, out: Outcome, h: History) {
    Run(code, o, START, k).Some? && var t := Run(code, o, START, k).value; t.h == h && Over(code, t, out)
  }

  ghost predicate CodeEnds(code: seq<Item>, o: Values, out: Outcome, h: History) {
    exists k :: EndsAfter(code, o, k, out, h)
  }

  lemma OverStops(code: seq<Item>, o: Values, t: State, out: Outcome)
    requires Over(code, t, out)
    ensures Step(code, o, t).None?
  {
  }

  /** After the end there is no further step. */
  lemma {:induction false} NoFurther(code: seq<Item>, o: Values, a: State, k: nat, t: State, j: nat)
    requires Arrives(code, o, a, k, t) && Step(code, o, t).None? && j > k
    ensures Run(code, o, a, j).None?
    decreases k
  {
    hide Step;
    if k > 0 { NoFurther(code, o, Step(code, o, a).value, k - 1, t, j - 1); }
  }

  /** The end of a run is one. */
  lemma OneEnd(code: seq<Item>, o: Values, a: State, k: nat, t: State, j: nat, u: State)
    requires Arrives(code, o, a, k, t) && Step(code, o, t).None? && Arrives(code, o, a, j, u) && Step(code, o, u).None?
    ensures k == j && t == u
  {
    hide Step;
    if k < j { NoFurther(code, o, a, k, t, j); }
    if j < k { NoFurther(code, o, a, j, u, k); }
  }

  /** For every accepted body and whatever values its expressions take: the code returns, or runs off its end, exactly if
      C says so, after exactly the work that C demands, in that order. */
  lemma CodeExact(s: Stmt, n: nat, o: Values, out: Outcome, h: History)
    requires Accepted(s) && (out.Normal? || out.Returned?)
    ensures Executes(s, o, out, h) <==> CodeEnds(Body(s, n), o, out, h)
  {
    hide Run, Step, Whole, Body, Accepted, Over;
    if Executes(s, o, out, h) {
      var fuel :| Whole(s, Top, [], o, fuel) == Done(out, h);
      var k, t := WholeRuns(s, n, o, Top, START, fuel);
      assert EndsAfter(Body(s, n), o, k, out, h);
    }
    if CodeEnds(Body(s, n), o, out, h) {
      var k :| EndsAfter(Body(s, n), o, k, out, h);
      EndExecutes(s, n, o, k, out, h);
    }
  }

  lemma EndExecutes(s: Stmt, n: nat, o: Values, k: nat, out: Outcome, h: History)
    requires Accepted(s) && EndsAfter(Body(s, n), o, k, out, h) && (out.Normal? || out.Returned?)
    ensures Whole(s, Top, [], o, k + 1) == Done(out, h)
  {
    hide Run, Step, Whole, Accepted, Body;
    var code := Body(s, n);
    var t := Run(code, o, START, k).value;
    OverStops(code, o, t, out);
    var j, u := WholeRuns(s, n, o, Top, START, k + 1);
    var r := Whole(s, Top, [], o, k + 1);
    if r.out.OutOfFuel? {
      NoFurther(code, o, START, k, t, j);
    } else {
      OverStops(code, o, u, r.out);
      OneEnd(code, o, START, k, t, j, u);
    }
  }

  // ---------------------------------------------------------------- a function

  /** switch (x) { case 1: return a; } return b; */
  const RETURNS_ONE := Block([Switch(Leaf(0), false, Section(0, Some(1), Return(Some(Leaf(1))))), Return(Some(Leaf(2)))])

  lemma PairOf(a: Stmt, b: Stmt, out: set<Label>)
    requires TreeOk(a) && TreeOk(b) && Apart(a, b) && GotosIn(a, out) && GotosIn(b, out) && Proper(a, false, false) && Proper(b, false, false)
    ensures TreeOk(Block([a, b])) && GotosIn(Block([a, b]), out) && Proper(Block([a, b]), false, false)
    ensures Nodes(Block([a, b])) == Nodes(a) + Nodes(b) && Users(Block([a, b])) == Users(a) + Users(b)
  {
    hide TreeOk, GotosIn, Proper, Nodes, Users;
    var none: seq<Stmt> := [];
    assert [a, b][1..] == [b] && [b][1..] == none;
    assert TreesOk(none) && NodesAll(none) == {} && UsersAll(none) == {} && AllGotosIn(none, out) && ProperAll(none, false, false);
    assert NodesAll([b]) == Nodes(b) && UsersAll([b]) == Users(b) && AllGotosIn([b], out) && ProperAll([b], false, false);
    assert TreesOk([b]);
    PairIs(a, b, out);
  }

  lemma PairIs(a: Stmt, b: Stmt, out: set<Label>)
    ensures var s, ss := Block([a, b]), [a, b];
      && TreeOk(s) == TreesOk(ss) && GotosIn(s, out) == AllGotosIn(ss, out) && Proper(s, false, false) == ProperAll(ss, false, false)
      && Nodes(s) == NodesAll(ss) && Users(s) == UsersAll(ss)
  {
    hide TreesOk, AllGotosIn, ProperAll, NodesAll, UsersAll;
  }

  lemma OneAccepted()
    ensures Accepted(RETURNS_ONE)
  {
    var sec := Section(0, Some(1), Return(Some(Leaf(1))));
    var sw, ret := Switch(Leaf(0), false, sec), Return(Some(Leaf(2)));
    assert Nodes(Return(Some(Leaf(1)))) == {} && TreeOk(sec) && Users(sec) == {} && GotosIn(sec, {}) && Proper(sec, true, false);
    PairOf(sw, ret, {});
    assert Labels(RETURNS_ONE) == {};
  }

  /** The code returns after a where x is 1, and after b otherwise. */
  lemma SwitchReturns(n: nat, o: Values, x: int)
    requires o([Work(0)]) == x && 0 <= x < 0x8000_0000
    ensures CodeEnds(Body(RETURNS_ONE, n), o, Returned, [Work(0), Work(if x == 1 then 1 else 2)])
  {
    OneAccepted();
    OneExecutes(o, x);
    hide *;
    CodeExact(RETURNS_ONE, n, o, Returned, [Work(0), Work(if x == 1 then 1 else 2)]);
  }

  lemma OneExecutes(o: Values, x: int)
    requires o([Work(0)]) == x && 0 <= x < 0x8000_0000
    ensures Executes(RETURNS_ONE, o, Returned, [Work(0), Work(if x == 1 then 1 else 2)])
  {
    var sec := Section(0, Some(1), Return(Some(Leaf(1))));
    var sw, ret := Switch(Leaf(0), false, sec), Return(Some(Leaf(2)));
    var h: History := [Work(0)];
    assert [] + [Work(0)] == h && h + [Work(1)] == [Work(0), Work(1)] && h + [Work(2)] == [Work(0), Work(2)];
    OneChosen(x);
    assert Exec(Return(Some(Leaf(1))), Top, h, o, 0) == Done(Returned, [Work(0), Work(1)]);
    assert 0 in Nodes(sec) && Exec(sec, AtNode(0), h, o, 0) == Done(Returned, [Work(0), Work(1)]);
    assert Exec(sw, Top, [], o, 0) == if x == 1 then Done(Returned, [Work(0), Work(1)]) else Done(Normal, h);
    assert Exec(ret, Top, h, o, 0) == Done(Returned, [Work(0), Work(2)]);
    assert [sw, ret][1..] == [ret];
    assert ExecAll([ret], Top, h, o, 0) == Done(Returned, [Work(0), Work(2)]);
    assert Whole(RETURNS_ONE, Top, [], o, 0) == Done(Returned, [Work(0), Work(if x == 1 then 1 else 2)]);
  }

  lemma OneChosen(x: int)
    requires 0 <= x < 0x8000_0000
    ensures Chosen(Section(0, Some(1), Return(Some(Leaf(1)))), false, x) == if x == 1 then Some(0) else None
  {
    var ps := [Place(0, Some(1))];
    assert Listed(Return(Some(Leaf(1)))) == [] && Listed(Section(0, Some(1), Return(Some(Leaf(1))))) == ps;
    assert ps[1..] == [] && CaseNode(ps[1..], false, x) == None;
    assert ps[..0] == [] && DefaultNode(ps[..0]) == None;
  }
}
