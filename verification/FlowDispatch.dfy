/** The compare-and-branch chain of a switch reaches the section that C enters. */
module FlowDispatch {
  import opened Options
  import opened Emission
  import opened EmissionTargets
  import opened Flow
  import opened FlowMachine
  import opened FlowExpressions

  // ---------------------------------------------------------------- the recorded sections are those of the text

  ghost predicate SameSections(ctx: SwitchCtx, ps: seq<Place>) {
    |ctx| == |ps| && forall i :: 0 <= i < |ctx| ==> ctx[i].node == ps[i].node && ctx[i].value == ps[i].value
  }

  lemma SameAppend(a: SwitchCtx, b: SwitchCtx, x: seq<Place>, y: seq<Place>)
    requires SameSections(a, x) && SameSections(b, y)
    ensures SameSections(a + b, x + y)
  {
  }

  lemma {:induction false} CollectListed(s: Stmt, n: nat)
    ensures SameSections(Collect(s, n), Listed(s))
    decreases s, 1
  {
    hide SameSections;
    assert SameSections([], []) by { NoSections(); }
    match s
    case Section(x, v, b) =>
      CollectListed(b, n + 1);
      OneSection(x, v, n);
      SameAppend([SwitchLabel(x, v, n)], Collect(b, n + 1), [Place(x, v)], Listed(b));
    case If(_, y, m) =>
      CollectListed(y, n);
      var a := Collect(y, n);
      if m.Some? {
        CollectListed(m.value, n + |a|);
        SameAppend(a, Collect(m.value, n + |a|), Listed(y), Listed(m.value));
      } else {
        assert Listed(y) + [] == Listed(y);
      }
    case While(_, b) => CollectListed(b, n);
    case DoWhile(b, _) => CollectListed(b, n);
    case For(i, _, _, b) =>
      var a := if i.Some? then Collect(i.value, n) else [];
      if i.Some? { CollectListed(i.value, n); }
      CollectListed(b, n + |a|);
      SameAppend(a, Collect(b, n + |a|), if i.Some? then Listed(i.value) else [], Listed(b));
    case Labelled(_, b) => CollectListed(b, n);
    case Block(ss) => CollectAllListed(ss, n);
    case _ =>
  }

  lemma NoSections()
    ensures SameSections([], [])
  {
  }

  lemma OneSection(x: nat, v: Option<int>, n: nat)
    ensures SameSections([SwitchLabel(x, v, n)], [Place(x, v)])
  {
  }

  lemma {:induction false} CollectAllListed(ss: seq<Stmt>, n: nat)
    ensures SameSections(CollectAll(ss, n), ListedAll(ss))
    decreases ss, 0
  {
    hide SameSections, Collect, Listed;
    if ss == [] {
      NoSections();
    } else {
      CollectListed(ss[0], n);
      CollectAllListed(ss[1..], n + |Collect(ss[0], n)|);
      SameAppend(Collect(ss[0], n), CollectAll(ss[1..], n + |Collect(ss[0], n)|), Listed(ss[0]), ListedAll(ss[1..]));
    }
  }

  // ---------------------------------------------------------------- running the chain

  lemma ComparisonIs(wide: bool, x: int, y: int)
    ensures ComparesEqual(wide, x, y) == Equal(wide, x, y)
  {
  }

  ghost predicate SectionsFound(code: seq<Item>, ctx: SwitchCtx) {
    forall i :: 0 <= i < |ctx| ==> Find(code, Jump(SwitchSec, ctx[i].num), 0).Some?
  }

  /** The number of the first case that compares equal. */
  function CaseNumber(ctx: SwitchCtx, wide: bool, v: int): Option<nat> {
    if ctx == [] then None
    else if ctx[0].value.Some? && Equal(wide, v, ctx[0].value.value) then Some(ctx[0].num)
    else CaseNumber(ctx[1..], wide, v)
  }

  /** The chain leaves for the first case that compares equal, or runs through. */
  lemma {:induction false} CasesRun(code: seq<Item>, o: Values, p: nat, ctx: SwitchCtx, wide: bool, d: nat, st: State, v: int) returns (k: nat, t: State)
    requires Here(code, p, Cases(ctx, wide, d).code) && st.pc == p && TopOf(st.stack) == v && SectionsFound(code, ctx)
    ensures Arrives(code, o, st, k, t) && t.h == st.h
    ensures var c := CaseNumber(ctx, wide, v);
      if c.Some? then Find(code, Jump(SwitchSec, c.value), 0) == Some(t.pc) else t.pc == p + |Cases(ctx, wide, d).code|
    decreases |ctx|
  {
    hide Run, Here, Find, TopOf, Equal;
    Still(code, o, st);
    if ctx == [] {
      k, t := 0, st;
    } else {
      assert SectionsFound(code, ctx[1..]) by { assert forall i :: 0 <= i < |ctx[1..]| ==> ctx[1..][i] == ctx[i + 1]; }
      if ctx[0].value.None? {
        k, t := CasesRun(code, o, p, ctx[1..], wide, d, st, v);
      } else {
        var j, u := CaseRuns(code, o, p, ctx, wide, d, st, v);
        if Equal(wide, v, ctx[0].value.value) {
          k, t := j, u;
        } else {
          var i;
          i, t := CasesRun(code, o, p + 2, ctx[1..], wide, d, u, v);
          ArrivesOn(code, o, st, j, u, i, t);
          k := j + i;
        }
      }
    }
  }

  /** One comparison and its jump. */
  lemma CaseRuns(code: seq<Item>, o: Values, p: nat, ctx: SwitchCtx, wide: bool, d: nat, st: State, v: int) returns (k: nat, t: State)
    requires ctx != [] && ctx[0].value.Some? && Here(code, p, Cases(ctx, wide, d).code) && st.pc == p && TopOf(st.stack) == v && SectionsFound(code, ctx)
    ensures Arrives(code, o, st, k, t) && t.h == st.h && t.stack == st.stack
    ensures if Equal(wide, v, ctx[0].value.value) then Find(code, Jump(SwitchSec, ctx[0].num), 0) == Some(t.pc) else t.pc == p + 2
    ensures Here(code, p + 2, Cases(ctx[1..], wide, d).code) && |Cases(ctx, wide, d).code| == 2 + |Cases(ctx[1..], wide, d).code|
  {
    hide Run, Here, Find, TopOf, Equal, ComparesEqual, Step;
    var c := ctx[0].value.value;
    var pair := [Item(Match(c, wide), d), Item(Jcc(Jump(SwitchSec, ctx[0].num), true), d)];
    assert Cases(ctx, wide, d).code == pair + Cases(ctx[1..], wide, d).code;
    HereParts(code, p, pair, Cases(ctx[1..], wide, d).code);
    HereAt(code, p, pair, 0);
    HereAt(code, p, pair, 1);
    hide Cases;
    var u := QuietStep(code, o, st);
    ComparisonIs(wide, v, c);
    t := BranchStep(code, o, u);
    ArrivesOn(code, o, st, 1, u, 1, t);
    k := 2;
  }

  /** Numbers and nodes go together. */
  lemma {:induction false} CaseNumberIs(ctx: SwitchCtx, ps: seq<Place>, wide: bool, v: int)
    requires SameSections(ctx, ps)
    ensures CaseNumber(ctx, wide, v).Some? == CaseNode(ps, wide, v).Some?
    ensures CaseNumber(ctx, wide, v).Some? ==> exists i :: 0 <= i < |ctx| && ctx[i].num == CaseNumber(ctx, wide, v).value && ctx[i].node == CaseNode(ps, wide, v).value
    decreases |ctx|
  {
    hide Equal;
    if ctx != [] && !Hit(ps[0], wide, v) {
      CaseNumberIs(ctx[1..], ps[1..], wide, v);
      if CaseNumber(ctx[1..], wide, v).Some? {
        var i :| 0 <= i < |ctx[1..]| && ctx[1..][i].num == CaseNumber(ctx, wide, v).value && ctx[1..][i].node == CaseNode(ps, wide, v).value;
        assert ctx[i + 1] == ctx[1..][i];
      }
    }
  }

  lemma {:induction false} DefaultNumberIs(ctx: SwitchCtx, ps: seq<Place>)
    requires SameSections(ctx, ps)
    ensures DefaultOf(ctx).Some? == DefaultNode(ps).Some?
    ensures DefaultOf(ctx).Some? ==> exists i :: 0 <= i < |ctx| && ctx[i].num == DefaultOf(ctx).value && ctx[i].node == DefaultNode(ps).value
    decreases |ctx|
  {
    var n := |ctx| - 1;
    if ctx != [] && ctx[n].value.Some? {
      DefaultNumberIs(ctx[..n], ps[..n]);
      if DefaultOf(ctx[..n]).Some? {
        var i :| 0 <= i < n && ctx[..n][i].num == DefaultOf(ctx).value && ctx[..n][i].node == DefaultNode(ps).value;
        assert ctx[i] == ctx[..n][i];
      }
    }
  }

  lemma NumberOfNode(ctx: SwitchCtx, num: nat, node: nat)
    requires DistinctNodes(ctx) && exists i :: 0 <= i < |ctx| && ctx[i].num == num && ctx[i].node == node
    ensures SecLabel(ctx, node) == Jump(SwitchSec, num)
  {
    var i :| 0 <= i < |ctx| && ctx[i].num == num && ctx[i].node == node;
    LookupAt(ctx, i);
  }

  /** With the value of the switch on top of the stack, the chain goes to the section that C enters, or to the end. */
  lemma {:induction false} DispatchRuns(code: seq<Item>, o: Values, p: nat, s: Stmt, wide: bool, m: nat, d: nat, n: nat, st: State, v: int) returns (k: nat, t: State)
    requires var ctx := Collect(s, m);
      && Here(code, p, Dispatch(ctx, wide, d, n).code) && st.pc == p && TopOf(st.stack) == v
      && SectionsFound(code, ctx) && DistinctNodes(ctx) && Find(code, Jump(SwitchEnd, n), 0).Some?
    ensures Arrives(code, o, st, k, t) && t.h == st.h
    ensures var x := Chosen(s, wide, v);
      Some(t.pc) == Find(code, if x.Some? then SecLabel(Collect(s, m), x.value) else Jump(SwitchEnd, n), 0)
  {
    hide Run, Here, Find, TopOf, Collect, Listed, Cases, SecLabel;
    var ctx, ps := Collect(s, m), Listed(s);
    CollectListed(s, m);
    CaseNumberIs(ctx, ps, wide, v);
    DefaultNumberIs(ctx, ps);
    var c, def := CaseNumber(ctx, wide, v), DefaultOf(ctx);
    var l := if def.Some? then Jump(SwitchSec, def.value) else Jump(SwitchEnd, n);
    HereParts(code, p, Cases(ctx, wide, d).code, [Item(Jmp(l), d)]);
    k, t := CasesRun(code, o, p, ctx, wide, d, st, v);
    if c.Some? {
      NumberOfNode(ctx, c.value, CaseNode(ps, wide, v).value);
    } else {
      if def.Some? { NumberOfNode(ctx, def.value, DefaultNode(ps).value); }
      HereAt(code, p + |Cases(ctx, wide, d).code|, [Item(Jmp(l), d)], 0);
      var u := JumpStep(code, o, t);
      ArrivesOn(code, o, st, k, t, 1, u);
      k, t := k + 1, u;
    }
  }
}
