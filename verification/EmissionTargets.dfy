/** Statements: sections get the labels chosen for them, and every jump of a function has one target. */
module EmissionTargets {
  import opened Options
  import opened Emission
  import opened EmissionLabels

  // ---------------------------------------------------------------- nodes and names

  /** The case and default nodes that belong to the switch around s. */
  function Nodes(s: Stmt): set<nat>
    decreases s, 1
  {
    match s
    case Section(x, _, b) => {x} + Nodes(b)
    case If(_, y, m) => Nodes(y) + if m.Some? then Nodes(m.value) else {}
    case While(_, b) => Nodes(b)
    case DoWhile(b, _) => Nodes(b)
    case For(i, _, _, b) => (if i.Some? then Nodes(i.value) else {}) + Nodes(b)
    case Labelled(_, b) => Nodes(b)
    case Block(ss) => NodesAll(ss)
    case _ => {}
  }

  function NodesAll(ss: seq<Stmt>): set<nat>
    decreases ss, 0
  {
    if ss == [] then {} else Nodes(ss[0]) + NodesAll(ss[1..])
  }

  /** User labels anywhere in s. */
  function Users(s: Stmt): set<string>
    decreases s, 1
  {
    match s
    case Section(_, _, b) => Users(b)
    case If(_, y, m) => Users(y) + if m.Some? then Users(m.value) else {}
    case While(_, b) => Users(b)
    case DoWhile(b, _) => Users(b)
    case For(i, _, _, b) => (if i.Some? then Users(i.value) else {}) + Users(b)
    case Switch(_, _, b) => Users(b)
    case Labelled(x, b) => {x} + Users(b)
    case Block(ss) => UsersAll(ss)
    case _ => {}
  }

  function UsersAll(ss: seq<Stmt>): set<string>
    decreases ss, 0
  {
    if ss == [] then {} else Users(ss[0]) + UsersAll(ss[1..])
  }

  ghost predicate Apart(s: Stmt, t: Stmt) {
    Nodes(s) !! Nodes(t) && Users(s) !! Users(t)
  }

  /** No node occurs twice in the tree and no user label is declared twice. */
  ghost predicate TreeOk(s: Stmt)
    decreases s, 1
  {
    match s
    case Section(x, _, b) => x !in Nodes(b) && TreeOk(b)
    case If(_, y, m) => TreeOk(y) && (m.Some? ==> TreeOk(m.value) && Apart(y, m.value))
    case While(_, b) => TreeOk(b)
    case DoWhile(b, _) => TreeOk(b)
    case For(i, _, _, b) => TreeOk(b) && (i.Some? ==> TreeOk(i.value) && Apart(i.value, b))
    case Switch(_, _, b) => TreeOk(b)
    case Labelled(x, b) => x !in Users(b) && TreeOk(b)
    case Block(ss) => TreesOk(ss)
    case _ => true
  }

  ghost predicate TreesOk(ss: seq<Stmt>)
    decreases ss, 0
  {
    ss != [] ==> TreeOk(ss[0]) && TreesOk(ss[1..]) && Nodes(ss[0]) !! NodesAll(ss[1..]) && Users(ss[0]) !! UsersAll(ss[1..])
  }

  /** Every goto names a label of out (the source rejects the others). */
  ghost predicate GotosIn(s: Stmt, out: set<Label>)
    decreases s, 1
  {
    match s
    case Section(_, _, b) => GotosIn(b, out)
    case If(_, y, m) => GotosIn(y, out) && (m.Some? ==> GotosIn(m.value, out))
    case While(_, b) => GotosIn(b, out)
    case DoWhile(b, _) => GotosIn(b, out)
    case For(i, _, _, b) => GotosIn(b, out) && (i.Some? ==> GotosIn(i.value, out))
    case Switch(_, _, b) => GotosIn(b, out)
    case Labelled(_, b) => GotosIn(b, out)
    case Goto(x) => User(x) in out
    case Block(ss) => AllGotosIn(ss, out)
    case _ => true
  }

  ghost predicate AllGotosIn(ss: seq<Stmt>, out: set<Label>)
    decreases ss, 0
  {
    ss != [] ==> GotosIn(ss[0], out) && AllGotosIn(ss[1..], out)
  }

  lemma {:induction false} GotosWider(s: Stmt, out: set<Label>, more: set<Label>)
    requires GotosIn(s, out) && out <= more
    ensures GotosIn(s, more)
    decreases s, 1
  {
    match s
    case Section(_, _, b) => GotosWider(b, out, more);
    case If(_, y, m) => GotosWider(y, out, more); if m.Some? { GotosWider(m.value, out, more); }
    case While(_, b) => GotosWider(b, out, more);
    case DoWhile(b, _) => GotosWider(b, out, more);
    case For(i, _, _, b) => GotosWider(b, out, more); if i.Some? { GotosWider(i.value, out, more); }
    case Switch(_, _, b) => GotosWider(b, out, more);
    case Labelled(_, b) => GotosWider(b, out, more);
    case Block(ss) => AllGotosWider(ss, out, more);
    case _ =>
  }

  lemma {:induction false} AllGotosWider(ss: seq<Stmt>, out: set<Label>, more: set<Label>)
    requires AllGotosIn(ss, out) && out <= more
    ensures AllGotosIn(ss, more)
    decreases ss, 0
  {
    if ss != [] { GotosWider(ss[0], out, more); AllGotosWider(ss[1..], out, more); }
  }

  // ---------------------------------------------------------------- the pre-walk

  function NodeSet(ctx: SwitchCtx): set<nat> {
    set i | 0 <= i < |ctx| :: ctx[i].node
  }

  ghost predicate DistinctNodes(ctx: SwitchCtx) {
    forall i, j :: 0 <= i < j < |ctx| ==> ctx[i].node != ctx[j].node
  }

  lemma NodeSetAppend(a: SwitchCtx, b: SwitchCtx)
    ensures NodeSet(a + b) == NodeSet(a) + NodeSet(b)
  {
    forall x | x in NodeSet(a) + NodeSet(b) ensures x in NodeSet(a + b) {
      if x in NodeSet(a) {
        var i :| 0 <= i < |a| && a[i].node == x;
        assert (a + b)[i].node == x;
      } else {
        var i :| 0 <= i < |b| && b[i].node == x;
        assert (a + b)[|a| + i].node == x;
      }
    }
  }

  lemma DistinctAppend(a: SwitchCtx, b: SwitchCtx)
    requires DistinctNodes(a) && DistinctNodes(b) && NodeSet(a) !! NodeSet(b)
    ensures DistinctNodes(a + b)
  {
    forall i, j | 0 <= i < j < |a + b| ensures (a + b)[i].node != (a + b)[j].node {
      if i < |a| && j >= |a| {
        assert a[i].node in NodeSet(a) && b[j - |a|].node in NodeSet(b);
      }
    }
  }

  lemma NodeSetOne(e: SwitchLabel)
    ensures NodeSet([e]) == {e.node} && DistinctNodes([e])
  {
    assert [e][0].node in NodeSet([e]);
  }

  /** The pre-walk records exactly the nodes of the switch, each once. */
  lemma {:induction false} CollectExact(s: Stmt, n: nat)
    requires TreeOk(s)
    ensures NodeSet(Collect(s, n)) == Nodes(s) && DistinctNodes(Collect(s, n))
    decreases s, 1
  {
    match s
    case Section(x, v, b) =>
      CollectExact(b, n + 1);
      var e := SwitchLabel(x, v, n);
      NodeSetOne(e);
      NodeSetAppend([e], Collect(b, n + 1));
      DistinctAppend([e], Collect(b, n + 1));
    case If(_, y, m) =>
      CollectExact(y, n);
      if m.Some? {
        var a := Collect(y, n);
        CollectExact(m.value, n + |a|);
        NodeSetAppend(a, Collect(m.value, n + |a|));
        DistinctAppend(a, Collect(m.value, n + |a|));
      }
    case While(_, b) => CollectExact(b, n);
    case DoWhile(b, _) => CollectExact(b, n);
    case For(i, _, _, b) =>
      var a := if i.Some? then Collect(i.value, n) else [];
      if i.Some? { CollectExact(i.value, n); }
      CollectExact(b, n + |a|);
      NodeSetAppend(a, Collect(b, n + |a|));
      DistinctAppend(a, Collect(b, n + |a|));
    case Labelled(_, b) => CollectExact(b, n);
    case Block(ss) => CollectAllExact(ss, n);
    case _ =>
  }

  lemma {:induction false} CollectAllExact(ss: seq<Stmt>, n: nat)
    requires TreesOk(ss)
    ensures NodeSet(CollectAll(ss, n)) == NodesAll(ss) && DistinctNodes(CollectAll(ss, n))
    decreases ss, 0
  {
    if ss != [] {
      var a := Collect(ss[0], n);
      CollectExact(ss[0], n);
      CollectAllExact(ss[1..], n + |a|);
      NodeSetAppend(a, CollectAll(ss[1..], n + |a|));
      DistinctAppend(a, CollectAll(ss[1..], n + |a|));
    }
  }

  /** Lookup finds the label of a recorded node, and different nodes have different labels. */
  lemma {:induction false} LookupAt(ctx: SwitchCtx, i: nat)
    requires DistinctNodes(ctx) && i < |ctx|
    ensures Lookup(ctx, ctx[i].node) == Some(ctx[i].num)
    decreases i
  {
    if i > 0 {
      assert forall j, k :: 0 <= j < k < |ctx[1..]| ==> ctx[1..][j] == ctx[j + 1] && ctx[1..][k] == ctx[k + 1];
      LookupAt(ctx[1..], i - 1);
    }
  }

  lemma LookupFinds(ctx: SwitchCtx, x: nat) returns (i: nat)
    requires DistinctNodes(ctx) && x in NodeSet(ctx)
    ensures i < |ctx| && ctx[i].node == x && Lookup(ctx, x) == Some(ctx[i].num)
  {
    i :| 0 <= i < |ctx| && ctx[i].node == x;
    LookupAt(ctx, i);
  }

  method SwitchLookupLabel(ctx: SwitchCtx, node: nat) returns (r: Option<nat>)
    ensures r == Lookup(ctx, node)
    ensures DistinctNodes(ctx) ==> (r.Some? <==> node in NodeSet(ctx))
  {
    var i := 0;
    while i < |ctx|
      invariant 0 <= i <= |ctx| && Lookup(ctx[i..], node) == Lookup(ctx, node)
      invariant forall j :: 0 <= j < i ==> ctx[j].node != node
    {
      if ctx[i].node == node { return Some(ctx[i].num); }
      assert ctx[i..][1..] == ctx[i + 1..];
      i := i + 1;
    }
    return None;
  }

  function SecLabel(ctx: SwitchCtx, x: nat): Label {
    Jump(SwitchSec, if Lookup(ctx, x).Some? then Lookup(ctx, x).value else 0)
  }

  /** Labels that s defines for its surroundings. */
  function Own(s: Stmt, ctx: SwitchCtx): set<Label> {
    (set x | x in Nodes(s) :: SecLabel(ctx, x)) + (set x | x in Users(s) :: User(x))
  }

  function OwnAll(ss: seq<Stmt>, ctx: SwitchCtx): set<Label> {
    (set x | x in NodesAll(ss) :: SecLabel(ctx, x)) + (set x | x in UsersAll(ss) :: User(x))
  }

  /** Every section of s is recorded in the innermost context. */
  ghost predicate Covered(nodes: set<nat>, ctx: SwitchCtx, n: nat) {
    DistinctNodes(ctx) && nodes <= NodeSet(ctx)
    && (forall i :: 0 <= i < |ctx| ==> ctx[i].num < n)
    && (forall i, j :: 0 <= i < j < |ctx| ==> ctx[i].num != ctx[j].num)
  }

  lemma SecLabelsApart(a: set<nat>, b: set<nat>, ctx: SwitchCtx, n: nat)
    requires a !! b && Covered(a, ctx, n) && Covered(b, ctx, n)
    ensures (set x | x in a :: SecLabel(ctx, x)) !! (set x | x in b :: SecLabel(ctx, x))
    ensures forall x :: x in a ==> Lookup(ctx, x).Some? && SecLabel(ctx, x).id < n
  {
    forall x | x in a ensures Lookup(ctx, x).Some? && SecLabel(ctx, x).id < n {
      var i := LookupFinds(ctx, x);
    }
    forall x, y | x in a && y in b ensures SecLabel(ctx, x) != SecLabel(ctx, y) {
      var i := LookupFinds(ctx, x);
      var j := LookupFinds(ctx, y);
    }
  }

  lemma OwnApart(s: Stmt, t: Stmt, ctx: SwitchCtx, n: nat)
    requires Apart(s, t) && Covered(Nodes(s), ctx, n) && Covered(Nodes(t), ctx, n)
    ensures Own(s, ctx) !! Own(t, ctx) && Old(Own(s, ctx), n) && Old(Own(t, ctx), n)
  {
    SecLabelsApart(Nodes(s), Nodes(t), ctx, n);
    SecLabelsApart(Nodes(t), Nodes(s), ctx, n);
  }

  lemma OwnOldBy(s: Stmt, ctx: SwitchCtx, n: nat)
    requires Covered(Nodes(s), ctx, n)
    ensures Old(Own(s, ctx), n)
  {
    SecLabelsApart(Nodes(s), {}, ctx, n);
  }

  lemma CoveredLess(a: set<nat>, b: set<nat>, ctx: SwitchCtx, n: nat, m: nat)
    requires Covered(b, ctx, n) && a <= b && n <= m
    ensures Covered(a, ctx, m)
  {
  }

  ghost predicate OutOk(env: Env, out: set<Label>) {
    && (env.breaks != [] ==> Jump(BreakTo, env.breaks[|env.breaks| - 1].breakLabel) in out)
    && (NearestLoop(env.breaks).Some? ==> Jump(ContinueTo, NearestLoop(env.breaks).value) in out)
  }
}
