/** The streaming preprocessor computes exactly the recursive meaning, and accepts exactly the balanced inputs. */
module ConditionalsCorrect {
  import opened Options
  import opened Conditionals

  lemma {:induction false} StepsAppend<M>(h: Host<M>, a: seq<Line>, b: seq<Line>, s: State<M>)
    ensures Steps(h, a + b, s) == var m := Steps(h, a, s); if m.None? then None else Steps(h, b, m.value)
    decreases |a|
  {
    if a == [] {
      assert a + b == b;
    } else {
      assert (a + b)[0] == a[0] && (a + b)[1..] == a[1..] + b;
      var m := Step(h, a[0], s);
      if m.Some? { StepsAppend(h, a[1..], b, m.value); }
    }
  }

  lemma StepsOne<M>(h: Host<M>, l: Line, s: State<M>)
    ensures Steps(h, [l], s) == Step(h, l, s)
  {
    var m := Step(h, l, s);
    if m.Some? { assert Steps(h, [l][1..], m.value) == m; }
  }

  lemma {:induction false} BlankAdd<M>(a: nat, b: nat, w: World<M>)
    ensures Blank(a + b, w) == Blank(b, Blank(a, w))
    decreases a
  {
    if a > 0 { BlankAdd(a - 1, b, NewLine(w)); }
  }

  lemma BlankOne<M>(w: World<M>)
    ensures Blank(1, w) == NewLine(w)
  {
    assert Blank(0, NewLine(w)) == NewLine(w);
  }

  function Around<M>(s: State<M>): bool {
    if |s.stack| <= 1 then true else s.stack[|s.stack| - 2].emitting
  }

  /** emitting mirrors the innermost frame; no frame is active inside an inactive one. */
  predicate Sane<M>(s: State<M>) {
    && s.emitting == (s.stack == [] || Top(s).emitting)
    && (s.stack != [] ==> Top(s).parentEmitting == Around(s) && (Top(s).emitting ==> Top(s).parentEmitting && (Top(s).branchTaken || Top(s).seenElse)))
  }

  function With<M>(s: State<M>, w: Option<World<M>>): Option<State<M>> {
    if w.None? then None else Some(s.(w := w.value))
  }

  function Skip<M>(n: nat, w: World<M>): Option<World<M>> {
    Some(Blank(n, w))
  }

  /** The effect of complete items: their meaning where active, line ends elsewhere. */
  function EffectAll<M>(h: Host<M>, items: seq<Item>, s: State<M>): Option<State<M>> {
    With(s, if s.emitting then MeanAll(h, items, s.w) else Skip(|FlattenAll(items)|, s.w))
  }

  function Effect<M>(h: Host<M>, i: Item, s: State<M>): Option<State<M>> {
    With(s, if s.emitting then Mean(h, i, s.w) else Skip(|Flatten(i)|, s.w))
  }

  function Closed<M>(s: State<M>): State<M>
    requires s.stack != []
  {
    State(s.stack[..|s.stack| - 1], Around(s), s.w)
  }

  predicate Looking<M>(s: State<M>)
    requires s.stack != []
  {
    Top(s).parentEmitting && !Top(s).branchTaken
  }

  /** The effect of the rest of the innermost group. */
  function EffectTail<M>(h: Host<M>, r: Tail, s: State<M>): Option<State<M>>
    requires s.stack != []
  {
    With(Closed(s), if Looking(s) then MeanTail(h, r, s.w) else Skip(|FlattenTail(r)|, s.w))
  }

  lemma {:induction false} RunAll<M>(h: Host<M>, items: seq<Item>, s: State<M>)
    requires Sane(s) && |s.stack| + DepthAll(items) <= MAX_COND_DEPTH
    ensures Steps(h, FlattenAll(items), s) == EffectAll(h, items, s)
    decreases items, 0
  {
    hide Step;
    if items != [] {
      var i, rest := items[0], items[1..];
      RunOne(h, i, s);
      StepsAppend(h, Flatten(i), FlattenAll(rest), s);
      BlankAdd(|Flatten(i)|, |FlattenAll(rest)|, s.w);
      var m := Effect(h, i, s);
      if m.Some? {
        assert m.value.stack == s.stack && Top0(m.value) == Top0(s);
        RunAll(h, rest, m.value);
      }
    }
  }

  function Top0<M>(s: State<M>): Option<CondFrame> {
    if s.stack == [] then None else Some(Top(s))
  }

  lemma {:induction false} RunOne<M>(h: Host<M>, i: Item, s: State<M>)
    requires Sane(s) && |s.stack| + Depth(i) <= MAX_COND_DEPTH
    ensures Steps(h, Flatten(i), s) == Effect(h, i, s)
    decreases i, 1
  {
    hide BranchEffect, EffectTail, MeanTail, StepElif, StepElse;
    match i
    case Plain(text) =>
      StepsOne(h, Other(text), s);
      BlankOne(s.w);
    case Group(t, body, rest) =>
      var m := StepIf(h, t, s);
      if m.Some? {
        Opened(h, t, s);
        RunAll(h, body, m.value);
        var e := EffectAll(h, body, m.value);
        if e.Some? { RunTail(h, rest, e.value); }
        RunBranch(h, body, rest, m.value);
      }
      GroupJoin(h, i, s);
  }

  /** A group is its first directive and what RunBranch says of the rest. */
  lemma {:induction false} GroupJoin<M>(h: Host<M>, i: Item, s: State<M>)
    requires i.Group? && Sane(s) && |s.stack| < MAX_COND_DEPTH
    requires var m := StepIf(h, i.test, s);
      m.Some? ==> Steps(h, FlattenAll(i.body) + FlattenTail(i.rest), m.value) == BranchEffect(h, i.body, i.rest, m.value)
    ensures Steps(h, Flatten(i), s) == Effect(h, i, s)
  {
    hide Steps, MeanAll, MeanTail, FlattenAll, FlattenTail, Sane;
    var t, lines := i.test, FlattenAll(i.body) + FlattenTail(i.rest);
    assert Flatten(i) == [If(t)] + lines;
    StepsAppend(h, [If(t)], lines, s);
    StepsOne(h, If(t), s);
    if StepIf(h, t, s).Some? { Opened(h, t, s); }
    BlankOne(s.w);
    BlankAdd(1, |lines|, s.w);
  }

  /** A branch that has just been opened, and what follows it. */
  function BranchEffect<M>(h: Host<M>, body: seq<Item>, rest: Tail, s: State<M>): Option<State<M>>
    requires s.stack != []
  {
    With(Closed(s), if s.emitting then Then(MeanAll(h, body, s.w), |FlattenTail(rest)|)
                    else if Looking(s) then MeanTail(h, rest, Blank(|FlattenAll(body)|, s.w))
                    else Skip(|FlattenAll(body) + FlattenTail(rest)|, s.w))
  }

  lemma Opened<M>(h: Host<M>, t: Test, s: State<M>)
    requires Sane(s) && StepIf(h, t, s).Some?
    ensures var m := StepIf(h, t, s).value;
      m.stack != [] && Sane(m) && !Top(m).seenElse && Fresh(m) && Closed(m) == s.(w := m.w) && |m.stack| == |s.stack| + 1
  {
    var m := StepIf(h, t, s).value;
    assert m.stack[..|s.stack|] == s.stack;
  }

  /** A branch just opened: active, or nothing has been taken, or it can never be active. */
  predicate Fresh<M>(s: State<M>)
    requires s.stack != []
  {
    Top(s).emitting ==> !Looking(s)
  }

  /** A branch body and what follows it. */
  lemma RunBranch<M>(h: Host<M>, body: seq<Item>, rest: Tail, s: State<M>)
    requires s.stack != [] && Sane(s) && Fresh(s)
    requires Steps(h, FlattenAll(body), s) == EffectAll(h, body, s)
    requires var m := EffectAll(h, body, s); m.Some? ==> Steps(h, FlattenTail(rest), m.value) == EffectTail(h, rest, m.value)
    ensures Steps(h, FlattenAll(body) + FlattenTail(rest), s) == BranchEffect(h, body, rest, s)
  {
    hide Step, Steps, MeanAll, MeanTail, FlattenAll, FlattenTail;
    StepsAppend(h, FlattenAll(body), FlattenTail(rest), s);
    var m := EffectAll(h, body, s);
    if m.Some? {
      BlankAdd(|FlattenAll(body)|, |FlattenTail(rest)|, s.w);
      assert Closed(m.value) == Closed(s).(w := m.value.w);
    }
  }

  lemma {:induction false} RunTail<M>(h: Host<M>, r: Tail, s: State<M>)
    requires s.stack != [] && Sane(s) && !Top(s).seenElse && |s.stack| + DepthTail(r) <= MAX_COND_DEPTH
    ensures Steps(h, FlattenTail(r), s) == EffectTail(h, r, s)
    decreases r, 3
  {
    BlankOne(s.w);
    match r
    case End => StepsOne(h, EndIf, s);
    case Otherwise(body) =>
      ElseOpened(s);
      RunAll(h, body, StepElse(s).value);
      ElseJoin(h, body, s);
    case Branch(t, body, rest) =>
      var m := StepElif(h, t, s);
      if m.Some? {
        Continued(h, t, s);
        RunAll(h, body, m.value);
        var e := EffectAll(h, body, m.value);
        if e.Some? { RunTail(h, rest, e.value); }
        RunBranch(h, body, rest, m.value);
      }
      TailJoin(h, r, s);
  }

  lemma ElseOpened<M>(s: State<M>)
    requires s.stack != [] && Sane(s) && !Top(s).seenElse
    ensures var m := StepElse(s);
      m.Some? && Sane(m.value) && |m.value.stack| == |s.stack| && m.value.stack[..|s.stack| - 1] == s.stack[..|s.stack| - 1]
      && m.value.emitting == Looking(s) && m.value.w == NewLine(s.w) && Around(m.value) == Around(s)
  {
  }

  /** #else, its body and #endif. */
  lemma {:induction false} ElseJoin<M>(h: Host<M>, body: seq<Item>, s: State<M>)
    requires s.stack != [] && Sane(s) && !Top(s).seenElse
    requires var m := StepElse(s); m.Some? && Steps(h, FlattenAll(body), m.value) == EffectAll(h, body, m.value)
    ensures Steps(h, FlattenTail(Otherwise(body)), s) == EffectTail(h, Otherwise(body), s)
  {
    ElseOpened(s);
    var lines, m := FlattenAll(body) + [EndIf], StepElse(s).value;
    assert FlattenTail(Otherwise(body)) == [Else] + lines;
    hide Steps, MeanAll, FlattenAll, Sane;
    StepsAppend(h, [Else], lines, s);
    StepsOne(h, Else, s);
    StepsAppend(h, FlattenAll(body), [EndIf], m);
    var e := EffectAll(h, body, m);
    BlankOne(s.w);
    BlankAdd(1, |lines|, s.w);
    BlankAdd(|FlattenAll(body)|, 1, m.w);
    if e.Some? {
      StepsOne(h, EndIf, e.value);
      BlankOne(e.value.w);
    }
  }

  /** #elif and what RunBranch says of the rest. */
  lemma {:induction false} TailJoin<M>(h: Host<M>, r: Tail, s: State<M>)
    requires r.Branch? && s.stack != [] && Sane(s) && !Top(s).seenElse
    requires var m := StepElif(h, r.test, s);
      m.Some? ==> m.value.stack != [] && Steps(h, FlattenAll(r.body) + FlattenTail(r.rest), m.value) == BranchEffect(h, r.body, r.rest, m.value)
    ensures Steps(h, FlattenTail(r), s) == EffectTail(h, r, s)
  {
    var t, lines := r.test, FlattenAll(r.body) + FlattenTail(r.rest);
    assert FlattenTail(r) == [Elif(t)] + lines;
    hide Steps, MeanAll, FlattenAll, Sane;
    StepsAppend(h, [Elif(t)], lines, s);
    StepsOne(h, Elif(t), s);
    if StepElif(h, t, s).Some? { Continued(h, t, s); }
    BlankOne(s.w);
    BlankAdd(1, |lines|, s.w);
  }

  lemma Continued<M>(h: Host<M>, t: Test, s: State<M>)
    requires s.stack != [] && Sane(s) && StepElif(h, t, s).Some?
    ensures var m := StepElif(h, t, s).value;
      m.stack != [] && Sane(m) && !Top(m).seenElse && Fresh(m) && Closed(m) == Closed(s).(w := m.w) && |m.stack| == |s.stack|
  {
    var m := StepElif(h, t, s).value;
    assert m.stack[..|s.stack| - 1] == s.stack[..|s.stack| - 1];
  }

  /** The output, the macro table and the conditions evaluated are those of the recursive meaning. */
  lemma BalancedCorrect<M>(h: Host<M>, items: seq<Item>, w: World<M>)
    requires DepthAll(items) <= MAX_COND_DEPTH
    ensures Process(h, FlattenAll(items), w) == MeanAll(h, items, w)
  {
    RunAll(h, items, State([], true, w));
  }
}
