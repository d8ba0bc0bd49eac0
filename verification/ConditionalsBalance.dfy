/** What the stack accepts is balanced: the lines read so far are always a partly built tree of groups. */
module ConditionalsBalance {
  import opened Options
  import opened Conditionals
  import opened ConditionalsCorrect

  /** A finished branch: its directive and its body. */
  datatype Part = Part(head: Line, body: seq<Item>)

  /** A group still open: what precedes it, its finished branches, and the directive of the current one. */
  datatype Open = Open(before: seq<Item>, parts: seq<Part>, head: Line)

  datatype Zipper = Zipper(opens: seq<Open>, cur: seq<Item>)

  function PartLines(ps: seq<Part>): seq<Line> {
    if ps == [] then [] else PartLines(ps[..|ps| - 1]) + [ps[|ps| - 1].head] + FlattenAll(ps[|ps| - 1].body)
  }

  function OpenLines(os: seq<Open>): seq<Line> {
    if os == [] then []
    else var o := os[|os| - 1]; OpenLines(os[..|os| - 1]) + FlattenAll(o.before) + PartLines(o.parts) + [o.head]
  }

  function Lines(z: Zipper): seq<Line> {
    OpenLines(z.opens) + FlattenAll(z.cur)
  }

  /** The first branch is an #if, the others #elif, the last may be #else. */
  predicate Ordered(ps: seq<Part>) {
    && ps != [] && ps[0].head.If?
    && forall i :: 1 <= i < |ps| ==> ps[i].head.Elif? || (ps[i].head.Else? && i == |ps| - 1)
  }

  predicate WellOpen(o: Open) {
    Ordered(o.parts + [Part(o.head, [])]) && (forall i :: 0 <= i < |o.parts| ==> !o.parts[i].head.Else?)
  }

  /** The group fits below the limit when it stands at nesting level d. */
  predicate FitsOpen(o: Open, d: nat) {
    && d + DepthAll(o.before) <= MAX_COND_DEPTH && d < MAX_COND_DEPTH
    && (forall i :: 0 <= i < |o.parts| ==> d + 1 + DepthAll(o.parts[i].body) <= MAX_COND_DEPTH)
  }

  predicate Good(z: Zipper) {
    && (forall i :: 0 <= i < |z.opens| ==> WellOpen(z.opens[i]) && FitsOpen(z.opens[i], i))
    && |z.opens| + DepthAll(z.cur) <= MAX_COND_DEPTH
  }

  predicate Mirrors<M>(z: Zipper, s: State<M>) {
    && |z.opens| == |s.stack|
    && forall i :: 0 <= i < |s.stack| ==> s.stack[i].seenElse == z.opens[i].head.Else?
  }

  // ---------------------------------------------------------------- building

  function MakeTail(ps: seq<Part>): Tail
    decreases |ps|
  {
    if ps == [] then End
    else if ps[0].head.Elif? then Branch(ps[0].head.test, ps[0].body, MakeTail(ps[1..]))
    else Otherwise(ps[0].body)
  }

  function Last(z: Zipper): Open
    requires z.opens != []
  {
    z.opens[|z.opens| - 1]
  }

  function Finished(z: Zipper): seq<Part>
    requires z.opens != []
  {
    Last(z).parts + [Part(Last(z).head, z.cur)]
  }

  function NextBranch(z: Zipper, head: Line): Zipper
    requires z.opens != []
  {
    Zipper(z.opens[|z.opens| - 1 := Open(Last(z).before, Finished(z), head)], [])
  }

  function Close(z: Zipper): Zipper
    requires z.opens != [] && Finished(z)[0].head.If?
  {
    var ps := Finished(z);
    Zipper(z.opens[..|z.opens| - 1], Last(z).before + [Group(ps[0].head.test, ps[0].body, MakeTail(ps[1..]))])
  }

  lemma {:induction false} FlattenAppend(a: seq<Item>, b: seq<Item>)
    ensures FlattenAll(a + b) == FlattenAll(a) + FlattenAll(b) && DepthAll(a + b) == Max(DepthAll(a), DepthAll(b))
    decreases |a|
  {
    if a == [] {
      assert a + b == b;
    } else {
      assert (a + b)[1..] == a[1..] + b;
      FlattenAppend(a[1..], b);
    }
  }

  lemma FlattenOne(i: Item)
    ensures FlattenAll([i]) == Flatten(i) && DepthAll([i]) == Depth(i)
  {
    assert [i][1..] == [];
    assert FlattenAll([]) == [] && DepthAll([]) == 0;
  }

  /** The lines of branches, from the front. */
  lemma {:induction false} PartFront(ps: seq<Part>)
    requires ps != []
    ensures PartLines(ps) == [ps[0].head] + FlattenAll(ps[0].body) + PartLines(ps[1..])
    decreases |ps|
  {
    if |ps| == 1 {
      assert ps[..0] == [] && ps[1..] == [];
      assert PartLines(ps[..0]) == [] && PartLines(ps[1..]) == [];
    } else {
      var n := |ps| - 1;
      PartFront(ps[..n]);
      PartLast(ps[..n], ps[n]);
      PartLast(ps[1..n], ps[n]);
      hide PartLines, FlattenAll;
      assert ps == ps[..n] + [ps[n]] && ps[1..] == ps[1..n] + [ps[n]];
      assert ps[..n][1..] == ps[1..n];
    }
  }

  predicate TailParts(ps: seq<Part>) {
    forall i :: 0 <= i < |ps| ==> ps[i].head.Elif? || (ps[i].head.Else? && i == |ps| - 1)
  }

  lemma {:induction false} TailLines(ps: seq<Part>, d: nat)
    requires TailParts(ps) && forall i :: 0 <= i < |ps| ==> DepthAll(ps[i].body) <= d
    ensures FlattenTail(MakeTail(ps)) == PartLines(ps) + [EndIf] && DepthTail(MakeTail(ps)) <= d
    decreases |ps|
  {
    if ps != [] {
      PartFront(ps);
      if ps[0].head.Elif? {
        TailLines(ps[1..], d);
      } else {
        assert ps[1..] == [];
        assert PartLines(ps[1..]) == [];
      }
    }
  }

  lemma {:induction false} LinesNext(z: Zipper, head: Line)
    requires z.opens != []
    ensures Lines(NextBranch(z, head)) == Lines(z) + [head]
  {
    var z', n := NextBranch(z, head), |z.opens| - 1;
    assert z'.opens[..n] == z.opens[..n];
    var ps := Finished(z);
    assert ps[..|ps| - 1] == Last(z).parts;
    assert FlattenAll([]) == [];
  }

  lemma {:induction false} GoodNext(z: Zipper, head: Line)
    requires Good(z) && z.opens != [] && !Last(z).head.Else? && (head.Elif? || head.Else?)
    ensures Good(NextBranch(z, head))
  {
    var z', n := NextBranch(z, head), |z.opens| - 1;
    var o, ps := Last(z), Finished(z);
    assert WellOpen(o) && FitsOpen(o, n);
    var last := ps + [Part(head, [])];
    forall i | 0 <= i < |last| ensures i == 0 ==> last[i].head.If? ensures i >= 1 ==> last[i].head.Elif? || (last[i].head.Else? && i == |last| - 1) {
      if i < |ps| { assert (o.parts + [Part(o.head, [])])[i].head == last[i].head; }
    }
    assert DepthAll([]) == 0;
  }

  lemma {:induction false} FinishedOrdered(z: Zipper)
    requires Good(z) && z.opens != []
    ensures Finished(z)[0].head.If? && TailParts(Finished(z)[1..])
    ensures forall i :: 0 <= i < |Finished(z)| ==> |z.opens| + DepthAll(Finished(z)[i].body) <= MAX_COND_DEPTH
  {
    hide DepthAll;
    var n, o, ps := |z.opens| - 1, Last(z), Finished(z);
    assert WellOpen(o) && FitsOpen(o, n);
    var shape := o.parts + [Part(o.head, [])];
    assert forall i :: 0 <= i < |ps| ==> ps[i].head == shape[i].head;
  }

  lemma {:induction false} GroupLines(ps: seq<Part>, d: nat)
    requires ps != [] && ps[0].head.If? && TailParts(ps[1..]) && forall i :: 0 <= i < |ps| ==> DepthAll(ps[i].body) <= d
    ensures var g := Group(ps[0].head.test, ps[0].body, MakeTail(ps[1..]));
      Flatten(g) == PartLines(ps) + [EndIf] && Depth(g) <= d + 1
  {
    hide DepthAll, FlattenAll, PartLines, MakeTail, FlattenTail, DepthTail;
    TailLines(ps[1..], d);
    PartFront(ps);
  }

  lemma {:induction false} OpenLast(os: seq<Open>)
    requires os != []
    ensures var o := os[|os| - 1]; OpenLines(os) == OpenLines(os[..|os| - 1]) + FlattenAll(o.before) + PartLines(o.parts) + [o.head]
  {
  }

  lemma {:induction false} PartLast(ps: seq<Part>, p: Part)
    ensures PartLines(ps + [p]) == PartLines(ps) + [p.head] + FlattenAll(p.body)
  {
    assert (ps + [p])[..|ps|] == ps;
  }

  lemma {:induction false} CloseOk(z: Zipper)
    requires Good(z) && z.opens != []
    ensures Finished(z)[0].head.If? && Good(Close(z)) && Lines(Close(z)) == Lines(z) + [EndIf]
  {
    hide DepthAll, FlattenAll, PartLines, OpenLines, MakeTail, Flatten, Depth, WellOpen, TailParts;
    var n, o, ps := |z.opens| - 1, Last(z), Finished(z);
    assert FitsOpen(o, n);
    FinishedOrdered(z);
    var g := Group(ps[0].head.test, ps[0].body, MakeTail(ps[1..]));
    GroupLines(ps, MAX_COND_DEPTH - n - 1);
    FlattenAppend(o.before, [g]);
    FlattenOne(g);
    OpenLast(z.opens);
    PartLast(o.parts, Part(o.head, z.cur));
  }

  /** A run that ends with an empty stack has read the lines of some nested groups, nested at most 64 deep. */
  lemma {:induction false} Accepted<M>(h: Host<M>, ls: seq<Line>, s: State<M>, z: Zipper) returns (items: seq<Item>)
    requires Good(z) && Mirrors(z, s)
    requires var r := Steps(h, ls, s); r.Some? && r.value.stack == []
    ensures FlattenAll(items) == Lines(z) + ls && DepthAll(items) <= MAX_COND_DEPTH
    decreases |ls|
  {
    if ls == [] {
      items := z.cur;
      assert OpenLines(z.opens) == [];
    } else {
      var s' := Step(h, ls[0], s).value;
      var z' := OneLine(h, ls[0], s, z);
      items := Accepted(h, ls[1..], s', z');
      assert Lines(z) + ls == Lines(z) + [ls[0]] + ls[1..];
    }
  }

  lemma OneLine<M>(h: Host<M>, l: Line, s: State<M>, z: Zipper) returns (z': Zipper)
    requires Good(z) && Mirrors(z, s) && Step(h, l, s).Some?
    ensures Good(z') && Mirrors(z', Step(h, l, s).value) && Lines(z') == Lines(z) + [l]
  {
    hide Ask, Act, DepthAll, FlattenAll, PartLines;
    match l
    case If(_) => z' := OpenOk(z, l);
    case Elif(_) =>
      z' := NextBranch(z, l);
      LinesNext(z, l);
      GoodNext(z, l);
    case Else =>
      z' := NextBranch(z, l);
      LinesNext(z, l);
      GoodNext(z, l);
    case EndIf =>
      CloseOk(z);
      z' := Close(z);
    case Other(text) =>
      z' := z.(cur := z.cur + [Plain(text)]);
      PlainOk(z, text);
  }

  lemma OpenOk(z: Zipper, l: Line) returns (z': Zipper)
    requires Good(z) && l.If? && |z.opens| < MAX_COND_DEPTH
    ensures z' == Zipper(z.opens + [Open(z.cur, [], l)], []) && Good(z') && Lines(z') == Lines(z) + [l]
  {
    var o := Open(z.cur, [], l);
    z' := Zipper(z.opens + [o], []);
    assert z'.opens[..|z.opens|] == z.opens;
    assert DepthAll([]) == 0 && FlattenAll([]) == [] && PartLines([]) == [];
    assert WellOpen(o);
  }

  lemma PlainOk(z: Zipper, text: string)
    requires Good(z)
    ensures var z' := z.(cur := z.cur + [Plain(text)]); Good(z') && Lines(z') == Lines(z) + [Other(text)]
  {
    FlattenAppend(z.cur, [Plain(text)]);
    FlattenOne(Plain(text));
  }

  /** The preprocessor accepts exactly the balanced inputs of nesting at most 64 whose meaning is defined,
      and then computes that meaning. */
  lemma AcceptsExactly<M>(h: Host<M>, ls: seq<Line>, w: World<M>, w': World<M>)
    ensures Process(h, ls, w) == Some(w') <==>
      exists items :: FlattenAll(items) == ls && DepthAll(items) <= 64 && MeanAll(h, items, w) == Some(w')
  {
    if Process(h, ls, w) == Some(w') {
      var z := Zipper([], []);
      assert Lines(z) == [];
      assert [] + ls == ls;
      assert Good(z) by { assert DepthAll([]) == 0; }
      var items := Accepted(h, ls, State([], true, w), z);
      BalancedCorrect(h, items, w);
      assert FlattenAll(items) == ls && MeanAll(h, items, w) == Some(w');
    }
    forall items | FlattenAll(items) == ls && DepthAll(items) <= 64 && MeanAll(h, items, w) == Some(w')
      ensures Process(h, ls, w) == Some(w')
    {
      BalancedCorrect(h, items, w);
    }
  }
}
