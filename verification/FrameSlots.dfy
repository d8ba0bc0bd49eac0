/** Nothing is left without a slot: the slots of a frame, request by request. */
module FrameSlots {
  import opened Frame
  import opened FrameSound

  /** What must find room: bytes and alignment. */
  datatype Need = Need(size: nat, align: nat)

  function NeedOf(d: Decl): seq<Need> {
    match d
    case Scalar(n) => [Need(n, n)]
    case Array(n, a) => [Need(n, a)]
    case Aggregate(n, a) => [Need(n, a)]
    case Static(_) => []
    case Literal(n, a) => [Need(n, a)]
  }

  /** A struct parameter is stored in whole words. */
  function ParamNeed(p: Param): seq<Need> {
    match p
    case ScalarParam(n) => [Need(n, n)]
    case StructParam(n) => [Need(8 * ((n + 7) / 8), 8)]
    case UnnamedParam(_) => []
  }

  function ParamNeeds(ps: seq<Param>): seq<Need> {
    if ps == [] then [] else ParamNeed(ps[0]) + ParamNeeds(ps[1..])
  }

  function LiteralNeeds(ds: seq<Decl>): seq<Need> {
    if ds == [] then [] else NeedOf(ds[0]) + LiteralNeeds(ds[1..])
  }

  /** The declarations of a body from the outside in and from left to right. */
  function BodyNeeds(t: Node): seq<Need>
    decreases t, 1
  {
    (if t.own.Some? then NeedOf(t.own.value) else []) + AllBodyNeeds(t.kids)
  }

  function AllBodyNeeds(ts: seq<Node>): seq<Need>
    decreases ts, 0
  {
    if ts == [] then [] else BodyNeeds(ts[0]) + AllBodyNeeds(ts[1..])
  }

  /** The needs of the requests that are placed. */
  function Placed(qs: seq<Request>): seq<Need> {
    if qs == [] then [] else (if qs[0].placed then [Need(qs[0].size, qs[0].align)] else []) + Placed(qs[1..])
  }

  lemma {:induction false} PlacedAppend(a: seq<Request>, b: seq<Request>)
    ensures Placed(a + b) == Placed(a) + Placed(b)
    decreases |a|
  {
    if a == [] {
      assert a + b == b;
    } else {
      assert (a + b)[0] == a[0] && (a + b)[1..] == a[1..] + b;
      PlacedAppend(a[1..], b);
    }
  }

  lemma PlacedOne(q: Request)
    ensures Placed([q]) == if q.placed then [Need(q.size, q.align)] else []
  {
    assert [q][1..] == [] && Placed([q][1..]) == [];
  }

  lemma {:induction false} PlacedParams(ps: seq<Param>)
    ensures Placed(ParamRequests(ps)) == ParamNeeds(ps)
    decreases |ps|
  {
    if ps != [] {
      PlacedOne(ParamRequest(ps[0]));
      PlacedAppend([ParamRequest(ps[0])], ParamRequests(ps[1..]));
      PlacedParams(ps[1..]);
    }
  }

  lemma {:induction false} PlacedLiterals(ds: seq<Decl>)
    ensures Placed(LiteralRequests(ds)) == LiteralNeeds(ds)
    decreases |ds|
  {
    if ds != [] {
      PlacedOne(DeclRequest(ds[0]));
      PlacedAppend([DeclRequest(ds[0])], LiteralRequests(ds[1..]));
      PlacedLiterals(ds[1..]);
    }
  }

  lemma {:induction false} PlacedBody(t: Node)
    ensures Placed(Flatten(t)) == BodyNeeds(t)
    decreases t, 1
  {
    PlacedBodies(t.kids);
    if t.own.Some? {
      PlacedOne(DeclRequest(t.own.value));
      PlacedAppend([DeclRequest(t.own.value)], FlattenAll(t.kids));
    } else {
      assert [] + FlattenAll(t.kids) == FlattenAll(t.kids);
    }
  }

  lemma {:induction false} PlacedBodies(ts: seq<Node>)
    ensures Placed(FlattenAll(ts)) == AllBodyNeeds(ts)
    decreases ts, 0
  {
    if ts != [] {
      PlacedBody(ts[0]);
      PlacedBodies(ts[1..]);
      PlacedAppend(Flatten(ts[0]), FlattenAll(ts[1..]));
    }
  }

  /** The slot meets the need. */
  predicate Meets(s: Slot, n: Need) {
    s.size == n.size && s.align == n.align && (n.align > 0 ==> s.offset % n.align == 0)
  }

  ghost predicate AllMet(ss: seq<Slot>, ns: seq<Need>) {
    |ss| == |ns| && forall i :: 0 <= i < |ss| ==> Meets(ss[i], ns[i])
  }

  lemma {:induction false} PlaceMeets(qs: seq<Request>, offset: nat)
    requires forall q :: q in qs ==> WellFormed(q)
    ensures AllMet(Place(qs, offset), Placed(qs))
    decreases |qs|
  {
    if qs != [] {
      var q := qs[0];
      assert q in qs && WellFormed(q);
      if q.placed { RoundUpIs(offset + q.size, q.align); }
      PlaceMeets(qs[1..], Advance(offset, q));
      MetAppend(if q.placed then [Slot(Advance(offset, q), q.size, q.align)] else [], Place(qs[1..], Advance(offset, q)),
                if q.placed then [Need(q.size, q.align)] else [], Placed(qs[1..]));
    }
  }

  lemma MetAppend(a: seq<Slot>, b: seq<Slot>, x: seq<Need>, y: seq<Need>)
    requires AllMet(a, x) && AllMet(b, y)
    ensures AllMet(a + b, x + y)
  {
  }

  /** What a function needs beside its saved registers. */
  function Needs(f: Function): seq<Need> {
    ParamNeeds(f.params) + LiteralNeeds(f.literals) + BodyNeeds(f.body)
  }

  /** In every function each named parameter, each compound literal and each automatic variable has its own slot, of its
      size and alignment, in the order of emission, behind the fixed part of the frame. */
  lemma EverySlot(f: Function)
    requires Allowed(f)
    ensures var n := |Slots(f)| - |Needs(f)|;
      n >= 5 + (if f.variadic then 1 else 0) + |f.returned| + (if f.sret then 1 else 0) && AllMet(Slots(f)[n..], Needs(f))
  {
    var qs := Requests(f);
    PlacedParams(f.params);
    PlacedLiterals(f.literals);
    PlacedBody(f.body);
    PlacedAppend(ParamRequests(f.params), LiteralRequests(f.literals));
    PlacedAppend(ParamRequests(f.params) + LiteralRequests(f.literals), Flatten(f.body));
    PlaceMeets(qs, Start(f));
    TempsEach(f.returned, SaveOffset(f));
    hide Place, Placed, Temps, AllMet, Start;
    var front := FixedSlots(f) + Temps(f.returned, SaveOffset(f)) + SretSlot(f);
    Behind(front, Place(qs, Start(f)), Slots(f), Needs(f));
  }

  lemma Behind(front: seq<Slot>, back: seq<Slot>, all: seq<Slot>, ns: seq<Need>)
    requires all == front + back && AllMet(back, ns)
    ensures |all| - |ns| == |front| && all[|front|..] == back
  {
  }

  /** Every returned aggregate has room for all its bytes. */
  lemma {:induction false} TempsEach(sizes: seq<nat>, cursor: nat)
    ensures |Temps(sizes, cursor)| == |sizes| && forall i :: 0 <= i < |sizes| ==> Temps(sizes, cursor)[i].size >= sizes[i]
    decreases |sizes|
  {
    if sizes != [] {
      RoundUpIs(sizes[0], 8);
      TempsEach(sizes[1..], cursor + RoundUp(sizes[0], 8));
    }
  }
}
