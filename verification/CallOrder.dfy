/** The places of section 3.2.3 of the System V AMD64 ABI, argument by argument, from what the earlier ones took. */
module CallOrder {
  import opened CallLayout

  /** General registers taken by the places. */
  function GpTaken(ps: seq<Place>): nat {
    if ps == [] then 0 else GpTaken(ps[..|ps| - 1]) + match ps[|ps| - 1] case InGp(_, n) => n case _ => 0
  }

  function XmmTaken(ps: seq<Place>): nat {
    if ps == [] then 0 else XmmTaken(ps[..|ps| - 1]) + match ps[|ps| - 1] case InXmm(_) => 1 case _ => 0
  }

  /** Bytes of the stack taken: whole words, one for a scalar. */
  function StackTaken(cs: seq<Class>, ps: seq<Place>): nat
    requires |cs| == |ps|
  {
    if ps == [] then 0
    else
      var n := |ps| - 1;
      StackTaken(cs[..n], ps[..n]) + match ps[n] case OnStack(_) => 8 * (if cs[n].Aggregate? then (cs[n].size + 7) / 8 else 1) case _ => 0
  }

  /** A register of its kind, the next one, while there is one; an aggregate of at most 16 bytes only as a whole; else
      the next words of the stack. */
  ghost predicate InTurn(c: Class, p: Place, gp: nat, xmm: nat, stack: nat) {
    match c
    case Integer => p == if gp < 6 then InGp(gp, 1) else OnStack(stack)
    case Float => p == if xmm < 8 then InXmm(xmm) else OnStack(stack)
    case Aggregate(size) =>
      if 1 <= size <= 8 then p == if gp <= 5 then InGp(gp, 1) else OnStack(stack)
      else if 9 <= size <= 16 then p == if gp <= 4 then InGp(gp, 2) else OnStack(stack)
      else p == OnStack(stack)
  }

  lemma {:induction false} CountersCount(cs: seq<Class>, sret: bool)
    ensures var ps := LayoutOf(cs, sret).places;
      After(cs, First(sret)) == Counters((if sret then 1 else 0) + GpTaken(ps), XmmTaken(ps), StackTaken(cs, ps))
    decreases |cs|
  {
    hide PlaceOf;
    var ps := LayoutOf(cs, sret).places;
    if cs != [] {
      var n := |cs| - 1;
      CountersCount(cs[..n], sret);
      PrefixPlaces(cs, sret, n);
      var k := After(cs[..n], First(sret));
      assert ps[n] == PlaceOf(cs[n], k);
      BumpIs(cs[n], k);
    }
  }

  lemma PrefixPlaces(cs: seq<Class>, sret: bool, i: nat)
    requires i <= |cs|
    ensures LayoutOf(cs, sret).places[..i] == LayoutOf(cs[..i], sret).places
  {
    var a, b := LayoutOf(cs, sret).places[..i], LayoutOf(cs[..i], sret).places;
    forall j | 0 <= j < i
      ensures a[j] == b[j]
    {
      assert cs[..i][..j] == cs[..j];
    }
  }

  lemma BumpIs(c: Class, k: Counters)
    ensures var p := PlaceOf(c, k);
      Bump(c, k) == Counters(k.gp + (match p case InGp(_, n) => n case _ => 0), k.xmm + (match p case InXmm(_) => 1 case _ => 0),
                             k.stack + match p case OnStack(_) => 8 * (if c.Aggregate? then (c.size + 7) / 8 else 1) case _ => 0)
  {
  }

  /** Every argument of every list stands where the ABI puts it after the earlier ones; rdi is taken first by the hidden pointer. */
  lemma EachInTurn(cs: seq<Class>, sret: bool, i: nat)
    requires i < |cs|
    ensures var ps := LayoutOf(cs, sret).places;
      InTurn(cs[i], ps[i], (if sret then 1 else 0) + GpTaken(ps[..i]), XmmTaken(ps[..i]), StackTaken(cs[..i], ps[..i]))
  {
    hide After, PlaceOf, GpTaken, XmmTaken, StackTaken;
    PrefixPlaces(cs, sret, i);
    CountersCount(cs[..i], sret);
    PlaceInTurn(cs[i], After(cs[..i], First(sret)));
  }

  lemma PlaceInTurn(c: Class, k: Counters)
    ensures InTurn(c, PlaceOf(c, k), k.gp, k.xmm, k.stack)
  {
  }

  /** The outgoing area is as large as what stands in it. */
  lemma AreaExact(cs: seq<Class>, sret: bool)
    ensures LayoutOf(cs, sret).stackBytes == StackTaken(cs, LayoutOf(cs, sret).places)
  {
    hide After, PlaceOf, GpTaken, XmmTaken, StackTaken;
    CountersCount(cs, sret);
  }

  const MIXED: seq<Class> := [Integer, Float, Aggregate(16), Integer, Aggregate(12), Integer, Aggregate(24), Integer]

  function MixedCounters(): seq<Counters> {
    [Counters(1, 0, 0), Counters(2, 0, 0), Counters(2, 1, 0), Counters(4, 1, 0), Counters(5, 1, 0), Counters(5, 1, 16),
     Counters(6, 1, 16), Counters(6, 1, 40), Counters(6, 1, 48)]
  }

  lemma MixedStep(i: nat)
    requires i < 8
    ensures Bump(MIXED[i], MixedCounters()[i]) == MixedCounters()[i + 1]
  {
  }

  lemma {:induction false} MixedAfter(i: nat)
    requires i <= 8
    ensures After(MIXED[..i], First(true)) == MixedCounters()[i]
  {
    if i > 0 {
      MixedAfter(i - 1);
      Stepped(MIXED, First(true), i - 1);
      MixedStep(i - 1);
    }
  }

  lemma Stepped(cs: seq<Class>, k: Counters, i: nat)
    requires i < |cs|
    ensures After(cs[..i + 1], k) == Bump(cs[i], After(cs[..i], k))
  {
    assert cs[..i + 1][..i] == cs[..i];
  }

  function MixedPlaces(): seq<Place> {
    [InGp(1, 1), InXmm(0), InGp(2, 2), InGp(4, 1), OnStack(0), InGp(5, 1), OnStack(16), OnStack(40)]
  }

  lemma MixedPlace(i: nat)
    requires i < 8
    ensures PlaceOf(MIXED[i], MixedCounters()[i]) == MixedPlaces()[i]
  {
  }

  /** An int, a double, a struct of 16 bytes, an int, a struct of 12, an int, a struct of 24 and an int, passed to a
      function that returns a large struct. */
  lemma MixedCall()
    ensures LayoutOf(MIXED, true) ==
      Layout([InGp(1, 1), InXmm(0), InGp(2, 2), InGp(4, 1), OnStack(0), InGp(5, 1), OnStack(16), OnStack(40)], 48)
  {
    var ps := LayoutOf(MIXED, true).places;
    forall i: nat | i < 8
      ensures ps[i] == MixedPlaces()[i]
    {
      MixedAfter(i);
      MixedPlace(i);
    }
    assert ps == MixedPlaces();
    MixedAfter(8);
    assert MIXED[..8] == MIXED;
  }
}
