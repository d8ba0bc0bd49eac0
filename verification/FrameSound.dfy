/** Slots are disjoint, aligned and inside the frame. */
module FrameSound {
  import opened Options
  import opened Frame

  lemma RoundUpIs(x: nat, a: nat)
    requires IsAlign(a)
    ensures x <= RoundUp(x, a) < x + a && RoundUp(x, a) % a == 0
  {
  }

  /** The budget covers the slot even after rounding to 8. */
  predicate Affordable(q: Request) {
    WellFormed(q) && (q.placed ==> RoundUp(q.size, 8) <= q.budget)
  }

  /** The amortised invariant: roundup8(stack_offset) grows by no more than the budget. */
  lemma Amortised(offset: nat, q: Request)
    requires Affordable(q)
    ensures RoundUp(Advance(offset, q), 8) <= RoundUp(offset, 8) + q.budget
  {
    if q.placed {
      var n := RoundUp(offset, 8) + RoundUp(q.size, 8);
      RoundUpIs(offset, 8);
      RoundUpIs(q.size, 8);
      RoundUpLeast(offset + q.size, q.align, n);
      RoundUpLeast(Advance(offset, q), 8, n);
    }
  }

  /** Rounding up stays below any multiple of 8 above. */
  lemma RoundUpLeast(x: nat, a: nat, n: nat)
    requires IsAlign(a) && x <= n && n % 8 == 0
    ensures RoundUp(x, a) <= n
  {
    var m := n / 8;
    match a
    case 1 =>
    case 2 => LeastTwo(x, m);
    case 4 => LeastFour(x, m);
    case _ => LeastEight(x, m);
  }

  lemma LeastTwo(x: nat, m: nat)
    requires x <= 8 * m
    ensures (x + 1) / 2 * 2 <= 8 * m
  {
    var q := (x + 1) / 2;
    assert 2 * q <= x + 1;
    assert q <= 4 * m;
  }

  lemma LeastFour(x: nat, m: nat)
    requires x <= 8 * m
    ensures (x + 3) / 4 * 4 <= 8 * m
  {
    var q := (x + 3) / 4;
    assert 4 * q <= x + 3;
    assert q <= 2 * m;
  }

  lemma LeastEight(x: nat, m: nat)
    requires x <= 8 * m
    ensures (x + 7) / 8 * 8 <= 8 * m
  {
    var q := (x + 7) / 8;
    assert 8 * q <= x + 7;
    assert q <= 1 * m;
  }

  lemma {:induction false} FinalWithin(qs: seq<Request>, offset: nat)
    requires forall q :: q in qs ==> WellFormed(q) && Affordable(q)
    ensures RoundUp(FinalOffset(qs, offset), 8) <= RoundUp(offset, 8) + Total(qs)
    decreases |qs|
  {
    if qs != [] {
      assert qs[0] in qs;
      Amortised(offset, qs[0]);
      FinalWithin(qs[1..], Advance(offset, qs[0]));
    }
  }

  // ---------------------------------------------------------------- stacks of slots

  /** Slots one above the other, from offset lo to offset hi. */
  predicate Stacked(ss: seq<Slot>, lo: nat, hi: nat) {
    if ss == [] then lo <= hi
    else IsAlign(ss[0].align) && ss[0].offset % ss[0].align == 0 && lo + ss[0].size <= ss[0].offset && Stacked(ss[1..], ss[0].offset, hi)
  }

  lemma {:induction false} StackedAppend(a: seq<Slot>, b: seq<Slot>, lo: nat, mid: nat, hi: nat)
    requires Stacked(a, lo, mid) && Stacked(b, mid, hi)
    ensures Stacked(a + b, lo, hi)
    decreases |a|
  {
    if a == [] {
      assert a + b == b;
      StackedDown(b, mid, lo, hi);
    } else {
      assert (a + b)[1..] == a[1..] + b && (a + b)[0] == a[0];
      StackedAppend(a[1..], b, a[0].offset, mid, hi);
    }
  }

  lemma StackedDown(b: seq<Slot>, mid: nat, lo: nat, hi: nat)
    requires Stacked(b, mid, hi) && lo <= mid
    ensures Stacked(b, lo, hi)
  {
  }

  /** Two slots share no byte. */
  predicate Disjoint(s: Slot, t: Slot) {
    s.offset <= t.offset - t.size || t.offset <= s.offset - s.size
  }

  predicate InFrame(s: Slot, hi: nat) {
    s.size <= s.offset <= hi && s.align > 0 && s.offset % s.align == 0
  }

  lemma {:induction false} StackedAt(ss: seq<Slot>, lo: nat, hi: nat, i: nat)
    requires Stacked(ss, lo, hi) && i < |ss|
    ensures lo + ss[i].size <= ss[i].offset <= hi && InFrame(ss[i], hi)
    decreases i
  {
    if i > 0 {
      StackedAt(ss[1..], ss[0].offset, hi, i - 1);
    } else {
      StackedEnd(ss[1..], ss[0].offset, hi);
    }
  }

  lemma {:induction false} StackedEnd(ss: seq<Slot>, lo: nat, hi: nat)
    requires Stacked(ss, lo, hi)
    ensures lo <= hi
    decreases |ss|
  {
    if ss != [] { StackedEnd(ss[1..], ss[0].offset, hi); }
  }

  lemma {:induction false} StackedDisjoint(ss: seq<Slot>, lo: nat, hi: nat, i: nat, j: nat)
    requires Stacked(ss, lo, hi) && i < j < |ss|
    ensures Disjoint(ss[i], ss[j])
    decreases i
  {
    if i > 0 {
      StackedDisjoint(ss[1..], ss[0].offset, hi, i - 1, j - 1);
    } else {
      StackedAt(ss[1..], ss[0].offset, hi, j - 1);
    }
  }

  lemma {:induction false} PlaceStacked(qs: seq<Request>, offset: nat)
    requires forall q :: q in qs ==> WellFormed(q)
    ensures Stacked(Place(qs, offset), offset, FinalOffset(qs, offset))
    decreases |qs|
  {
    if qs != [] {
      assert qs[0] in qs;
      var o := Advance(offset, qs[0]);
      PlaceStacked(qs[1..], o);
      if qs[0].placed {
        RoundUpIs(offset + qs[0].size, qs[0].align);
        var s := [Slot(o, qs[0].size, qs[0].align)] + Place(qs[1..], o);
        assert s[1..] == Place(qs[1..], o);
      } else {
        assert [] + Place(qs[1..], o) == Place(qs[1..], o);
      }
    }
  }

  lemma Eights(a: nat, b: nat)
    requires a % 8 == 0 && b % 8 == 0
    ensures (a + b) % 8 == 0
  {
  }

  lemma {:induction false} TempsStacked(sizes: seq<nat>, cursor: nat)
    requires cursor % 8 == 0
    ensures Stacked(Temps(sizes, cursor), cursor, cursor + ScratchBytes(sizes)) && ScratchBytes(sizes) % 8 == 0
    decreases |sizes|
  {
    if sizes != [] {
      hide RoundUp;
      RoundUpIs(sizes[0], 8);
      var n := RoundUp(sizes[0], 8);
      var c := cursor + n;
      Eights(cursor, n);
      TempsStacked(sizes[1..], c);
      Eights(n, ScratchBytes(sizes[1..]));
      Eights(n + ScratchBytes(sizes[1..]), 8);
      var rest := Temps(sizes[1..], c);
      StackedUp(rest, c, c + ScratchBytes(sizes[1..]), cursor + ScratchBytes(sizes));
      assert ([Slot(c, n, 8)] + rest)[1..] == rest;
    }
  }

  lemma {:induction false} StackedUp(ss: seq<Slot>, lo: nat, hi: nat, top: nat)
    requires Stacked(ss, lo, hi) && hi <= top
    ensures Stacked(ss, lo, top)
    decreases |ss|
  {
    if ss != [] { StackedUp(ss[1..], ss[0].offset, hi, top); }
  }

  // ---------------------------------------------------------------- functions

  lemma FixedStacked(f: Function)
    ensures Stacked(FixedSlots(f), 0, SaveOffset(f)) && SaveOffset(f) % 8 == 0 && (f.variadic ==> SaveOffset(f) % 16 == 0)
  {
    var saved := [Slot(8, 8, 8), Slot(16, 8, 8), Slot(24, 8, 8), Slot(32, 8, 8), Slot(40, 8, 8)];
    assert Stacked(saved[5..], 40, 40);
    assert saved[4..][1..] == saved[5..] && saved[3..][1..] == saved[4..] && saved[2..][1..] == saved[3..] && saved[1..][1..] == saved[2..];
    assert Stacked(saved[4..], 32, 40);
    assert Stacked(saved[3..], 24, 40);
    assert Stacked(saved[2..], 16, 40);
    assert Stacked(saved[1..], 8, 40);
    assert Stacked(saved, 0, 40);
    if f.variadic {
      var area := [Slot(SaveOffset(f), SAVE_AREA, 8)];
      assert Stacked(area[1..], SaveOffset(f), SaveOffset(f));
      assert Stacked(area, 40, SaveOffset(f));
      StackedAppend(saved, area, 0, 40, SaveOffset(f));
    } else {
      assert saved + [] == saved;
    }
  }

  lemma {:induction false} AllStacked(f: Function)
    requires Allowed(f)
    ensures Stacked(Slots(f), 0, FinalOffset(Requests(f), Start(f))) && Start(f) % 8 == 0
  {
    hide Place, FinalOffset, Temps, FixedSlots, SaveOffset, ScratchBytes, Requests, Stacked, SretSlot, Slots, Allowed, Start;
    SlotsAre(f);
    FixedStacked(f);
    var a, s := SaveOffset(f), ScratchBytes(f.returned);
    TempsStacked(f.returned, a);
    StackedAppend(FixedSlots(f), Temps(f.returned, a), 0, a, a + s);
    SretStacked(f);
    StackedAppend(FixedSlots(f) + Temps(f.returned, a), SretSlot(f), 0, a + s, Start(f));
    PlaceStacked(Requests(f), Start(f));
    StackedAppend(FixedSlots(f) + Temps(f.returned, a) + SretSlot(f), Place(Requests(f), Start(f)), 0, Start(f), FinalOffset(Requests(f), Start(f)));
  }

  lemma SlotsAre(f: Function)
    requires Allowed(f)
    ensures Slots(f) == FixedSlots(f) + Temps(f.returned, SaveOffset(f)) + SretSlot(f) + Place(Requests(f), Start(f))
    ensures forall q :: q in Requests(f) ==> WellFormed(q)
    ensures Start(f) == SaveOffset(f) + ScratchBytes(f.returned) + if f.sret then 8 else 0
  {
  }

  lemma SretStacked(f: Function)
    requires SaveOffset(f) % 8 == 0 && ScratchBytes(f.returned) % 8 == 0
    ensures Stacked(SretSlot(f), SaveOffset(f) + ScratchBytes(f.returned), Start(f))
  {
    hide SaveOffset, ScratchBytes;
    if f.sret {
      var s := SretSlot(f);
      assert Stacked(s[1..], s[0].offset, Start(f));
    }
  }

  ghost predicate AllAffordable(f: Function) {
    forall q :: q in Requests(f) ==> Affordable(q)
  }

  lemma RequestsTotal(f: Function)
    ensures Total(Requests(f)) == Total(ParamRequests(f.params)) + Total(LiteralRequests(f.literals)) + Budget(f.body)
  {
    var p, l := ParamRequests(f.params), LiteralRequests(f.literals);
    TotalAppend(p + l, Flatten(f.body));
    TotalAppend(p, l);
    BudgetIsTotal(f.body);
  }

  /** Parameters, locals, saved registers, save area, hidden pointer and struct-return temporaries of a
      function are pairwise disjoint, aligned, and inside the frame reserved before the body. */
  lemma {:induction false} FrameSound(f: Function)
    requires AllAffordable(f)
    ensures Allowed(f) && FrameBytes(f) % 16 == 0
    ensures forall i :: 0 <= i < |Slots(f)| ==> InFrame(Slots(f)[i], FrameBytes(f))
    ensures forall i, j :: 0 <= i < j < |Slots(f)| ==> Disjoint(Slots(f)[i], Slots(f)[j])
  {
    hide Slots;
    AllStacked(f);
    var hi := FinalOffset(Requests(f), Start(f));
    EnoughBytes(f);
    forall i | 0 <= i < |Slots(f)| ensures InFrame(Slots(f)[i], FrameBytes(f)) { StackedAt(Slots(f), 0, hi, i); }
    forall i, j | 0 <= i < j < |Slots(f)| ensures Disjoint(Slots(f)[i], Slots(f)[j]) { StackedDisjoint(Slots(f), 0, hi, i, j); }
  }

  lemma {:induction false} EnoughBytes(f: Function)
    requires AllAffordable(f) && Start(f) % 8 == 0
    ensures Allowed(f) && FinalOffset(Requests(f), Start(f)) <= FrameBytes(f) && FrameBytes(f) % 16 == 0
  {
    hide FinalOffset, Total, Requests, RoundUp, Start, FrameBytes, Budget;
    var n := FinalOffset(Requests(f), Start(f));
    FinalWithin(Requests(f), Start(f));
    RequestsTotal(f);
    RoundUpIs(n, 8);
    RoundUpExact(Start(f));
    BytesAtLeast(f);
  }

  lemma RoundUpExact(x: nat)
    requires x % 8 == 0
    ensures RoundUp(x, 8) == x
  {
  }

  lemma BytesAtLeast(f: Function)
    ensures FrameBytes(f) >= Start(f) + Total(ParamRequests(f.params)) + Total(LiteralRequests(f.literals)) + Budget(f.body) && FrameBytes(f) % 16 == 0
  {
    hide Total, Budget, ParamRequests, LiteralRequests, ScratchBytes;
    StartBytes(f);
  }

  lemma StartBytes(f: Function)
    ensures Start(f) == ScratchBytes(f.returned) + (if f.sret then 8 else 0) + SAVED + (if f.variadic then 8 + SAVE_AREA else 0)
  {
  }

  // ---------------------------------------------------------------- when the budget is enough

  /** Scalars, arrays and parameters are always affordable. */
  lemma UsuallyAffordable(d: Decl, p: Param)
    ensures d.Scalar? && IsAlign(d.size) ==> Affordable(DeclRequest(d))
    ensures d.Array? && IsAlign(d.align) ==> Affordable(DeclRequest(d))
    ensures d.Static? ==> Affordable(DeclRequest(d))
    ensures p.ScalarParam? && IsAlign(p.size) ==> Affordable(ParamRequest(p))
    ensures p.StructParam? || p.UnnamedParam? ==> Affordable(ParamRequest(p))
  {
    if p.StructParam? { RoundUpIs(p.size, 8); }
    if d.Array? { RoundUpIs(d.size, 8); }
  }

  /** An aggregate of 8-byte alignment is affordable whatever its size. */
  lemma WideAffordable(n: nat)
    ensures Affordable(DeclRequest(Aggregate(n, 8)))
  {
    RoundUpIs(n, 8);
  }

  function LongThen(n: nat, a: nat, k: nat): seq<Node> {
    if k == 0 then [] else [Node(Some(Aggregate(n, a)), [])] + ([Node(Some(Scalar(8)), [])] + LongThen(n, a, k - 1))
  }

  /** A function that declares k aggregates, each followed by a long. */
  function Alternating(n: nat, a: nat, k: nat): Function {
    Function([], false, false, Node(None, LongThen(n, a, k)), [], [])
  }

  function Repeat(n: nat, a: nat, k: nat): (r: seq<Request>)
    requires IsAlign(a)
    ensures forall q :: q in r ==> WellFormed(q) && q.placed
  {
    if k == 0 then [] else [DeclRequest(Aggregate(n, a))] + ([DeclRequest(Scalar(8))] + Repeat(n, a, k - 1))
  }

  lemma FlattenCons(d: Decl, rest: seq<Node>)
    ensures FlattenAll([Node(Some(d), [])] + rest) == [DeclRequest(d)] + FlattenAll(rest)
  {
    var x := Node(Some(d), []);
    assert ([x] + rest)[1..] == rest;
    assert FlattenAll([]) == [];
    assert Flatten(x) == [DeclRequest(d)];
  }

  lemma {:induction false} LongThenFlat(n: nat, a: nat, k: nat)
    requires IsAlign(a)
    ensures FlattenAll(LongThen(n, a, k)) == Repeat(n, a, k)
    decreases k
  {
    if k > 0 {
      LongThenFlat(n, a, k - 1);
      hide FlattenAll;
      FlattenCons(Aggregate(n, a), [Node(Some(Scalar(8)), [])] + LongThen(n, a, k - 1));
      FlattenCons(Scalar(8), LongThen(n, a, k - 1));
    }
  }

  lemma PlaceCons(q: Request, qs: seq<Request>, offset: nat)
    requires WellFormed(q) && forall r :: r in qs ==> WellFormed(r)
    ensures (forall r :: r in [q] + qs ==> WellFormed(r)) && FinalOffset([q] + qs, offset) == FinalOffset(qs, Advance(offset, q))
    ensures Total([q] + qs) == q.budget + Total(qs)
  {
    assert ([q] + qs)[1..] == qs;
  }

  lemma {:induction false} RepeatGrows(n: nat, a: nat, k: nat, offset: nat)
    requires IsAlign(a) && offset % 8 == 0
    ensures FinalOffset(Repeat(n, a, k), offset) == offset + Times(k, RoundUp(n, 8) + 8)
    ensures Total(Repeat(n, a, k)) == Times(k, n + a - 1 + 8)
    decreases k
  {
    if k > 0 {
      hide FinalOffset, Total, RoundUp, Advance, IsAlign;
      var x, y, r := DeclRequest(Aggregate(n, a)), DeclRequest(Scalar(8)), Repeat(n, a, k - 1);
      OneLong(n, a, offset);
      EightMore(n, offset);
      RepeatGrows(n, a, k - 1, offset + RoundUp(n, 8) + 8);
      PlaceCons(y, r, Advance(offset, x));
      PlaceCons(x, [y] + r, offset);
    }
  }

  lemma EightMore(n: nat, offset: nat)
    requires offset % 8 == 0
    ensures (offset + RoundUp(n, 8) + 8) % 8 == 0
  {
    RoundUpIs(n, 8);
  }

  function Times(k: nat, x: nat): nat {
    if k == 0 then 0 else x + Times(k - 1, x)
  }

  lemma {:induction false} TimesIs(k: nat, x: nat)
    ensures Times(k, x) == k * x
  {
    if k > 0 { TimesIs(k - 1, x); }
  }

  /** The long after the aggregate pays the padding that the aggregate left. */
  lemma OneLong(n: nat, a: nat, offset: nat)
    requires IsAlign(a) && offset % 8 == 0
    ensures Advance(Advance(offset, DeclRequest(Aggregate(n, a))), DeclRequest(Scalar(8))) == offset + RoundUp(n, 8) + 8
  {
    RoundUpIs(n, 8);
    RoundUpIs(offset + n, a);
    RoundUpLeast(offset + n, a, offset + RoundUp(n, 8));
    var o1 := Advance(offset, DeclRequest(Aggregate(n, a)));
    RoundUpIs(o1 + 8, 8);
  }

  ghost predicate Fits(f: Function)
    requires Allowed(f)
  {
    forall i :: 0 <= i < |Slots(f)| ==> InFrame(Slots(f)[i], FrameBytes(f))
  }

  /** An aggregate type is safe if and only if its budget covers its size rounded to 8: otherwise sixteen
      of them, each followed by a long, run out of the frame. */
  lemma {:induction false} AggregateExact(n: nat, a: nat)
    requires IsAlign(a)
    ensures var f := Alternating(n, a, 16); Allowed(f) && (Fits(f) <==> Affordable(DeclRequest(Aggregate(n, a))))
  {
    var f := Alternating(n, a, 16);
    AlternatingIs(n, a);
    RepeatGrows(n, a, 16, 40);
    if Affordable(DeclRequest(Aggregate(n, a))) {
      RepeatAffordable(n, a, 16);
      FrameSound(f);
    } else {
      Overflows(n, a);
    }
  }

  lemma AlternatingIs(n: nat, a: nat)
    requires IsAlign(a)
    ensures var f := Alternating(n, a, 16); Requests(f) == Repeat(n, a, 16) && Start(f) == 40 && Budget(f.body) == Total(Repeat(n, a, 16))
    ensures var f := Alternating(n, a, 16); FrameBytes(f) == var b := Total(Repeat(n, a, 16)) + 40; if b % 16 != 0 then RoundUp(b, 16) else b
  {
    hide Repeat, LongThen, RoundUp;
    var f := Alternating(n, a, 16);
    LongThenFlat(n, a, 16);
    BudgetIsTotal(f.body);
    assert Flatten(f.body) == FlattenAll(LongThen(n, a, 16));
  }

  lemma {:induction false} Overflows(n: nat, a: nat)
    requires IsAlign(a) && !Affordable(DeclRequest(Aggregate(n, a)))
    ensures var f := Alternating(n, a, 16); Allowed(f) && !Fits(f)
  {
    hide *;
    var f, q := Alternating(n, a, 16), Repeat(n, a, 16);
    TooDear(n, a);
    AllowedBy(f, q);
    AlternatingIs(n, a);
    RepeatGrows(n, a, 16, 40);
    TimesIs(16, RoundUp(n, 8) + 8);
    TimesIs(16, n + a - 1 + 8);
    RepeatSome(n, a);
    LastSlot(q, 40);
    SixteenShort(n, a, FrameBytes(f));
    LastOfSlots(f, q);
  }

  lemma TooDear(n: nat, a: nat)
    requires IsAlign(a) && !Affordable(DeclRequest(Aggregate(n, a)))
    ensures a >= 1 && RoundUp(n, 8) > n + a - 1
  {
    hide RoundUp;
  }

  lemma AllowedBy(f: Function, q: seq<Request>)
    ensures Requests(f) == q && (forall r :: r in q ==> WellFormed(r)) ==> Allowed(f)
  {
    hide Requests;
  }

  lemma LastOfSlots(f: Function, q: seq<Request>)
    requires Requests(f) == q && Allowed(f) && Start(f) == 40
    requires var p := Place(q, 40); p != [] && p[|p| - 1].offset > FrameBytes(f)
    ensures !Fits(f)
  {
    hide Place, FrameBytes, Temps, FixedSlots, Requests, SretSlot, Start;
    var s, p := Slots(f), Place(q, 40);
    assert s[|s| - 1] == p[|p| - 1];
    assert !InFrame(s[|s| - 1], FrameBytes(f));
  }

  lemma RepeatSome(n: nat, a: nat)
    requires IsAlign(a)
    ensures Repeat(n, a, 16) != []
  {
  }

  lemma SixteenShort(n: nat, a: nat, bytes: nat)
    requires IsAlign(a) && RoundUp(n, 8) > n + a - 1
    requires var b := 16 * (n + a - 1 + 8) + 40; bytes == if b % 16 != 0 then RoundUp(b, 16) else b
    ensures 40 + 16 * (RoundUp(n, 8) + 8) > bytes
  {
    var b := 16 * (n + a - 1 + 8) + 40;
    assert bytes < b + 16;
  }

  lemma {:induction false} RepeatAffordable(n: nat, a: nat, k: nat)
    requires Affordable(DeclRequest(Aggregate(n, a)))
    ensures forall q :: q in Repeat(n, a, k) ==> Affordable(q)
    decreases k
  {
    if k > 0 { RepeatAffordable(n, a, k - 1); }
  }

  /** The last slot placed ends at the final offset. */
  lemma {:induction false} LastSlot(qs: seq<Request>, offset: nat)
    requires qs != [] && (forall q :: q in qs ==> WellFormed(q) && q.placed)
    ensures Place(qs, offset) != [] && Place(qs, offset)[|Place(qs, offset)| - 1].offset == FinalOffset(qs, offset)
    decreases |qs|
  {
    assert qs[0] in qs;
    var o := Advance(offset, qs[0]);
    if |qs| > 1 {
      LastSlot(qs[1..], o);
    } else {
      assert qs[1..] == [];
      assert Place(qs[1..], o) == [];
    }
  }
}
