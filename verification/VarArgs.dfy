/** Variable argument lists, section 3.5.7 of the System V AMD64 ABI (va_start and va_arg in
    codegen_expression, and the register save area of the prologue, in src/codegen.c).
 */
module VarArgs {
  import opened Options
  import opened CallLayout

  type Memory = map<int, Byte>

  ghost predicate ByteAt(m: Memory, x: int, b: Byte) {
    x in m && m[x] == b
  }

  ghost predicate HoldsAt(m: Memory, a: int, bs: seq<Byte>) {
    forall k :: 0 <= k < |bs| ==> ByteAt(m, a + k, bs[k])
  }

  function Store(m: Memory, a: int, bs: seq<Byte>): Memory {
    if bs == [] then m else Store(m, a, bs[..|bs| - 1])[a + |bs| - 1 := bs[|bs| - 1]]
  }

  lemma {:induction false} StoreHolds(m: Memory, a: int, bs: seq<Byte>)
    ensures HoldsAt(Store(m, a, bs), a, bs)
  {
    if bs != [] {
      var n := |bs| - 1;
      StoreHolds(m, a, bs[..n]);
      forall k | 0 <= k < |bs| ensures ByteAt(Store(m, a, bs), a + k, bs[k]) {
        assert k < n ==> bs[..n][k] == bs[k];
      }
    }
  }

  lemma {:induction false} StoreKeeps(m: Memory, a: int, bs: seq<Byte>, b: int, cs: seq<Byte>)
    requires HoldsAt(m, b, cs) && (b + |cs| <= a || a + |bs| <= b)
    ensures HoldsAt(Store(m, a, bs), b, cs)
  {
    if bs != [] {
      var n := |bs| - 1;
      StoreKeeps(m, a, bs[..n], b, cs);
      forall k | 0 <= k < |cs| ensures ByteAt(Store(m, a, bs), b + k, cs[k]) {
        assert ByteAt(Store(m, a, bs[..n]), b + k, cs[k]);
      }
    }
  }

  lemma HoldsPart(m: Memory, a: int, bs: seq<Byte>, o: nat, n: nat)
    requires HoldsAt(m, a, bs) && o + n <= |bs|
    ensures HoldsAt(m, a + o, bs[o..o + n])
  {
    var part := bs[o..o + n];
    forall k | 0 <= k < n ensures ByteAt(m, a + o + k, part[k]) {
      assert part[k] == bs[o + k] && a + (o + k) == a + o + k;
    }
  }

  lemma HoldsBoth(m: Memory, a: int, bs: seq<Byte>, cs: seq<Byte>)
    requires HoldsAt(m, a, bs) && HoldsAt(m, a + |bs|, cs)
    ensures HoldsAt(m, a, bs + cs)
  {
    var all := bs + cs;
    forall k | 0 <= k < |all| ensures ByteAt(m, a + k, all[k]) {
      if k < |bs| {
        assert all[k] == bs[k];
      } else {
        assert all[k] == cs[k - |bs|] && a + |bs| + (k - |bs|) == a + k;
      }
    }
  }

  // ---------------------------------------------------------------- the register save area

  const GP_AREA := 48
  const SAVE_AREA := 176

  /** The argument registers on entry: eight bytes each of rdi..r9, sixteen of xmm0..xmm7. */
  datatype Entry = Entry(gp: seq<Eightbyte>, xmm: seq<seq<Byte>>) {
    ghost predicate Valid() {
      |gp| == 6 && |xmm| == 8 && forall x :: 0 <= x < 8 ==> |xmm[x]| == 16
    }
  }

  ghost predicate Saved(m: Memory, base: int, e: Entry, n: nat, k: nat)
    requires e.Valid() && n <= 6 && k <= 8
  {
    && (forall g :: 0 <= g < n ==> HoldsAt(m, base + 8 * g, e.gp[g]))
    && (forall x :: 0 <= x < k ==> HoldsAt(m, base + GP_AREA + 16 * x, e.xmm[x]))
  }

  /** The prologue of a variadic function stores the registers from rbp - rso upwards and touches
      nothing at or above rbp, where the caller's stack arguments are. */
  method SaveRegisters(m: Memory, rbp: int, rso: nat, e: Entry) returns (m': Memory)
    requires e.Valid() && rso >= SAVE_AREA
    ensures Saved(m', rbp - rso, e, 6, 8)
    ensures forall a, bs :: a >= rbp && HoldsAt(m, a, bs) ==> HoldsAt(m', a, bs)
  {
    hide HoldsAt, Store;
    m' := m;
    var base := rbp - rso;
    for g := 0 to 6
      invariant Saved(m', base, e, g, 0)
      invariant forall a, bs :: a >= rbp && HoldsAt(m, a, bs) ==> HoldsAt(m', a, bs)
    {
      ghost var before := m';
      m' := Store(m', base + 8 * g, e.gp[g]);
      SavedMore(before, base, e, g, 0, base + 8 * g, e.gp[g]);
      KeptAbove(before, rbp, base + 8 * g, e.gp[g]);
    }
    for x := 0 to 8
      invariant Saved(m', base, e, 6, x)
      invariant forall a, bs :: a >= rbp && HoldsAt(m, a, bs) ==> HoldsAt(m', a, bs)
    {
      ghost var before := m';
      m' := Store(m', base + GP_AREA + 16 * x, e.xmm[x]);
      SavedMore(before, base, e, 6, x, base + GP_AREA + 16 * x, e.xmm[x]);
      KeptAbove(before, rbp, base + GP_AREA + 16 * x, e.xmm[x]);
    }
  }

  lemma SavedMore(m: Memory, base: int, e: Entry, n: nat, k: nat, a: int, bs: seq<Byte>)
    requires e.Valid() && n <= 6 && k <= 8 && Saved(m, base, e, n, k)
    requires (n < 6 && k == 0 && a == base + 8 * n && bs == e.gp[n]) || (n == 6 && k < 8 && a == base + GP_AREA + 16 * k && bs == e.xmm[k])
    ensures Saved(Store(m, a, bs), base, e, if n < 6 then n + 1 else 6, if n < 6 then 0 else k + 1)
  {
    hide HoldsAt, Store;
    StoreHolds(m, a, bs);
    forall g | 0 <= g < n ensures HoldsAt(Store(m, a, bs), base + 8 * g, e.gp[g]) {
      StoreKeeps(m, a, bs, base + 8 * g, e.gp[g]);
    }
    forall x | 0 <= x < k ensures HoldsAt(Store(m, a, bs), base + GP_AREA + 16 * x, e.xmm[x]) {
      StoreKeeps(m, a, bs, base + GP_AREA + 16 * x, e.xmm[x]);
    }
  }

  lemma KeptAbove(m: Memory, rbp: int, a: int, bs: seq<Byte>)
    requires a + |bs| <= rbp
    ensures forall b, cs :: b >= rbp && HoldsAt(m, b, cs) ==> HoldsAt(Store(m, a, bs), b, cs)
  {
    hide HoldsAt, Store;
    forall b, cs | b >= rbp && HoldsAt(m, b, cs) ensures HoldsAt(Store(m, a, bs), b, cs) {
      StoreKeeps(m, a, bs, b, cs);
    }
  }

  // ---------------------------------------------------------------- va_list

  /** gp_offset, fp_offset, overflow_arg_area, reg_save_area. */
  datatype Cursor = Cursor(gp: nat, fp: nat, overflow: int, save: int)

  function Floats(cs: seq<Class>): (n: nat)
    ensures n <= |cs|
  {
    if cs == [] then 0 else Floats(cs[..|cs| - 1]) + if cs[|cs| - 1].Float? then 1 else 0
  }

  function Min(a: nat, b: nat): nat {
    if a < b then a else b
  }

  function StartOf(named: seq<Class>, rbp: int, rso: nat): Cursor {
    var f := Floats(named);
    var g := |named| - f;
    Cursor(8 * Min(g, 6), GP_AREA + 16 * Min(f, 8), rbp + 16 + (if g > 6 then 8 * (g - 6) else 0), rbp - rso)
  }

  /** Where va_arg reads an argument of class c, and the list afterwards. */
  function Fetch(v: Cursor, c: Class): (int, Cursor) {
    match c
    case Integer =>
      if v.gp >= GP_AREA then (v.overflow, v.(overflow := v.overflow + 8)) else (v.save + v.gp, v.(gp := v.gp + 8))
    case Float =>
      if v.fp >= SAVE_AREA then (v.overflow, v.(overflow := v.overflow + 8)) else (v.save + v.fp, v.(fp := v.fp + 16))
    case Aggregate(size) =>
      var n := Eightbytes(size);
      if n == 0 then (v.overflow, v.(overflow := v.overflow + RoundUp8(size)))
      else if n == 1 then
        if v.gp >= GP_AREA then (v.overflow, v.(overflow := v.overflow + 8)) else (v.save + v.gp, v.(gp := v.gp + 8))
      else if v.gp > 32 then (v.overflow, v.(overflow := v.overflow + RoundUp8(size)))
      else (v.save + v.gp, v.(gp := v.gp + 16))
  }

  function AfterFetches(v: Cursor, cs: seq<Class>): Cursor {
    if cs == [] then v else Fetch(AfterFetches(v, cs[..|cs| - 1]), cs[|cs| - 1]).1
  }

  class VaList {
    var gpOffset: nat
    var fpOffset: nat
    var overflowArea: int
    var saveArea: int

    function State(): Cursor
      reads this
    {
      Cursor(gpOffset, fpOffset, overflowArea, saveArea)
    }

    constructor ()
    {
      gpOffset, fpOffset, overflowArea, saveArea := 0, 0, 0, 0;
    }

    /** The prologue counts the named parameters; va_start turns the counts into offsets. */
    method Start(named: seq<Class>, rbp: int, rso: nat)
      modifies this
      ensures State() == StartOf(named, rbp, rso)
    {
      var namedGp: nat, namedXmm: nat := 0, 0;
      assert named[..0] == [];
      for i := 0 to |named|
        invariant namedXmm == Floats(named[..i]) && namedGp == i - Floats(named[..i])
      {
        assert named[..i + 1][..i] == named[..i];
        if named[i].Float? { namedXmm := namedXmm + 1; } else { namedGp := namedGp + 1; }
      }
      assert named[..|named|] == named;
      var gpParams := if namedGp < 6 then namedGp else 6;
      var xmmParams := if namedXmm < 8 then namedXmm else 8;
      var stackParams := if namedGp > 6 then namedGp - 6 else 0;
      gpOffset := gpParams * 8;
      fpOffset := GP_AREA + xmmParams * 16;
      overflowArea := rbp + 16 + stackParams * 8;
      saveArea := rbp - rso;
    }

    method Arg(c: Class) returns (address: int)
      modifies this
      ensures (address, State()) == Fetch(old(State()), c)
    {
      match c
      case Float =>
        if fpOffset >= SAVE_AREA {
          address := overflowArea;
          overflowArea := overflowArea + 8;
        } else {
          address := saveArea + fpOffset;
          fpOffset := fpOffset + 16;
        }
      case Integer => address := OneWord();
      case Aggregate(size) =>
        var ebs := Eightbytes(size);
        if ebs == 1 {
          address := OneWord();
        } else if ebs == 0 || gpOffset > 32 {
          address := overflowArea;
          overflowArea := overflowArea + RoundUp8(size);
        } else {
          address := saveArea + gpOffset;
          gpOffset := gpOffset + 16;
        }
    }

    method OneWord() returns (address: int)
      modifies this
      ensures (address, State()) == Fetch(old(State()), Integer)
    {
      if gpOffset >= GP_AREA {
        address := overflowArea;
        overflowArea := overflowArea + 8;
      } else {
        address := saveArea + gpOffset;
        gpOffset := gpOffset + 8;
      }
    }

    /** va_copy: both lists continue from the same place. */
    method CopyFrom(src: VaList)
      modifies this
      ensures State() == old(src.State())
    {
      gpOffset, fpOffset, overflowArea, saveArea := src.gpOffset, src.fpOffset, src.overflowArea, src.saveArea;
    }
  }

  // ---------------------------------------------------------------- the list follows the layout

  ghost predicate Tracks(v: Cursor, k: Counters, rbp: int, rso: nat) {
    v == Cursor(8 * k.gp, GP_AREA + 16 * k.xmm, rbp + 16 + k.stack, rbp - rso)
  }

  /** Where the callee finds what the caller put in a place. */
  function AddressOf(p: Place, rbp: int, rso: nat): int {
    match p
    case InGp(s, _) => rbp - rso + 8 * s
    case InXmm(x) => rbp - rso + GP_AREA + 16 * x
    case OnStack(o) => rbp + 16 + o
  }

  lemma FetchTracks(v: Cursor, k: Counters, c: Class, rbp: int, rso: nat)
    requires Within(k) && Tracks(v, k, rbp, rso)
    ensures Fetch(v, c).0 == AddressOf(PlaceOf(c, k), rbp, rso) && Tracks(Fetch(v, c).1, Bump(c, k), rbp, rso)
  {
  }

  lemma {:induction false} FetchesTrack(v: Cursor, k: Counters, cs: seq<Class>, rbp: int, rso: nat)
    requires Within(k) && Tracks(v, k, rbp, rso)
    ensures Within(After(cs, k)) && Tracks(AfterFetches(v, cs), After(cs, k), rbp, rso)
  {
    AfterWithin(cs, k);
    if cs != [] {
      var n := |cs| - 1;
      FetchesTrack(v, k, cs[..n], rbp, rso);
      FetchTracks(AfterFetches(v, cs[..n]), After(cs[..n], k), cs[n], rbp, rso);
    }
  }

  lemma {:induction false} AfterConcat(cs: seq<Class>, ds: seq<Class>, k: Counters)
    ensures After(cs + ds, k) == After(ds, After(cs, k))
  {
    if ds == [] {
      assert cs + ds == cs;
    } else {
      var n := |ds| - 1;
      assert (cs + ds)[..|cs + ds| - 1] == cs + ds[..n];
      AfterConcat(cs, ds[..n], k);
    }
  }

  // ---------------------------------------------------------------- when va_start is right

  /** What va_start takes for granted of the named parameters. */
  predicate Countable(named: seq<Class>, sret: bool) {
    !sret && Floats(named) <= 8 && forall c :: c in named && c.Aggregate? ==> c.size <= 8
  }

  ghost predicate Sized(cs: seq<Class>) {
    forall c :: c in cs && c.Aggregate? ==> c.size > 0
  }

  function StackWords(c: Class): nat {
    if c.Float? then 0 else StackSize(c) / 8
  }

  function TotalWords(cs: seq<Class>): nat {
    if cs == [] then 0 else TotalWords(cs[..|cs| - 1]) + StackWords(cs[|cs| - 1])
  }

  /** Nothing is lost between registers and stack. */
  lemma {:induction false} WordsConserved(cs: seq<Class>, sret: bool)
    requires Sized(cs)
    ensures var k, f := After(cs, First(sret)), Floats(cs);
            && Within(k) && k.xmm == Min(f, 8)
            && k.gp + k.stack / 8 == First(sret).gp + TotalWords(cs) + (f - Min(f, 8))
  {
    AfterWithin(cs, First(sret));
    if cs != [] {
      var n := |cs| - 1;
      var c := cs[n];
      assert c in cs && forall x :: x in cs[..n] ==> x in cs;
      AfterWithin(cs[..n], First(sret));
      WordsConserved(cs[..n], sret);
      BumpWords(c, After(cs[..n], First(sret)));
    }
  }

  lemma BumpWords(c: Class, k: Counters)
    requires Within(k) && (c.Aggregate? ==> c.size > 0)
    ensures var k' := Bump(c, k);
            if c.Float? && k.xmm < 8 then k' == k.(xmm := k.xmm + 1)
            else k'.xmm == k.xmm && k'.gp + k'.stack / 8 == k.gp + k.stack / 8 + if c.Float? then 1 else StackWords(c)
  {
  }

  lemma {:induction false} WordsAtLeast(cs: seq<Class>)
    requires Sized(cs)
    ensures TotalWords(cs) >= |cs| - Floats(cs)
    ensures TotalWords(cs) == |cs| - Floats(cs) <==> forall c :: c in cs && c.Aggregate? ==> c.size <= 8
  {
    if cs != [] {
      var n := |cs| - 1;
      assert cs == cs[..n] + [cs[n]];
      assert forall x :: x in cs[..n] ==> x in cs;
      WordsAtLeast(cs[..n]);
    }
  }

  lemma {:induction false} CountableCounters(cs: seq<Class>)
    requires Countable(cs, false) && Sized(cs)
    ensures var g := |cs| - Floats(cs);
            After(cs, First(false)) == Counters(Min(g, 6), Floats(cs), if g > 6 then 8 * (g - 6) else 0)
  {
    if cs != [] {
      var n := |cs| - 1;
      assert cs[n] in cs && forall x :: x in cs[..n] ==> x in cs;
      CountableCounters(cs[..n]);
    }
  }

  /** va_start leaves the list where the caller's extra arguments begin if and only if there is no
      hidden return pointer, at most eight named floating-point parameters and no named aggregate
      of more than eight bytes. */
  lemma StartExact(named: seq<Class>, sret: bool, rbp: int, rso: nat)
    requires Sized(named)
    ensures Tracks(StartOf(named, rbp, rso), After(named, First(sret)), rbp, rso) <==> Countable(named, sret)
  {
    WordsConserved(named, sret);
    WordsAtLeast(named);
    if Countable(named, sret) {
      CountableCounters(named);
    }
  }

  // ---------------------------------------------------------------- what va_arg reads

  ghost predicate ReadsRight(named: seq<Class>, extras: seq<Class>, sret: bool, rbp: int, rso: nat, i: nat)
    requires i < |extras|
  {
    Fetch(AfterFetches(StartOf(named, rbp, rso), extras[..i]), extras[i]).0
    == AddressOf(PlaceAt(named + extras, First(sret), |named| + i), rbp, rso)
  }

  lemma FetchesRight(named: seq<Class>, extras: seq<Class>, sret: bool, rbp: int, rso: nat, i: nat)
    requires i < |extras| && Sized(named) && Countable(named, sret)
    ensures ReadsRight(named, extras, sret, rbp, rso, i)
  {
    var k, v := After(named, First(sret)), StartOf(named, rbp, rso);
    AfterWithin(named, First(sret));
    StartExact(named, sret, rbp, rso);
    FetchesTrack(v, k, extras[..i], rbp, rso);
    AfterConcat(named, extras[..i], First(sret));
    assert (named + extras)[..|named| + i] == named + extras[..i];
    FetchTracks(AfterFetches(v, extras[..i]), After(extras[..i], k), extras[i], rbp, rso);
  }

  /** For every list of extra arguments of any classes, each va_arg finds its argument if and only if
      the named parameters are Countable. */
  lemma VaArgExact(named: seq<Class>, sret: bool, rbp: int, rso: nat)
    requires Sized(named) && rso >= SAVE_AREA
    ensures (forall extras, i: nat :: i < |extras| ==> ReadsRight(named, extras, sret, rbp, rso, i)) <==> Countable(named, sret)
  {
    if Countable(named, sret) {
      forall extras, i: nat | i < |extras| ensures ReadsRight(named, extras, sret, rbp, rso, i) {
        FetchesRight(named, extras, sret, rbp, rso, i);
      }
    } else {
      var v, k := StartOf(named, rbp, rso), After(named, First(sret));
      StartExact(named, sret, rbp, rso);
      WordsConserved(named, sret);
      var c := if v.gp != 8 * k.gp then Integer else Aggregate(24);
      FirstMisread(named, c, sret, rbp, rso);
      assert !ReadsRight(named, [c], sret, rbp, rso, 0);
    }
  }

  lemma FirstMisread(named: seq<Class>, c: Class, sret: bool, rbp: int, rso: nat)
    requires rso >= SAVE_AREA
    requires var v, k := StartOf(named, rbp, rso), After(named, First(sret));
             Within(k) && ((c == Integer && v.gp != 8 * k.gp) || (c == Aggregate(24) && v.overflow != rbp + 16 + k.stack))
    ensures !ReadsRight(named, [c], sret, rbp, rso, 0)
  {
    assert [c][..0] == [];
    assert (named + [c])[..|named| + 0] == named;
  }

  /** The callee's registers and stack hold what the caller delivered. */
  ghost predicate Received(m: Memory, rbp: int, rso: nat, e: Entry, regs: map<Target, Eightbyte>, area: seq<Byte>) {
    && e.Valid()
    && (forall g: nat :: g < 6 && Gp(g) in regs ==> e.gp[g] == regs[Gp(g)])
    && (forall x: nat :: x < 8 && Xmm(x) in regs ==> e.xmm[x][..8] == regs[Xmm(x)])
    && Saved(m, rbp - rso, e, 6, 8) && HoldsAt(m, rbp + 16, area)
  }

  ghost predicate AllDelivered(args: seq<Arg>, sret: bool, regs: map<Target, Eightbyte>, area: seq<Byte>)
    requires AllValid(args)
  {
    forall j :: 0 <= j < |args| ==> args[j] in args && Delivered(args[j], ArgPlace(args, sret, j), regs, area)
  }

  /** The bytes: given what the caller delivered and the prologue saved, the i-th va_arg reads the
      value of the i-th extra argument. */
  lemma VaArgBytes(named: seq<Arg>, extras: seq<Arg>, regs: map<Target, Eightbyte>, area: seq<Byte>, e: Entry,
                   m: Memory, rbp: int, rso: nat, i: nat)
    requires AllValid(named + extras) && i < |extras|
    requires Sized(Classes(named)) && Countable(Classes(named), false)
    requires AllDelivered(named + extras, false, regs, area) && Received(m, rbp, rso, e, regs, area)
    ensures extras[i].Valid()
    ensures var v := AfterFetches(StartOf(Classes(named), rbp, rso), Classes(extras)[..i]);
            HoldsAt(m, Fetch(v, extras[i].class_).0, extras[i].Value())
  {
    hide *;
    var args, j := named + extras, |named| + i;
    assert args[j] == extras[i];
    DeliveredAt(args, regs, area, j);
    ClassesConcat(named, extras);
    FetchesRight(Classes(named), Classes(extras), false, rbp, rso, i);
    ReadsAt(Classes(named), Classes(extras), rbp, rso, i);
    PlaceWidth(args, j);
    PlaceBytes(extras[i], ArgPlace(args, false, j), regs, area, e, m, rbp, rso);
  }

  lemma DeliveredAt(args: seq<Arg>, regs: map<Target, Eightbyte>, area: seq<Byte>, j: nat)
    requires AllValid(args) && j < |args| && AllDelivered(args, false, regs, area)
    ensures args[j].Valid() && Delivered(args[j], ArgPlace(args, false, j), regs, area)
  {
    hide Delivered;
    assert args[j] in args;
  }

  lemma ClassesConcat(a: seq<Arg>, b: seq<Arg>)
    ensures Classes(a + b) == Classes(a) + Classes(b) && |Classes(a)| == |a| && |Classes(b)| == |b|
    ensures forall i :: 0 <= i < |b| ==> Classes(b)[i] == b[i].class_
  {
  }

  lemma ReadsAt(named: seq<Class>, extras: seq<Class>, rbp: int, rso: nat, i: nat)
    requires i < |extras| && ReadsRight(named, extras, false, rbp, rso, i)
    ensures Fetch(AfterFetches(StartOf(named, rbp, rso), extras[..i]), extras[i]).0
            == AddressOf(PlaceAt(named + extras, First(false), |named| + i), rbp, rso)
  {
  }

  lemma PlaceWidth(args: seq<Arg>, j: nat)
    requires AllValid(args) && j < |args|
    ensures var p := ArgPlace(args, false, j);
            && p == PlaceAt(Classes(args), First(false), j)
            && match p case InGp(s, n) => s + n <= 6 && |args[j].image| == 8 * n case InXmm(x) => x < 8 case OnStack(_) => true
  {
    assert args[j] in args;
    LayoutSound(Classes(args), false, j);
  }

  lemma PlaceBytes(a: Arg, p: Place, regs: map<Target, Eightbyte>, area: seq<Byte>, e: Entry, m: Memory, rbp: int, rso: nat)
    requires a.Valid() && Delivered(a, p, regs, area) && Received(m, rbp, rso, e, regs, area)
    requires match p case InGp(s, n) => s + n <= 6 && |a.image| == 8 * n case InXmm(x) => x < 8 case OnStack(_) => true
    ensures HoldsAt(m, AddressOf(p, rbp, rso), a.Value())
  {
    match p
    case InGp(s, n) => GpBytes(a, s, n, regs, area, e, m, rbp, rso);
    case InXmm(x) =>
      assert HoldsAt(m, rbp - rso + GP_AREA + 16 * x, e.xmm[x]);
      assert e.xmm[x][..8] == a.Word(0);
      hide HoldsAt;
      HoldsPart(m, rbp - rso + GP_AREA + 16 * x, e.xmm[x], 0, a.size);
      assert e.xmm[x][0..0 + a.size] == e.xmm[x][..8][..a.size] == a.Value();
    case OnStack(o) =>
      hide HoldsAt;
      HoldsPart(m, rbp + 16, area, o, a.size);
  }

  lemma GpBytes(a: Arg, s: nat, n: nat, regs: map<Target, Eightbyte>, area: seq<Byte>, e: Entry, m: Memory, rbp: int, rso: nat)
    requires a.Valid() && Delivered(a, InGp(s, n), regs, area) && Received(m, rbp, rso, e, regs, area)
    requires s + n <= 6 && |a.image| == 8 * n
    ensures HoldsAt(m, rbp - rso + 8 * s, a.Value())
  {
    var base := rbp - rso + 8 * s;
    assert HoldsAt(m, base, e.gp[s]);
    assert e.gp[s] == a.Word(0);
    if n == 2 {
      assert HoldsAt(m, rbp - rso + 8 * (s + 1), e.gp[s + 1]);
      assert e.gp[s + 1] == a.Word(1);
      hide HoldsAt;
      HoldsBoth(m, base, a.Word(0), a.Word(1));
      assert a.Word(0) + a.Word(1) == a.image;
    } else {
      assert a.Word(0) == a.image;
    }
    HoldsPart(m, base, a.image, 0, a.size);
    assert a.image[0..0 + a.size] == a.Value();
  }

  // ---------------------------------------------------------------- the whole protocol

  /** The registers on entry are the ones the caller loaded; the others hold anything. */
  function EntryOf(regs: map<Target, Eightbyte>, junk: Entry): (e: Entry)
    requires junk.Valid()
    ensures e.Valid()
    ensures forall g: nat :: g < 6 && Gp(g) in regs ==> e.gp[g] == regs[Gp(g)]
    ensures forall x: nat :: x < 8 && Xmm(x) in regs ==> e.xmm[x][..8] == regs[Xmm(x)]
  {
    Entry(seq(6, g requires 0 <= g < 6 => if Gp(g) in regs then regs[Gp(g)] else junk.gp[g]),
          seq(8, x requires 0 <= x < 8 => if Xmm(x) in regs then regs[Xmm(x)] + junk.xmm[x][8..] else junk.xmm[x]))
  }

  predicate Readable(m: Memory, a: int, n: nat) {
    forall x :: a <= x < a + n ==> x in m
  }

  function ReadBytes(m: Memory, a: int, n: nat): seq<Byte>
    requires Readable(m, a, n)
  {
    if n == 0 then [] else ReadBytes(m, a, n - 1) + [m[a + n - 1]]
  }

  lemma BothDelivered(args: seq<Arg>, places: seq<Place>, regs: map<Target, Eightbyte>, area: seq<Byte>)
    requires AllValid(args) && |places| == |args| && places == LayoutOf(Classes(args), false).places
    requires forall i :: 0 <= i < |args| && !places[i].OnStack? ==> args[i] in args && Delivered(args[i], places[i], regs, [])
    requires StackDone(args, places, area, |args|)
    ensures AllDelivered(args, false, regs, area)
  {
    forall j | 0 <= j < |args| ensures args[j] in args && Delivered(args[j], ArgPlace(args, false, j), regs, area) {
      PlaceIs(args, places, false, j);
      assert args[j] in args;
    }
  }

  /** The caller lays out and passes the arguments, the prologue saves the registers, va_start
      initialises the list, and each va_arg in turn yields the bytes of its extra argument. */
  method VariadicCall(named: seq<Arg>, extras: seq<Arg>, below: seq<Eightbyte>, space: seq<Byte>, junk: Entry, rbp: int, rso: nat)
    returns (values: Option<seq<seq<Byte>>>)
    requires AllValid(named + extras) && Sized(Classes(named)) && Countable(Classes(named), false)
    requires junk.Valid() && rso >= SAVE_AREA && |space| == LayoutOf(Classes(named + extras), false).stackBytes
    ensures values.Some? <==> |named + extras| <= MAX_ITEMS
    ensures values.Some? ==> |values.value| == |extras|
    ensures values.Some? ==> forall i :: 0 <= i < |extras| ==> extras[i].Valid() && values.value[i] == extras[i].Value()
  {
    hide HoldsAt, Delivered, Saved, AllDelivered, LayoutOf, Fetch, StartOf, AfterFetches, Countable, Sized, AllValid, StackDone, Arg.Valid;
    var args := named + extras;
    var layout := ComputeCallLayout(Classes(args), false);
    if layout.None? { return None; }
    var places := layout.value.places;
    PlacesLength(args);
    var area := PassOnStack(args, places, false, space);
    var regs, _ := PassInRegisters(args, places, None, below);
    BothDelivered(args, places, regs, area);

    StoreHolds(map[], rbp + 16, area);
    var entry := EntryOf(regs, junk);
    var m := SaveRegisters(Store(map[], rbp + 16, area), rbp, rso, entry);
    assert Received(m, rbp, rso, entry, regs, area);
    var read := ReadAll(named, extras, regs, area, entry, m, rbp, rso);
    return Some(read);
  }

  lemma PlacesLength(args: seq<Arg>)
    ensures |LayoutOf(Classes(args), false).places| == |args| == |Classes(args)|
  {
  }

  // ---------------------------------------------------------------- the same with the plain protocol

  function Images(args: seq<Arg>): (ws: seq<Eightbyte>)
    requires AllIntegers(args)
    ensures |ws| == |args| && forall i :: 0 <= i < |args| ==> ws[i] == args[i].image
  {
    seq(|args|, i requires 0 <= i < |args| => assert args[i] in args; args[i].image)
  }

  predicate AllIntegers(args: seq<Arg>) {
    forall a :: a in args ==> a.class_.Integer? && a.Valid()
  }

  /** The k words on top of the stack, as bytes upwards from rsp. */
  function TopWords(stack: seq<Eightbyte>, k: nat): (bs: seq<Byte>)
    requires k <= |stack|
    ensures |bs| == 8 * k
  {
    if k == 0 then [] else TopWords(stack, k - 1) + stack[|stack| - k]
  }

  lemma {:induction false} TopWord(stack: seq<Eightbyte>, k: nat, j: nat)
    requires j < k <= |stack|
    ensures TopWords(stack, k)[8 * j..8 * j + 8] == stack[|stack| - 1 - j]
    decreases k
  {
    var front := TopWords(stack, k - 1);
    if j < k - 1 {
      TopWord(stack, k - 1, j);
      assert (front + stack[|stack| - k])[8 * j..8 * j + 8] == front[8 * j..8 * j + 8];
    } else {
      assert (front + stack[|stack| - k])[8 * j..8 * j + 8] == stack[|stack| - k];
    }
  }

  lemma {:induction false} IntegersCount(cs: seq<Class>)
    requires forall c :: c in cs ==> c.Integer?
    ensures Countable(cs, false) && Sized(cs) && Floats(cs) == 0
    decreases |cs|
  {
    if cs != [] {
      assert cs[|cs| - 1] in cs;
      IntegersCount(cs[..|cs| - 1]);
    }
  }

  lemma IntegersDelivered(args: seq<Arg>, regs: map<Target, Eightbyte>, stack: seq<Eightbyte>, n: nat)
    requires AllIntegers(args) && AllValid(args) && n == (if |args| > 6 then |args| - 6 else 0) && n <= |stack|
    requires forall i :: 0 <= i < |args| && i < 6 ==> Gp(i) in regs && regs[Gp(i)] == args[i].image
    requires forall i :: 6 <= i < |args| ==> stack[|stack| - 1 - (i - 6)] == args[i].image
    ensures AllDelivered(args, false, regs, TopWords(stack, n))
  {
    var area := TopWords(stack, n);
    forall j | 0 <= j < |args| ensures args[j] in args && Delivered(args[j], ArgPlace(args, false, j), regs, area) {
      var a := args[j];
      assert a in args;
      IntegerPlace(args, j);
      PlaceIs(args, LayoutOf(Classes(args), false).places, false, j);
      hide LayoutOf, TopWords;
      assert a.Word(0) == a.image;
      if j >= 6 {
        TopWord(stack, n, j - 6);
        assert area[8 * (j - 6)..8 * (j - 6) + 8][..a.size] == area[8 * (j - 6)..8 * (j - 6) + a.size];
      }
    }
  }

  /** A variadic call whose arguments are all integers or pointers: pushed and popped, saved, and read back. */
  method IntegerCall(named: seq<Arg>, extras: seq<Arg>, below: seq<Eightbyte>, junk: Entry, rbp: int, rso: nat) returns (values: seq<seq<Byte>>)
    requires AllIntegers(named + extras) && junk.Valid() && rso >= SAVE_AREA
    ensures |values| == |extras| && forall i :: 0 <= i < |extras| ==> extras[i].Valid() && values[i] == extras[i].Value()
  {
    hide HoldsAt, Saved, AllDelivered, Countable, Sized, TopWords, Arg.Valid, Arg.Value;
    var args := named + extras;
    assert AllValid(args);
    var regs, stack := PassIntegers(Images(args), below);
    var n := if |args| > 6 then |args| - 6 else 0;
    IntegersDelivered(args, regs, stack, n);
    var area := TopWords(stack, n);
    StoreHolds(map[], rbp + 16, area);
    var entry := EntryOf(regs, junk);
    var m := SaveRegisters(Store(map[], rbp + 16, area), rbp, rso, entry);
    assert forall a :: a in named ==> a in args;
    IntegersCount(Classes(named));
    values := ReadAll(named, extras, regs, area, entry, m, rbp, rso);
  }

  method ReadAll(named: seq<Arg>, extras: seq<Arg>, ghost regs: map<Target, Eightbyte>, ghost area: seq<Byte>, ghost entry: Entry,
                 m: Memory, rbp: int, rso: nat)
    returns (values: seq<seq<Byte>>)
    requires AllValid(named + extras) && Sized(Classes(named)) && Countable(Classes(named), false)
    requires AllDelivered(named + extras, false, regs, area) && Received(m, rbp, rso, entry, regs, area)
    ensures |values| == |extras| && forall i :: 0 <= i < |extras| ==> extras[i].Valid() && values[i] == extras[i].Value()
  {
    hide HoldsAt, AllDelivered, Received, Fetch, StartOf, AfterFetches, Countable, Sized, AllValid, Arg.Valid, Arg.Value;
    var list := new VaList();
    list.Start(Classes(named), rbp, rso);
    values := [];
    ghost var cs, v := Classes(extras), StartOf(Classes(named), rbp, rso);
    NoFetches(v, cs);
    for i := 0 to |extras|
      invariant list.State() == AfterFetches(v, cs[..i])
      invariant |values| == i
      invariant forall j :: 0 <= j < i ==> extras[j].Valid() && values[j] == extras[j].Value()
    {
      NextFetch(v, cs, i);
      var a := list.Arg(extras[i].class_);
      VaArgBytes(named, extras, regs, area, entry, m, rbp, rso, i);
      HeldBytes(m, a, extras[i].Value());
      ValueSize(extras[i]);
      var bytes := ReadBytes(m, a, extras[i].size);
      values := values + [bytes];
    }
  }

  lemma ValueSize(a: Arg)
    requires a.Valid()
    ensures |a.Value()| == a.size
  {
  }

  lemma NoFetches(v: Cursor, cs: seq<Class>)
    ensures AfterFetches(v, cs[..0]) == v
  {
  }

  lemma NextFetch(v: Cursor, cs: seq<Class>, i: nat)
    requires i < |cs|
    ensures AfterFetches(v, cs[..i + 1]) == Fetch(AfterFetches(v, cs[..i]), cs[i]).1
  {
    assert cs[..i + 1][..i] == cs[..i];
  }

  lemma {:induction false} HeldBytes(m: Memory, a: int, bs: seq<Byte>)
    requires HoldsAt(m, a, bs)
    ensures Readable(m, a, |bs|) && ReadBytes(m, a, |bs|) == bs
  {
    forall x | a <= x < a + |bs| ensures x in m {
      assert ByteAt(m, a + (x - a), bs[x - a]);
    }
    if bs != [] {
      var n := |bs| - 1;
      HoldsPart(m, a, bs, 0, n);
      assert bs[0..0 + n] == bs[..n];
      HeldBytes(m, a, bs[..n]);
      assert ByteAt(m, a + n, bs[n]);
    }
  }
}
