/** Argument placement under section 3.2.3 of the System V AMD64 ABI (compute_call_layout in
    src/codegen.c), and the two sequences that put the arguments in their places.
 */
module CallLayout {
  import opened Options

  /** The class of an argument: integer or pointer, floating point, or a struct or union of a size
      (zero where the size is not known). */
  datatype Class = Integer | Float | Aggregate(size: nat)

  datatype Place =
    | InGp(start: nat, count: nat)
    | InXmm(index: nat)
    | OnStack(offset: nat)

  /** The loop variables gp_next, xmm_next and stack_off. */
  datatype Counters = Counters(gp: nat, xmm: nat, stack: nat)

  function RoundUp8(n: nat): (r: nat)
    ensures r % 8 == 0 && n <= r < n + 8
  {
    (n + 7) / 8 * 8
  }

  /** struct_reg_eightbytes: 0 for a memory-class or unsized aggregate. */
  function Eightbytes(size: nat): nat {
    if size == 0 || size > 16 then 0 else if size > 8 then 2 else 1
  }

  function StackSize(c: Class): (r: nat)
    ensures r % 8 == 0
  {
    if c.Aggregate? then RoundUp8(c.size) else 8
  }

  /** Where the next argument goes. */
  function PlaceOf(c: Class, k: Counters): Place {
    match c
    case Aggregate(size) =>
      var n := Eightbytes(size);
      if n > 0 && k.gp + n <= 6 then InGp(k.gp, n) else OnStack(k.stack)
    case Float => if k.xmm < 8 then InXmm(k.xmm) else OnStack(k.stack)
    case Integer => if k.gp < 6 then InGp(k.gp, 1) else OnStack(k.stack)
  }

  function Bump(c: Class, k: Counters): Counters {
    match PlaceOf(c, k)
    case InGp(_, n) => k.(gp := k.gp + n)
    case InXmm(_) => k.(xmm := k.xmm + 1)
    case OnStack(_) => k.(stack := k.stack + StackSize(c))
  }

  function First(sret: bool): Counters {
    Counters(if sret then 1 else 0, 0, 0)
  }

  /** The counters after the arguments cs. */
  function After(cs: seq<Class>, k: Counters): Counters {
    if cs == [] then k else Bump(cs[|cs| - 1], After(cs[..|cs| - 1], k))
  }

  function PlaceAt(cs: seq<Class>, k: Counters, i: nat): Place
    requires i < |cs|
  {
    PlaceOf(cs[i], After(cs[..i], k))
  }

  datatype Layout = Layout(places: seq<Place>, stackBytes: nat)

  const MAX_ITEMS := 24

  ghost function LayoutOf(cs: seq<Class>, sret: bool): Layout {
    Layout(seq(|cs|, i requires 0 <= i < |cs| => PlaceAt(cs, First(sret), i)), After(cs, First(sret)).stack)
  }

  /** None where the call has too many arguments, which is a compile error. */
  method ComputeCallLayout(cs: seq<Class>, sret: bool) returns (r: Option<Layout>)
    ensures r.Some? <==> |cs| <= 24
    ensures r.Some? ==> r.value == LayoutOf(cs, sret)
  {
    if |cs| > MAX_ITEMS { return None; }
    var gpNext: nat, xmmNext: nat, stackOff: nat := if sret then 1 else 0, 0, 0;
    var items := [];
    assert cs[..0] == [];
    for i := 0 to |cs|
      invariant Counters(gpNext, xmmNext, stackOff) == After(cs[..i], First(sret))
      invariant |items| == i && forall j :: 0 <= j < i ==> items[j] == PlaceAt(cs, First(sret), j)
    {
      assert cs[..i + 1][..i] == cs[..i];
      match cs[i] {
      case Aggregate(size) =>
        var ebs := Eightbytes(size);
        if ebs > 0 && gpNext + ebs <= 6 {
          items := items + [InGp(gpNext, ebs)];
          gpNext := gpNext + ebs;
        } else {
          items := items + [OnStack(stackOff)];
          stackOff := stackOff + RoundUp8(size);
        }
      case Float =>
        if xmmNext < 8 {
          items := items + [InXmm(xmmNext)];
          xmmNext := xmmNext + 1;
        } else {
          items := items + [OnStack(stackOff)];
          stackOff := stackOff + 8;
        }
      case Integer =>
        if gpNext < 6 {
          items := items + [InGp(gpNext, 1)];
          gpNext := gpNext + 1;
        } else {
          items := items + [OnStack(stackOff)];
          stackOff := stackOff + 8;
        }
      }
    }
    assert cs[..|cs|] == cs;
    return Some(Layout(items, stackOff));
  }

  // ---------------------------------------------------------------- the places are sound

  ghost predicate Within(k: Counters) {
    k.gp <= 6 && k.xmm <= 8 && k.stack % 8 == 0
  }

  ghost predicate Below(k: Counters, k': Counters) {
    k.gp <= k'.gp && k.xmm <= k'.xmm && k.stack <= k'.stack
  }

  lemma {:induction false} AfterWithin(cs: seq<Class>, k: Counters)
    requires Within(k)
    ensures Within(After(cs, k)) && Below(k, After(cs, k))
  {
    if cs != [] {
      AfterWithin(cs[..|cs| - 1], k);
    }
  }

  lemma {:induction false} AfterGrows(cs: seq<Class>, k: Counters, i: nat)
    requires Within(k) && i <= |cs|
    ensures Below(After(cs[..i], k), After(cs, k))
  {
    if i < |cs| {
      var n := |cs| - 1;
      AfterGrows(cs[..n], k, i);
      assert cs[..n][..i] == cs[..i];
    } else {
      assert cs[..i] == cs;
    }
  }

  /** The place lies between the counters before and after it. */
  ghost predicate Inside(p: Place, size: nat, k: Counters, k': Counters) {
    match p
    case InGp(s, n) => k.gp <= s && n >= 1 && s + n <= k'.gp
    case InXmm(x) => k.xmm <= x < k'.xmm
    case OnStack(o) => k.stack <= o && o + size <= k'.stack && o % 8 == 0
  }

  ghost predicate Disjoint(p: Place, m: nat, q: Place, n: nat) {
    match (p, q)
    case (InGp(s, a), InGp(t, b)) => s + a <= t || t + b <= s
    case (InXmm(x), InXmm(y)) => x != y
    case (OnStack(o), OnStack(u)) => o + m <= u || u + n <= o
    case _ => true
  }

  lemma PlaceInside(cs: seq<Class>, k: Counters, i: nat)
    requires Within(k) && i < |cs|
    ensures Inside(PlaceAt(cs, k, i), StackSize(cs[i]), After(cs[..i], k), After(cs[..i + 1], k))
    ensures Below(k, After(cs[..i], k)) && Below(After(cs[..i + 1], k), After(cs, k)) && Within(After(cs, k))
  {
    assert cs[..i + 1][..i] == cs[..i];
    AfterWithin(cs[..i], k);
    AfterWithin(cs, k);
    AfterGrows(cs, k, i + 1);
  }

  /** Every argument list: general registers stay within the six (and clear of rdi when it carries
      the hidden return pointer), vector registers within the eight, stack places are aligned and
      inside the outgoing area, and no two arguments share anything. */
  lemma LayoutSound(cs: seq<Class>, sret: bool, i: nat)
    requires i < |cs|
    ensures var L := LayoutOf(cs, sret);
            match L.places[i]
            case InGp(s, n) => (if sret then 1 else 0) <= s && 1 <= n && s + n <= 6
            case InXmm(x) => x < 8
            case OnStack(o) => o % 8 == 0 && o + StackSize(cs[i]) <= L.stackBytes
    ensures forall j: nat :: j < i ==>
              Disjoint(LayoutOf(cs, sret).places[j], StackSize(cs[j]), LayoutOf(cs, sret).places[i], StackSize(cs[i]))
    ensures LayoutOf(cs, sret).stackBytes % 8 == 0
  {
    hide After, PlaceOf;
    var k := First(sret);
    PlaceInside(cs, k, i);
    forall j: nat | j < i
      ensures Disjoint(PlaceAt(cs, k, j), StackSize(cs[j]), PlaceAt(cs, k, i), StackSize(cs[i]))
    {
      PlaceInside(cs, k, j);
      AfterGrows(cs[..i], k, j + 1);
      assert cs[..i][..j + 1] == cs[..j + 1];
    }
  }

  // ---------------------------------------------------------------- aggregates of unknown size

  /** The bytes that are really copied to the stack: of an aggregate of unknown size any number, although none were reserved. */
  predicate Copied(cs: seq<Class>, ns: seq<nat>) {
    |ns| == |cs| && forall i :: 0 <= i < |cs| ==>
      match cs[i] case Aggregate(size) => size == 0 || ns[i] == size case _ => ns[i] == 8
  }

  /** Argument i is copied into the outgoing area. */
  ghost predicate Fits(cs: seq<Class>, sret: bool, ns: seq<nat>, i: nat)
    requires |ns| == |cs| && i < |cs|
  {
    match PlaceAt(cs, First(sret), i) case OnStack(o) => o + ns[i] <= LayoutOf(cs, sret).stackBytes case _ => true
  }

  /** Copying arguments i and j touches no byte twice. */
  ghost predicate Clear(cs: seq<Class>, sret: bool, ns: seq<nat>, i: nat, j: nat)
    requires |ns| == |cs| && i < |cs| && j < |cs|
  {
    Disjoint(PlaceAt(cs, First(sret), i), ns[i], PlaceAt(cs, First(sret), j), ns[j])
  }

  ghost predicate AllClear(cs: seq<Class>, sret: bool, ns: seq<nat>)
    requires |ns| == |cs|
  {
    (forall i: nat :: i < |cs| ==> Fits(cs, sret, ns, i)) && (forall i: nat, j: nat :: i < j < |cs| ==> Clear(cs, sret, ns, i, j))
  }

  /** The first argument that goes to the stack from i on stands where the stack was at i. */
  lemma {:induction false} FirstTaken(cs: seq<Class>, k: Counters, i: nat) returns (j: nat)
    requires Within(k) && i <= |cs| && After(cs, k).stack > After(cs[..i], k).stack
    ensures i <= j < |cs| && PlaceAt(cs, k, j) == OnStack(After(cs[..i], k).stack) && StackSize(cs[j]) > 0
    decreases |cs|
  {
    assert cs[..|cs|] == cs;
    var n := |cs| - 1;
    var front := cs[..n];
    assert front[..i] == cs[..i];
    AfterGrows(front, k, i);
    if After(front, k).stack > After(cs[..i], k).stack {
      j := FirstTaken(front, k, i);
      assert front[..j] == cs[..j];
    } else {
      j := n;
    }
  }

  /** No stack argument overwrites another and all stay inside the area exactly if no aggregate of unknown size has bytes to copy. */
  lemma UnsizedExact(cs: seq<Class>, sret: bool, ns: seq<nat>)
    requires Copied(cs, ns)
    ensures AllClear(cs, sret, ns) <==> forall i :: 0 <= i < |cs| && cs[i] == Aggregate(0) ==> ns[i] == 0
  {
    hide After, PlaceOf;
    if forall i :: 0 <= i < |cs| && cs[i] == Aggregate(0) ==> ns[i] == 0 {
      forall i: nat | i < |cs| ensures Fits(cs, sret, ns, i) { LayoutSound(cs, sret, i); }
      forall i: nat, j: nat | i < j < |cs| ensures Clear(cs, sret, ns, i, j) { LayoutSound(cs, sret, j); }
    } else {
      var i :| 0 <= i < |cs| && cs[i] == Aggregate(0) && ns[i] > 0;
      Overlaps(cs, sret, ns, i);
    }
  }

  lemma Overlaps(cs: seq<Class>, sret: bool, ns: seq<nat>, i: nat)
    requires Copied(cs, ns) && i < |cs| && cs[i] == Aggregate(0) && ns[i] > 0
    ensures !AllClear(cs, sret, ns)
  {
    var k := First(sret);
    assert cs[..i + 1][..i] == cs[..i];
    assert PlaceAt(cs, k, i) == OnStack(After(cs[..i], k).stack);
    assert After(cs[..i + 1], k).stack == After(cs[..i], k).stack;
    hide After, PlaceOf;
    if After(cs, k).stack > After(cs[..i + 1], k).stack {
      var j := FirstTaken(cs, k, i + 1);
      assert !Clear(cs, sret, ns, i, j);
    } else {
      AfterGrows(cs, k, i + 1);
      assert !Fits(cs, sret, ns, i);
    }
  }

  /** An argument is on the stack only when its class has run out of registers or has none. */
  lemma StackOnlyWhenFull(cs: seq<Class>, sret: bool, i: nat)
    requires i < |cs|
    ensures var k := After(cs[..i], First(sret));
            LayoutOf(cs, sret).places[i].OnStack? <==>
            match cs[i]
            case Integer => k.gp == 6
            case Float => k.xmm == 8
            case Aggregate(size) => size == 0 || size > 16 || 8 * (6 - k.gp) < size
  {
    AfterWithin(cs[..i], First(sret));
  }

  /** Caller and callee agree: extra arguments do not move the declared ones. */
  lemma CalleeAgrees(params: seq<Class>, extras: seq<Class>, sret: bool)
    ensures LayoutOf(params + extras, sret).places[..|params|] == LayoutOf(params, sret).places
  {
    hide PlaceAt;
    var cs := params + extras;
    forall i | 0 <= i < |params| ensures PlaceAt(cs, First(sret), i) == PlaceAt(params, First(sret), i) {
      PrefixPlace(params, extras, First(sret), i);
    }
    var a, b := LayoutOf(cs, sret).places[..|params|], LayoutOf(params, sret).places;
    assert forall i :: 0 <= i < |params| ==> a[i] == b[i];
  }

  lemma PrefixPlace(params: seq<Class>, extras: seq<Class>, k: Counters, i: nat)
    requires i < |params|
    ensures PlaceAt(params + extras, k, i) == PlaceAt(params, k, i)
  {
    assert (params + extras)[..i] == params[..i];
  }

  // ---------------------------------------------------------------- passing the arguments

  type Byte = b: int | 0 <= b < 256
  type Eightbyte = w: seq<Byte> | |w| == 8 witness [0, 0, 0, 0, 0, 0, 0, 0]

  /** An evaluated argument: for a scalar the eight bytes of rax or of the low half of xmm0, for an
      aggregate what eight-byte loads from its address see.  Its value is the first `size` bytes. */
  datatype Arg = Arg(class_: Class, size: nat, image: seq<Byte>) {
    predicate Valid() {
      && size <= |image| && |image| % 8 == 0
      && match class_ case Aggregate(n) => size == n && |image| == RoundUp8(n) case _ => size <= 8 && |image| == 8
    }

    function Value(): seq<Byte>
      requires Valid()
    {
      image[..size]
    }

    function Word(e: nat): (w: Eightbyte)
      requires 8 * e + 8 <= |image|
    {
      image[8 * e..8 * e + 8]
    }
  }

  function Classes(args: seq<Arg>): seq<Class> {
    seq(|args|, i requires 0 <= i < |args| => args[i].class_)
  }

  /** A register that receives a spilled word. */
  datatype Target = Gp(g: nat) | Xmm(x: nat)

  datatype Spill = Spill(target: Target, word: Eightbyte)

  /** The words of one register argument in the order they are pushed. */
  function SpillsOf(a: Arg, p: Place): seq<Spill>
    requires a.Valid() && (p.InGp? ==> 1 <= p.count <= 2 && 8 * p.count <= |a.image|)
    requires p.InXmm? ==> |a.image| == 8
  {
    match p
    case InGp(s, n) =>
      if n == 1 then [Spill(Gp(s), a.Word(0))] else [Spill(Gp(s), a.Word(0)), Spill(Gp(s + 1), a.Word(1))]
    case InXmm(x) => [Spill(Xmm(x), a.Word(0))]
    case OnStack(_) => []
  }

  lemma PlaceFits(a: Arg, k: Counters)
    requires a.Valid()
    ensures var p := PlaceOf(a.class_, k);
            && (p.InGp? ==> 1 <= p.count <= 2 && 8 * p.count <= |a.image|)
            && (p.InXmm? ==> |a.image| == 8)
            && (p.OnStack? ==> |a.image| == StackSize(a.class_))
  {
  }

  ghost predicate AllValid(args: seq<Arg>) {
    forall a :: a in args ==> a.Valid()
  }

  ghost function ArgPlace(args: seq<Arg>, sret: bool, i: nat): (p: Place)
    requires AllValid(args) && i < |args|
    ensures p.InGp? ==> 1 <= p.count <= 2 && 8 * p.count <= |args[i].image|
    ensures p.InXmm? ==> |args[i].image| == 8
    ensures p.OnStack? ==> |args[i].image| == StackSize(args[i].class_)
  {
    assert args[i] in args;
    PlaceFits(args[i], After(Classes(args)[..i], First(sret)));
    PlaceAt(Classes(args), First(sret), i)
  }

  /** What the callee finds: each word of argument i in its register, or its bytes in the stack area. */
  ghost predicate Delivered(a: Arg, p: Place, regs: map<Target, Eightbyte>, area: seq<Byte>)
    requires a.Valid()
  {
    match p
    case InGp(s, n) =>
      && 1 <= n <= 2 && 8 * n <= |a.image|
      && Gp(s) in regs && regs[Gp(s)] == a.Word(0)
      && (n == 2 ==> Gp(s + 1) in regs && regs[Gp(s + 1)] == a.Word(1))
    case InXmm(x) => |a.image| == 8 && Xmm(x) in regs && regs[Xmm(x)] == a.Word(0)
    case OnStack(o) => o + a.size <= |area| && area[o..o + a.size] == a.Value()
  }

  // ---------------------------------------------------------------- spilling and reloading

  /** The hidden return pointer is spilled first. */
  function FirstSpills(ptr: Option<Eightbyte>): seq<Spill> {
    if ptr.Some? then [Spill(Gp(0), ptr.value)] else []
  }

  ghost function Spills(args: seq<Arg>, ptr: Option<Eightbyte>, i: nat): seq<Spill>
    requires AllValid(args) && i <= |args|
  {
    if i == 0 then FirstSpills(ptr)
    else
      assert args[i - 1] in args;
      Spills(args, ptr, i - 1) + SpillsOf(args[i - 1], ArgPlace(args, ptr.Some?, i - 1))
  }

  ghost predicate TargetsBelow(sp: seq<Spill>, k: Counters) {
    forall j :: 0 <= j < |sp| ==> if sp[j].target.Gp? then sp[j].target.g < k.gp else sp[j].target.x < k.xmm
  }

  ghost predicate DistinctTargets(sp: seq<Spill>) {
    forall i, j :: 0 <= i < j < |sp| ==> sp[i].target != sp[j].target
  }

  ghost function CountersAt(args: seq<Arg>, sret: bool, i: nat): Counters
    requires i <= |args|
  {
    After(Classes(args)[..i], First(sret))
  }

  lemma CountersStep(args: seq<Arg>, sret: bool, i: nat)
    requires i < |args|
    ensures CountersAt(args, sret, i + 1) == Bump(args[i].class_, CountersAt(args, sret, i))
    ensures Within(CountersAt(args, sret, i))
  {
    var cs := Classes(args);
    assert cs[..i + 1][..i] == cs[..i];
    AfterWithin(cs[..i], First(sret));
  }

  ghost predicate SoundSpills(sp: seq<Spill>, k: Counters) {
    TargetsBelow(sp, k) && DistinctTargets(sp) && |sp| == k.gp + k.xmm
  }

  /** Spilled words go to different registers, and there are exactly as many as registers in use:
      at most 6 + 8. */
  lemma {:induction false} SpillsSound(args: seq<Arg>, ptr: Option<Eightbyte>, i: nat)
    requires AllValid(args) && i <= |args|
    ensures SoundSpills(Spills(args, ptr, i), CountersAt(args, ptr.Some?, i)) && |Spills(args, ptr, i)| <= 14
  {
    AfterWithin(Classes(args)[..i], First(ptr.Some?));
    if i != 0 {
      hide SoundSpills, PlaceOf, SpillsOf, Bump;
      SpillsSound(args, ptr, i - 1);
      CountersStep(args, ptr.Some?, i - 1);
      assert args[i - 1] in args;
      SpillsJoin(Spills(args, ptr, i - 1), args[i - 1], CountersAt(args, ptr.Some?, i - 1));
      SpillCount(Spills(args, ptr, i), CountersAt(args, ptr.Some?, i));
    }
  }

  lemma SpillCount(sp: seq<Spill>, k: Counters)
    requires SoundSpills(sp, k) && Within(k)
    ensures |sp| <= 14
  {
  }

  lemma SpillsJoin(sp: seq<Spill>, a: Arg, k: Counters)
    requires SoundSpills(sp, k) && a.Valid()
    ensures var p := PlaceOf(a.class_, k);
            && (p.InGp? ==> 1 <= p.count <= 2 && 8 * p.count <= |a.image|)
            && (p.InXmm? ==> |a.image| == 8)
            && SoundSpills(sp + SpillsOf(a, p), Bump(a.class_, k))
  {
    PlaceFits(a, k);
    var p := PlaceOf(a.class_, k);
    var k', more := Bump(a.class_, k), SpillsOf(a, p);
    hide PlaceOf, Bump;
    var all := sp + more;
    assert forall j :: 0 <= j < |more| ==> all[|sp| + j] == more[j];
    forall i, j | 0 <= i < j < |all| ensures all[i].target != all[j].target {
      if j >= |sp| {
        assert all[j] == more[j - |sp|];
        if i >= |sp| {
          assert all[i] == more[i - |sp|];
        }
      }
    }
  }

  lemma {:induction false} SpillsGrow(args: seq<Arg>, ptr: Option<Eightbyte>, i: nat, n: nat)
    requires AllValid(args) && i <= n <= |args|
    ensures Spills(args, ptr, i) <= Spills(args, ptr, n)
  {
    if i < n {
      SpillsGrow(args, ptr, i, n - 1);
    }
  }

  function Words(sp: seq<Spill>): (ws: seq<Eightbyte>)
    ensures |ws| == |sp| && forall j :: 0 <= j < |sp| ==> ws[j] == sp[j].word
  {
    seq(|sp|, j requires 0 <= j < |sp| => sp[j].word)
  }

  /** Load the j-th of n spilled words from [rsp + (n - 1 - j) * 8]; the top of the stack is last. */
  method Reload(stack: seq<Eightbyte>, targets: seq<Target>, ghost below: seq<Eightbyte>, ghost sp: seq<Spill>)
    returns (regs: map<Target, Eightbyte>)
    requires stack == below + Words(sp) && |targets| == |sp| && DistinctTargets(sp)
    requires forall j :: 0 <= j < |sp| ==> targets[j] == sp[j].target
    ensures forall j :: 0 <= j < |sp| ==> sp[j].target in regs && regs[sp[j].target] == sp[j].word
  {
    regs := map[];
    var n := |targets|;
    for j := 0 to n
      invariant forall i :: 0 <= i < j ==> sp[i].target in regs && regs[sp[i].target] == sp[i].word
    {
      var off := (n - 1 - j) * 8;
      var word := stack[|stack| - 1 - off / 8];
      assert word == sp[j].word;
      regs := regs[targets[j] := word];
    }
  }

  /** Evaluate register arguments left to right, pushing each word, then reload. */
  method PassInRegisters(args: seq<Arg>, places: seq<Place>, ptr: Option<Eightbyte>, below: seq<Eightbyte>)
    returns (regs: map<Target, Eightbyte>, nspill: nat)
    requires AllValid(args) && places == LayoutOf(Classes(args), ptr.Some?).places
    ensures nspill <= 14
    ensures ptr.Some? ==> Gp(0) in regs && regs[Gp(0)] == ptr.value
    ensures forall i :: 0 <= i < |args| && !places[i].OnStack? ==> args[i] in args && Delivered(args[i], places[i], regs, [])
  {
    assert |places| == |args|;
    hide LayoutOf, DistinctTargets, Spills, SpillsOf, Delivered;
    var stack, targets := below, [];
    if ptr.Some? {
      stack := stack + [ptr.value];
      targets := targets + [Gp(0)];
    }
    NoSpillsYet(args, ptr, below);
    for i := 0 to |args|
      invariant stack == below + Words(Spills(args, ptr, i))
      invariant targets == Targets(Spills(args, ptr, i))
    {
      assert args[i] in args;
      PlaceIs(args, places, ptr.Some?, i);
      ghost var sp := Spills(args, ptr, i);
      var ws, ts := PushWords(args[i], places[i]);
      stack := stack + ws;
      targets := targets + ts;
      NextSpills(args, ptr, i);
      Concatenated(below, sp, SpillsOf(args[i], places[i]));
    }
    ghost var sp := Spills(args, ptr, |args|);
    SpillsSound(args, ptr, |args|);
    nspill := |targets|;
    regs := Reload(stack, targets, below, sp);
    FirstArrives(args, ptr, regs);
    forall i | 0 <= i < |args| && !places[i].OnStack? ensures args[i] in args && Delivered(args[i], places[i], regs, []) {
      PlaceIs(args, places, ptr.Some?, i);
      Arrives(args, ptr, regs, i);
    }
  }

  function Targets(sp: seq<Spill>): (ts: seq<Target>)
    ensures |ts| == |sp| && forall j :: 0 <= j < |sp| ==> ts[j] == sp[j].target
  {
    seq(|sp|, j requires 0 <= j < |sp| => sp[j].target)
  }

  /** One argument's pushes: `mov rax, [r11]; push rax; mov rax, [r11 + 8]; push rax` and the like. */
  method PushWords(a: Arg, p: Place) returns (ws: seq<Eightbyte>, ts: seq<Target>)
    requires a.Valid() && (p.InGp? ==> 1 <= p.count <= 2 && 8 * p.count <= |a.image|) && (p.InXmm? ==> |a.image| == 8)
    ensures ws == Words(SpillsOf(a, p)) && ts == Targets(SpillsOf(a, p))
  {
    ws, ts := [], [];
    match p {
    case InGp(s, n) =>
      ws, ts := [a.Word(0)], [Gp(s)];
      if n == 2 {
        ws, ts := ws + [a.Word(1)], ts + [Gp(s + 1)];
      }
    case InXmm(x) =>
      ws, ts := [a.Word(0)], [Xmm(x)];
    case OnStack(_) =>
    }
  }

  lemma NoSpillsYet(args: seq<Arg>, ptr: Option<Eightbyte>, below: seq<Eightbyte>)
    requires AllValid(args)
    ensures Words(Spills(args, ptr, 0)) == (if ptr.Some? then [ptr.value] else [])
    ensures Targets(Spills(args, ptr, 0)) == (if ptr.Some? then [Gp(0)] else [])
    ensures below + [] == below
  {
  }

  lemma PlaceIs(args: seq<Arg>, places: seq<Place>, sret: bool, i: nat)
    requires AllValid(args) && i < |args| && places == LayoutOf(Classes(args), sret).places
    ensures |places| == |args| && places[i] == ArgPlace(args, sret, i)
  {
  }

  lemma NextSpills(args: seq<Arg>, ptr: Option<Eightbyte>, i: nat)
    requires AllValid(args) && i < |args|
    ensures args[i] in args && Spills(args, ptr, i + 1) == Spills(args, ptr, i) + SpillsOf(args[i], ArgPlace(args, ptr.Some?, i))
  {
  }

  lemma Concatenated(below: seq<Eightbyte>, sp: seq<Spill>, more: seq<Spill>)
    ensures below + Words(sp) + Words(more) == below + Words(sp + more)
    ensures Targets(sp) + Targets(more) == Targets(sp + more)
  {
  }

  ghost predicate Loaded(sp: seq<Spill>, regs: map<Target, Eightbyte>) {
    forall j :: 0 <= j < |sp| ==> sp[j].target in regs && regs[sp[j].target] == sp[j].word
  }

  lemma FirstArrives(args: seq<Arg>, ptr: Option<Eightbyte>, regs: map<Target, Eightbyte>)
    requires AllValid(args) && Loaded(Spills(args, ptr, |args|), regs)
    ensures ptr.Some? ==> Gp(0) in regs && regs[Gp(0)] == ptr.value
  {
    SpillsGrow(args, ptr, 0, |args|);
    if ptr.Some? {
      assert Spills(args, ptr, |args|)[0] == Spill(Gp(0), ptr.value);
    }
  }

  lemma Arrives(args: seq<Arg>, ptr: Option<Eightbyte>, regs: map<Target, Eightbyte>, i: nat)
    requires AllValid(args) && i < |args| && Loaded(Spills(args, ptr, |args|), regs)
    ensures args[i] in args
    ensures var p := ArgPlace(args, ptr.Some?, i); !p.OnStack? ==> Delivered(args[i], p, regs, [])
  {
    assert args[i] in args;
    var p, a := ArgPlace(args, ptr.Some?, i), args[i];
    var more, prior, all := SpillsOf(a, p), Spills(args, ptr, i), Spills(args, ptr, |args|);
    NextSpills(args, ptr, i);
    SpillsGrow(args, ptr, i + 1, |args|);
    hide Spills, ArgPlace, SpillsOf, Delivered;
    forall j | 0 <= j < |more| ensures more[j].target in regs && regs[more[j].target] == more[j].word {
      assert (prior + more)[|prior| + j] == more[j];
      assert all[|prior| + j] == more[j];
    }
    LoadedDelivers(a, p, regs);
  }

  lemma LoadedDelivers(a: Arg, p: Place, regs: map<Target, Eightbyte>)
    requires a.Valid() && (p.InGp? ==> 1 <= p.count <= 2 && 8 * p.count <= |a.image|) && (p.InXmm? ==> |a.image| == 8)
    requires Loaded(SpillsOf(a, p), regs)
    ensures !p.OnStack? ==> Delivered(a, p, regs, [])
  {
    var more := SpillsOf(a, p);
    if !p.OnStack? {
      assert more[0].word == a.Word(0) && more[0].target in regs;
      if p.InGp? && p.count == 2 { assert more[1] == Spill(Gp(p.start + 1), a.Word(1)) && more[1].target in regs; }
    }
  }

  // ---------------------------------------------------------------- stack arguments

  function Put(area: seq<Byte>, o: nat, bs: seq<Byte>): (r: seq<Byte>)
    requires o + |bs| <= |area|
    ensures |r| == |area| && r[o..o + |bs|] == bs
    ensures forall x: nat, y: nat :: x <= y <= |area| && (y <= o || o + |bs| <= x) ==> r[x..y] == area[x..y]
  {
    var r := area[..o] + bs + area[o + |bs|..];
    assert forall x: nat, y: nat :: x <= y <= |area| && y <= o ==> r[x..y] == area[x..y];
    assert forall x: nat, y: nat :: x <= y <= |area| && o + |bs| <= x ==> r[x..y] == area[x..y];
    r
  }

  ghost predicate StackDone(args: seq<Arg>, places: seq<Place>, area: seq<Byte>, i: nat)
    requires AllValid(args) && |places| == |args| && i <= |args|
  {
    forall j :: 0 <= j < i && places[j].OnStack? ==> args[j] in args && Delivered(args[j], places[j], map[], area)
  }

  /** Evaluate stack arguments into the outgoing area: eight bytes of a scalar, all bytes of an aggregate. */
  method PassOnStack(args: seq<Arg>, places: seq<Place>, sret: bool, space: seq<Byte>) returns (area: seq<Byte>)
    requires AllValid(args) && |places| == |args| && places == LayoutOf(Classes(args), sret).places
    requires |space| == LayoutOf(Classes(args), sret).stackBytes
    ensures |area| == |space| && StackDone(args, places, area, |args|)
  {
    area := space;
    hide StackDone, LayoutOf;
    StackStart(args, places, area);
    for i := 0 to |args|
      invariant |area| == |space| && StackDone(args, places, area, i)
    {
      ghost var before := area;
      if places[i].OnStack? {
        StackRoom(args, places, sret, i);
        var n := if args[i].class_.Aggregate? then args[i].size else 8;
        area := Put(area, places[i].offset, args[i].image[..n]);
      }
      StackNext(args, places, sret, before, area, i);
    }
  }

  lemma StackStart(args: seq<Arg>, places: seq<Place>, area: seq<Byte>)
    requires AllValid(args) && |places| == |args|
    ensures StackDone(args, places, area, 0)
  {
  }

  lemma StackNext(args: seq<Arg>, places: seq<Place>, sret: bool, before: seq<Byte>, area: seq<Byte>, i: nat)
    requires AllValid(args) && |places| == |args| && i < |args| && places == LayoutOf(Classes(args), sret).places
    requires |before| == LayoutOf(Classes(args), sret).stackBytes && StackDone(args, places, before, i)
    requires places[i].OnStack? ==>
      var n := if args[i].class_.Aggregate? then args[i].size else 8;
      n <= |args[i].image| && places[i].offset + n <= |before| && area == Put(before, places[i].offset, args[i].image[..n])
    requires !places[i].OnStack? ==> area == before
    ensures StackDone(args, places, area, i + 1)
  {
    hide LayoutOf, Put, Delivered;
    if places[i].OnStack? {
      StackRoom(args, places, sret, i);
      var o, n := places[i].offset, if args[i].class_.Aggregate? then args[i].size else 8;
      StoredHere(area, args[i], o, n);
      forall j | 0 <= j < i && places[j].OnStack? ensures args[j] in args && Delivered(args[j], places[j], map[], area) {
        StackApart(args, places, sret, j, i);
        StoredThere(before, area, args[j], places[j].offset, o, n);
      }
    }
  }

  lemma StackRoom(args: seq<Arg>, places: seq<Place>, sret: bool, i: nat)
    requires AllValid(args) && i < |args| && places == LayoutOf(Classes(args), sret).places
    requires |places| == |args| && places[i].OnStack?
    ensures places[i].offset + |args[i].image| <= LayoutOf(Classes(args), sret).stackBytes
    ensures args[i] in args && args[i].size <= |args[i].image|
    ensures |args[i].image| == StackSize(args[i].class_)
  {
    PlaceIs(args, places, sret, i);
    LayoutSound(Classes(args), sret, i);
  }

  lemma StackApart(args: seq<Arg>, places: seq<Place>, sret: bool, j: nat, i: nat)
    requires AllValid(args) && j < i < |args| && places == LayoutOf(Classes(args), sret).places
    requires |places| == |args| && places[i].OnStack? && places[j].OnStack?
    ensures args[j] in args && args[i] in args
    ensures places[j].offset + |args[j].image| <= places[i].offset || places[i].offset + |args[i].image| <= places[j].offset
  {
    PlaceIs(args, places, sret, i);
    PlaceIs(args, places, sret, j);
    LayoutSound(Classes(args), sret, i);
  }

  lemma StoredHere(area: seq<Byte>, a: Arg, o: nat, n: nat)
    requires a.Valid() && a.size <= n <= |a.image| && o + n <= |area| && area[o..o + n] == a.image[..n]
    ensures Delivered(a, OnStack(o), map[], area)
  {
    assert area[o..o + a.size] == area[o..o + n][..a.size];
  }

  lemma StoredThere(before: seq<Byte>, area: seq<Byte>, a: Arg, u: nat, o: nat, n: nat)
    requires a.Valid() && Delivered(a, OnStack(u), map[], before) && |area| == |before| && o + n <= |area|
    requires u + |a.image| <= o || o + n <= u
    requires forall x: nat, y: nat :: x <= y <= |area| && (y <= o || o + n <= x) ==> area[x..y] == before[x..y]
    ensures Delivered(a, OnStack(u), map[], area)
  {
  }

  // ---------------------------------------------------------------- calls without aggregates or floats

  /** The short sequence for integer arguments: the seventh and later ones are pushed right to left,
      then the first six left to right and popped into their registers.  The top of the stack is
      last, so the word at [rsp + 8k] is stack[|stack| - 1 - k]. */
  method PassIntegers(ws: seq<Eightbyte>, below: seq<Eightbyte>) returns (regs: map<Target, Eightbyte>, stack: seq<Eightbyte>)
    ensures |stack| == |below| + (if |ws| > 6 then |ws| - 6 else 0) && stack[..|below|] == below
    ensures forall i :: 0 <= i < |ws| && i < 6 ==> Gp(i) in regs && regs[Gp(i)] == ws[i]
    ensures forall i :: 6 <= i < |ws| ==> stack[|stack| - 1 - (i - 6)] == ws[i]
  {
    var n := if |ws| < 6 then |ws| else 6;
    stack := PushRightToLeft(ws, n, below);
    ghost var low := stack;
    for k := 0 to n
      invariant stack == low + ws[..k]
    {
      stack := stack + [ws[k]];
    }
    regs, stack := PopRegisters(ws[..n], low, stack);
  }

  method PushRightToLeft(ws: seq<Eightbyte>, n: nat, below: seq<Eightbyte>) returns (stack: seq<Eightbyte>)
    requires n <= |ws|
    ensures |stack| == |below| + |ws| - n && stack[..|below|] == below
    ensures forall j :: n <= j < |ws| ==> stack[|stack| - 1 - (j - n)] == ws[j]
  {
    stack := below;
    var i := |ws|;
    while i > n
      invariant n <= i <= |ws|
      invariant |stack| == |below| + |ws| - i && stack[..|below|] == below
      invariant forall j :: i <= j < |ws| ==> stack[|below| + |ws| - 1 - j] == ws[j]
    {
      i := i - 1;
      stack := stack + [ws[i]];
    }
  }

  method PopRegisters(ws: seq<Eightbyte>, ghost low: seq<Eightbyte>, full: seq<Eightbyte>)
    returns (regs: map<Target, Eightbyte>, stack: seq<Eightbyte>)
    requires full == low + ws
    ensures stack == low && forall j :: 0 <= j < |ws| ==> Gp(j) in regs && regs[Gp(j)] == ws[j]
  {
    regs, stack := map[], full;
    var k := |ws|;
    while k > 0
      invariant 0 <= k <= |ws| && stack == low + ws[..k]
      invariant forall j :: k <= j < |ws| ==> Gp(j) in regs && regs[Gp(j)] == ws[j]
    {
      k := k - 1;
      regs := regs[Gp(k) := stack[|stack| - 1]];
      stack := stack[..|stack| - 1];
    }
  }

  /** ... and these are the places of the layout. */
  lemma IntegerPlace(args: seq<Arg>, i: nat)
    requires i < |args| && forall a :: a in args ==> a.class_.Integer?
    ensures LayoutOf(Classes(args), false).places[i] == if i < 6 then InGp(i, 1) else OnStack(8 * (i - 6))
  {
    IntegerCounters(args, i);
    assert args[i] in args;
  }

  lemma {:induction false} IntegerCounters(args: seq<Arg>, i: nat)
    requires i <= |args| && forall a :: a in args ==> a.class_.Integer?
    ensures CountersAt(args, false, i) == Counters(if i < 6 then i else 6, 0, if i < 6 then 0 else 8 * (i - 6))
  {
    if i != 0 {
      IntegerCounters(args, i - 1);
      CountersStep(args, false, i - 1);
      assert args[i - 1] in args;
    }
  }
}
