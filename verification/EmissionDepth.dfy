/** On every path rsp is where push_depth says, and aligned at every call. */
module EmissionDepth {
  import opened Emission

  // ---------------------------------------------------------------- one consistent depth per label

  predicate LabelAt(l: Label, d: nat, ids: seq<nat>, usr: map<string, nat>) {
    match l
    case Numbered(_, id) => id < |ids| && ids[id] == d
    case User(x) => x in usr && usr[x] == d
  }

  /** The instruction is possible at its depth; calls happen at even depth; labels have one depth. */
  predicate ItemOk(it: Item, ids: seq<nat>, usr: map<string, nat>) {
    match it.ins
    case Pop => it.d >= 1
    case Add(k) => k <= it.d
    case Call => it.d % 2 == 0
    case Def(l) => LabelAt(l, it.d, ids, usr)
    case Jmp(l) => LabelAt(l, it.d, ids, usr)
    case Jcc(l, _) => LabelAt(l, it.d, ids, usr)
    case _ => true
  }

  function Moved(ins: Ins, d: int): int {
    match ins
    case Push => d + 1
    case Pop => d - 1
    case Sub(k) => d + k
    case Add(k) => d - k
    case _ => d
  }

  /** Code that goes from depth x to depth y. */
  ghost predicate Chain(code: seq<Item>, x: int, y: int, ids: seq<nat>, usr: map<string, nat>)
    decreases |code|
  {
    if code == [] then x == y
    else code[0].d == x && ItemOk(code[0], ids, usr) && Chain(code[1..], Moved(code[0].ins, x), y, ids, usr)
  }

  lemma {:induction false} ChainAppend(a: seq<Item>, b: seq<Item>, x: int, y: int, z: int, ids: seq<nat>, usr: map<string, nat>)
    requires Chain(a, x, y, ids, usr) && Chain(b, y, z, ids, usr)
    ensures Chain(a + b, x, z, ids, usr)
    decreases |a|
  {
    if a == [] {
      assert a + b == b;
    } else {
      assert (a + b)[0] == a[0] && (a + b)[1..] == a[1..] + b;
      ChainAppend(a[1..], b, Moved(a[0].ins, x), y, z, ids, usr);
    }
  }

  /** Whatever numbers are taken later, the code is consistent. */
  ghost predicate Good(r: Emitted, known: seq<nat>, x: nat, y: nat, usr: map<string, nat>) {
    forall ids :: known + r.depths <= ids ==> Chain(r.code, x, y, ids, usr)
  }

  lemma {:induction false} GoodThen(a: Emitted, b: Emitted, known: seq<nat>, x: nat, y: nat, z: nat, usr: map<string, nat>)
    requires Good(a, known, x, y, usr) && Good(b, known + a.depths, y, z, usr)
    ensures Good(Then(a, b), known, x, z, usr)
  {
    var r := Then(a, b);
    forall ids | known + r.depths <= ids ensures Chain(r.code, x, z, ids, usr) {
      assert known + r.depths == (known + a.depths) + b.depths;
      assert known + a.depths <= ids;
      ChainAppend(a.code, b.code, x, y, z, ids, usr);
    }
  }

  lemma {:induction false} GoodOne(ins: Ins, d: nat, known: seq<nat>, usr: map<string, nat>)
    requires ItemOk(Item(ins, d), known, usr)
    ensures Moved(ins, d) >= 0 && Good(One(ins, d), known, d, Moved(ins, d), usr)
  {
    var r := One(ins, d);
    forall ids | known + r.depths <= ids ensures Chain(r.code, d, Moved(ins, d), ids, usr) {
      assert known + r.depths == known;
      assert ItemOk(r.code[0], ids, usr);
      assert r.code[1..] == [];
    }
  }

  lemma GoodNothing(d: nat, known: seq<nat>, usr: map<string, nat>)
    ensures Good(NOTHING, known, d, d, usr)
  {
  }

  lemma GoodTake(k: nat, d: nat, known: seq<nat>, usr: map<string, nat>)
    ensures Good(Take(k), known, d, d, usr)
  {
  }

  lemma {:induction false} GoodTwo(i: Ins, d: nat, j: Ins, known: seq<nat>, usr: map<string, nat>)
    requires ItemOk(Item(i, d), known, usr) && Moved(i, d) >= 0 && ItemOk(Item(j, Moved(i, d)), known, usr)
    ensures Moved(j, Moved(i, d)) >= 0 && Good(Then(One(i, d), One(j, Moved(i, d))), known, d, Moved(j, Moved(i, d)), usr)
  {
    GoodOne(i, d, known, usr);
    GoodOne(j, Moved(i, d), known, usr);
    assert known + One(i, d).depths == known;
    GoodThen(One(i, d), One(j, Moved(i, d)), known, d, Moved(i, d), Moved(j, Moved(i, d)), usr);
  }

  // ---------------------------------------------------------------- expressions

  lemma {:induction false} GoodSubIf(k: nat, d: nat, known: seq<nat>, usr: map<string, nat>)
    ensures Good(SubIf(k, d), known, d, d + k, usr) && Good(AddIf(k, d + k), known, d + k, d, usr)
    ensures SubIf(k, d).depths == [] && AddIf(k, d + k).depths == []
  {
    GoodNothing(d, known, usr);
    GoodOne(Sub(k), d, known, usr);
    GoodOne(Add(k), d + k, known, usr);
  }

  lemma {:induction false} GoodPops(k: nat, d: nat, known: seq<nat>, usr: map<string, nat>)
    ensures Good(PopAll(k, d + k), known, d + k, d, usr) && PopAll(k, d + k).depths == []
    decreases k
  {
    GoodNothing(d, known, usr);
    if k > 0 {
      GoodPops(k - 1, d, known, usr);
      GoodOne(Pop, d + k, known, usr);
      assert known + One(Pop, d + k).depths == known;
      GoodThen(One(Pop, d + k), PopAll(k - 1, d + k - 1), known, d + k, d + k - 1, d, usr);
    }
  }

  lemma {:induction false} GoodPadded(d: nat, known: seq<nat>, usr: map<string, nat>)
    ensures Good(PaddedCall(d), known, d, d, usr) && PaddedCall(d).depths == []
  {
    if d % 2 != 0 {
      GoodTwo(Sub(1), d, Call, known, usr);
      GoodOne(Add(1), d + 1, known, usr);
      var a := Then(One(Sub(1), d), One(Call, d + 1));
      assert known + a.depths == known;
      GoodThen(a, One(Add(1), d + 1), known, d, d + 1, d, usr);
    } else {
      GoodOne(Call, d, known, usr);
    }
  }

  lemma {:induction false} GoodSpill(c: Class, d: nat, known: seq<nat>, usr: map<string, nat>)
    ensures Good(Spill(c, d), known, d, d + SpillCount(c), usr) && Spill(c, d).depths == []
  {
    match c
    case OnStack => GoodNothing(d, known, usr);
    case OneGp => GoodOne(Push, d, known, usr);
    case TwoGp => GoodTwo(Push, d, Push, known, usr);
    case Xmm => GoodTwo(Sub(1), d, Plain, known, usr);
  }

  lemma {:induction false} GoodPushAll(es: seq<Expr>, d: nat, known: seq<nat>, usr: map<string, nat>)
    ensures Good(PushAll(es, d, |known|), known, d, d + |es|, usr)
    decreases es, 0
  {
    hide Good, Then, Expression;
    if es == [] {
      GoodNothing(d, known, usr);
    } else {
      var a := Expression(es[0], d, |known|);
      GoodExpression(es[0], d, known, usr);
      AndPush(a, d, known, usr);
      var k := known + a.depths;
      GoodPushAll(es[1..], d + 1, k, usr);
      GoodThen(Then(a, One(Push, d)), PushAll(es[1..], d + 1, |k|), known, d, d + 1, d + |es|, usr);
    }
  }

  /** Evaluate and push. */
  lemma {:induction false} AndPush(a: Emitted, d: nat, known: seq<nat>, usr: map<string, nat>)
    requires Good(a, known, d, d, usr)
    ensures Good(Then(a, One(Push, d)), known, d, d + 1, usr) && Then(a, One(Push, d)).depths == a.depths
  {
    hide Good;
    GoodOne(Push, d, known + a.depths, usr);
    GoodThen(a, One(Push, d), known, d, d, d + 1, usr);
    assert a.depths + [] == a.depths;
  }

  lemma {:induction false} GoodPushBack(es: seq<Expr>, d: nat, known: seq<nat>, usr: map<string, nat>)
    ensures Good(PushBack(es, d, |known|), known, d, d + |es|, usr)
    decreases es, 0
  {
    hide Good, Then, Expression;
    if es == [] {
      GoodNothing(d, known, usr);
    } else {
      var last := |es| - 1;
      var a := Expression(es[last], d, |known|);
      GoodExpression(es[last], d, known, usr);
      AndPush(a, d, known, usr);
      var k := known + a.depths;
      GoodPushBack(es[..last], d + 1, k, usr);
      GoodThen(Then(a, One(Push, d)), PushBack(es[..last], d + 1, |k|), known, d, d + 1, d + |es|, usr);
    }
  }

  lemma {:induction false} GoodStoreArgs(slots: seq<Arg>, d: nat, known: seq<nat>, usr: map<string, nat>)
    ensures Good(StoreArgs(slots, d, |known|), known, d, d, usr)
    decreases slots, 0
  {
    hide Good, Then, StoreArg;
    if slots == [] {
      GoodNothing(d, known, usr);
    } else {
      GoodStoreArg(slots[0], d, known, usr);
      var a := StoreArg(slots[0], d, |known|);
      var k := known + a.depths;
      GoodStoreArgs(slots[1..], d, k, usr);
      GoodThen(a, StoreArgs(slots[1..], d, |k|), known, d, d, d, usr);
    }
  }

  lemma {:induction false} GoodStoreArg(a: Arg, d: nat, known: seq<nat>, usr: map<string, nat>)
    ensures Good(StoreArg(a, d, |known|), known, d, d, usr)
    decreases a, 3
  {
    hide Good, Expression;
    match a case Arg(e, c) =>
    if c == OnStack {
      GoodExpression(e, d, known, usr);
      AndPlain(Expression(e, d, |known|), d, known, usr);
    } else {
      GoodNothing(d, known, usr);
    }
  }

  lemma {:induction false} AndPlain(a: Emitted, d: nat, known: seq<nat>, usr: map<string, nat>)
    requires Good(a, known, d, d, usr)
    ensures Good(Then(a, One(Plain, d)), known, d, d, usr) && Then(a, One(Plain, d)).depths == a.depths
  {
    hide Good;
    GoodOne(Plain, d, known + a.depths, usr);
    GoodThen(a, One(Plain, d), known, d, d, d, usr);
    assert a.depths + [] == a.depths;
  }

  lemma {:induction false} GoodSpillArgs(slots: seq<Arg>, d: nat, known: seq<nat>, usr: map<string, nat>)
    ensures Good(SpillArgs(slots, d, |known|), known, d, d + Spills(slots), usr)
    decreases slots, 0
  {
    hide Good, Then, SpillArg;
    if slots == [] {
      GoodNothing(d, known, usr);
    } else {
      GoodSpillArg(slots[0], d, known, usr);
      var a := SpillArg(slots[0], d, |known|);
      var k := known + a.depths;
      var d1 := d + SpillCount(slots[0].c);
      GoodSpillArgs(slots[1..], d1, k, usr);
      GoodThen(a, SpillArgs(slots[1..], d1, |k|), known, d, d1, d + Spills(slots), usr);
    }
  }

  lemma {:induction false} GoodSpillArg(a: Arg, d: nat, known: seq<nat>, usr: map<string, nat>)
    ensures Good(SpillArg(a, d, |known|), known, d, d + SpillCount(a.c), usr)
    decreases a, 3
  {
    hide Good, Expression, Spill;
    match a case Arg(e, c) =>
    if c == OnStack {
      GoodNothing(d, known, usr);
    } else {
      GoodExpression(e, d, known, usr);
      var x := Expression(e, d, |known|);
      GoodSpill(c, d, known + x.depths, usr);
      GoodThen(x, Spill(c, d), known, d, d, d + SpillCount(c), usr);
    }
  }

  lemma {:induction false} GoodPushMany(es: seq<Expr>, d: nat, known: seq<nat>, usr: map<string, nat>)
    requires |es| > 6
    ensures var k := |es| - 6; var pad := (d + k) % 2; Good(PushMany(es, d, |known|), known, d, d + k + pad, usr)
    decreases es, 1
  {
    hide Good, PushBack, PushAll, PopAll;
    var k := |es| - 6;
    var pad := (d + k) % 2;
    GoodSubIf(pad, d, known, usr);
    assert known + SubIf(pad, d).depths == known;
    GoodPushBack(es[6..], d + pad, known, usr);
    var a := Then(SubIf(pad, d), PushBack(es[6..], d + pad, |known|));
    GoodThen(SubIf(pad, d), PushBack(es[6..], d + pad, |known|), known, d, d + pad, d + pad + k, usr);
    var ka := known + a.depths;
    GoodPushAll(es[..6], d + pad + k, ka, usr);
    var b := PushAll(es[..6], d + pad + k, |ka|);
    GoodThen(a, b, known, d, d + pad + k, d + pad + k + 6, usr);
    var kb := known + Then(a, b).depths;
    GoodPops(6, d + pad + k, kb, usr);
    GoodOne(Call, d + pad + k, kb, usr);
    assert kb + PopAll(6, d + pad + k + 6).depths == kb;
    GoodThen(PopAll(6, d + pad + k + 6), One(Call, d + pad + k), kb, d + pad + k + 6, d + pad + k, d + pad + k, usr);
    GoodThen(Then(a, b), Then(PopAll(6, d + pad + k + 6), One(Call, d + pad + k)), known, d, d + pad + k + 6, d + pad + k, usr);
  }

  lemma {:induction false} GoodLaidOut(slots: seq<Arg>, sret: bool, stackBytes: nat, d: nat, known: seq<nat>, usr: map<string, nat>)
    ensures Good(LaidOut(slots, sret, stackBytes, d, |known|), known, d, d + Region(d, stackBytes), usr)
    decreases slots, 1
  {
    RegionEven(d, stackBytes);
    hide Good, StoreArgs, SpillArgs, Region, SubIf, AddIf;
    var region := Region(d, stackBytes);
    var d1 := d + region;
    GoodSubIf(region, d, known, usr);
    assert known + SubIf(region, d).depths == known;
    GoodStoreArgs(slots, d1, known, usr);
    var a := Then(SubIf(region, d), StoreArgs(slots, d1, |known|));
    GoodThen(SubIf(region, d), StoreArgs(slots, d1, |known|), known, d, d1, d1, usr);
    var ka := known + a.depths;
    var h := if sret then 1 else 0;
    GoodSpillArgs(slots, d1 + h, ka, usr);
    var b := SpillArgs(slots, d1 + h, |ka|);
    var k := h + Spills(slots);
    var sb := HiddenGood(sret, b, k, d1, ka, usr);
    GoodThen(a, sb, known, d, d1, d1 + k, usr);
    var kb := known + Then(a, sb).depths;
    ReloadGood(k, d1, kb, usr);
    GoodThen(Then(a, sb), Then(Then(One(Plain, d1 + k), AddIf(k, d1 + k)), One(Call, d1)), known, d, d1 + k, d1, usr);
  }

  /** A call with arguments on the stack is made with room for them below the words that were there, and no more than the
      alignment asks for. */
  lemma OutgoingArea(slots: seq<Arg>, sret: bool, stackBytes: nat, d: nat, n: nat)
    ensures var code := LaidOut(slots, sret, stackBytes, d, n).code;
      && code != [] && var last := code[|code| - 1];
      && last.ins == Call && last.d % 2 == 0 && stackBytes <= 8 * (last.d - d) < stackBytes + 16
  {
    LaidOutLast(slots, sret, stackBytes, d, n);
    RegionRoom(d, stackBytes);
    hide LaidOut, Region;
  }

  lemma RegionRoom(d: nat, stackBytes: nat)
    ensures (d + Region(d, stackBytes)) % 2 == 0 && stackBytes <= 8 * Region(d, stackBytes) < stackBytes + 16
  {
  }

  lemma LaidOutLast(slots: seq<Arg>, sret: bool, stackBytes: nat, d: nat, n: nat)
    ensures var code := LaidOut(slots, sret, stackBytes, d, n).code;
      code != [] && code[|code| - 1] == Item(Call, d + Region(d, stackBytes))
  {
    hide StoreArgs, SpillArgs, Region, AddIf, SubIf, Spills;
  }

  lemma RegionEven(d: nat, stackBytes: nat)
    ensures (d + Region(d, stackBytes)) % 2 == 0
  {
  }

  /** The hidden pointer is spilled before the register arguments. */
  lemma {:induction false} HiddenGood(sret: bool, b: Emitted, k: nat, d: nat, known: seq<nat>, usr: map<string, nat>) returns (r: Emitted)
    requires Good(b, known, d + if sret then 1 else 0, d + k, usr)
    ensures r == Then(if sret then Then(One(Plain, d), One(Push, d)) else NOTHING, b) && Good(r, known, d, d + k, usr)
    ensures r.depths == b.depths
  {
    hide Good;
    var s := if sret then Then(One(Plain, d), One(Push, d)) else NOTHING;
    if sret { GoodTwo(Plain, d, Push, known, usr); } else { GoodNothing(d, known, usr); }
    assert known + s.depths == known;
    GoodThen(s, b, known, d, d + if sret then 1 else 0, d + k, usr);
    r := Then(s, b);
  }

  /** Reload the spilled values, drop them and call. */
  lemma {:induction false} ReloadGood(k: nat, d: nat, known: seq<nat>, usr: map<string, nat>)
    requires d % 2 == 0
    ensures Good(Then(Then(One(Plain, d + k), AddIf(k, d + k)), One(Call, d)), known, d + k, d, usr)
  {
    hide Good, AddIf, SubIf;
    GoodOne(Plain, d + k, known, usr);
    GoodSubIf(k, d, known, usr);
    assert known + One(Plain, d + k).depths == known;
    GoodThen(One(Plain, d + k), AddIf(k, d + k), known, d + k, d + k, d, usr);
    var c := Then(One(Plain, d + k), AddIf(k, d + k));
    assert known + c.depths == known;
    GoodOne(Call, d, known, usr);
    GoodThen(c, One(Call, d), known, d + k, d, d, usr);
  }

  /** codegen_expression restores push_depth and is consistent. */
  lemma {:induction false} GoodExpression(e: Expr, d: nat, known: seq<nat>, usr: map<string, nat>)
    ensures Good(Expression(e, d, |known|), known, d, d, usr)
    decreases e, 2
  {
    match e
    case Leaf(id) => GoodOne(Work(id), d, known, usr);
    case Unary(a) =>
      GoodExpression(a, d, known, usr);
      AndPlain(Expression(a, d, |known|), d, known, usr);
    case Binary(_, _) => GoodBinary(e, d, known, usr);
    case And(_, _) => GoodShort(e, d, known, usr);
    case Or(_, _) => GoodShort(e, d, known, usr);
    case Cond(_, _, _) => GoodCond(e, d, known, usr);
    case CallPlain(args) => PlainGood(args, d, known, usr);
    case CallLaidOut(slots, sret, bytes) => GoodCallLaidOut(e, d, known, usr);
    case Indirect(_, _) => GoodIndirect(e, d, known, usr);
    case IndirectLaidOut(_, _, _) => GoodIndirectLaid(e, d, known, usr);
  }

  lemma {:induction false} GoodBinary(e: Expr, d: nat, known: seq<nat>, usr: map<string, nat>)
    requires e.Binary?
    ensures Good(Expression(e, d, |known|), known, d, d, usr)
    decreases e, 1
  {
    hide Good;
    GoodExpression(e.l, d, known, usr);
    var a := Then(Expression(e.l, d, |known|), One(Push, d));
    AndPush(Expression(e.l, d, |known|), d, known, usr);
    GoodExpression(e.r, d + 1, known + a.depths, usr);
    BinaryGood(a, Expression(e.r, d + 1, |known + a.depths|), d, known, usr);
  }

  lemma {:induction false} GoodShort(e: Expr, d: nat, known: seq<nat>, usr: map<string, nat>)
    requires e.And? || e.Or?
    ensures Good(Expression(e, d, |known|), known, d, d, usr)
    decreases e, 1
  {
    hide Good, ShortEnd;
    GoodExpression(e.l, d, known + [d], usr);
    var skip, end := if e.And? then AndFalse else OrTrue, if e.And? then AndEnd else OrEnd;
    var a := TestGood(Expression(e.l, d, |known| + 1), skip, skip == AndFalse, d, known, usr);
    GoodExpression(e.r, d, known + a.depths, usr);
    ShortGood(a, Expression(e.r, d, |known + a.depths|), skip, end, d, known, usr);
  }

  lemma {:induction false} GoodCond(e: Expr, d: nat, known: seq<nat>, usr: map<string, nat>)
    requires e.Cond?
    ensures Good(Expression(e, d, |known|), known, d, d, usr)
    decreases e, 1
  {
    hide Good;
    GoodExpression(e.c, d, known + [d], usr);
    var a := TestGood(Expression(e.c, d, |known| + 1), CondFalse, true, d, known, usr);
    GoodExpression(e.y, d, known + a.depths, usr);
    var k := known + a.depths;
    var b := CondMiddle(Expression(e.y, d, |k|), d, |known|, k, usr);
    GoodExpression(e.n, d, k + b.depths, usr);
    CondGood(a, b, Expression(e.n, d, |k + b.depths|), d, known, usr);
  }

  lemma {:induction false} GoodCallLaidOut(e: Expr, d: nat, known: seq<nat>, usr: map<string, nat>)
    requires e.CallLaidOut?
    ensures Good(Expression(e, d, |known|), known, d, d, usr)
    decreases e, 1
  {
    hide Good, LaidOut, Region;
    GoodLaidOut(e.slots, e.sret, e.stackBytes, d, known, usr);
    LaidOutGood(LaidOut(e.slots, e.sret, e.stackBytes, d, |known|), Region(d, e.stackBytes), d, known, usr);
  }

  lemma {:induction false} GoodIndirect(e: Expr, d: nat, known: seq<nat>, usr: map<string, nat>)
    requires e.Indirect?
    ensures Good(Expression(e, d, |known|), known, d, d, usr)
    decreases e, 1
  {
    hide Good, PushAll, PopAll, PaddedCall, PushMany;
    GoodExpression(e.f, d, known, usr);
    AndPush(Expression(e.f, d, |known|), d, known, usr);
    var a := Then(Expression(e.f, d, |known|), One(Push, d));
    if |e.args| <= 6 {
      IndirectFew(a, e.args, d, known, usr);
    } else {
      IndirectMany(a, e.args, d, known, usr);
    }
  }

  lemma {:induction false} GoodIndirectLaid(e: Expr, d: nat, known: seq<nat>, usr: map<string, nat>)
    requires e.IndirectLaidOut?
    ensures Good(Expression(e, d, |known|), known, d, d, usr)
    decreases e, 1
  {
    hide Good, LaidOut, Region;
    GoodExpression(e.f, d, known, usr);
    AndPush(Expression(e.f, d, |known|), d, known, usr);
    var a := Then(Expression(e.f, d, |known|), One(Push, d));
    GoodLaidOut(e.slots, false, e.stackBytes, d + 1, known + a.depths, usr);
    IndirectLaidGood(a, LaidOut(e.slots, false, e.stackBytes, d + 1, |known + a.depths|), Region(d + 1, e.stackBytes), d, known, usr);
  }

  lemma {:induction false} LaidOutGood(a: Emitted, region: nat, d: nat, known: seq<nat>, usr: map<string, nat>)
    requires Good(a, known, d, d + region, usr)
    ensures Good(Then(a, Then(AddIf(region, d + region), One(Plain, d))), known, d, d, usr)
  {
    hide Good, AddIf, SubIf;
    var k := known + a.depths;
    GoodSubIf(region, d, k, usr);
    GoodOne(Plain, d, k, usr);
    assert k + AddIf(region, d + region).depths == k;
    GoodThen(AddIf(region, d + region), One(Plain, d), k, d + region, d, d, usr);
    GoodThen(a, Then(AddIf(region, d + region), One(Plain, d)), known, d, d + region, d, usr);
  }

  lemma {:induction false} IndirectLaidGood(a: Emitted, b: Emitted, region: nat, d: nat, known: seq<nat>, usr: map<string, nat>)
    requires Good(a, known, d, d + 1, usr) && Good(b, known + a.depths, d + 1, d + 1 + region, usr)
    ensures Good(Then(a, Then(b, One(Add(region + 1), d + 1 + region))), known, d, d, usr)
  {
    hide Good;
    var k := known + a.depths;
    GoodOne(Add(region + 1), d + 1 + region, k + b.depths, usr);
    GoodThen(b, One(Add(region + 1), d + 1 + region), k, d + 1, d + 1 + region, d, usr);
    GoodThen(a, Then(b, One(Add(region + 1), d + 1 + region)), known, d, d + 1, d, usr);
  }

  lemma {:induction false} BinaryGood(a: Emitted, b: Emitted, d: nat, known: seq<nat>, usr: map<string, nat>)
    requires Good(a, known, d, d + 1, usr) && Good(b, known + a.depths, d + 1, d + 1, usr)
    ensures Good(Then(Then(a, b), Then(One(Pop, d + 1), One(Plain, d))), known, d, d, usr)
  {
    hide Good;
    GoodThen(a, b, known, d, d + 1, d + 1, usr);
    GoodTwo(Pop, d + 1, Plain, known + Then(a, b).depths, usr);
    GoodThen(Then(a, b), Then(One(Pop, d + 1), One(Plain, d)), known, d, d + 1, d, usr);
  }

  /** Take a number, evaluate, test and jump. */
  lemma {:induction false} TestGood(x: Emitted, kind: LabelKind, zero: bool, d: nat, known: seq<nat>, usr: map<string, nat>) returns (a: Emitted)
    requires Good(x, known + [d], d, d, usr)
    ensures a == Then(Then(Take(d), x), Then(One(Test, d), One(Jcc(Jump(kind, |known|), zero), d)))
    ensures Good(a, known, d, d, usr) && a.depths == [d] + x.depths
  {
    hide Good;
    GoodTake(d, d, known, usr);
    GoodThen(Take(d), x, known, d, d, d, usr);
    var t := Then(Take(d), x);
    var k := known + t.depths;
    assert k[|known|] == d;
    GoodTwo(Test, d, Jcc(Jump(kind, |known|), zero), k, usr);
    a := Then(t, Then(One(Test, d), One(Jcc(Jump(kind, |known|), zero), d)));
    GoodThen(t, Then(One(Test, d), One(Jcc(Jump(kind, |known|), zero), d)), known, d, d, d, usr);
  }

  lemma {:induction false} GoodShortEnd(skip: LabelKind, end: LabelKind, d: nat, n: nat, known: seq<nat>, usr: map<string, nat>)
    requires n < |known| && known[n] == d
    ensures Good(ShortEnd(skip, end, d, n), known, d, d, usr)
  {
    hide Good;
    var s, e := Jump(skip, n), Jump(end, n);
    GoodTwo(Plain, d, Jmp(e), known, usr);
    GoodOne(Def(s), d, known, usr);
    GoodTwo(Plain, d, Def(e), known, usr);
    assert known + [] == known;
    var b := Then(One(Plain, d), One(Jmp(e), d));
    var c := Then(One(Plain, d), One(Def(e), d));
    GoodThen(One(Def(s), d), c, known, d, d, d, usr);
    GoodThen(b, Then(One(Def(s), d), c), known, d, d, d, usr);
  }

  lemma {:induction false} ShortGood(a: Emitted, b: Emitted, skip: LabelKind, end: LabelKind, d: nat, known: seq<nat>, usr: map<string, nat>)
    requires Good(a, known, d, d, usr) && Good(b, known + a.depths, d, d, usr) && a.depths != [] && a.depths[0] == d
    ensures Good(Then(Then(a, b), ShortEnd(skip, end, d, |known|)), known, d, d, usr)
  {
    hide Good, ShortEnd;
    GoodThen(a, b, known, d, d, d, usr);
    GoodShortEnd(skip, end, d, |known|, known + Then(a, b).depths, usr);
    GoodThen(Then(a, b), ShortEnd(skip, end, d, |known|), known, d, d, d, usr);
  }

  lemma {:induction false} CondMiddle(y: Emitted, d: nat, n: nat, known: seq<nat>, usr: map<string, nat>) returns (b: Emitted)
    requires Good(y, known, d, d, usr) && n < |known| && known[n] == d
    ensures b == Then(y, Then(One(Jmp(Jump(CondEnd, n)), d), One(Def(Jump(CondFalse, n)), d)))
    ensures Good(b, known, d, d, usr) && b.depths == y.depths
  {
    hide Good;
    var j := Then(One(Jmp(Jump(CondEnd, n)), d), One(Def(Jump(CondFalse, n)), d));
    GoodTwo(Jmp(Jump(CondEnd, n)), d, Def(Jump(CondFalse, n)), known + y.depths, usr);
    GoodThen(y, j, known, d, d, d, usr);
    b := Then(y, j);
    assert y.depths + [] == y.depths;
  }

  lemma {:induction false} CondGood(a: Emitted, b: Emitted, f: Emitted, d: nat, known: seq<nat>, usr: map<string, nat>)
    requires Good(a, known, d, d, usr) && Good(b, known + a.depths, d, d, usr) && Good(f, known + a.depths + b.depths, d, d, usr)
    requires a.depths != [] && a.depths[0] == d
    ensures Good(Then(Then(a, b), Then(f, One(Def(Jump(CondEnd, |known|)), d))), known, d, d, usr)
  {
    hide Good;
    GoodThen(a, b, known, d, d, d, usr);
    var k := known + Then(a, b).depths;
    assert k == known + a.depths + b.depths;
    GoodOne(Def(Jump(CondEnd, |known|)), d, k + f.depths, usr);
    GoodThen(f, One(Def(Jump(CondEnd, |known|)), d), k, d, d, d, usr);
    GoodThen(Then(a, b), Then(f, One(Def(Jump(CondEnd, |known|)), d)), known, d, d, d, usr);
  }

  lemma {:induction false} PlainGood(args: seq<Expr>, d: nat, known: seq<nat>, usr: map<string, nat>)
    ensures Good(Expression(CallPlain(args), d, |known|), known, d, d, usr)
    decreases args, 2
  {
    hide Good, PushAll, PopAll, PaddedCall, PushMany;
    if |args| <= 6 {
      PushPop(args, d, known, usr);
      var b := Then(PushAll(args, d, |known|), PopAll(|args|, d + |args|));
      GoodPadded(d, known + b.depths, usr);
      GoodThen(b, PaddedCall(d), known, d, d, d, usr);
    } else {
      var k := |args| - 6;
      var pad := (d + k) % 2;
      GoodPushMany(args, d, known, usr);
      var a := PushMany(args, d, |known|);
      GoodOne(Add(k + pad), d + k + pad, known + a.depths, usr);
      GoodThen(a, One(Add(k + pad), d + k + pad), known, d, d + k + pad, d, usr);
    }
  }

  lemma {:induction false} PushPop(args: seq<Expr>, d: nat, known: seq<nat>, usr: map<string, nat>)
    ensures Good(Then(PushAll(args, d, |known|), PopAll(|args|, d + |args|)), known, d, d, usr)
    decreases args, 1
  {
    hide Good, PushAll, PopAll;
    GoodPushAll(args, d, known, usr);
    var a := PushAll(args, d, |known|);
    GoodPops(|args|, d, known + a.depths, usr);
    GoodThen(a, PopAll(|args|, d + |args|), known, d, d + |args|, d, usr);
  }

  lemma {:induction false} IndirectFew(a: Emitted, args: seq<Expr>, d: nat, known: seq<nat>, usr: map<string, nat>)
    requires Good(a, known, d, d + 1, usr)
    ensures Good(Then(a, Then(Then(PushAll(args, d + 1, |known| + |a.depths|), PopAll(|args|, d + 1 + |args|)), Then(One(Pop, d + 1), PaddedCall(d)))), known, d, d, usr)
    decreases args, 2
  {
    hide Good, PushAll, PopAll, PaddedCall;
    var k := known + a.depths;
    PushPop(args, d + 1, k, usr);
    var b := Then(PushAll(args, d + 1, |k|), PopAll(|args|, d + 1 + |args|));
    var kb := k + b.depths;
    GoodOne(Pop, d + 1, kb, usr);
    assert kb + One(Pop, d + 1).depths == kb;
    GoodPadded(d, kb, usr);
    GoodThen(One(Pop, d + 1), PaddedCall(d), kb, d + 1, d, d, usr);
    GoodThen(b, Then(One(Pop, d + 1), PaddedCall(d)), k, d + 1, d + 1, d, usr);
    GoodThen(a, Then(b, Then(One(Pop, d + 1), PaddedCall(d))), known, d, d + 1, d, usr);
  }

  lemma {:induction false} IndirectMany(a: Emitted, args: seq<Expr>, d: nat, known: seq<nat>, usr: map<string, nat>)
    requires Good(a, known, d, d + 1, usr) && |args| > 6
    ensures var m := |args| - 6; var pad := (d + 1 + m) % 2;
      Good(Then(a, Then(PushMany(args, d + 1, |known| + |a.depths|), One(Add(m + pad + 1), d + 1 + m + pad))), known, d, d, usr)
    decreases args, 2
  {
    hide Good, PushMany;
    var k, m := known + a.depths, |args| - 6;
    var pad := (d + 1 + m) % 2;
    GoodPushMany(args, d + 1, k, usr);
    var b := PushMany(args, d + 1, |k|);
    GoodOne(Add(m + pad + 1), d + 1 + m + pad, k + b.depths, usr);
    GoodThen(b, One(Add(m + pad + 1), d + 1 + m + pad), k, d + 1, d + 1 + m + pad, d, usr);
    GoodThen(a, Then(b, One(Add(m + pad + 1), d + 1 + m + pad)), known, d, d + 1, d, usr);
  }
}
