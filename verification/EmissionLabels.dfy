/** Every label is defined once and every jump has exactly one target. */
module EmissionLabels {
  import opened Emission
  import opened EmissionShapes

  // ---------------------------------------------------------------- definitions and jumps

  function Defs(code: seq<Item>, l: Label): nat {
    if code == [] then 0 else (if code[0].ins == Def(l) then 1 else 0) + Defs(code[1..], l)
  }

  lemma {:induction false} DefsAppend(a: seq<Item>, b: seq<Item>, l: Label)
    ensures Defs(a + b, l) == Defs(a, l) + Defs(b, l)
    decreases |a|
  {
    if a == [] {
      assert a + b == b;
    } else {
      assert (a + b)[1..] == a[1..] + b;
      DefsAppend(a[1..], b, l);
    }
  }

  predicate JumpsTo(it: Item, l: Label) {
    it.ins == Jmp(l) || (it.ins.Jcc? && it.ins.l == l)
  }

  /** Each label is defined at most once: those in own exactly once, the others numbered from lo up to hi. */
  ghost predicate Exact(code: seq<Item>, lo: nat, hi: nat, own: set<Label>) {
    forall l :: Defs(code, l) <= 1 && (l in own ==> Defs(code, l) == 1)
                && (Defs(code, l) == 1 ==> l in own || (l.Numbered? && lo <= l.id < hi))
  }

  /** Every jump goes to a label defined here or to one of out. */
  ghost predicate Closed(code: seq<Item>, out: set<Label>) {
    forall it, l :: it in code && JumpsTo(it, l) ==> Defs(code, l) >= 1 || l in out
  }

  ghost predicate Facts(code: seq<Item>, lo: nat, hi: nat, own: set<Label>, out: set<Label>) {
    lo <= hi && Exact(code, lo, hi, own) && Closed(code, out)
  }

  /** Labels numbered before lo, or user labels. */
  ghost predicate Old(own: set<Label>, lo: nat) {
    forall l :: l in own ==> l.User? || l.id < lo
  }

  lemma {:induction false} FactsAppend(a: seq<Item>, b: seq<Item>, lo: nat, mid: nat, hi: nat, x: set<Label>, y: set<Label>, out: set<Label>)
    requires Facts(a, lo, mid, x, out) && Facts(b, mid, hi, y, out) && x !! y && Old(x, lo) && Old(y, lo)
    ensures Facts(a + b, lo, hi, x + y, out)
  {
    forall l ensures Defs(a + b, l) == Defs(a, l) + Defs(b, l) { DefsAppend(a, b, l); }
    assert Exact(a + b, lo, hi, x + y);
    assert Closed(a + b, out);
  }

  /** Labels of the statement's own numbers are nobody else's concern. */
  lemma {:induction false} Absorb(code: seq<Item>, lo: nat, mid: nat, hi: nat, x: set<Label>, own: set<Label>, out: set<Label>)
    requires lo <= mid && Facts(code, mid, hi, x + own, out + own) && forall l :: l in own ==> l.Numbered? && lo <= l.id < mid
    ensures Facts(code, lo, hi, x, out)
  {
  }

  lemma {:induction false} FactsOne(ins: Ins, d: nat, n: nat, out: set<Label>)
    requires !ins.Def? && (ins.Jmp? || ins.Jcc? ==> ins.l in out)
    ensures Facts(One(ins, d).code, n, n, {}, out)
  {
    var code := One(ins, d).code;
    forall l ensures Defs(code, l) == 0 { assert code[1..] == []; assert Defs(code[1..], l) == 0; }
  }

  lemma {:induction false} FactsDef(l: Label, d: nat, n: nat, out: set<Label>)
    ensures Facts(One(Def(l), d).code, n, n, {l}, out)
  {
    var code := One(Def(l), d).code;
    forall k ensures Defs(code, k) == if k == l then 1 else 0 { assert code[1..] == []; assert Defs(code[1..], k) == 0; }
  }

  lemma FactsNone(n: nat, out: set<Label>)
    ensures Facts([], n, n, {}, out)
  {
  }

  // ---------------------------------------------------------------- sequences of pieces

  /** Code with no labels and no jumps of its own. */
  ghost predicate Silent(code: seq<Item>) {
    forall it :: it in code ==> !it.ins.Def? && !it.ins.Jmp? && !it.ins.Jcc?
  }

  lemma {:induction false} SilentDefs(code: seq<Item>, l: Label)
    requires Silent(code)
    ensures Defs(code, l) == 0
    decreases |code|
  {
    if code != [] { assert code[0] in code; SilentDefs(code[1..], l); }
  }

  lemma SilentFacts(code: seq<Item>, n: nat, out: set<Label>)
    requires Silent(code)
    ensures Facts(code, n, n, {}, out)
  {
    forall l ensures Defs(code, l) == 0 { SilentDefs(code, l); }
  }

  /** Two pieces of which at most the first two set of labels matter. */
  lemma {:induction false} FactsThen(a: Emitted, b: Emitted, n: nat, x: set<Label>, y: set<Label>, out: set<Label>)
    requires Facts(a.code, n, n + |a.depths|, x, out) && Facts(b.code, n + |a.depths|, n + |a.depths| + |b.depths|, y, out)
    requires x !! y && Old(x, n) && Old(y, n)
    ensures Facts(Then(a, b).code, n, n + |Then(a, b).depths|, x + y, out)
  {
    hide Facts, Old;
    FactsAppend(a.code, b.code, n, n + |a.depths|, n + |a.depths| + |b.depths|, x, y, out);
  }

  /** Plain composition of expression code. */
  lemma {:induction false} ExprThen(a: Emitted, b: Emitted, n: nat, out: set<Label>)
    requires Facts(a.code, n, n + |a.depths|, {}, out) && Facts(b.code, n + |a.depths|, n + |a.depths| + |b.depths|, {}, out)
    ensures Facts(Then(a, b).code, n, n + |Then(a, b).depths|, {}, out)
  {
    hide Facts;
    assert Old({}, n);
    FactsThen(a, b, n, {}, {}, out);
    var none: set<Label> := {};
    assert none + none == none;
  }

  lemma {:induction false} WithSilent(a: Emitted, b: Emitted, n: nat, x: set<Label>, out: set<Label>)
    requires Facts(a.code, n, n + |a.depths|, x, out) && Silent(b.code) && b.depths == [] && Old(x, n)
    ensures Facts(Then(a, b).code, n, n + |Then(a, b).depths|, x, out) && |Then(a, b).depths| == |a.depths|
  {
    hide Facts;
    SilentFacts(b.code, n + |a.depths|, out);
    assert Old({}, n);
    FactsThen(a, b, n, x, {}, out);
    assert x + {} == x;
  }

  // ---------------------------------------------------------------- expressions

  lemma {:induction false} PopsSilent(k: nat, d: nat)
    requires k <= d
    ensures Silent(PopAll(k, d).code) && PopAll(k, d).depths == []
    decreases k
  {
    if k > 0 { PopsSilent(k - 1, d - 1); }
  }

  lemma {:induction false} PushAllFacts(es: seq<Expr>, d: nat, n: nat, out: set<Label>)
    ensures var r := PushAll(es, d, n); Facts(r.code, n, n + |r.depths|, {}, out)
    decreases es, 0
  {
    hide Facts, Expression;
    if es == [] {
      FactsNone(n, out);
    } else {
      var a := Expression(es[0], d, n);
      ExpressionFacts(es[0], d, n, out);
      assert Old({}, n);
      WithSilent(a, One(Push, d), n, {}, out);
      PushAllFacts(es[1..], d + 1, n + |a.depths|, out);
      ExprThen(Then(a, One(Push, d)), PushAll(es[1..], d + 1, n + |a.depths|), n, out);
    }
  }

  lemma {:induction false} PushBackFacts(es: seq<Expr>, d: nat, n: nat, out: set<Label>)
    ensures var r := PushBack(es, d, n); Facts(r.code, n, n + |r.depths|, {}, out)
    decreases es, 0
  {
    hide Facts, Expression;
    if es == [] {
      FactsNone(n, out);
    } else {
      var last := |es| - 1;
      var a := Expression(es[last], d, n);
      ExpressionFacts(es[last], d, n, out);
      assert Old({}, n);
      WithSilent(a, One(Push, d), n, {}, out);
      PushBackFacts(es[..last], d + 1, n + |a.depths|, out);
      ExprThen(Then(a, One(Push, d)), PushBack(es[..last], d + 1, n + |a.depths|), n, out);
    }
  }

  lemma {:induction false} StoreFacts(slots: seq<Arg>, d: nat, n: nat, out: set<Label>)
    ensures var r := StoreArgs(slots, d, n); Facts(r.code, n, n + |r.depths|, {}, out)
    decreases slots, 0
  {
    hide Facts, StoreArg;
    if slots == [] {
      FactsNone(n, out);
    } else {
      StoreOneFacts(slots[0], d, n, out);
      var a := StoreArg(slots[0], d, n);
      StoreFacts(slots[1..], d, n + |a.depths|, out);
      ExprThen(a, StoreArgs(slots[1..], d, n + |a.depths|), n, out);
    }
  }

  lemma {:induction false} StoreOneFacts(a: Arg, d: nat, n: nat, out: set<Label>)
    ensures var r := StoreArg(a, d, n); Facts(r.code, n, n + |r.depths|, {}, out)
    decreases a, 3
  {
    hide Facts, Expression;
    match a case Arg(e, c) =>
    if c == OnStack {
      ExpressionFacts(e, d, n, out);
      assert Old({}, n);
      WithSilent(Expression(e, d, n), One(Plain, d), n, {}, out);
    } else {
      FactsNone(n, out);
    }
  }

  lemma {:induction false} SpillFacts(slots: seq<Arg>, d: nat, n: nat, out: set<Label>)
    ensures var r := SpillArgs(slots, d, n); Facts(r.code, n, n + |r.depths|, {}, out)
    decreases slots, 0
  {
    hide Facts, SpillArg;
    if slots == [] {
      FactsNone(n, out);
    } else {
      SpillOneFacts(slots[0], d, n, out);
      var a := SpillArg(slots[0], d, n);
      var d1 := d + SpillCount(slots[0].c);
      SpillFacts(slots[1..], d1, n + |a.depths|, out);
      ExprThen(a, SpillArgs(slots[1..], d1, n + |a.depths|), n, out);
    }
  }

  lemma {:induction false} SpillOneFacts(a: Arg, d: nat, n: nat, out: set<Label>)
    ensures var r := SpillArg(a, d, n); Facts(r.code, n, n + |r.depths|, {}, out)
    decreases a, 3
  {
    hide Facts, Expression;
    match a case Arg(e, c) =>
    if c == OnStack {
      FactsNone(n, out);
    } else {
      ExpressionFacts(e, d, n, out);
      assert Old({}, n);
      WithSilent(Expression(e, d, n), Spill(c, d), n, {}, out);
    }
  }

  lemma {:induction false} PushManyFacts(es: seq<Expr>, d: nat, n: nat, out: set<Label>)
    requires |es| > 6
    ensures var r := PushMany(es, d, n); Facts(r.code, n, n + |r.depths|, {}, out)
    decreases es, 1
  {
    hide Facts, PushBack, PushAll, PopAll;
    var k := |es| - 6;
    var pad := (d + k) % 2;
    var s, p := SubIf(pad, d), PushBack(es[6..], d + pad, n);
    SilentFacts(s.code, n, out);
    assert s.depths == [];
    PushBackFacts(es[6..], d + pad, n, out);
    ExprThen(s, p, n, out);
    var a := Then(s, p);
    PushAllFacts(es[..6], d + pad + k, n + |a.depths|, out);
    var b := PushAll(es[..6], d + pad + k, n + |a.depths|);
    ExprThen(a, b, n, out);
    PopsSilent(6, d + pad + k + 6);
    assert Old({}, n);
    WithSilent(Then(a, b), Then(PopAll(6, d + pad + k + 6), One(Call, d + pad + k)), n, {}, out);
  }

  lemma ReloadSilent(k: nat, d: nat)
    ensures var e := Then(Then(One(Plain, d + k), AddIf(k, d + k)), One(Call, d)); Silent(e.code) && e.depths == []
  {
  }

  lemma {:induction false} LaidOutFacts(slots: seq<Arg>, sret: bool, stackBytes: nat, d: nat, n: nat, out: set<Label>)
    ensures var r := LaidOut(slots, sret, stackBytes, d, n); Facts(r.code, n, n + |r.depths|, {}, out)
    decreases slots, 1
  {
    hide Facts, StoreArgs, SpillArgs, Region;
    var region := Region(d, stackBytes);
    var d1 := d + region;
    var u := SubIf(region, d);
    SilentFacts(u.code, n, out);
    assert u.depths == [];
    StoreFacts(slots, d1, n, out);
    ExprThen(u, StoreArgs(slots, d1, n), n, out);
    var a := Then(u, StoreArgs(slots, d1, n));
    var m := n + |a.depths|;
    var s := if sret then Then(One(Plain, d1), One(Push, d1)) else NOTHING;
    var h := if sret then 1 else 0;
    SilentFacts(s.code, m, out);
    assert s.depths == [];
    SpillFacts(slots, d1 + h, m, out);
    var b := SpillArgs(slots, d1 + h, m);
    ExprThen(s, b, m, out);
    ExprThen(a, Then(s, b), n, out);
    var k := h + Spills(slots);
    var e := Then(Then(One(Plain, d1 + k), AddIf(k, d1 + k)), One(Call, d1));
    ReloadSilent(k, d1);
    assert Old({}, n);
    hide Silent;
    WithSilent(Then(a, Then(s, b)), e, n, {}, out);
  }

  /** The labels of an expression are its own. */
  lemma {:induction false} ExpressionFacts(e: Expr, d: nat, n: nat, out: set<Label>)
    ensures var r := Expression(e, d, n); Facts(r.code, n, n + |r.depths|, {}, out)
    decreases e, 2
  {
    match e
    case Leaf(id) => FactsOne(Work(id), d, n, out);
    case Unary(a) =>
      ExpressionFacts(a, d, n, out);
      assert Old({}, n);
      WithSilent(Expression(a, d, n), One(Plain, d), n, {}, out);
    case Binary(_, _) => BinaryFacts(e, d, n, out);
    case And(_, _) => ShortFacts(e, d, n, out);
    case Or(_, _) => ShortFacts(e, d, n, out);
    case Cond(_, _, _) => CondFacts(e, d, n, out);
    case CallPlain(_) => CallFacts(e, d, n, out);
    case CallLaidOut(slots, sret, bytes) => CallFacts(e, d, n, out);
    case Indirect(_, _) => IndirectFacts(e, d, n, out);
    case IndirectLaidOut(_, _, _) => IndirectFacts(e, d, n, out);
  }

  lemma {:induction false} BinaryFacts(e: Expr, d: nat, n: nat, out: set<Label>)
    requires e.Binary?
    ensures var r := Expression(e, d, n); Facts(r.code, n, n + |r.depths|, {}, out)
    decreases e, 1
  {
    hide Facts, Silent, Expression;
    BinaryIs(e, d, n);
    ExpressionFacts(e.l, d, n, out);
    var l := Expression(e.l, d, n);
    PushedFacts(l, d, n, out);
    var a := Then(l, One(Push, d));
    ExpressionFacts(e.r, d + 1, n + |a.depths|, out);
    ThenSilent(a, Expression(e.r, d + 1, n + |a.depths|), Then(One(Pop, d + 1), One(Plain, d)), n, out);
  }

  lemma {:induction false} PushedFacts(a: Emitted, d: nat, n: nat, out: set<Label>)
    requires Facts(a.code, n, n + |a.depths|, {}, out)
    ensures Facts(Then(a, One(Push, d)).code, n, n + |a.depths|, {}, out) && |Then(a, One(Push, d)).depths| == |a.depths|
  {
    hide Facts;
    assert Old({}, n);
    WithSilent(a, One(Push, d), n, {}, out);
  }

  /** Two pieces of expression code and fixed instructions after them. */
  lemma {:induction false} ThenSilent(a: Emitted, b: Emitted, t: Emitted, n: nat, out: set<Label>)
    requires Facts(a.code, n, n + |a.depths|, {}, out) && Facts(b.code, n + |a.depths|, n + |a.depths| + |b.depths|, {}, out)
    requires (forall it :: it in t.code ==> !it.ins.Def? && !it.ins.Jmp? && !it.ins.Jcc?) && t.depths == []
    ensures Facts(Then(Then(a, b), t).code, n, n + |Then(Then(a, b), t).depths|, {}, out)
  {
    hide Facts;
    ExprThen(a, b, n, out);
    assert Old({}, n);
    WithSilent(Then(a, b), t, n, {}, out);
  }

  lemma {:induction false} CallFacts(e: Expr, d: nat, n: nat, out: set<Label>)
    requires e.CallPlain? || e.CallLaidOut?
    ensures var r := Expression(e, d, n); Facts(r.code, n, n + |r.depths|, {}, out)
    decreases e, 1
  {
    hide Facts, PushAll, PopAll, PushMany, LaidOut, Region;
    assert Old({}, n);
    if e.CallLaidOut? {
      LaidOutFacts(e.slots, e.sret, e.stackBytes, d, n, out);
      var region := Region(d, e.stackBytes);
      var t := Then(AddIf(region, d + region), One(Plain, d));
      assert Silent(t.code) && t.depths == [];
      WithSilent(LaidOut(e.slots, e.sret, e.stackBytes, d, n), t, n, {}, out);
    } else if |e.args| <= 6 {
      PushAllFacts(e.args, d, n, out);
      PopsSilent(|e.args|, d + |e.args|);
      WithSilent(PushAll(e.args, d, n), PopAll(|e.args|, d + |e.args|), n, {}, out);
      assert Silent(PaddedCall(d).code) && PaddedCall(d).depths == [];
      WithSilent(Then(PushAll(e.args, d, n), PopAll(|e.args|, d + |e.args|)), PaddedCall(d), n, {}, out);
    } else {
      PushManyFacts(e.args, d, n, out);
      var k := |e.args| - 6;
      var pad := (d + k) % 2;
      WithSilent(PushMany(e.args, d, n), One(Add(k + pad), d + k + pad), n, {}, out);
    }
  }

  lemma {:induction false} IndirectFacts(e: Expr, d: nat, n: nat, out: set<Label>)
    requires e.Indirect? || e.IndirectLaidOut?
    ensures var r := Expression(e, d, n); Facts(r.code, n, n + |r.depths|, {}, out)
    decreases e, 1
  {
    hide Facts, PushAll, PopAll, PushMany, LaidOut, Region, PaddedCall, Silent, Expression;
    IndirectIs(e, d, n);
    ExpressionFacts(e.f, d, n, out);
    PushedFacts(Expression(e.f, d, n), d, n, out);
    var a := Then(Expression(e.f, d, n), One(Push, d));
    var m := n + |a.depths|;
    if e.IndirectLaidOut? {
      LaidOutFacts(e.slots, false, e.stackBytes, d + 1, m, out);
      AddedFacts(LaidOut(e.slots, false, e.stackBytes, d + 1, m), Region(d + 1, e.stackBytes) + 1, d + 1 + Region(d + 1, e.stackBytes), m, out);
      ExprThen(a, Then(LaidOut(e.slots, false, e.stackBytes, d + 1, m), One(Add(Region(d + 1, e.stackBytes) + 1), d + 1 + Region(d + 1, e.stackBytes))), n, out);
    } else if |e.args| <= 6 {
      PushAllFacts(e.args, d + 1, m, out);
      FewFacts(e.args, d, m, out);
      ExprThen(a, Then(Then(PushAll(e.args, d + 1, m), PopAll(|e.args|, d + 1 + |e.args|)), Then(One(Pop, d + 1), PaddedCall(d))), n, out);
    } else {
      PushManyFacts(e.args, d + 1, m, out);
      var k := |e.args| - 6;
      var pad := (d + 1 + k) % 2;
      AddedFacts(PushMany(e.args, d + 1, m), k + pad + 1, d + 1 + k + pad, m, out);
      ExprThen(a, Then(PushMany(e.args, d + 1, m), One(Add(k + pad + 1), d + 1 + k + pad)), n, out);
    }
  }

  lemma {:induction false} AddedFacts(b: Emitted, k: nat, d: nat, n: nat, out: set<Label>)
    requires Facts(b.code, n, n + |b.depths|, {}, out)
    ensures var r := Then(b, One(Add(k), d)); Facts(r.code, n, n + |r.depths|, {}, out)
  {
    hide Facts;
    assert Old({}, n);
    WithSilent(b, One(Add(k), d), n, {}, out);
  }

  lemma {:induction false} FewFacts(args: seq<Expr>, d: nat, n: nat, out: set<Label>)
    requires var p := PushAll(args, d + 1, n); Facts(p.code, n, n + |p.depths|, {}, out)
    ensures var r := Then(Then(PushAll(args, d + 1, n), PopAll(|args|, d + 1 + |args|)), Then(One(Pop, d + 1), PaddedCall(d)));
      Facts(r.code, n, n + |r.depths|, {}, out)
  {
    hide Facts, PushAll, PopAll;
    assert Old({}, n);
    PopsSilent(|args|, d + 1 + |args|);
    WithSilent(PushAll(args, d + 1, n), PopAll(|args|, d + 1 + |args|), n, {}, out);
    var t := Then(One(Pop, d + 1), PaddedCall(d));
    assert Silent(t.code) && t.depths == [];
    WithSilent(Then(PushAll(args, d + 1, n), PopAll(|args|, d + 1 + |args|)), t, n, {}, out);
  }

  // ---------------------------------------------------------------- labels of one construct

  /** No two places define the same label. */
  ghost predicate DefinesOnce(code: seq<Item>) {
    forall i, j :: 0 <= i < j < |code| && code[i].ins.Def? ==> code[i].ins != code[j].ins
  }

  lemma {:induction false} DefsOnce(code: seq<Item>, l: Label)
    requires DefinesOnce(code)
    ensures Defs(code, l) == if exists i :: 0 <= i < |code| && code[i].ins == Def(l) then 1 else 0
    decreases |code|
  {
    if code != [] {
      DefsOnce(code[1..], l);
      if code[0].ins == Def(l) {
        assert forall i :: 0 <= i < |code[1..]| ==> code[1..][i] == code[i + 1];
      } else if i :| 0 <= i < |code| && code[i].ins == Def(l) {
        assert code[1..][i - 1] == code[i];
      }
    }
  }

  /** A few fixed instructions. */
  lemma {:induction false} FixedFacts(code: seq<Item>, n: nat, own: set<Label>, out: set<Label>)
    requires DefinesOnce(code)
    requires forall i :: 0 <= i < |code| ==> (code[i].ins.Def? ==> code[i].ins.l in own) && (code[i].ins.Jmp? || code[i].ins.Jcc? ==> code[i].ins.l in out)
    requires forall l :: l in own ==> exists i :: 0 <= i < |code| && code[i].ins == Def(l)
    ensures Facts(code, n, n, own, out)
  {
    forall l ensures Defs(code, l) == if exists i :: 0 <= i < |code| && code[i].ins == Def(l) then 1 else 0 { DefsOnce(code, l); }
    forall it, l | it in code && JumpsTo(it, l) ensures l in out {
      var i :| 0 <= i < |code| && code[i] == it;
    }
  }

  lemma {:induction false} ShortEndFacts(skip: LabelKind, end: LabelKind, d: nat, n: nat, m: nat, out: set<Label>)
    requires skip != end
    ensures var own := {Jump(skip, n), Jump(end, n)}; Facts(ShortEnd(skip, end, d, n).code, m, m, own, out + own)
  {
    var own := {Jump(skip, n), Jump(end, n)};
    var code := [Item(Plain, d), Item(Jmp(Jump(end, n)), d), Item(Def(Jump(skip, n)), d), Item(Plain, d), Item(Def(Jump(end, n)), d)];
    assert ShortEnd(skip, end, d, n).code == code;
    assert code[2].ins == Def(Jump(skip, n)) && code[4].ins == Def(Jump(end, n));
    FixedFacts(code, m, own, out + own);
  }

  lemma {:induction false} ShortCode(e: Expr, d: nat, n: nat, skip: LabelKind, end: LabelKind)
    requires (e.And? && skip == AndFalse && end == AndEnd) || (e.Or? && skip == OrTrue && end == OrEnd)
    ensures var l := Expression(e.l, d, n + 1);
      var r := Expression(e.r, d, n + 1 + |l.depths|);
      && Expression(e, d, n).code == l.code + [Item(Test, d), Item(Jcc(Jump(skip, n), skip == AndFalse), d)] + r.code + ShortEnd(skip, end, d, n).code
      && |Expression(e, d, n).depths| == 1 + |l.depths| + |r.depths|
  {
    hide ShortEnd, Expression;
    EndsEmpty(skip, end, d, n);
    ShortIs(e, d, n, skip, end);
    var l := Expression(e.l, d, n + 1);
    var t := Then(Then(Take(d), l), Then(One(Test, d), One(Jcc(Jump(skip, n), skip == AndFalse), d)));
    assert t.code == l.code + [Item(Test, d), Item(Jcc(Jump(skip, n), skip == AndFalse), d)];
    assert |t.depths| == 1 + |l.depths|;
  }

  lemma {:induction false} ShortFacts(e: Expr, d: nat, n: nat, out: set<Label>)
    requires e.And? || e.Or?
    ensures var r := Expression(e, d, n); Facts(r.code, n, n + |r.depths|, {}, out)
    decreases e, 1
  {
    hide Facts, Old, ShortEnd, Expression;
    var skip, end := if e.And? then AndFalse else OrTrue, if e.And? then AndEnd else OrEnd;
    ShortCode(e, d, n, skip, end);
    var own := {Jump(skip, n), Jump(end, n)};
    var all := out + own;
    var l := Expression(e.l, d, n + 1);
    ExpressionFacts(e.l, d, n + 1, all);
    var m := n + 1 + |l.depths|;
    TestFacts(Test, Jump(skip, n), skip == AndFalse, d, m, all);
    var r := Expression(e.r, d, m);
    ExpressionFacts(e.r, d, m, all);
    ShortEndFacts(skip, end, d, n, m + |r.depths|, out);
    OwnOld(own, n);
    Join4(l.code, [Item(Test, d), Item(Jcc(Jump(skip, n), skip == AndFalse), d)], r.code, ShortEnd(skip, end, d, n).code, n + 1, m, m, m + |r.depths|, m + |r.depths|, {}, {}, {}, own, all);
    assert {} + {} + {} + own == {} + own;
    Absorb(Expression(e, d, n).code, n, n + 1, m + |r.depths|, {}, own, out);
  }

  lemma OwnOld(own: set<Label>, n: nat)
    requires forall l :: l in own ==> l.Numbered? && l.id == n
    ensures Old(own, n + 1) && Old({}, n + 1)
  {
  }

  lemma {:induction false} TestFacts(i: Ins, l: Label, zero: bool, d: nat, n: nat, out: set<Label>)
    requires l in out && (i.Test? || i.Match?)
    ensures Facts([Item(i, d), Item(Jcc(l, zero), d)], n, n, {}, out)
  {
    FixedFacts([Item(i, d), Item(Jcc(l, zero), d)], n, {}, out);
  }

  lemma EndsEmpty(skip: LabelKind, end: LabelKind, d: nat, n: nat)
    ensures ShortEnd(skip, end, d, n).depths == []
  {
  }

  /** Four pieces in a row whose labels come from numbers below the first. */
  lemma {:induction false} Join4(a: seq<Item>, b: seq<Item>, c: seq<Item>, e: seq<Item>, n0: nat, n1: nat, n2: nat, n3: nat, n4: nat,
                                 x: set<Label>, y: set<Label>, z: set<Label>, w: set<Label>, out: set<Label>)
    requires Facts(a, n0, n1, x, out) && Facts(b, n1, n2, y, out) && Facts(c, n2, n3, z, out) && Facts(e, n3, n4, w, out)
    requires Old(x, n0) && Old(y, n0) && Old(z, n0) && Old(w, n0)
    requires x !! y && x !! z && x !! w && y !! z && y !! w && z !! w
    ensures Facts(a + b + c + e, n0, n4, x + y + z + w, out)
  {
    hide Facts;
    assert n0 <= n1 <= n2 <= n3 by { Ordered(a, n0, n1, x, out); Ordered(b, n1, n2, y, out); Ordered(c, n2, n3, z, out); }
    FactsAppend(a, b, n0, n1, n2, x, y, out);
    FactsAppend(a + b, c, n0, n2, n3, x + y, z, out);
    FactsAppend(a + b + c, e, n0, n3, n4, x + y + z, w, out);
  }

  lemma Ordered(code: seq<Item>, lo: nat, hi: nat, x: set<Label>, out: set<Label>)
    requires Facts(code, lo, hi, x, out)
    ensures lo <= hi
  {
  }

  lemma {:induction false} CondCode(e: Expr, d: nat, n: nat)
    requires e.Cond?
    ensures var c := Expression(e.c, d, n + 1);
      var y := Expression(e.y, d, n + 1 + |c.depths|);
      var z := Expression(e.n, d, n + 1 + |c.depths| + |y.depths|);
      && Expression(e, d, n).code == (c.code + [Item(Test, d), Item(Jcc(Jump(CondFalse, n), true), d)] + y.code + [Item(Jmp(Jump(CondEnd, n)), d), Item(Def(Jump(CondFalse, n)), d)])
                                   + z.code + [Item(Def(Jump(CondEnd, n)), d)] + []
      && |Expression(e, d, n).depths| == 1 + |c.depths| + |y.depths| + |z.depths|
  {
    hide Expression;
    CondIs(e, d, n);
    var c := Expression(e.c, d, n + 1);
    var a := Then(Then(Take(d), c), Then(One(Test, d), One(Jcc(Jump(CondFalse, n), true), d)));
    assert a.code == c.code + [Item(Test, d), Item(Jcc(Jump(CondFalse, n), true), d)];
    assert |a.depths| == 1 + |c.depths|;
    var y := Expression(e.y, d, n + |a.depths|);
    var b := Then(y, Then(One(Jmp(Jump(CondEnd, n)), d), One(Def(Jump(CondFalse, n)), d)));
    assert b.code == y.code + [Item(Jmp(Jump(CondEnd, n)), d), Item(Def(Jump(CondFalse, n)), d)];
    assert |b.depths| == |y.depths|;
  }

  lemma {:induction false} CondFacts(e: Expr, d: nat, n: nat, out: set<Label>)
    requires e.Cond?
    ensures var r := Expression(e, d, n); Facts(r.code, n, n + |r.depths|, {}, out)
    decreases e, 1
  {
    hide Facts, Old, Expression;
    CondCode(e, d, n);
    var f, g := Jump(CondFalse, n), Jump(CondEnd, n);
    var own := {f, g};
    var all := out + own;
    var c := Expression(e.c, d, n + 1);
    ExpressionFacts(e.c, d, n + 1, all);
    var m1 := n + 1 + |c.depths|;
    TestFacts(Test, f, true, d, m1, all);
    var y := Expression(e.y, d, m1);
    ExpressionFacts(e.y, d, m1, all);
    var m2 := m1 + |y.depths|;
    JoinFacts(g, f, d, m2, all);
    var z := Expression(e.n, d, m2);
    ExpressionFacts(e.n, d, m2, all);
    var m3 := m2 + |z.depths|;
    FactsDef(g, d, m3, all);
    FactsNone(m3, all);
    OwnOld({f}, n);
    OwnOld({g}, n);
    var t, u := [Item(Test, d), Item(Jcc(f, true), d)], [Item(Jmp(g), d), Item(Def(f), d)];
    Join4(c.code, t, y.code, u, n + 1, m1, m1, m2, m2, {}, {}, {}, {f}, all);
    assert {} + {} + {} + {f} == {f};
    Join4(c.code + t + y.code + u, z.code, [Item(Def(g), d)], [], n + 1, m2, m3, m3, m3, {f}, {}, {g}, {}, all);
    assert {f} + {} + {g} + {} == {} + own;
    Absorb(Expression(e, d, n).code, n, n + 1, m3, {}, own, out);
  }

  /** Jump to one label, define another. */
  lemma {:induction false} JoinFacts(j: Label, l: Label, d: nat, n: nat, out: set<Label>)
    requires j in out
    ensures Facts([Item(Jmp(j), d), Item(Def(l), d)], n, n, {l}, out)
  {
    var code := [Item(Jmp(j), d), Item(Def(l), d)];
    assert code[1].ins == Def(l);
    FixedFacts(code, n, {l}, out);
  }
}
