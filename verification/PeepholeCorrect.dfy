/** The peephole pass preserves behaviour.

    The main theorem is PassCorrect: every run of the rewritten program matches a run of the
    original on registers, rsp and memory (bytes below rsp are undefined), unless the original
    faults.  Its conditions are stated once each: Admissible for what can be read off the program
    and Tame for what depends on the run.  PeepholeLimits shows that none can be dropped.
 */
module PeepholeCorrect {
  import opened Options
  import opened Words
  import opened Machine
  import opened PeepholeRules

  // ---------------------------------------------------------------- positions

  /** The pass begins a window at position k of c. */
  ghost predicate Start(c: Program, k: nat)
    decreases |c|
  {
    k == 0 || (c != [] && RuleOf(c).Size() <= k && Start(c[RuleOf(c).Size()..], k - RuleOf(c).Size()))
  }

  lemma SuffixOf(c: Program, m: nat, k: nat)
    requires m + k <= |c|
    ensures c[m..][k..] == c[m + k..]
  {
  }

  lemma {:induction false} NextStart(c: Program, k: nat)
    requires Start(c, k) && k < |c|
    ensures Start(c, k + RuleOf(c[k..]).Size())
    decreases |c|
  {
    var w := RuleOf(c).Size();
    if k == 0 {
      assert c[0..] == c;
      assert Start(c[w..], 0);
    } else {
      NextStart(c[w..], k - w);
      SuffixOf(c, w, k - w);
    }
  }

  /** A label is at a window start, or it is the second line of a removed jump. */
  lemma {:induction false} LabelStart(c: Program, k: nat)
    requires k < |c| && c[k].Def?
    ensures Start(c, k) || Start(c, k + 1)
    decreases |c|
  {
    var w := RuleOf(c).Size();
    if k >= w {
      LabelStart(c[w..], k - w);
    } else if k != 0 {
      assert Start(c[w..], 0);
    }
  }

  ghost predicate Sync(p: Program, k: nat) {
    k <= |p| && (Start(p, k) || (k < |p| && p[k].Def?))
  }

  lemma NextSync(p: Program, k: nat)
    requires Sync(p, k) && k < |p|
    ensures Sync(p, k + RuleOf(p[k..]).Size())
  {
    if p[k].Def? {
      LabelStart(p, k);
    }
    if Start(p, k) {
      NextStart(p, k);
    }
  }

  /** Position k of p and position k' of the rewritten program continue in the same way. */
  ghost predicate Rel(p: Program, k: nat, k': nat) {
    Sync(p, k) && k' <= |Peep(p)| && Peep(p)[k'..] == Peep(p[k..])
  }

  lemma RelStep(p: Program, k: nat, k': nat)
    requires Rel(p, k, k') && k < |p|
    ensures var c := p[k..]; var out := RuleOut(c);
            && k' + |out| <= |Peep(p)| && (out != [] ==> Peep(p)[k'] == out[0])
            && Rel(p, k + RuleOf(c).Size(), k' + |out|)
  {
    var c, q := p[k..], Peep(p);
    var w, out := RuleOf(c).Size(), RuleOut(c);
    PeepStep(c);
    NextSync(p, k);
    SuffixOf(p, k, w);
    hide Peep;
    assert q[k'..][..|out|] == out;
    SuffixOf(q, k', |out|);
    assert q[k'..][|out|..] == Peep(c[w..]);
  }

  lemma RelEnd(p: Program, k: nat, k': nat)
    requires Rel(p, k, k') && k == |p|
    ensures k' == |Peep(p)|
  {
    PeepStep([]);
  }

  lemma {:induction false} FindPeep(c: Program, l: Label)
    ensures var k, k' := Find(c, l), Find(Peep(c), l);
            && (k < |c| <==> k' < |Peep(c)|)
            && (k < |c| ==> Peep(c)[k'..] == Peep(c[k..]))
    decreases |c|
  {
    PeepStep(c);
    if c != [] {
      var w, out := RuleOf(c).Size(), RuleOut(c);
      FindPeep(c[w..], l);
      FindHead(c, l, w);
      SecondLabel(c, l);
      FindJoin(c, l, w, out, Peep(c[w..]));
    }
  }

  lemma FindJoin(c: Program, l: Label, w: nat, out: Program, rest: Program)
    requires c != [] && w in {1, 2} && w <= |c| && |out| <= 1
    requires Peep(c) == out + rest && rest == Peep(c[w..])
    requires Def(l) in out <==> Def(l) in c[..w]
    requires w == 2 ==> c[0] != Def(l)
    requires w == 2 && c[1] == Def(l) ==> out == [c[1]] && Peep(c[1..]) == out + Peep(c[2..])
    requires Find(c, l) == if c[0] == Def(l) then 0 else if w == 2 && c[1] == Def(l) then 1 else w + Find(c[w..], l)
    requires var k, k' := Find(c[w..], l), Find(rest, l);
             (k < |c[w..]| <==> k' < |rest|) && (k < |c[w..]| ==> rest[k'..] == Peep(c[w..][k..]))
    ensures var k, k' := Find(c, l), Find(Peep(c), l);
            (k < |c| <==> k' < |Peep(c)|) && (k < |c| ==> Peep(c)[k'..] == Peep(c[k..]))
  {
    hide Peep;
    var k, k' := Find(c, l), Find(rest, l);
    FindAppend(out, rest, l);
    hide Find;
    assert c[..w] == if w == 1 then [c[0]] else [c[0], c[1]];
    if k >= w {
      if k < |c| {
        SuffixOf(c, w, k - w);
        assert (out + rest)[|out| + k'..] == rest[k'..];
      }
    } else {
      assert out[0] == Def(l);
      assert c[0..] == c && (out + rest)[0..] == out + rest;
    }
  }

  lemma FindAppend(out: Program, rest: Program, l: Label)
    requires |out| <= 1
    ensures Find(out + rest, l) == if out != [] && out[0] == Def(l) then 0 else |out| + Find(rest, l)
  {
    if out == [] {
      assert out + rest == rest;
    } else {
      assert (out + rest)[1..] == rest;
    }
  }

  lemma FindHead(c: Program, l: Label, w: nat)
    requires w <= |c| && w in {1, 2}
    ensures var k := Find(c, l);
            k == if c[0] == Def(l) then 0 else if w == 2 && c[1] == Def(l) then 1 else w + Find(c[w..], l)
  {
    if w == 2 {
      assert c[1..][1..] == c[2..];
      assert Find(c[1..], l) == if c[1] == Def(l) then 0 else 1 + Find(c[2..], l);
    }
  }

  // A window that holds a label produces it; a label in second place is what is left of the window.
  lemma SecondLabel(c: Program, l: Label)
    requires c != []
    ensures var w, out := RuleOf(c).Size(), RuleOut(c);
            && (Def(l) in out <==> Def(l) in c[..w])
            && (w == 2 ==> c[0] != Def(l))
            && (w == 2 && c[1] == Def(l) ==> out == [c[1]] && Peep(c[1..]) == out + Peep(c[2..]))
  {
    hide Peep;
    if RuleOf(c).Size() == 2 {
      assert c[..2] == [c[0], c[1]];
      LabelAlone(c[1..]);
      assert c[1..][1..] == c[2..];
    } else {
      assert c[..1] == [c[0]];
    }
  }

  lemma LabelAlone(c: Program)
    requires c != []
    ensures c[0].Def? ==> Peep(c) == [c[0]] + Peep(c[1..])
  {
    hide Peep;
    PeepStep(c);
  }

  lemma JumpRel(p: Program, l: Label)
    ensures var k, k' := Find(p, l), Find(Peep(p), l);
            (k < |p| <==> k' < |Peep(p)|) && (k < |p| ==> Rel(p, k, k'))
  {
    FindPeep(p, l);
  }

  // ---------------------------------------------------------------- flags

  predicate ReadsFlags(i: Instr) {
    i.Setcc? || i.Jcc?
  }

  predicate WritesFlags(i: Instr) {
    i.Alu? || i.AluImm? || i.Neg? || i.ShiftLeft? || i.ShiftRight? || i.Idiv? || i.Cmp? || i.CmpImm?
  }

  predicate ReturnSite(p: Program, k: int) {
    0 < k <= |p| && p[k - 1].Call?
  }

  /** Every position that control can reach next from k is in d. */
  ghost predicate SuccessorsIn(p: Program, k: nat, d: iset<nat>)
    requires k < |p|
  {
    match p[k]
    case Jmp(l) => Find(p, l) in d
    case Call(l) => Find(p, l) in d
    case Ret => forall j: nat :: ReturnSite(p, j) ==> j in d
    case _ => k + 1 in d
  }

  /** From no position in d can the flags be read before they are written. */
  ghost predicate FlagsDead(p: Program, d: iset<nat>) {
    forall k: nat :: k in d && k < |p| ==> !ReadsFlags(p[k]) && (WritesFlags(p[k]) || SuccessorsIn(p, k, d))
  }

  // ---------------------------------------------------------------- conditions

  /** What can be checked on the program: labels are unique and short enough for the parser's
      buffer, the flags are dead after each zeroed mov, and no deleted store is wider than the
      one that replaces it. */
  ghost predicate Admissible(p: Program, d: iset<nat>) {
    && UniqueLabels(p)
    && (forall k :: 0 <= k < |p| && p[k].Jmp? ==> |p[k].target| <= LABEL_LIMIT)
    && FlagsDead(p, d)
    && (forall k: nat :: k < |p| && ZeroMov(p[k]) ==> k + 1 in d)
    && (forall k: nat :: k < |p| && Start(p, k) && RuleOf(p[k..]) == Overwritten ==> p[k].w.Size() <= p[k + 1].w.Size())
  }

  /** Where the pass drops a 32-bit self-move or reload, the upper half of the register is zero. */
  ghost predicate UpperClear(p: Program, s: State) {
    s.pc < |p| && Start(p, s.pc) ==>
      && (RuleOf(p[s.pc..]) == Dropped && p[s.pc].w == Dword32 ==> s.regs[p[s.pc].dst] < W32)
      && (RuleOf(p[s.pc..]) == Reloaded && p[s.pc].w == Dword32 ==> s.regs[p[s.pc].src] < W32)
  }

  ghost predicate Tame(p: Program, s: State) {
    forall n: nat :: Run(p, s, n).Next? ==> UpperClear(p, Run(p, s, n).s)
  }

  // ---------------------------------------------------------------- matching states

  ghost predicate Same(s: State, t: State) {
    t.regs == s.regs && t.mem == s.mem && t.lim == s.lim
  }

  ghost predicate CleanStack(s: State) {
    forall a: int :: a in s.mem ==> !(s.lim <= a < s.regs[RSP])
  }

  ghost predicate SameReturns(p: Program, cs: seq<nat>, ct: seq<nat>) {
    |cs| == |ct| && forall j :: 0 <= j < |cs| ==> Rel(p, cs[j], ct[j]) && ReturnSite(p, cs[j])
  }

  ghost predicate Sim(p: Program, d: iset<nat>, s: State, t: State) {
    && Same(s, t) && CleanStack(s) && Rel(p, s.pc, t.pc) && SameReturns(p, s.ctl, t.ctl)
    && (s.flags == t.flags || s.pc in d)
  }

  /** Two outcomes agree: both go on from matching states, or both have stopped in matching states. */
  ghost predicate Agree(p: Program, d: iset<nat>, o: Outcome, o': Outcome) {
    match o
    case Next(s) => o'.Next? && Sim(p, d, s, o'.s)
    case Done(s) => o'.Done? && Same(s, o'.s)
    case Fault => false
  }

  // ---------------------------------------------------------------- one instruction on both sides

  ghost predicate PutLike(s: State, s': State, t: State, t': State) {
    Same(s', t') && s'.ctl == s.ctl && t'.ctl == t.ctl && s'.flags == s.flags && t'.flags == t.flags
  }

  lemma PutSame(s: State, t: State, w: Width, r: Reg, v: nat)
    requires Same(s, t) && v < w.Modulus()
    ensures PutLike(s, Put(s, w, r, v), t, Put(t, w, r, v)) && Get(s, w, r) == Get(t, w, r)
  {
  }

  ghost predicate SameEffect(i: Instr, s: State, t: State) {
    var o, o' := Effect(i, s), Effect(i, t);
    match o
    case Fault => o'.Fault?
    case Done(_) => false
    case Next(s') =>
      && o'.Next? && Same(s', o'.s) && s'.ctl == s.ctl && o'.s.ctl == t.ctl
      && (if WritesFlags(i) then s'.flags == o'.s.flags else s'.flags == s.flags && o'.s.flags == t.flags)
  }

  /** An instruction that does not read the flags acts alike in states that differ only in the flags. */
  lemma EffectSame(i: Instr, s: State, t: State)
    requires Same(s, t) && !IsControl(i) && (ReadsFlags(i) ==> s.flags == t.flags)
    ensures SameEffect(i, s, t)
  {
    hide Effect;
    match i {
    case Alu(_, _, _, _) => AluSame(i, s, t);
    case AluImm(_, _, _, _) => AluSame(i, s, t);
    case Neg(_, _) => ArithSame(i, s, t);
    case Not(_, _) => ArithSame(i, s, t);
    case ShiftLeft(_, _) => ShiftSame(i, s, t);
    case ShiftRight(_, _) => ShiftSame(i, s, t);
    case Xchg(_, _, _) => ArithSame(i, s, t);
    case Idiv(_, _) => DivideSame(i, s, t);
    case Push(_) => StackSame(i, s, t);
    case Pop(_) => StackSame(i, s, t);
    case Store(_, _, _, _) => StackSame(i, s, t);
    case Load(_, _, _, _) => LoadSame(i, s, t);
    case LoadSx(_, _, _, _) => LoadSame(i, s, t);
    case Setcc(_, _) => FlagSame(i, s, t);
    case Cmp(_, _, _) => FlagSame(i, s, t);
    case CmpImm(_, _, _) => FlagSame(i, s, t);
    case Def(_) => FlagSame(i, s, t);
    case _ => MoveSame(i, s, t);
    }
  }

  lemma AluSame(i: Instr, s: State, t: State)
    requires Same(s, t) && (i.Alu? || i.AluImm?)
    ensures SameEffect(i, s, t)
  {
    hide Put, AluValue, AluFlags, Residue;
    var a, b := Get(s, i.w, i.dst), if i.Alu? then Get(s, i.w, i.src) else Residue(i.imm, i.w.Modulus());
    PutSame(s, t, i.w, i.dst, AluValue(i.op, i.w, a, b));
  }

  lemma ArithSame(i: Instr, s: State, t: State)
    requires Same(s, t) && (i.Neg? || i.Not? || i.Xchg?)
    ensures SameEffect(i, s, t)
  {
    hide Put, Residue;
    match i
    case Neg(w, d) => PutSame(s.(flags := None), t.(flags := None), w, d, Residue(0 - Get(s, w, d), w.Modulus()));
    case Not(w, d) => PutSame(s, t, w, d, w.Modulus() - 1 - Get(s, w, d));
    case Xchg(w, a, b) =>
      PutSame(s, t, w, a, Get(s, w, b));
      PutSame(Put(s, w, a, Get(s, w, b)), Put(t, w, a, Get(s, w, b)), w, b, Get(s, w, a));
  }

  lemma ShiftSame(i: Instr, s: State, t: State)
    requires Same(s, t) && (i.ShiftLeft? || i.ShiftRight?)
    ensures SameEffect(i, s, t)
  {
    hide Put, Residue, Pow2;
    var c := Get(s, Byte8, RCX) % (if i.w == Qword64 then 64 else 32);
    var v := if i.ShiftLeft? then Get(s, i.w, i.dst) * Pow2(c) else Sign(i.w, Get(s, i.w, i.dst)) / Pow2(c);
    PutSame(s.(flags := None), t.(flags := None), i.w, i.dst, Residue(v, i.w.Modulus()));
  }

  lemma DivideSame(i: Instr, s: State, t: State)
    requires Same(s, t) && i.Idiv?
    ensures SameEffect(i, s, t)
  {
    hide Put, Residue, TruncDiv, TruncMod, InRange, Signed;
    var m := i.w.Modulus();
    var high, low, d := Sign(i.w, Get(s, i.w, RDX)), Get(s, i.w, RAX), Sign(i.w, Get(s, i.w, i.src));
    var n := high * m + low;
    if d != 0 {
      var s0, t0 := s.(flags := None), t.(flags := None);
      PutSame(s0, t0, i.w, RAX, Residue(TruncDiv(n, d), m));
      PutSame(Put(s0, i.w, RAX, Residue(TruncDiv(n, d), m)), Put(t0, i.w, RAX, Residue(TruncDiv(n, d), m)),
              i.w, RDX, Residue(TruncMod(n, d), m));
    }
  }

  lemma StackSame(i: Instr, s: State, t: State)
    requires Same(s, t) && (i.Push? || i.Pop? || i.Store?)
    ensures SameEffect(i, s, t)
  {
    hide Read, Write, Clip, Pow2;
  }

  lemma LoadSame(i: Instr, s: State, t: State)
    requires Same(s, t) && (i.Load? || i.LoadSx?)
    ensures SameEffect(i, s, t)
  {
    hide Read, Put, Residue;
    SizeModulus(i.w);
    var a, n := s.regs[i.base] + i.disp, i.w.Size();
    if Mapped(s.mem, a, n) {
      if i.Load? {
        PutSame(s, t, i.w, i.dst, Read(s.mem, a, n));
      } else {
        PutSame(s, t, Dword32, i.dst, Residue(Sign(i.w, Read(s.mem, a, n)), W32));
      }
    }
  }

  lemma MoveSame(i: Instr, s: State, t: State)
    requires Same(s, t) && (ReadsFlags(i) ==> s.flags == t.flags)
    requires i.MovImm? || i.Mov? || i.Lea? || i.Movsxd? || i.Movzx? || i.SignDx?
    ensures SameEffect(i, s, t)
  {
    hide Put, Residue, Holds, CompareFlags, Sign;
    match i
    case MovImm(w, d, imm) => PutSame(s, t, w, d, Residue(imm, w.Modulus()));
    case Mov(w, d, r) => PutSame(s, t, w, d, Get(s, w, r));
    case Lea(d, b, disp) => PutSame(s, t, Qword64, d, Residue(s.regs[b] + disp, W64));
    case Movsxd(d, r) => PutSame(s, t, Qword64, d, Residue(Sign(Dword32, Get(s, Dword32, r)), W64));
    case Movzx(d, r) => PutSame(s, t, Dword32, d, Get(s, Byte8, r));
    case SignDx(w) => PutSame(s, t, w, RDX, if Sign(w, Get(s, w, RAX)) < 0 then w.Modulus() - 1 else 0);
  }

  lemma FlagSame(i: Instr, s: State, t: State)
    requires Same(s, t) && (ReadsFlags(i) ==> s.flags == t.flags)
    requires i.Setcc? || i.Cmp? || i.CmpImm? || i.Def?
    ensures SameEffect(i, s, t)
  {
    hide Put, Residue, Holds, CompareFlags, Sign;
    if i.Setcc? && s.flags.Some? {
      PutSame(s, t, Byte8, i.dst, if Holds(i.cc, s.flags.value) then 1 else 0);
    }
  }

  // ---------------------------------------------------------------- the stack below rsp stays undefined

  lemma PutClean(s: State, w: Width, r: Reg, v: nat)
    requires CleanStack(s) && v < w.Modulus()
    ensures CleanStack(Put(s, w, r, v)) && Put(s, w, r, v).lim == s.lim
  {
  }

  lemma EffectClean(i: Instr, s: State)
    requires CleanStack(s) && Effect(i, s).Next?
    ensures CleanStack(Effect(i, s).s) && Effect(i, s).s.lim == s.lim
  {
    hide Effect, CleanStack;
    if i.Push? || i.Pop? || i.Store? {
      StackClean(i, s);
    } else if i.Idiv? || i.Xchg? {
      TwicePutClean(i, s);
    } else {
      OncePutClean(i, s);
    }
  }

  lemma StackClean(i: Instr, s: State)
    requires CleanStack(s) && Effect(i, s).Next? && (i.Push? || i.Pop? || i.Store?)
    ensures CleanStack(Effect(i, s).s) && Effect(i, s).s.lim == s.lim
  {
    hide Read, Write, Pow2;
    match i
    case Store(w, b, disp, r) =>
      WriteKeys(s.mem, s.regs[b] + disp, w.Size(), Get(s, w, r));
    case Push(r) =>
      WriteKeys(s.mem, s.regs[RSP] - 8, 8, s.regs[r]);
    case Pop(d) =>
  }

  lemma FlagsFree(s: State)
    requires CleanStack(s)
    ensures CleanStack(s.(flags := None))
  {
  }

  lemma TwicePutClean(i: Instr, s: State)
    requires CleanStack(s) && Effect(i, s).Next? && (i.Idiv? || i.Xchg?)
    ensures CleanStack(Effect(i, s).s) && Effect(i, s).s.lim == s.lim
  {
    hide Put, Residue, TruncDiv, TruncMod, InRange, Signed;
    FlagsFree(s);
    forall s', w: Width, r: Reg, v: nat | CleanStack(s') && v < w.Modulus() ensures CleanStack(Put(s', w, r, v)) && Put(s', w, r, v).lim == s'.lim {
      PutClean(s', w, r, v);
    }
  }

  lemma OncePutClean(i: Instr, s: State)
    requires CleanStack(s) && Effect(i, s).Next? && !i.Push? && !i.Pop? && !i.Store? && !i.Idiv? && !i.Xchg?
    ensures CleanStack(Effect(i, s).s) && Effect(i, s).s.lim == s.lim
  {
    hide Effect, Put, CleanStack;
    var t := Effect(i, s).s;
    if i.Cmp? || i.CmpImm? || i.Def? {
      FlagsOnly(i, s);
      CleanFlags(s, t);
    } else {
      var s0, w, r, v := OncePut(i, s);
      CleanFlags(s, s0);
      PutClean(s0, w, r, v);
      CleanFlags(Put(s0, w, r, v), t);
    }
  }

  lemma CleanFlags(s: State, t: State)
    requires CleanStack(s) && t == s.(flags := t.flags)
    ensures CleanStack(t) && t.lim == s.lim
  {
  }

  lemma FlagsOnly(i: Instr, s: State)
    requires i.Cmp? || i.CmpImm? || i.Def?
    ensures Effect(i, s).Next? && Effect(i, s).s == s.(flags := Effect(i, s).s.flags)
  {
    hide CompareFlags;
  }

  ghost predicate OneRegister(t: State, s: State, s0: State, w: Width, r: Reg, v: nat) {
    v < w.Modulus() && s0 == s.(flags := s0.flags) && t == Put(s0, w, r, v).(flags := t.flags)
  }

  /** These instructions write one register and the flags. */
  lemma OncePut(i: Instr, s: State) returns (s0: State, w: Width, r: Reg, v: nat)
    requires Effect(i, s).Next? && !i.Push? && !i.Pop? && !i.Store? && !i.Idiv? && !i.Xchg?
    requires !i.Cmp? && !i.CmpImm? && !i.Def?
    ensures OneRegister(Effect(i, s).s, s, s0, w, r, v)
  {
    hide OneRegister;
    if i.Alu? || i.AluImm? || i.Neg? || i.Not? || i.ShiftLeft? || i.ShiftRight? {
      s0, w, r, v := OnceArith(i, s);
    } else {
      s0, w, r, v := OnceMove(i, s);
    }
  }

  lemma OnceArith(i: Instr, s: State) returns (s0: State, w: Width, r: Reg, v: nat)
    requires i.Alu? || i.AluImm? || i.Neg? || i.Not? || i.ShiftLeft? || i.ShiftRight?
    ensures Effect(i, s).Next? && OneRegister(Effect(i, s).s, s, s0, w, r, v)
  {
    hide Pow2, AluValue, AluFlags, Residue, Signed, Put;
    s0, w, r := if i.Neg? || i.ShiftLeft? || i.ShiftRight? then s.(flags := None) else s, i.w, i.dst;
    match i
    case Alu(op, _, d, x) => v := AluValue(op, w, Get(s, w, d), Get(s, w, x));
    case AluImm(op, _, d, imm) => v := AluValue(op, w, Get(s, w, d), Residue(imm, w.Modulus()));
    case Neg(_, d) => v := Residue(0 - Get(s, w, d), w.Modulus());
    case Not(_, d) => v := w.Modulus() - 1 - Get(s, w, d);
    case ShiftLeft(_, d) =>
      v := Residue(Get(s, w, d) * Pow2(Get(s, Byte8, RCX) % (if w == Qword64 then 64 else 32)), w.Modulus());
    case ShiftRight(_, d) =>
      v := Residue(Sign(w, Get(s, w, d)) / Pow2(Get(s, Byte8, RCX) % (if w == Qword64 then 64 else 32)), w.Modulus());
  }

  lemma OnceMove(i: Instr, s: State) returns (s0: State, w: Width, r: Reg, v: nat)
    requires i.MovImm? || i.Mov? || i.Load? || i.LoadSx? || i.Lea? || i.Movsxd? || i.Movzx? || i.Setcc? || i.SignDx?
             || i.Jmp? || i.Jcc? || i.Call? || i.Ret?
    requires Effect(i, s).Next?
    ensures OneRegister(Effect(i, s).s, s, s0, w, r, v)
  {
    hide Read, Residue, Signed, Holds, Mapped, Put;
    s0, w := s, Qword64;
    match i
    case MovImm(w', d, imm) => w, r, v := w', d, Residue(imm, w'.Modulus());
    case Mov(w', d, x) => w, r, v := w', d, Get(s, w', x);
    case Load(w', d, b, disp) => SizeModulus(w'); w, r, v := w', d, Read(s.mem, s.regs[b] + disp, w'.Size());
    case LoadSx(w', d, b, disp) =>
      SizeModulus(w');
      w, r, v := Dword32, d, Residue(Sign(w', Read(s.mem, s.regs[b] + disp, w'.Size())), W32);
    case Lea(d, b, disp) => r, v := d, Residue(s.regs[b] + disp, W64);
    case Movsxd(d, x) => r, v := d, Residue(Sign(Dword32, Get(s, Dword32, x)), W64);
    case Movzx(d, x) => w, r, v := Dword32, d, Get(s, Byte8, x);
    case Setcc(cc, d) => w, r, v := Byte8, d, if Holds(cc, s.flags.value) then 1 else 0;
    case SignDx(w') => w, r, v := w', RDX, if Sign(w', Get(s, w', RAX)) < 0 then w'.Modulus() - 1 else 0;
  }
}
