/** The conditions of PassCorrect are needed: for each, what the code does where it fails. */
module PeepholeLimits {
  import opened Options
  import opened Words
  import opened Machine
  import opened PeepholeRules
  import opened PeepholeWindows

  /** Running the second store alone has the effect of running both, in the state s. */
  ghost predicate FirstStoreDead(i: Instr, j: Instr, s: State) {
    Effect(i, s).Next? ==> Effect(j, Effect(i, s).s) == Effect(j, s)
  }

  /** The first of two stores to one slot can always be deleted if and only if it is not wider. */
  lemma StoreDeletable(i: Instr, j: Instr)
    requires StoreStore(i, j)
    ensures (forall s :: FirstStoreDead(i, j, s)) <==> i.w.Size() <= j.w.Size()
  {
    hide FirstStoreDead;
    if i.w.Size() <= j.w.Size() {
      forall s ensures FirstStoreDead(i, j, s) {
        NarrowStoreDead(i, j, s);
      }
    } else {
      var s := WideStoreLive(i, j);
    }
  }

  lemma NarrowStoreDead(i: Instr, j: Instr, s: State)
    requires StoreStore(i, j) && i.w.Size() <= j.w.Size()
    ensures FirstStoreDead(i, j, s)
  {
    hide Effect;
    if Effect(i, s).Next? {
      StoredState(i, s);
      OverwriteEffects(i, j, s, s.pc);
      StoredState'(j, s);
      assert Effect(i, s).s.(pc := s.pc) == Effect(i, s).s;
    }
  }

  lemma StoredState'(j: Instr, s: State)
    requires j.Store?
    ensures Effect(j, s) == Fault || (Effect(j, s).Next? && Effect(j, s).s.pc == s.pc)
  {
  }

  /** The byte at a is mapped in both, to different values. */
  predicate Differ(m: Mem, m': Mem, a: int) {
    a in m && a in m' && m[a] != m'[a]
  }

  /** What is written does not depend on what was there. */
  lemma {:induction false} WriteOver(m: Mem, m': Mem, a: int, n: nat, v: nat, x: int)
    requires a <= x < a + n
    ensures x in Write(m, a, n, v) && x in Write(m', a, n, v) && Write(m, a, n, v)[x] == Write(m', a, n, v)[x]
    decreases n
  {
    if x == a {
      WriteAt(m[a := v % 256], a + 1, n - 1, v / 256, a);
      WriteAt(m'[a := v % 256], a + 1, n - 1, v / 256, a);
    } else {
      WriteOver(m[a := v % 256], m'[a := v % 256], a + 1, n - 1, v / 256, x);
    }
  }

  /** A wider first store leaves its last byte, which the second alone does not write. */
  lemma WideStoreLive(i: Instr, j: Instr) returns (s: State)
    requires StoreStore(i, j) && i.w.Size() > j.w.Size()
    ensures !FirstStoreDead(i, j, s)
    ensures Effect(i, s).Next? && Effect(j, Effect(i, s).s).Next? && Effect(j, s).Next?
    ensures exists a :: a in s.mem && Differ(Effect(j, Effect(i, s).s).s.mem, Effect(j, s).s.mem, a)
  {
    var rs: Regs := seq(16, k => if k == RBP then -i.disp else 0);
    var last := i.w.Size() - 1;
    s := State(0, rs, None, map[], [], 0);
    var u, v := Get(s, i.w, i.src), Get(s, j.w, j.src);
    WriteAt(map[], 0, i.w.Size(), u, last);
    var before: Mem := map[last := if Write(map[], 0, i.w.Size(), u)[last] == 0 then 1 else 0];
    WriteOver(map[], before, 0, i.w.Size(), u, last);
    s := s.(mem := before);
    var m := Write(before, 0, i.w.Size(), u);
    WriteAt(before, 0, i.w.Size(), u, last);
    WriteAt(m, 0, j.w.Size(), v, last);
    WriteAt(before, 0, j.w.Size(), v, last);
    hide Write;
    assert Differ(Write(m, 0, j.w.Size(), v), Write(before, 0, j.w.Size(), v), last);
    StoreAtZero(i, s, u);
    StoreAtZero(j, s.(mem := m), v);
    StoreAtZero(j, s, v);
  }

  lemma StoreAtZero(i: Instr, s: State, v: nat)
    requires i.Store? && i.base == RBP && s.regs[RBP] + i.disp == 0 && s.regs[RSP] == 0 && Get(s, i.w, i.src) == v
    ensures Effect(i, s) == Next(s.(mem := Write(s.mem, 0, i.w.Size(), v)))
  {
  }

  /** Where the dead-jump pattern fires, the label is the jump's target if and only if the target
      fits the parser's buffer. */
  lemma JumpDeletable(i: Instr, j: Instr)
    requires JumpToNext(i, j)
    ensures j == Def(i.target) <==> |i.target| <= LABEL_LIMIT
  {
  }

  /** Two different labels with the same first 63 characters: the jump between them is lost. */
  lemma LongLabelLost()
    ensures exists p: Program, k: nat ::
      UniqueLabels(p) && k + 1 < |p| && RuleOf(p[k..]) == DeadJump && Find(p, p[k].target) != k + 1
  {
    var short: Label := seq(63, _ => 'a');
    var long: Label := short + "a";
    var p := [Jmp(long), Def(short), Def(long)];
    assert long[..63] == short;
    assert p[0..] == p && RuleOf(p[0..]) == DeadJump;
    FindUnique(p, long, 2);
    assert Find(p, p[0].target) != 0 + 1;
  }

  /** After a comparison that found its operands unequal, sete over a zeroed register gives 0; over
      the xor that replaces the mov it gives 1. */
  lemma LiveFlagsLost(s: State, i: Instr)
    requires ZeroMov(i) && s.flags.Some? && !s.flags.value.zf
    ensures var kept := Effect(Setcc(CondE, i.dst), Effect(i, s).s);
            kept.Next? && kept.s.regs[i.dst] == 0
    ensures var lost := Effect(Setcc(CondE, i.dst), Effect(Alu(Xor, Dword32, i.dst, i.dst), s).s);
            lost.Next? && lost.s.regs[i.dst] == 1
  {
    KeptFlags(s, i);
    LostFlags(s, i);
  }

  /** sete over a register that holds zero. */
  lemma SeteGives(s: State, r: Reg)
    requires s.flags.Some? && s.regs[r] == 0
    ensures var o := Effect(Setcc(CondE, r), s); o.Next? && o.s.regs[r] == if s.flags.value.zf then 1 else 0
  {
  }

  lemma KeptFlags(s: State, i: Instr)
    requires ZeroMov(i) && s.flags.Some? && !s.flags.value.zf
    ensures var kept := Effect(Setcc(CondE, i.dst), Effect(i, s).s);
            kept.Next? && kept.s.regs[i.dst] == 0
  {
    hide Effect;
    ZeroEffects(i, s);
    SeteGives(Effect(i, s).s, i.dst);
  }

  lemma XorSetsZero(s: State, r: Reg)
    ensures var o := Effect(Alu(Xor, Dword32, r, r), s); o.Next? && o.s.flags.Some? && o.s.flags.value.zf
  {
    hide Bitwise;
    Pow2Values();
    BitwiseIdentities(Get(s, Dword32, r), 32);
  }

  lemma LostFlags(s: State, i: Instr)
    requires ZeroMov(i)
    ensures var lost := Effect(Setcc(CondE, i.dst), Effect(Alu(Xor, Dword32, i.dst, i.dst), s).s);
            lost.Next? && lost.s.regs[i.dst] == 1
  {
    hide Effect;
    ZeroEffects(i, s);
    XorSetsZero(s, i.dst);
    SeteGives(Effect(Alu(Xor, Dword32, i.dst, i.dst), s).s, i.dst);
  }
}
