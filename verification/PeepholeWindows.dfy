/** What each rewritten window does to the machine, compared with what replaces it. */
module PeepholeWindows {
  import opened Words
  import opened Machine
  import opened PeepholeRules
  import opened PeepholeCorrect

  lemma ClipNothing(s: State)
    requires CleanStack(s)
    ensures Clip(s.mem, s.lim, s.regs[RSP]) == s.mem
  {
    SameMemory(Clip(s.mem, s.lim, s.regs[RSP]), s.mem);
  }

  lemma SameMemory(m: Mem, m': Mem)
    requires forall a :: a in m ==> a in m' && m[a] == m'[a]
    requires forall a :: a in m' ==> a in m
    ensures m == m'
  {
    assert forall a | a in m :: a in m' && m[a] == m'[a];
    assert forall a | a in m' :: a in m;
    assert m.Keys == m'.Keys;
  }

  /** mov r, 0 and xor r32, r32 leave the same registers; the xor also sets the flags. */
  lemma ZeroEffects(i: Instr, s: State)
    requires ZeroMov(i)
    ensures Effect(i, s) == Next(s.(regs := s.regs[i.dst := 0]))
    ensures var o := Effect(Alu(Xor, Dword32, i.dst, i.dst), s);
            o.Next? && o.s == s.(regs := s.regs[i.dst := 0], flags := o.s.flags)
  {
    hide Bitwise;
    Pow2Values();
    BitwiseIdentities(Get(s, Dword32, i.dst), 32);
  }

  /** A self-move does nothing, except that a 32-bit one clears the upper half of the register. */
  lemma SelfMoveEffect(i: Instr, s: State)
    requires SelfMove(i) && CleanStack(s)
    ensures Effect(i, s) == Next(s) <==> (i.w == Dword32 ==> s.regs[i.dst] < W32)
  {
    PutBack(s, i.w, i.dst);
  }

  lemma SameEntry(s: State, r: Reg)
    ensures s.regs[r := s.regs[r]] == s.regs
  {
  }

  /** push a; pop b is mov b, a wherever the push has room. */
  lemma CollapseEffects(i: Instr, j: Instr, s: State, k: nat)
    requires PushPop(i, j) && CleanStack(s) && Effect(i, s).Next?
    ensures Effect(j, Effect(i, s).s.(pc := k)) == Next(SetReg(s, j.dst, s.regs[i.src]).(pc := k))
  {
    hide Effect, Read, Write, Clip, Pow2, Mapped, CleanStack;
    PushEffect(i, s);
    var s1, v, a: int := Effect(i, s).s.(pc := k), s.regs[i.src], s.regs[RSP] as int - 8;
    assert Pow2(64) == W64 by { Pow2Values(); }
    ReadWrite(s.mem, a, 8, v);
    PoppedBack(s, a, v);
    PopEffect(j, s1);
    assert s1.regs[RSP := a + 8] == s.regs;
    assert SetReg(s1, RSP, a + 8) == s.(pc := k);
  }

  lemma PushEffect(i: Instr, s: State)
    requires i.Push? && Effect(i, s).Next?
    ensures var a := s.regs[RSP] as int - 8;
            a >= 0 && a >= s.lim && Effect(i, s).s == s.(regs := s.regs[RSP := a], mem := Write(s.mem, a, 8, s.regs[i.src]))
  {
  }

  lemma PopEffect(j: Instr, s: State)
    requires j.Pop? && s.regs[RSP] + 8 < W64 && Mapped(s.mem, s.regs[RSP], 8)
    ensures Read(s.mem, s.regs[RSP], 8) < W64
    ensures Effect(j, s) == Next(SetReg(SetReg(s, RSP, s.regs[RSP] + 8), j.dst, Read(s.mem, s.regs[RSP], 8)))
  {
    hide AluFlags, AluValue, DivideDouble, Put;
    Pow2Values();
  }

  lemma PoppedBack(s: State, a: int, v: nat)
    requires CleanStack(s) && a + 8 == s.regs[RSP] && s.lim <= a
    ensures Clip(Write(s.mem, a, 8, v), s.lim, a + 8) == s.mem
  {
    WriteKeys(s.mem, a, 8, v);
    hide Write;
    var m := Write(s.mem, a, 8, v);
    SameMemory(Clip(m, s.lim, a + 8), s.mem);
  }

  lemma MovEffect(d: Reg, r: Reg, s: State)
    ensures Effect(Mov(Qword64, d, r), s) == Next(SetReg(s, d, s.regs[r]))
  {
  }

  /** Reloading what has just been stored does nothing, except that a 32-bit reload clears the
      upper half of the register. */
  lemma ReloadEffect(i: Instr, j: Instr, s: State, k: nat)
    requires StoreReload(i, j) && CleanStack(s) && Effect(i, s).Next?
    ensures var s1 := Effect(i, s).s.(pc := k);
            Effect(j, s1) == Next(s1) <==> (i.w == Dword32 ==> s.regs[i.src] < W32)
  {
    hide Write, Read, Mapped, Pow2, Effect;
    var s1 := Effect(i, s).s.(pc := k);
    var a, n, v := s.regs[RBP] + i.disp, i.w.Size(), Get(s, i.w, i.src);
    SizeModulus(i.w);
    ReadWrite(s.mem, a, n, v);
    EffectClean(i, s);
    StoredState(i, s);
    LoadEffect(j, s1, v);
    PutBack(s1, i.w, i.src);
  }

  lemma PutBack(s: State, w: Width, r: Reg)
    requires CleanStack(s)
    ensures Put(s, w, r, Get(s, w, r)) == s <==> (w == Dword32 ==> s.regs[r] < W32)
  {
    ClipNothing(s);
    SameEntry(s, r);
    hide Clip;
  }

  lemma StoredState(i: Instr, s: State)
    requires i.Store? && Effect(i, s).Next?
    ensures Effect(i, s).s == s.(mem := Write(s.mem, s.regs[i.base] + i.disp, i.w.Size(), Get(s, i.w, i.src)))
  {
  }

  lemma LoadEffect(j: Instr, s: State, v: nat)
    requires j.Load? && v < j.w.Modulus()
    requires Mapped(s.mem, s.regs[j.base] + j.disp, j.w.Size()) && Read(s.mem, s.regs[j.base] + j.disp, j.w.Size()) == v
    ensures Effect(j, s) == Next(Put(s, j.w, j.dst, v))
  {
  }

  /** Of two stores to one slot the first can go if it is not wider than the second. */
  lemma OverwriteEffects(i: Instr, j: Instr, s: State, k: nat)
    requires StoreStore(i, j) && i.w.Size() <= j.w.Size() && Effect(i, s).Next?
    ensures var o, o' := Effect(j, Effect(i, s).s.(pc := k)), Effect(j, s);
            match o' case Next(t) => o == Next(t.(pc := k)) case _ => o == Fault
  {
    StoredState(i, s);
    WriteOver(s.mem, s.regs[RBP] + i.disp, i.w.Size(), Get(s, i.w, i.src), j.w.Size(), Get(s, j.w, j.src));
    hide Write;
  }

  lemma WriteOver(m: Mem, a: int, n: nat, v: nat, n': nat, v': nat)
    requires n <= n'
    ensures Write(Write(m, a, n, v), a, n', v') == Write(m, a, n', v')
  {
    var x, y := Write(Write(m, a, n, v), a, n', v'), Write(m, a, n', v');
    WriteKeys(m, a, n, v);
    WriteKeys(Write(m, a, n, v), a, n', v');
    WriteKeys(m, a, n', v');
    forall b | b in y ensures b in x && x[b] == y[b] {
      if a <= b < a + n' {
        WriteByte(Write(m, a, n, v), m, a, n', v', b);
      }
    }
    SameMemory(x, y);
  }

  /** Written bytes do not depend on the memory before. */
  lemma {:induction false} WriteByte(m: Mem, m': Mem, a: int, n: nat, v: nat, b: int)
    requires a <= b < a + n
    ensures b in Write(m, a, n, v) && b in Write(m', a, n, v) && Write(m, a, n, v)[b] == Write(m', a, n, v)[b]
    decreases n
  {
    if b == a {
      WriteAt(m[a := v % 256], a + 1, n - 1, v / 256, a);
      WriteAt(m'[a := v % 256], a + 1, n - 1, v / 256, a);
    } else {
      WriteByte(m[a := v % 256], m'[a := v % 256], a + 1, n - 1, v / 256, b);
    }
  }
}
