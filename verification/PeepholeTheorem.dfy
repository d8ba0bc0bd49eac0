/** Every run of the rewritten program matches a run of the original. */
module PeepholeTheorem {
  import opened Options
  import opened Words
  import opened Machine
  import opened PeepholeRules
  import opened PeepholeCorrect
  import opened PeepholeWindows

  lemma RunOne(p: Program, s: State)
    ensures Run(p, s, 1) == Step(p, s)
  {
    hide Step;
    if Step(p, s).Next? {
      assert Run(p, Step(p, s).s, 0) == Step(p, s);
    }
  }

  lemma RunTwo(p: Program, s: State)
    ensures Run(p, s, 2) == if Step(p, s).Next? then Step(p, Step(p, s).s) else Step(p, s)
  {
    hide Step;
    if Step(p, s).Next? {
      RunOne(p, Step(p, s).s);
    }
  }

  lemma DeadAt(p: Program, d: iset<nat>, k: nat)
    requires Admissible(p, d) && k in d && k < |p|
    ensures !ReadsFlags(p[k]) && (WritesFlags(p[k]) || SuccessorsIn(p, k, d))
  {
  }

  // ---------------------------------------------------------------- windows that keep their instruction

  lemma KeptPlain(p: Program, d: iset<nat>, s: State, t: State, i: Instr)
    requires Sim(p, d, s, t) && Admissible(p, d) && s.pc < |p| && RuleOf(p[s.pc..]) == Kept
    requires i == p[s.pc] && !IsControl(i)
    ensures Step(p, s).Fault? || Agree(p, d, Step(p, s), Step(Peep(p), t))
  {
    hide Effect, Step, Start, Peep, Admissible, Sync, CleanStack, Find;
    RelStep(p, s.pc, t.pc);
    StepIsEffect(p, i, s);
    StepIsEffect(Peep(p), i, t);
    if s.pc in d {
      DeadAt(p, d, s.pc);
    }
    EffectSame(i, s, t);
    if Effect(i, s).Next? {
      EffectClean(i, s);
      CleanMoved(Effect(i, s).s, s.pc + 1);
    }
  }

  lemma CleanMoved(s: State, pc: nat)
    requires CleanStack(s)
    ensures CleanStack(s.(pc := pc))
  {
  }

  lemma JumpState(p: Program, s: State)
    requires s.pc < |p| && (p[s.pc].Jmp? || p[s.pc].Jcc?)
    ensures var i, k := p[s.pc], Find(p, p[s.pc].target);
            Step(p, s) == if i.Jcc? && s.flags.None? then Fault
                          else if !Taken(i, s.flags) then Next(s.(pc := s.pc + 1))
                          else if k < |p| then Next(s.(pc := k)) else Fault
  {
    hide Effect;
  }

  lemma Moved(p: Program, d: iset<nat>, s: State, t: State, k: nat, k': nat)
    requires Sim(p, d, s, t) && Rel(p, k, k') && (s.flags == t.flags || k in d)
    ensures Sim(p, d, s.(pc := k), t.(pc := k'))
  {
    hide Rel;
  }

  predicate Taken(i: Instr, f: Option<Flags>) {
    i.Jmp? || (i.Jcc? && f.Some? && Holds(i.cc, f.value))
  }

  lemma KeptJump(p: Program, d: iset<nat>, s: State, t: State)
    requires Sim(p, d, s, t) && Admissible(p, d) && s.pc < |p| && RuleOf(p[s.pc..]) == Kept
    requires p[s.pc].Jmp? || p[s.pc].Jcc?
    ensures Step(p, s).Fault? || Agree(p, d, Step(p, s), Step(Peep(p), t))
  {
    hide *;
    JumpView(p, d, s, t);
    RelStep(p, s.pc, t.pc);
    JumpState(p, s);
    JumpState(Peep(p), t);
    JumpRel(p, p[s.pc].target);
    if Step(p, s).Next? {
      var k, k' := Step(p, s).s.pc, Step(Peep(p), t).s.pc;
      assert Step(p, s) == Next(s.(pc := k));
      assert Step(Peep(p), t) == Next(t.(pc := k'));
      Moved(p, d, s, t, k, k');
      NextAgrees(p, d, s.(pc := k), t.(pc := k'));
    }
  }

  lemma JumpView(p: Program, d: iset<nat>, s: State, t: State)
    requires Sim(p, d, s, t) && Admissible(p, d) && s.pc < |p| && RuleOf(p[s.pc..]) == Kept
    requires p[s.pc].Jmp? || p[s.pc].Jcc?
    ensures p[s.pc].Jcc? ==> s.flags == t.flags
    ensures p[s.pc].Jmp? ==> Taken(p[s.pc], s.flags) && Taken(p[s.pc], t.flags)
    ensures p[s.pc].Jmp? ==> s.flags == t.flags || Find(p, p[s.pc].target) in d
    ensures RuleOut(p[s.pc..]) == [p[s.pc]] && RuleOf(p[s.pc..]).Size() == 1 && Rel(p, s.pc, t.pc)
  {
    hide Rel, CleanStack, SameReturns, Admissible, Find;
    if s.pc in d {
      DeadAt(p, d, s.pc);
    }
  }

  lemma NextAgrees(p: Program, d: iset<nat>, s: State, t: State)
    requires Sim(p, d, s, t)
    ensures Agree(p, d, Next(s), Next(t))
  {
  }

  lemma KeptCall(p: Program, d: iset<nat>, s: State, t: State)
    requires Sim(p, d, s, t) && Admissible(p, d) && s.pc < |p| && RuleOf(p[s.pc..]) == Kept && p[s.pc].Call?
    ensures Step(p, s).Fault? || Agree(p, d, Step(p, s), Step(Peep(p), t))
  {
    hide *;
    CallView(p, d, s, t);
    RelStep(p, s.pc, t.pc);
    JumpRel(p, p[s.pc].target);
    CalledState(p, s);
    CalledState(Peep(p), t);
    var k, k' := Find(p, p[s.pc].target), Find(Peep(p), p[s.pc].target);
    if Step(p, s).Next? {
      ReturnsGrow(p, s.ctl, t.ctl, s.pc + 1, t.pc + 1);
      CalledSim(p, d, s, t, k, k');
      NextAgrees(p, d, Step(p, s).s, Step(Peep(p), t).s);
    }
  }

  lemma CallView(p: Program, d: iset<nat>, s: State, t: State)
    requires Sim(p, d, s, t) && Admissible(p, d) && s.pc < |p| && RuleOf(p[s.pc..]) == Kept && p[s.pc].Call?
    ensures s.regs == t.regs && s.lim == t.lim
    ensures s.flags == t.flags || Find(p, p[s.pc].target) in d
    ensures RuleOut(p[s.pc..]) == [p[s.pc]] && RuleOf(p[s.pc..]).Size() == 1 && Rel(p, s.pc, t.pc)
    ensures SameReturns(p, s.ctl, t.ctl) && ReturnSite(p, s.pc + 1)
  {
    hide Rel, CleanStack, SameReturns, Admissible, Find;
    if s.pc in d {
      DeadAt(p, d, s.pc);
    }
  }

  ghost function Called(s: State, k: nat): State
    requires s.regs[RSP] >= 8
  {
    s.(regs := s.regs[RSP := s.regs[RSP] - 8], ctl := [s.pc + 1] + s.ctl, pc := k)
  }

  lemma CalledSim(p: Program, d: iset<nat>, s: State, t: State, k: nat, k': nat)
    requires Sim(p, d, s, t) && s.regs[RSP] >= 8 && s.regs == t.regs && Rel(p, k, k') && (s.flags == t.flags || k in d)
    requires SameReturns(p, [s.pc + 1] + s.ctl, [t.pc + 1] + t.ctl)
    ensures Sim(p, d, Called(s, k), Called(t, k'))
  {
    hide Rel, SameReturns;
  }

  lemma CalledState(p: Program, s: State)
    requires s.pc < |p| && p[s.pc].Call?
    ensures var k, a := Find(p, p[s.pc].target), s.regs[RSP] as int - 8;
            Step(p, s) == if a >= 0 && a >= s.lim && k < |p| then Next(Called(s, k)) else Fault
  {
    hide Effect, Find, Holds;
    var a := s.regs[RSP] as int - 8;
    if a >= 0 && a >= s.lim {
      assert Step(p, s) == Goto(p, p[s.pc].target, Called(s, 0).(pc := s.pc));
    }
  }

  lemma ReturnsGrow(p: Program, cs: seq<nat>, ct: seq<nat>, k: nat, k': nat)
    requires SameReturns(p, cs, ct) && Rel(p, k, k') && ReturnSite(p, k)
    ensures SameReturns(p, [k] + cs, [k'] + ct)
  {
    hide Rel;
  }

  ghost function Returned(s: State): State
    requires s.ctl != [] && s.regs[RSP] + 8 < W64
  {
    SetReg(s, RSP, s.regs[RSP] + 8).(pc := s.ctl[0], ctl := s.ctl[1..])
  }

  lemma ReturnedState(p: Program, s: State)
    requires s.pc < |p| && p[s.pc].Ret?
    ensures Step(p, s) == if s.ctl == [] then Done(s) else if s.regs[RSP] + 8 >= W64 then Fault else Next(Returned(s))
  {
    hide Effect, Find, Holds;
  }

  lemma ReturnView(p: Program, d: iset<nat>, s: State, t: State)
    requires Sim(p, d, s, t) && Admissible(p, d) && s.pc < |p| && RuleOf(p[s.pc..]) == Kept && p[s.pc].Ret?
    ensures Same(s, t) && Rel(p, s.pc, t.pc) && RuleOut(p[s.pc..]) == [p[s.pc]]
    ensures |s.ctl| == |t.ctl| && (s.ctl != [] ==> s.flags == t.flags || s.ctl[0] in d)
  {
    hide Rel, CleanStack, Admissible, Find;
    if s.pc in d {
      DeadAt(p, d, s.pc);
    }
  }

  lemma ReturnedSim(p: Program, d: iset<nat>, s: State, t: State)
    requires Sim(p, d, s, t) && s.ctl != [] && t.ctl != [] && s.regs[RSP] + 8 < W64 && t.regs[RSP] + 8 < W64
    requires s.flags == t.flags || s.ctl[0] in d
    ensures Sim(p, d, Returned(s), Returned(t))
  {
    hide Rel;
    assert Rel(p, s.ctl[0], t.ctl[0]);
  }

  lemma KeptReturn(p: Program, d: iset<nat>, s: State, t: State)
    requires Sim(p, d, s, t) && Admissible(p, d) && s.pc < |p| && RuleOf(p[s.pc..]) == Kept && p[s.pc].Ret?
    ensures Step(p, s).Fault? || Agree(p, d, Step(p, s), Step(Peep(p), t))
  {
    hide Sim, Admissible, Rel, RuleOf, Step, Peep;
    ReturnView(p, d, s, t);
    RelStep(p, s.pc, t.pc);
    ReturnedState(p, s);
    ReturnedState(Peep(p), t);
    if s.ctl != [] && s.regs[RSP] + 8 < W64 {
      ReturnedSim(p, d, s, t);
    }
  }

  lemma KeptWindow(p: Program, d: iset<nat>, s: State, t: State)
    requires Sim(p, d, s, t) && Admissible(p, d) && s.pc < |p| && RuleOf(p[s.pc..]) == Kept
    ensures Step(p, s).Fault? || Agree(p, d, Step(p, s), Step(Peep(p), t))
  {
    hide *;
    match p[s.pc]
    case Jmp(_) => KeptJump(p, d, s, t);
    case Jcc(_, _) => KeptJump(p, d, s, t);
    case Call(_) => KeptCall(p, d, s, t);
    case Ret => KeptReturn(p, d, s, t);
    case i => 
      PlainInstr(i);
      KeptPlain(p, d, s, t, i);
  }

  lemma PlainInstr(i: Instr)
    ensures !i.Jmp? && !i.Jcc? && !i.Call? && !i.Ret? ==> !IsControl(i)
  {
  }

  // ---------------------------------------------------------------- windows that are replaced

  lemma DeadNext(p: Program, d: iset<nat>, k: nat)
    requires Admissible(p, d) && k in d && k < |p| && !IsControl(p[k]) && !WritesFlags(p[k])
    ensures k + 1 in d
  {
    hide Admissible;
    DeadAt(p, d, k);
  }

  ghost predicate AtWindow(p: Program, d: iset<nat>, s: State, t: State, r: Rule) {
    Sim(p, d, s, t) && Admissible(p, d) && UpperClear(p, s) && s.pc < |p| && RuleOf(p[s.pc..]) == r
  }

  /** The source has run over its window and the target over the output. */
  ghost predicate Caught(p: Program, d: iset<nat>, s: State, t: State, n: nat) {
    n in {1, 2} && (Run(p, s, n).Fault? || Agree(p, d, Run(p, s, n), Step(Peep(p), t)))
  }

  /** Simulation after a window that ends in states differing in the flags at most. */
  lemma Landed(p: Program, d: iset<nat>, s: State, t: State, s': State, t': State, k: nat, k': nat)
    requires Sim(p, d, s, t) && Rel(p, k, k') && Same(s', t') && CleanStack(s')
    requires s'.ctl == s.ctl && t'.ctl == t.ctl && s'.pc == k && t'.pc == k'
    requires s'.flags == t'.flags || k in d
    ensures Agree(p, d, Next(s'), Next(t'))
  {
    hide Rel, SameReturns, CleanStack;
  }

  lemma ZeroWindow(p: Program, d: iset<nat>, s: State, t: State)
    requires AtWindow(p, d, s, t, Zeroed)
    ensures Caught(p, d, s, t, 1)
  {
    hide Effect, Step, Peep, Rel, SameReturns, CleanStack, Run, UniqueLabels, FlagsDead, Start;
    var i, j := p[s.pc], Alu(Xor, Dword32, p[s.pc].dst, p[s.pc].dst);
    assert RuleOut(p[s.pc..]) == [j];
    RelStep(p, s.pc, t.pc);
    StepIsEffect(p, i, s);
    StepIsEffect(Peep(p), j, t);
    ZeroEffects(i, s);
    ZeroEffects(i, t);
    EffectClean(i, s);
    RunOne(p, s);
    var s', t' := Step(p, s).s, Step(Peep(p), t).s;
    CleanMoved(Effect(i, s).s, s.pc + 1);
    Landed(p, d, s, t, s', t', s.pc + 1, t.pc + 1);
  }

  lemma DropWindow(p: Program, d: iset<nat>, s: State, t: State)
    requires AtWindow(p, d, s, t, Dropped)
    ensures Step(p, s) == Next(s.(pc := s.pc + 1)) && Sim(p, d, s.(pc := s.pc + 1), t)
  {
    hide Effect, Step, Peep, SameReturns, Run, UniqueLabels, FlagsDead;
    var i := p[s.pc];
    RelStep(p, s.pc, t.pc);
    StepIsEffect(p, i, s);
    assert Start(p, s.pc);
    SelfMoveEffect(i, s);
    if s.pc in d {
      DeadNext(p, d, s.pc);
    }
    hide Admissible, Start;
  }

  /** Two plain instructions run one after the other. */
  lemma TwoSteps(p: Program, s: State, i: Instr, j: Instr)
    requires s.pc + 1 < |p| && p[s.pc] == i && p[s.pc + 1] == j && !IsControl(i) && !IsControl(j)
    ensures Effect(i, s).Fault? || Effect(i, s).Next?
    ensures Effect(i, s).Fault? ==> Run(p, s, 2) == Fault
    ensures Effect(i, s).Next? ==>
      Run(p, s, 2) == match Effect(j, Effect(i, s).s.(pc := s.pc + 1)) case Next(t) => Next(t.(pc := s.pc + 2)) case o => o
  {
    hide Effect, Step;
    StepIsEffect(p, i, s);
    RunTwo(p, s);
    if Effect(i, s).Next? {
      StepIsEffect(p, j, Effect(i, s).s.(pc := s.pc + 1));
    }
  }

  lemma DeadOverWindow(p: Program, d: iset<nat>, k: nat)
    requires Admissible(p, d) && k in d && k + 1 < |p|
    requires !IsControl(p[k]) && !WritesFlags(p[k]) && !IsControl(p[k + 1]) && !WritesFlags(p[k + 1])
    ensures k + 2 in d
  {
    hide Admissible;
    DeadNext(p, d, k);
    DeadNext(p, d, k + 1);
  }

  lemma CollapseWindow(p: Program, d: iset<nat>, s: State, t: State)
    requires AtWindow(p, d, s, t, Collapsed)
    ensures var i, j := p[s.pc], p[s.pc + 1];
            Run(p, s, 2).Fault? ||
            if i.src == j.dst then Run(p, s, 2) == Next(s.(pc := s.pc + 2)) && Sim(p, d, s.(pc := s.pc + 2), t)
            else Agree(p, d, Run(p, s, 2), Step(Peep(p), t))
  {
    hide Effect, Step, Peep, SameReturns, Run, Start, Admissible;
    var i, j := p[s.pc], p[s.pc + 1];
    RelStep(p, s.pc, t.pc);
    TwoSteps(p, s, i, j);
    if s.pc in d {
      DeadOverWindow(p, d, s.pc);
    }
    if Effect(i, s).Next? {
      CollapseEffects(i, j, s, s.pc + 1);
      CollapsedState(p, d, s, t, i, j);
    }
  }

  lemma CollapsedState(p: Program, d: iset<nat>, s: State, t: State, i: Instr, j: Instr)
    requires Sim(p, d, s, t) && PushPop(i, j) && (s.pc in d ==> s.pc + 2 in d)
    requires Run(p, s, 2) == Next(SetReg(s, j.dst, s.regs[i.src]).(pc := s.pc + 2))
    requires Rel(p, s.pc + 2, t.pc + |PushPopOut(i, j)|)
    requires i.src != j.dst ==> t.pc < |Peep(p)| && Peep(p)[t.pc] == Mov(Qword64, j.dst, i.src)
    ensures if i.src == j.dst then Run(p, s, 2) == Next(s.(pc := s.pc + 2)) && Sim(p, d, s.(pc := s.pc + 2), t)
            else Agree(p, d, Run(p, s, 2), Step(Peep(p), t))
  {
    hide Effect, Step, Peep, SameReturns, Run, Rel;
    if i.src == j.dst {
      ClipNothing(s);
      SameEntry(s, i.src);
    } else {
      var m := Mov(Qword64, j.dst, i.src);
      StepIsEffect(Peep(p), m, t);
      MovEffect(j.dst, i.src, t);
      MovEffect(j.dst, i.src, s);
      EffectClean(m, s);
      CleanMoved(SetReg(s, j.dst, s.regs[i.src]), s.pc + 2);
      Landed(p, d, s, t, Run(p, s, 2).s, Step(Peep(p), t).s, s.pc + 2, t.pc + 1);
    }
  }

  lemma ReloadWindow(p: Program, d: iset<nat>, s: State, t: State)
    requires AtWindow(p, d, s, t, Reloaded)
    ensures Caught(p, d, s, t, 2)
  {
    hide Effect, Step, Peep, SameReturns, Run, Admissible, Rel, CleanStack;
    var i, j := p[s.pc], p[s.pc + 1];
    StartHere(p, s.pc, t.pc);
    RelStep(p, s.pc, t.pc);
    TwoSteps(p, s, i, j);
    if s.pc in d {
      DeadOverWindow(p, d, s.pc);
    }
    if Effect(i, s).Next? {
      ReloadEffect(i, j, s, s.pc + 1);
      EffectSame(i, s, t);
      EffectClean(i, s);
      StepIsEffect(Peep(p), i, t);
      var s' := Effect(i, s).s.(pc := s.pc + 2);
      CleanMoved(Effect(i, s).s, s.pc + 2);
      Landed(p, d, s, t, s', Step(Peep(p), t).s, s.pc + 2, t.pc + 1);
    }
  }

  lemma StartHere(p: Program, k: nat, k': nat)
    requires Rel(p, k, k') && k < |p| && !p[k].Def?
    ensures Start(p, k)
  {
  }

  lemma OverwriteWindow(p: Program, d: iset<nat>, s: State, t: State)
    requires AtWindow(p, d, s, t, Overwritten)
    ensures Caught(p, d, s, t, 2)
  {
    hide Effect, Step, Peep, SameReturns, Run, Rel, CleanStack, Start, FlagsDead, UniqueLabels;
    var i, j := p[s.pc], p[s.pc + 1];
    StartHere(p, s.pc, t.pc);
    RelStep(p, s.pc, t.pc);
    TwoSteps(p, s, i, j);
    if s.pc in d {
      DeadOverWindow(p, d, s.pc);
    }
    assert i.w.Size() <= j.w.Size();
    hide Admissible;
    if Effect(i, s).Next? {
      OverwriteEffects(i, j, s, s.pc + 1);
      EffectSame(j, s, t);
      StepIsEffect(Peep(p), j, t);
      if Effect(j, s).Next? {
        EffectClean(j, s);
        CleanMoved(Effect(j, s).s, s.pc + 2);
        Landed(p, d, s, t, Effect(j, s).s.(pc := s.pc + 2), Step(Peep(p), t).s, s.pc + 2, t.pc + 1);
      }
    }
  }

  lemma JumpsToNext(p: Program, d: iset<nat>, k: nat)
    requires Admissible(p, d) && k < |p| && RuleOf(p[k..]) == DeadJump
    ensures k + 1 < |p| && p[k].Jmp? && p[k + 1] == Def(p[k].target) && Find(p, p[k].target) == k + 1
  {
    hide FlagsDead, Start;
    var l := p[k].target;
    assert |l| <= LABEL_LIMIT;
    FindUnique(p, l, k + 1);
  }

  lemma JumpDead(p: Program, d: iset<nat>, k: nat)
    requires Admissible(p, d) && k < |p| && RuleOf(p[k..]) == DeadJump && k in d
    ensures k + 2 in d
  {
    hide Admissible;
    JumpsToNext(p, d, k);
    DeadAt(p, d, k);
    DeadNext(p, d, k + 1);
  }

  lemma JumpWindowView(p: Program, d: iset<nat>, s: State, t: State)
    requires AtWindow(p, d, s, t, DeadJump)
    ensures Admissible(p, d) && Sim(p, d, s, t) && Rel(p, s.pc, t.pc) && Same(s, t) && CleanStack(s)
    ensures s.flags == t.flags || s.pc in d
    ensures s.pc < |p| && RuleOf(p[s.pc..]) == DeadJump && RuleOf(p[s.pc..]).Size() == 2
    ensures s.pc + 1 < |p| && RuleOut(p[s.pc..]) == [p[s.pc + 1]]
  {
    hide Rel, SameReturns, Admissible, UpperClear;
  }

  lemma JumpWindow(p: Program, d: iset<nat>, s: State, t: State)
    requires AtWindow(p, d, s, t, DeadJump)
    ensures Caught(p, d, s, t, 2)
  {
    hide *;
    JumpWindowView(p, d, s, t);
    JumpsToNext(p, d, s.pc);
    if s.pc in d {
      JumpDead(p, d, s.pc);
    }
    RelStep(p, s.pc, t.pc);
    JumpsOver(p, s, p[s.pc].target);
    LabelStep(Peep(p), t, p[s.pc].target);
    var s', t' := s.(pc := s.pc + 2), t.(pc := t.pc + 1);
    CleanMoved(s, s.pc + 2);
    SameMoved(s, t, s.pc + 2, t.pc + 1);
    Landed(p, d, s, t, s', t', s.pc + 2, t.pc + 1);
    CaughtIf(p, d, s, t, 2);
  }

  lemma SameMoved(s: State, t: State, k: nat, k': nat)
    requires Same(s, t)
    ensures Same(s.(pc := k), t.(pc := k'))
  {
  }

  lemma CaughtIf(p: Program, d: iset<nat>, s: State, t: State, n: nat)
    requires n in {1, 2} && Agree(p, d, Run(p, s, n), Step(Peep(p), t))
    ensures Caught(p, d, s, t, n)
  {
    hide Agree, Run, Step;
  }

  lemma LabelStep(p: Program, s: State, l: Label)
    requires s.pc < |p| && p[s.pc] == Def(l)
    ensures Step(p, s) == Next(s.(pc := s.pc + 1))
  {
    hide Effect, Step;
    StepIsEffect(p, Def(l), s);
    LabelEffect(l, s);
  }

  lemma JumpsOver(p: Program, s: State, l: Label)
    requires s.pc + 1 < |p| && p[s.pc] == Jmp(l) && p[s.pc + 1] == Def(l) && Find(p, l) == s.pc + 1
    ensures Run(p, s, 2) == Next(s.(pc := s.pc + 2))
  {
    hide Effect, Step, Run;
    JumpState(p, s);
    LabelStep(p, s.(pc := s.pc + 1), l);
    RunTwo(p, s);
  }

  lemma LabelEffect(l: Label, s: State)
    ensures Effect(Def(l), s) == Next(s)
  {
  }

  // ---------------------------------------------------------------- whole runs

  lemma TameLater(p: Program, s: State, n: nat)
    requires Tame(p, s) && Run(p, s, n).Next?
    ensures Tame(p, Run(p, s, n).s) && UpperClear(p, s)
  {
    hide UpperClear;
    assert Run(p, s, 0) == Next(s);
    forall k: nat | Run(p, Run(p, s, n).s, k).Next? ensures UpperClear(p, Run(p, Run(p, s, n).s, k).s) {
      RunAdd(p, s, n, k);
    }
  }

  /** The target cannot stand still for ever: windows without output move the source forward. */
  ghost predicate Settled(p: Program, u: State) {
    u.pc < |p| ==> RuleOut(p[u.pc..]) != []
  }

  lemma {:induction false} Settle(p: Program, d: iset<nat>, s: State, t: State) returns (n: nat)
    requires Sim(p, d, s, t) && Admissible(p, d) && Tame(p, s)
    ensures var o := Run(p, s, n);
            o.Fault? || (o.Next? && Sim(p, d, o.s, t) && Tame(p, o.s) && Settled(p, o.s))
    decreases |p| - s.pc
  {
    hide Sim, Admissible, Tame, Step, Start, RuleOf, RuleOut, UpperClear;
    if Settled(p, s) {
      n := 0;
      return;
    }
    assert Run(p, s, 0) == Next(s);
    TameLater(p, s, 0);
    EmptyWindow(p, s);
    var w := RuleOf(p[s.pc..]).Size();
    if RuleOf(p[s.pc..]) == Dropped {
      DropWindow(p, d, s, t);
      RunOne(p, s);
    } else {
      CollapseWindow(p, d, s, t);
      if Run(p, s, 2).Fault? {
        n := 2;
        return;
      }
    }
    var u := s.(pc := s.pc + w);
    TameLater(p, s, w);
    var k := Settle(p, d, u, t);
    n := w + k;
    RunAdd(p, s, w, k);
  }

  lemma EmptyWindow(p: Program, s: State)
    requires !Settled(p, s)
    ensures s.pc < |p|
    ensures var r := RuleOf(p[s.pc..]);
            (r == Dropped && r.Size() == 1) || (r == Collapsed && r.Size() == 2 && s.pc + 1 < |p| && p[s.pc].Push? && p[s.pc + 1].Pop? && p[s.pc].src == p[s.pc + 1].dst)
  {
  }

  lemma Progress(p: Program, d: iset<nat>, s: State, t: State) returns (n: nat)
    requires Sim(p, d, s, t) && Admissible(p, d) && UpperClear(p, s) && Settled(p, s)
    ensures n >= 1 && (Run(p, s, n).Fault? || Agree(p, d, Run(p, s, n), Step(Peep(p), t)))
  {
    if s.pc >= |p| {
      hide Start, Peep;
      RelEnd(p, s.pc, t.pc);
      RunOne(p, s);
      n := 1;
    } else {
      OutputWindow(p, s);
      hide *;
      n := RuleOf(p[s.pc..]).Size();
      RuleSizes(p, s.pc);
      WindowOf(p, d, s, t, RuleOf(p[s.pc..]));
      match RuleOf(p[s.pc..])
      case Zeroed => ZeroWindow(p, d, s, t); CaughtUp(p, d, s, t, n);
      case Collapsed => CollapseWindow(p, d, s, t);
      case Reloaded => ReloadWindow(p, d, s, t); CaughtUp(p, d, s, t, n);
      case Overwritten => OverwriteWindow(p, d, s, t); CaughtUp(p, d, s, t, n);
      case DeadJump => JumpWindow(p, d, s, t); CaughtUp(p, d, s, t, n);
      case Kept => KeptWindow(p, d, s, t); RunOne(p, s);
    }
  }

  lemma OutputWindow(p: Program, s: State)
    requires Settled(p, s) && s.pc < |p|
    ensures var r := RuleOf(p[s.pc..]);
            r != Dropped && (r == Collapsed ==> s.pc + 1 < |p| && p[s.pc].Push? && p[s.pc + 1].Pop? && p[s.pc].src != p[s.pc + 1].dst)
  {
  }

  lemma RuleSizes(p: Program, k: nat)
    requires k < |p|
    ensures var r := RuleOf(p[k..]); r.Size() == if r in {Zeroed, Dropped, Kept} then 1 else 2
  {
  }

  lemma WindowOf(p: Program, d: iset<nat>, s: State, t: State, r: Rule)
    requires Sim(p, d, s, t) && Admissible(p, d) && UpperClear(p, s) && s.pc < |p| && RuleOf(p[s.pc..]) == r
    ensures AtWindow(p, d, s, t, r)
  {
    hide Sim, Admissible, UpperClear;
  }

  lemma CaughtUp(p: Program, d: iset<nat>, s: State, t: State, n: nat)
    requires Caught(p, d, s, t, n)
    ensures Run(p, s, n).Fault? || Agree(p, d, Run(p, s, n), Step(Peep(p), t))
  {
    hide Run, Agree, Peep, Step;
  }

  ghost predicate Matched(p: Program, d: iset<nat>, s: State, t: State, n: nat, m: nat) {
    Run(p, s, n).Fault? || Agree(p, d, Run(p, s, n), Run(Peep(p), t, m))
  }

  /** Every run of the rewritten program matches a run of the original that is at least as long,
      unless the original faults. */
  lemma {:induction false} PassCorrect(p: Program, d: iset<nat>, s: State, t: State, m: nat) returns (n: nat)
    requires Sim(p, d, s, t) && Admissible(p, d) && Tame(p, s)
    ensures n >= m && Matched(p, d, s, t, n, m)
    decreases m
  {
    hide Sim, Admissible, Tame, Step, Start, UpperClear, Settled, Peep, Run;
    RunNone(p, s);
    RunNone(Peep(p), t);
    if m == 0 {
      n := 0;
      return;
    }
    var a := Settle(p, d, s, t);
    if Run(p, s, a).Fault? {
      n := a + m;
      RunAdd(p, s, a, m);
      return;
    }
    var u := Run(p, s, a).s;
    RunNone(p, u);
    TameLater(p, u, 0);
    var b := Progress(p, d, u, t);
    RunAdd(p, s, a, b);
    RunAdd(p, s, a + b, m);
    RunOne(Peep(p), t);
    RunAdd(Peep(p), t, 1, m - 1);
    if Run(p, u, b).Next? {
      TameLater(p, u, b);
      var k := PassCorrect(p, d, Run(p, u, b).s, Step(Peep(p), t).s, m - 1);
      n := a + b + k;
      RunAdd(p, s, a + b, k);
    } else {
      n := a + b + m;
    }
  }

  lemma RunNone(p: Program, s: State)
    ensures Run(p, s, 0) == Next(s)
  {
  }

  /** A program is entered at its first line with an empty control stack and nothing below rsp. */
  ghost predicate Entry(s: State) {
    s.pc == 0 && s.ctl == [] && CleanStack(s)
  }

  lemma EntrySim(p: Program, d: iset<nat>, s: State)
    requires Entry(s)
    ensures Sim(p, d, s, s)
  {
    assert p[0..] == p && Peep(p)[0..] == Peep(p);
  }

  lemma RunReaches(p: Program, s: State, n: nat)
    ensures Reaches(p, s, Run(p, s, n))
  {
  }

  lemma NoNewFaults(p: Program, d: iset<nat>, s: State, m: nat)
    requires Entry(s) && Admissible(p, d) && Tame(p, s) && !Reaches(p, s, Fault)
    ensures !Run(Peep(p), s, m).Fault?
  {
    EntrySim(p, d, s);
    hide Admissible, Tame, Peep, Run, Step, Sim, Entry, Reaches;
    var n := PassCorrect(p, d, s, s, m);
    RunReaches(p, s, n);
  }

  lemma ResultKept(p: Program, d: iset<nat>, s: State, u: State, k: nat)
    requires Entry(s) && Admissible(p, d) && Tame(p, s) && Run(p, s, k) == Done(u)
    ensures exists v :: Same(u, v) && Run(Peep(p), s, k) == Done(v)
  {
    hide Admissible, Tame, Peep, Run, Step, Sim, Entry, Same;
    EntrySim(p, d, s);
    var n := PassCorrect(p, d, s, s, k);
    RunAdd(p, s, k, n - k);
    assert Run(Peep(p), s, k) == Done(Run(Peep(p), s, k).s);
  }

  lemma ResultFound(p: Program, d: iset<nat>, s: State, v: State, m: nat) returns (u: State)
    requires Entry(s) && Admissible(p, d) && Tame(p, s) && !Reaches(p, s, Fault) && Run(Peep(p), s, m) == Done(v)
    ensures Same(u, v) && Reaches(p, s, Done(u))
  {
    EntrySim(p, d, s);
    hide Admissible, Tame, Peep, Run, Step, Sim, Entry, Same, Reaches;
    var n := PassCorrect(p, d, s, s, m);
    RunReaches(p, s, n);
    u := Run(p, s, n).s;
  }

  /** Termination and final state are preserved in both directions: a program that does not fault
      stops if and only if its rewriting stops, with the same registers and memory. */
  lemma PassPreservesResults(p: Program, d: iset<nat>, s: State)
    requires Entry(s) && Admissible(p, d) && Tame(p, s) && !Reaches(p, s, Fault)
    ensures !Reaches(Peep(p), s, Fault)
    ensures forall u :: Reaches(p, s, Done(u)) ==> exists v :: Same(u, v) && Reaches(Peep(p), s, Done(v))
    ensures forall v :: Reaches(Peep(p), s, Done(v)) ==> exists u :: Same(u, v) && Reaches(p, s, Done(u))
  {
    hide Admissible, Tame, Peep, Run, Same, Entry;
    forall m: nat ensures !Run(Peep(p), s, m).Fault? {
      NoNewFaults(p, d, s, m);
    }
    forall u | Reaches(p, s, Done(u)) ensures exists v :: Same(u, v) && Reaches(Peep(p), s, Done(v)) {
      var k: nat :| Run(p, s, k) == Done(u);
      ResultKept(p, d, s, u, k);
    }
    forall v | Reaches(Peep(p), s, Done(v)) ensures exists u :: Same(u, v) && Reaches(p, s, Done(u)) {
      var m: nat :| Run(Peep(p), s, m) == Done(v);
      var u := ResultFound(p, d, s, v, m);
    }
  }
}
