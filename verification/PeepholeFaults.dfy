/** Faults survive the pass: a program that faults is rewritten into one that faults, unless the fault is a stack
    overflow at a push that the pass removes. */
module PeepholeFaults {
  import opened Machine
  import opened PeepholeRules
  import opened PeepholeCorrect
  import opened PeepholeWindows
  import opened PeepholeTheorem

  /** A push that the pass is about to remove has room. */
  ghost predicate PushRoom(p: Program, s: State) {
    s.pc < |p| && RuleOf(p[s.pc..]) == Collapsed ==> !Step(p, s).Fault?
  }

  ghost predicate Roomy(p: Program, s: State) {
    forall n: nat :: Run(p, s, n).Next? ==> PushRoom(p, Run(p, s, n).s)
  }

  lemma RoomyLater(p: Program, s: State, n: nat)
    requires Roomy(p, s) && Run(p, s, n).Next?
    ensures Roomy(p, Run(p, s, n).s) && PushRoom(p, s)
  {
    hide PushRoom;
    assert Run(p, s, 0) == Next(s);
    forall k: nat | Run(p, Run(p, s, n).s, k).Next? ensures PushRoom(p, Run(p, Run(p, s, n).s, k).s) {
      RunAdd(p, s, n, k);
    }
  }

  // ---------------------------------------------------------------- one window

  lemma KeptFaults(p: Program, d: iset<nat>, s: State, t: State)
    requires Sim(p, d, s, t) && Admissible(p, d) && s.pc < |p| && RuleOf(p[s.pc..]) == Kept && Step(p, s).Fault?
    ensures Step(Peep(p), t).Fault?
  {
    hide *;
    if p[s.pc].Jmp? || p[s.pc].Jcc? {
      JumpView(p, d, s, t);
      RelStep(p, s.pc, t.pc);
      JumpState(p, s);
      JumpState(Peep(p), t);
      JumpRel(p, p[s.pc].target);
      SameTaken(p[s.pc], s, t);
    } else if p[s.pc].Call? {
      CallView(p, d, s, t);
      RelStep(p, s.pc, t.pc);
      CalledState(p, s);
      CalledState(Peep(p), t);
      JumpRel(p, p[s.pc].target);
    } else if p[s.pc].Ret? {
      ReturnView(p, d, s, t);
      RelStep(p, s.pc, t.pc);
      ReturnedState(p, s);
      ReturnedState(Peep(p), t);
      SameParts(s, t);
    } else {
      PlainInstr(p[s.pc]);
      PlainFaults(p, d, s, t, p[s.pc]);
    }
  }

  lemma SameTaken(i: Instr, s: State, t: State)
    requires (i.Jmp? || i.Jcc?) && (i.Jcc? ==> s.flags == t.flags)
    ensures Taken(i, s.flags) == Taken(i, t.flags)
  {
  }

  lemma SameParts(s: State, t: State)
    requires Same(s, t)
    ensures s.regs == t.regs && s.lim == t.lim
  {
  }

  lemma PlainFaults(p: Program, d: iset<nat>, s: State, t: State, i: Instr)
    requires Sim(p, d, s, t) && Admissible(p, d) && s.pc < |p| && RuleOf(p[s.pc..]) == Kept
    requires i == p[s.pc] && !IsControl(i) && Step(p, s).Fault?
    ensures Step(Peep(p), t).Fault?
  {
    hide Effect, Step, Start, Peep, Admissible, Sync, CleanStack, Find;
    RelStep(p, s.pc, t.pc);
    StepIsEffect(p, i, s);
    StepIsEffect(Peep(p), i, t);
    if s.pc in d { DeadAt(p, d, s.pc); }
    EffectSame(i, s, t);
  }

  lemma ReloadFaults(p: Program, d: iset<nat>, s: State, t: State)
    requires AtWindow(p, d, s, t, Reloaded) && Run(p, s, 2).Fault?
    ensures Step(Peep(p), t).Fault?
  {
    hide Effect, Step, Peep, SameReturns, Run, Admissible, Rel, CleanStack;
    var i, j := p[s.pc], p[s.pc + 1];
    StartHere(p, s.pc, t.pc);
    RelStep(p, s.pc, t.pc);
    TwoSteps(p, s, i, j);
    if Effect(i, s).Next? {
      ReloadEffect(i, j, s, s.pc + 1);
    } else {
      EffectSame(i, s, t);
      StepIsEffect(Peep(p), i, t);
    }
  }

  lemma StoreFaults(i: Instr, j: Instr, s: State)
    requires StoreStore(i, j) && i.w.Size() <= j.w.Size() && Effect(i, s).Fault?
    ensures Effect(j, s).Fault?
  {
  }

  lemma OverwriteFaults(p: Program, d: iset<nat>, s: State, t: State)
    requires AtWindow(p, d, s, t, Overwritten) && Run(p, s, 2).Fault?
    ensures Step(Peep(p), t).Fault?
  {
    hide Effect, Step, Peep, SameReturns, Run, Rel, CleanStack, Start, FlagsDead, UniqueLabels;
    var i, j := p[s.pc], p[s.pc + 1];
    StartHere(p, s.pc, t.pc);
    RelStep(p, s.pc, t.pc);
    TwoSteps(p, s, i, j);
    assert i.w.Size() <= j.w.Size();
    hide Admissible;
    if Effect(i, s).Next? { OverwriteEffects(i, j, s, s.pc + 1); } else { StoreFaults(i, j, s); }
    EffectSame(j, s, t);
    StepIsEffect(Peep(p), j, t);
  }

  lemma ZeroNoFault(p: Program, d: iset<nat>, s: State, t: State)
    requires AtWindow(p, d, s, t, Zeroed)
    ensures !Run(p, s, 1).Fault?
  {
    hide Effect, Step, Peep, Rel, SameReturns, CleanStack, Run, UniqueLabels, FlagsDead, Start;
    StepIsEffect(p, p[s.pc], s);
    ZeroEffects(p[s.pc], s);
    RunOne(p, s);
  }

  lemma CollapseNoFault(p: Program, d: iset<nat>, s: State, t: State)
    requires AtWindow(p, d, s, t, Collapsed) && PushRoom(p, s)
    ensures !Run(p, s, 2).Fault?
  {
    hide Effect, Step, Peep, SameReturns, Run, Start, Admissible, Rel;
    var i, j := p[s.pc], p[s.pc + 1];
    TwoSteps(p, s, i, j);
    StepIsEffect(p, i, s);
    if Effect(i, s).Next? { CollapseEffects(i, j, s, s.pc + 1); }
  }

  lemma JumpNoFault(p: Program, d: iset<nat>, s: State, t: State)
    requires AtWindow(p, d, s, t, DeadJump)
    ensures !Run(p, s, 2).Fault?
  {
    hide *;
    JumpWindowView(p, d, s, t);
    JumpsToNext(p, d, s.pc);
    JumpsOver(p, s, p[s.pc].target);
  }

  /** The source faults inside its window, so the target does at its output. */
  lemma WindowFaults(p: Program, d: iset<nat>, s: State, t: State)
    requires Sim(p, d, s, t) && Admissible(p, d) && UpperClear(p, s) && PushRoom(p, s) && s.pc < |p| && RuleOf(p[s.pc..]) != Dropped
    requires Run(p, s, RuleOf(p[s.pc..]).Size()).Fault?
    ensures Step(Peep(p), t).Fault?
  {
    hide *;
    RuleSizes(p, s.pc);
    WindowOf(p, d, s, t, RuleOf(p[s.pc..]));
    match RuleOf(p[s.pc..])
    case Zeroed => ZeroNoFault(p, d, s, t);
    case Collapsed => CollapseNoFault(p, d, s, t);
    case Reloaded => ReloadFaults(p, d, s, t);
    case Overwritten => OverwriteFaults(p, d, s, t);
    case DeadJump => JumpNoFault(p, d, s, t);
    case Kept => RunOne(p, s); KeptFaults(p, d, s, t);
    case Dropped =>
  }

  // ---------------------------------------------------------------- whole runs

  lemma NoFaultAtEnd(p: Program, s: State, n: nat)
    requires Run(p, s, n).Fault?
    ensures s.pc < |p| && n > 0
  {
    hide Effect, Transfer;
  }

  /** A run that faults after n steps has not stopped before, nor faulted if it can go on. */
  lemma FaultLater(p: Program, s: State, n: nat, w: nat)
    requires Run(p, s, n).Fault? && !Run(p, s, w).Fault?
    ensures w < n && Run(p, s, w).Next? && Run(p, Run(p, s, w).s, n - w).Fault?
  {
    hide Run, Step;
    if w < n { RunAdd(p, s, w, n - w); } else { RunAdd(p, s, n, w - n); }
  }

  lemma CollapsedOut(p: Program, k: nat)
    requires k < |p|
    ensures RuleOf(p[k..]) == Collapsed ==> k + 1 < |p| && p[k].Push? && p[k + 1].Pop? && (RuleOut(p[k..]) == [] <==> p[k].src == p[k + 1].dst)
  {
  }

  /** What a window without a fault leads to: the target stands still, or makes one step to a matching state. */
  lemma WindowRuns(p: Program, d: iset<nat>, s: State, t: State) returns (still: bool)
    requires Sim(p, d, s, t) && Admissible(p, d) && UpperClear(p, s) && s.pc < |p|
    requires Run(p, s, RuleOf(p[s.pc..]).Size()).Next?
    ensures var o := Run(p, s, RuleOf(p[s.pc..]).Size());
      if still then Sim(p, d, o.s, t) else Agree(p, d, o, Step(Peep(p), t))
  {
    hide *;
    RuleSizes(p, s.pc);
    var r := RuleOf(p[s.pc..]);
    WindowOf(p, d, s, t, r);
    RunOne(p, s);
    still := r == Dropped || (r == Collapsed && RuleOut(p[s.pc..]) == []);
    CollapsedOut(p, s.pc);
    match r
    case Zeroed => ZeroWindow(p, d, s, t); CaughtUp(p, d, s, t, 1);
    case Dropped => DropWindow(p, d, s, t);
    case Collapsed => CollapseWindow(p, d, s, t);
    case Reloaded => ReloadWindow(p, d, s, t); CaughtUp(p, d, s, t, 2);
    case Overwritten => OverwriteWindow(p, d, s, t); CaughtUp(p, d, s, t, 2);
    case DeadJump => JumpWindow(p, d, s, t); CaughtUp(p, d, s, t, 2);
    case Kept => KeptWindow(p, d, s, t);
  }

  lemma {:induction false} FaultFollows(p: Program, d: iset<nat>, s: State, t: State, n: nat) returns (m: nat)
    requires Sim(p, d, s, t) && Admissible(p, d) && Tame(p, s) && Roomy(p, s) && Run(p, s, n).Fault?
    ensures Run(Peep(p), t, m).Fault?
    decreases n
  {
    hide Sim, Admissible, Tame, Roomy, Run, Step, UpperClear, PushRoom, RuleOf, Peep, Agree;
    NoFaultAtEnd(p, s, n);
    RunNone(p, s);
    TameLater(p, s, 0);
    RoomyLater(p, s, 0);
    RuleSizes(p, s.pc);
    var w := RuleOf(p[s.pc..]).Size();
    RunOne(Peep(p), t);
    if Run(p, s, w).Fault? {
      if RuleOf(p[s.pc..]) == Dropped {
        DroppedRuns(p, d, s, t);
      } else {
        WindowFaults(p, d, s, t);
      }
      m := 1;
    } else {
      FaultLater(p, s, n, w);
      var u := Run(p, s, w).s;
      TameLater(p, s, w);
      RoomyLater(p, s, w);
      var still := WindowRuns(p, d, s, t);
      if still {
        m := FaultFollows(p, d, u, t, n - w);
      } else {
        AgreeNext(p, d, u, Step(Peep(p), t));
        var k := FaultFollows(p, d, u, Step(Peep(p), t).s, n - w);
        m := 1 + k;
        RunAdd(Peep(p), t, 1, k);
      }
    }
  }

  lemma AgreeNext(p: Program, d: iset<nat>, s: State, o: Outcome)
    requires Agree(p, d, Next(s), o)
    ensures o.Next? && Sim(p, d, s, o.s)
  {
    hide Sim;
  }

  lemma DroppedRuns(p: Program, d: iset<nat>, s: State, t: State)
    requires Sim(p, d, s, t) && Admissible(p, d) && UpperClear(p, s) && s.pc < |p| && RuleOf(p[s.pc..]) == Dropped
    ensures !Run(p, s, 1).Fault?
  {
    hide *;
    WindowOf(p, d, s, t, Dropped);
    DropWindow(p, d, s, t);
    RunOne(p, s);
  }

  /** A program that faults still faults after the pass, if no push that the pass removes overflows the stack. */
  lemma FaultKept(p: Program, d: iset<nat>, s: State)
    requires Entry(s) && Admissible(p, d) && Tame(p, s) && Roomy(p, s) && Reaches(p, s, Fault)
    ensures Reaches(Peep(p), s, Fault)
  {
    hide Admissible, Tame, Roomy, Peep, Run, Sim, Entry;
    EntrySim(p, d, s);
    var n: nat :| Run(p, s, n) == Fault;
    var m := FaultFollows(p, d, s, s, n);
    assert Run(Peep(p), s, m) == Fault;
  }

  /** Faulting is preserved in both directions. */
  lemma FaultsExact(p: Program, d: iset<nat>, s: State)
    requires Entry(s) && Admissible(p, d) && Tame(p, s) && Roomy(p, s)
    ensures Reaches(p, s, Fault) <==> Reaches(Peep(p), s, Fault)
  {
    hide *;
    if Reaches(p, s, Fault) { FaultKept(p, d, s); } else { PassPreservesResults(p, d, s); }
  }
}
