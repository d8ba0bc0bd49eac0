/** Running the emitted code: a program counter, the words pushed below the frame, and the flag of the last comparison. */
module FlowMachine {
  import opened Options
  import opened Emission
  import opened EmissionLabels
  import opened Flow

  /** rax holds the value of the last work; zero is the flag that cmp leaves. */
  datatype State = State(pc: nat, stack: seq<int>, zero: bool, h: History)

  /** The first place from i on that defines the label. */
  function Find(code: seq<Item>, l: Label, i: nat): (r: Option<nat>)
    requires i <= |code|
    ensures r.Some? ==> i <= r.value < |code| && code[r.value].ins == Def(l)
    decreases |code| - i
  {
    if i == |code| then None else if code[i].ins == Def(l) then Some(i) else Find(code, l, i + 1)
  }

  function TopOf(stack: seq<int>): int {
    if stack == [] then 0 else stack[|stack| - 1]
  }

  function Dropped(stack: seq<int>, k: nat): seq<int> {
    if k <= |stack| then stack[..|stack| - k] else []
  }

  /** cmp with an operand of 8 bytes where wide, else of 4: zero if the difference has no other bits in that width. */
  predicate ComparesEqual(wide: bool, x: int, y: int) {
    (x - y) % (if wide then 0x1_0000_0000_0000_0000 else 0x1_0000_0000) == 0
  }

  function Jumped(code: seq<Item>, st: State, l: Label): Option<State> {
    var t := Find(code, l, 0);
    if t.None? then None else Some(st.(pc := t.value))
  }

  /** One instruction; None after the last one, at a return, and where a jump has no target. */
  function Step(code: seq<Item>, o: Values, st: State): Option<State> {
    if st.pc >= |code| then None
    else
      var i, next := code[st.pc].ins, st.(pc := st.pc + 1);
      match i
      case Plain => Some(next.(h := st.h + [i]))
      case Work(_) => Some(next.(h := st.h + [i]))
      case Call => Some(next.(h := st.h + [i]))
      case Test => Some(next.(zero := o(st.h) == 0))
      case Match(v, wide) => Some(next.(zero := ComparesEqual(wide, TopOf(st.stack), v)))
      case Push => Some(next.(stack := st.stack + [o(st.h)]))
      case Pop => Some(next.(stack := Dropped(st.stack, 1)))
      case Sub(k) => Some(next.(stack := st.stack + seq(k, _ => 0)))
      case Add(k) => Some(next.(stack := Dropped(st.stack, k)))
      case Def(_) => Some(next)
      case Jmp(l) => Jumped(code, st, l)
      case Jcc(l, zero) => if st.zero == zero then Jumped(code, st, l) else Some(next)
      case Ret => None
  }

  function Run(code: seq<Item>, o: Values, st: State, k: nat): Option<State>
    decreases k
  {
    if k == 0 then Some(st)
    else
      var t := Step(code, o, st);
      if t.None? then None else Run(code, o, t.value, k - 1)
  }

  /** After k steps the machine has come from a to b. */
  predicate Arrives(code: seq<Item>, o: Values, a: State, k: nat, b: State) {
    Run(code, o, a, k) == Some(b)
  }

  lemma {:induction false} ArrivesOn(code: seq<Item>, o: Values, a: State, j: nat, b: State, k: nat, c: State)
    requires Arrives(code, o, a, j, b) && Arrives(code, o, b, k, c)
    ensures Arrives(code, o, a, j + k, c)
    decreases j
  {
    hide Step;
    if j > 0 { ArrivesOn(code, o, Step(code, o, a).value, j - 1, b, k, c); }
  }

  lemma ArrivesOne(code: seq<Item>, o: Values, a: State, b: State)
    requires Step(code, o, a) == Some(b)
    ensures Arrives(code, o, a, 1, b)
  {
    hide Step;
    assert Run(code, o, b, 0) == Some(b);
  }

  /** A run that is not over after k steps is not over after fewer. */
  lemma {:induction false} RunsBefore(code: seq<Item>, o: Values, a: State, j: nat, k: nat)
    requires j <= k && Run(code, o, a, k).Some?
    ensures Run(code, o, a, j).Some?
    decreases k
  {
    hide Step;
    if j > 0 { RunsBefore(code, o, Step(code, o, a).value, j - 1, k - 1); }
  }

  // ---------------------------------------------------------------- labels

  /** No label is defined twice. */
  ghost predicate Once(code: seq<Item>) {
    forall l :: Defs(code, l) <= 1
  }

  lemma {:induction false} DefsSome(code: seq<Item>, i: nat, l: Label)
    requires i < |code| && code[i].ins == Def(l)
    ensures Defs(code, l) >= 1
    decreases i
  {
    if i > 0 { DefsSome(code[1..], i - 1, l); }
  }

  lemma {:induction false} FindSome(code: seq<Item>, l: Label, i: nat, j: nat)
    requires i <= j < |code| && code[j].ins == Def(l)
    ensures Find(code, l, i).Some? && Find(code, l, i).value <= j
    decreases j - i
  {
    if i < j { FindSome(code, l, i + 1, j); }
  }

  lemma OnlyDef(code: seq<Item>, l: Label, i: nat, j: nat)
    requires i < j < |code| && code[i].ins == Def(l) && code[j].ins == Def(l)
    ensures Defs(code, l) >= 2
  {
    var a, b := code[..i + 1], code[i + 1..];
    assert a + b == code && a[i] == code[i] && b[j - i - 1] == code[j];
    DefsAppend(a, b, l);
    DefsSome(a, i, l);
    DefsSome(b, j - i - 1, l);
  }

  /** A label is found where it stands. */
  lemma FindIs(code: seq<Item>, l: Label, j: nat)
    requires Once(code) && j < |code| && code[j].ins == Def(l)
    ensures Find(code, l, 0) == Some(j)
  {
    hide Find, Defs;
    FindSome(code, l, 0, j);
    var i := Find(code, l, 0).value;
    if i < j { OnlyDef(code, l, i, j); }
  }

  // ---------------------------------------------------------------- code in its place

  /** The piece stands in the code from p on. */
  predicate Here(code: seq<Item>, p: nat, piece: seq<Item>) {
    p + |piece| <= |code| && code[p..p + |piece|] == piece
  }

  lemma HereParts(code: seq<Item>, p: nat, a: seq<Item>, b: seq<Item>)
    requires Here(code, p, a + b)
    ensures Here(code, p, a) && Here(code, p + |a|, b)
  {
    var c := code[p..p + |a + b|];
    assert code[p..p + |a|] == c[..|a|] && code[p + |a|..p + |a| + |b|] == c[|a|..];
  }

  lemma HereAt(code: seq<Item>, p: nat, piece: seq<Item>, i: nat)
    requires Here(code, p, piece) && i < |piece|
    ensures p + i < |code| && code[p + i] == piece[i]
  {
    assert code[p..p + |piece|][i] == piece[i];
  }

  // ---------------------------------------------------------------- straight code

  predicate Straight(code: seq<Item>) {
    forall i :: 0 <= i < |code| ==> !code[i].ins.Jmp? && !code[i].ins.Jcc? && !code[i].ins.Ret?
  }

  predicate Effect(i: Ins) {
    i.Plain? || i.Work? || i.Call?
  }

  function Effects(code: seq<Item>): History {
    if code == [] then [] else (if Effect(code[0].ins) then [code[0].ins] else []) + Effects(code[1..])
  }

  /** Straight code runs to its end and adds its effects. */
  lemma {:induction false} StraightRuns(code: seq<Item>, o: Values, p: nat, piece: seq<Item>, st: State) returns (t: State)
    requires Here(code, p, piece) && Straight(piece) && st.pc == p
    ensures Arrives(code, o, st, |piece|, t) && t.pc == p + |piece| && t.h == st.h + Effects(piece)
    decreases |piece|
  {
    if piece == [] {
      t := st;
    } else {
      HereAt(code, p, piece, 0);
      var s := Step(code, o, st).value;
      assert piece == [piece[0]] + piece[1..];
      HereParts(code, p, [piece[0]], piece[1..]);
      t := StraightRuns(code, o, p + 1, piece[1..], s);
      ArrivesOne(code, o, st, s);
      hide Step, Run;
      ArrivesOn(code, o, st, 1, s, |piece[1..]|, t);
    }
  }

  /** One instruction that neither jumps nor works. */
  lemma QuietStep(code: seq<Item>, o: Values, st: State) returns (t: State)
    requires st.pc < |code| && var i := code[st.pc].ins; i.Def? || i.Push? || i.Pop? || i.Sub? || i.Add? || i.Test? || i.Match?
    ensures Arrives(code, o, st, 1, t) && t.pc == st.pc + 1 && t.h == st.h
    ensures code[st.pc].ins == Test ==> t.zero == (o(st.h) == 0)
    ensures code[st.pc].ins.Def? || code[st.pc].ins == Test || code[st.pc].ins.Match? ==> t.stack == st.stack
    ensures code[st.pc].ins == Push ==> t.stack == st.stack + [o(st.h)]
    ensures code[st.pc].ins.Match? ==> t.zero == ComparesEqual(code[st.pc].ins.wide, TopOf(st.stack), code[st.pc].ins.value)
  {
    t := Step(code, o, st).value;
    ArrivesOne(code, o, st, t);
  }

  lemma WorkStep(code: seq<Item>, o: Values, st: State) returns (t: State)
    requires st.pc < |code| && Effect(code[st.pc].ins)
    ensures Arrives(code, o, st, 1, t) && t.pc == st.pc + 1 && t.h == st.h + [code[st.pc].ins]
  {
    t := Step(code, o, st).value;
    ArrivesOne(code, o, st, t);
  }

  lemma JumpStep(code: seq<Item>, o: Values, st: State) returns (t: State)
    requires st.pc < |code| && code[st.pc].ins.Jmp? && Find(code, code[st.pc].ins.l, 0).Some?
    ensures Arrives(code, o, st, 1, t) && Some(t.pc) == Find(code, code[st.pc].ins.l, 0) && t.h == st.h && t.stack == st.stack
  {
    t := Step(code, o, st).value;
    ArrivesOne(code, o, st, t);
  }

  lemma BranchStep(code: seq<Item>, o: Values, st: State) returns (t: State)
    requires st.pc < |code| && code[st.pc].ins.Jcc? && Find(code, code[st.pc].ins.l, 0).Some?
    ensures Arrives(code, o, st, 1, t) && t.h == st.h && t.stack == st.stack
    ensures if st.zero == code[st.pc].ins.zero then Some(t.pc) == Find(code, code[st.pc].ins.l, 0) else t.pc == st.pc + 1
  {
    t := Step(code, o, st).value;
    ArrivesOne(code, o, st, t);
  }
}
