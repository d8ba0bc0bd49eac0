/** The six built-in patterns of the peephole pass over instructions
    (peephole_builtin_patterns in src/peephole.c).
 */
module PeepholeRules {
  import opened Options
  import opened Machine
  import opened Peephole

  // rsp and rbp are missing from the table of zeroed registers, and so are r8d to r15d.
  predicate ZeroMov(i: Instr) {
    i.MovImm? && i.imm == 0 &&
    ((i.w == Qword64 && i.dst !in {RSP, RBP}) || (i.w == Dword32 && i.dst in {RAX, RBX, RCX, RDX, RSI, RDI}))
  }

  predicate SelfMove(i: Instr) {
    i.Mov? && i.dst == i.src
  }

  predicate PushPop(i: Instr, j: Instr) {
    i.Push? && j.Pop?
  }

  // The parsers copy the offset into a buffer of 16 characters.
  const OFFSET_LIMIT := 1_000_000_000_000_000

  predicate SlotStore(i: Instr) {
    i.Store? && i.base == RBP && -OFFSET_LIMIT < i.disp <= 0
  }

  predicate StoreReload(i: Instr, j: Instr) {
    SlotStore(i) && j == Load(i.w, i.src, RBP, i.disp)
  }

  predicate StoreStore(i: Instr, j: Instr) {
    SlotStore(i) && SlotStore(j) && i.disp == j.disp
  }

  // The jump target is copied into a buffer of 64 characters and cut off there.
  const LABEL_LIMIT := 63

  function CutLabel(l: Label): Label {
    if |l| <= LABEL_LIMIT then l else l[..LABEL_LIMIT]
  }

  predicate JumpToNext(i: Instr, j: Instr) {
    i.Jmp? && j.Def? && |j.name| <= LABEL_LIMIT && CutLabel(i.target) == j.name
  }

  function PushPopOut(i: Instr, j: Instr): Program
    requires PushPop(i, j)
  {
    if i.src == j.dst then [] else [Mov(Qword64, j.dst, i.src)]
  }

  function One(test: Instr -> bool, out: Instr -> Program): Pattern<Instr> {
    Pattern(1, (win: Program) => |win| == 1 && test(win[0]), (win: Program) => if |win| == 1 then out(win[0]) else [])
  }

  function Two(test: (Instr, Instr) -> bool, out: (Instr, Instr) -> Program): Pattern<Instr> {
    Pattern(2, (win: Program) => |win| == 2 && test(win[0], win[1]),
            (win: Program) => if |win| == 2 then out(win[0], win[1]) else [])
  }

  const TABLE: seq<Pattern<Instr>> := [
    One(i => ZeroMov(i), i => if ZeroMov(i) then [Alu(Xor, Dword32, i.dst, i.dst)] else []),
    One(i => SelfMove(i), i => []),
    Two((i, j) => PushPop(i, j), (i, j) => if PushPop(i, j) then PushPopOut(i, j) else []),
    Two((i, j) => StoreReload(i, j), (i, j) => [i]),
    Two((i, j) => StoreStore(i, j), (i, j) => [j]),
    Two((i, j) => JumpToNext(i, j), (i, j) => [j])
  ]

  /** Which pattern fires at the head of the remaining code. */
  datatype Rule = Zeroed | Dropped | Collapsed | Reloaded | Overwritten | DeadJump | Kept {
    function Size(): nat {
      if this in {Zeroed, Dropped, Kept} then 1 else 2
    }
  }

  function RuleOf(c: Program): (r: Rule)
    ensures r.Size() == 2 ==> |c| >= 2
  {
    if c == [] then Kept
    else if ZeroMov(c[0]) then Zeroed
    else if SelfMove(c[0]) then Dropped
    else if |c| == 1 then Kept
    else if PushPop(c[0], c[1]) then Collapsed
    else if StoreReload(c[0], c[1]) then Reloaded
    else if StoreStore(c[0], c[1]) then Overwritten
    else if JumpToNext(c[0], c[1]) then DeadJump
    else Kept
  }

  function RuleOut(c: Program): (out: Program)
    requires c != []
    ensures |out| <= 1
  {
    match RuleOf(c)
    case Zeroed => [Alu(Xor, Dword32, c[0].dst, c[0].dst)]
    case Dropped => []
    case Collapsed => PushPopOut(c[0], c[1])
    case Reloaded => [c[0]]
    case Overwritten => [c[1]]
    case DeadJump => [c[1]]
    case Kept => [c[0]]
  }

  lemma TableValid()
    ensures ValidTable(TABLE)
  {
    forall p | p in TABLE ensures ValidPattern(p) {
    }
  }

  function Peep(c: Program): Program {
    TableValid();
    Rewrite(TABLE, c)
  }

  lemma TableFires(c: Program)
    requires c != []
    ensures TABLE[0].Fires(c) == ZeroMov(c[0]) && TABLE[1].Fires(c) == SelfMove(c[0])
    ensures TABLE[2].Fires(c) == (|c| >= 2 && PushPop(c[0], c[1])) && TABLE[3].Fires(c) == (|c| >= 2 && StoreReload(c[0], c[1]))
    ensures TABLE[4].Fires(c) == (|c| >= 2 && StoreStore(c[0], c[1])) && TABLE[5].Fires(c) == (|c| >= 2 && JumpToNext(c[0], c[1]))
  {
    hide ZeroMov, SelfMove, PushPop, StoreReload, StoreStore, JumpToNext;
    assert c[..1][0] == c[0];
    assert |c| >= 2 ==> c[..2][0] == c[0] && c[..2][1] == c[1];
  }

  lemma TableRule(c: Program)
    requires c != []
    ensures ValidTable(TABLE)
    ensures Consumed(TABLE, c) == RuleOf(c).Size() && Produced(TABLE, c) == RuleOut(c)
  {
    TableValid();
    TableFires(c);
    var t := TABLE;
    assert c[..1][0] == c[0];
    assert |c| >= 2 ==> c[..2][0] == c[0] && c[..2][1] == c[1];
    assert FirstMatch(t, c) == FirstFrom(t, c, 0);
    hide ZeroMov, SelfMove, PushPop, StoreReload, StoreStore, JumpToNext;
    assert FirstFrom(t, c, 1) == if t[1].Fires(c) then Some(t[1]) else FirstFrom(t, c, 2);
    assert FirstFrom(t, c, 3) == if t[3].Fires(c) then Some(t[3]) else FirstFrom(t, c, 4);
    assert FirstFrom(t, c, 5) == if t[5].Fires(c) then Some(t[5]) else None;
  }

  lemma PeepStep(c: Program)
    ensures c == [] ==> Peep(c) == []
    ensures c != [] ==> Peep(c) == RuleOut(c) + Peep(c[RuleOf(c).Size()..])
  {
    if c != [] {
      TableRule(c);
    }
  }
}
