/** What the peephole pass does to each kind of window, register by number, and to everything else. */
module PeepholeEquations {
  import opened Options
  import opened Machine
  import opened Peephole
  import opened PeepholeRules
  import opened Numerals
  import opened AsmText
  import opened PeepholeText

  lemma Head(a: Program, c: Program)
    requires 1 <= |a| <= 2
    ensures (a + c)[0] == a[0] && (|a| == 2 ==> (a + c)[1] == a[1]) && (a + c)[|a|..] == c
  {
  }

  /** Moving zero becomes xor, except into rsp (4), rbp (5) and the 32-bit names of r8 to r15. */
  lemma ZeroBecomesXor(w: Width, r: Reg, c: Program)
    requires r != 4 && r != 5 && (w == Qword64 || (w == Dword32 && r < 8))
    ensures Peep([MovImm(w, r, 0)] + c) == [Alu(Xor, Dword32, r, r)] + Peep(c)
  {
    Head([MovImm(w, r, 0)], c);
    PeepStep([MovImm(w, r, 0)] + c);
  }

  lemma SelfMoveDropped(w: Width, r: Reg, c: Program)
    ensures Peep([Mov(w, r, r)] + c) == Peep(c)
  {
    Head([Mov(w, r, r)], c);
    PeepStep([Mov(w, r, r)] + c);
    assert [] + Peep(c) == Peep(c);
  }

  /** A push and the pop after it become one move, or nothing where they name one register. */
  lemma PushPopBecomesMove(a: Reg, b: Reg, c: Program)
    ensures Peep([Push(a), Pop(b)] + c) == (if a == b then [] else [Mov(Qword64, b, a)]) + Peep(c)
  {
    Head([Push(a), Pop(b)], c);
    PeepStep([Push(a), Pop(b)] + c);
  }

  /** A slot is [rbp - n] with at most fifteen digits. */
  lemma ReloadDropped(w: Width, d: int, r: Reg, c: Program)
    requires -1_000_000_000_000_000 < d <= 0
    ensures Peep([Store(w, 5, d, r), Load(w, r, 5, d)] + c) == [Store(w, 5, d, r)] + Peep(c)
  {
    var all := [Store(w, 5, d, r), Load(w, r, 5, d)] + c;
    Head([Store(w, 5, d, r), Load(w, r, 5, d)], c);
    assert RuleOf(all) == Reloaded;
    hide RuleOf, Peep;
    PeepStep(all);
  }

  lemma FirstStoreDropped(w: Width, d: int, r: Reg, w': Width, r': Reg, c: Program)
    requires -1_000_000_000_000_000 < d <= 0
    ensures Peep([Store(w, 5, d, r), Store(w', 5, d, r')] + c) == [Store(w', 5, d, r')] + Peep(c)
  {
    var all := [Store(w, 5, d, r), Store(w', 5, d, r')] + c;
    Head([Store(w, 5, d, r), Store(w', 5, d, r')], c);
    assert RuleOf(all) == Overwritten;
    hide RuleOf, Peep;
    PeepStep(all);
  }

  lemma JumpToNextDropped(l: Label, c: Program)
    requires |l| <= 63
    ensures Peep([Jmp(l), Def(l)] + c) == [Def(l)] + Peep(c)
  {
    var all := [Jmp(l), Def(l)] + c;
    Head([Jmp(l), Def(l)], c);
    assert RuleOf(all) == DeadJump;
    hide RuleOf, Peep;
    PeepStep(all);
  }

  /** Whether an instruction starts a window that changes, by what follows it. */
  predicate Changes(i: Instr, next: Option<Instr>) {
    match i
    case MovImm(w, r, v) => v == 0 && r != 4 && r != 5 && (w == Qword64 || (w == Dword32 && r < 8))
    case Mov(_, a, b) => a == b
    case Push(_) => next.Some? && next.value.Pop?
    case Store(w, b, d, r) =>
      b == 5 && -1_000_000_000_000_000 < d <= 0 && next.Some?
      && (next.value == Load(w, r, 5, d) || (next.value.Store? && next.value.base == 5 && next.value.disp == d))
    case Jmp(l) => next.Some? && next.value.Def? && |next.value.name| <= 63 && next.value.name == if |l| <= 63 then l else l[..63]
    case _ => false
  }

  function Next(c: Program, i: nat): Option<Instr> {
    if i + 1 < |c| then Some(c[i + 1]) else None
  }

  lemma RuleExact(c: Program)
    requires c != []
    ensures (RuleOf(c) == Kept) <==> !Changes(c[0], Next(c, 0))
  {
  }

  lemma OthersKept(c: Program)
    requires c != [] && !Changes(c[0], Next(c, 0))
    ensures Peep(c) == [c[0]] + Peep(c[1..])
  {
    RuleExact(c);
    PeepStep(c);
    hide RuleOf, Peep;
  }

  lemma {:induction false} NeverLonger(c: Program)
    ensures |Peep(c)| <= |c|
    decreases |c|
  {
    PeepStep(c);
    if c != [] {
      hide RuleOf, Peep, RuleOut;
      NeverLonger(c[RuleOf(c).Size()..]);
    }
  }

  /** The pass leaves code as it is exactly if no window of it changes. */
  lemma {:induction false} UnchangedExact(c: Program)
    ensures Peep(c) == c <==> forall i :: 0 <= i < |c| ==> !Changes(c[i], Next(c, i))
    decreases |c|
  {
    hide Peep, Changes;
    PeepStep([]);
    if c != [] {
      var d := c[1..];
      assert forall i :: 0 <= i < |d| ==> d[i] == c[i + 1] && Next(d, i) == Next(c, i + 1);
      assert c == [c[0]] + d;
      if Changes(c[0], Next(c, 0)) {
        HeadChanges(c);
      } else {
        OthersKept(c);
        UnchangedExact(d);
        assert ([c[0]] + Peep(d))[1..] == Peep(d);
        Shifted(c);
      }
    }
  }

  lemma Shifted(c: Program)
    requires c != [] && !Changes(c[0], Next(c, 0))
    ensures (forall i :: 0 <= i < |c| ==> !Changes(c[i], Next(c, i))) <==> (forall i :: 0 <= i < |c[1..]| ==> !Changes(c[1..][i], Next(c[1..], i)))
  {
    hide Changes;
    var d := c[1..];
    if forall i :: 0 <= i < |d| ==> !Changes(d[i], Next(d, i)) {
      forall i | 0 <= i < |c|
        ensures !Changes(c[i], Next(c, i))
      {
        if i > 0 { assert d[i - 1] == c[i] && Next(d, i - 1) == Next(c, i); }
      }
    } else {
      var i :| 0 <= i < |d| && Changes(d[i], Next(d, i));
      assert d[i] == c[i + 1] && Next(d, i) == Next(c, i + 1);
    }
  }

  lemma HeadChanges(c: Program)
    requires c != [] && Changes(c[0], Next(c, 0))
    ensures Peep(c) != c
  {
    RuleExact(c);
    PeepStep(c);
    NeverLonger(c[RuleOf(c).Size()..]);
    hide Peep;
    if RuleOf(c) == Zeroed { assert Peep(c)[0] != c[0]; }
  }

  // ---------------------------------------------------------------- a listing

  /** The names of register r in its four widths. */
  lemma RegisterNames(r: Reg)
    ensures RegName(Qword64, r) ==
      ["rax", "rcx", "rdx", "rbx", "rsp", "rbp", "rsi", "rdi", "r8", "r9", "r10", "r11", "r12", "r13", "r14", "r15"][r]
    ensures RegName(Dword32, r) ==
      ["eax", "ecx", "edx", "ebx", "esp", "ebp", "esi", "edi", "r8d", "r9d", "r10d", "r11d", "r12d", "r13d", "r14d", "r15d"][r]
    ensures RegName(Half16, r) ==
      ["ax", "cx", "dx", "bx", "sp", "bp", "si", "di", "r8w", "r9w", "r10w", "r11w", "r12w", "r13w", "r14w", "r15w"][r]
    ensures RegName(Byte8, r) ==
      ["al", "cl", "dl", "bl", "spl", "bpl", "sil", "dil", "r8b", "r9b", "r10b", "r11b", "r12b", "r13b", "r14b", "r15b"][r]
  {
  }

  lemma ZeroLines()
    ensures Render(MovImm(Dword32, RAX, 0)) == "    mov eax, 0"
    ensures Render(MovImm(Qword64, 9, 0)) == "    mov r9, 0"
  {
    assert Decimal(0) == "0";
  }

  lemma MoveLines()
    ensures Render(Mov(Qword64, RBX, RBX)) == "    mov rbx, rbx"
    ensures Render(Mov(Qword64, RCX, RAX)) == "    mov rcx, rax"
  {
    assert RegName(Qword64, RBX) == "rbx" && RegName(Qword64, RCX) == "rcx" && RegName(Qword64, RAX) == "rax";
    hide RegName;
  }

  lemma XorLines()
    ensures Render(Alu(Xor, Dword32, RAX, RAX)) == "    xor eax, eax"
    ensures Render(Alu(Xor, Dword32, 9, 9)) == "    xor r9d, r9d"
  {
    assert RegName(Dword32, RAX) == "eax" && RegName(Dword32, 9) == "r9d";
    hide RegName;
  }

  lemma StackLines()
    ensures Render(Push(RAX)) == "    push rax" && Render(Pop(RCX)) == "    pop rcx"
  {
    assert RegName(Qword64, RCX) == "rcx" && RegName(Qword64, RAX) == "rax";
    hide RegName;
  }

  lemma LabelLines()
    ensures Render(Jmp(".L_end")) == "    jmp .L_end" && Render(Def(".L_end")) == ".L_end:"
  {
  }

  lemma RetLine()
    ensures Render(Ret) == "    ret"
  {
  }

  lemma SlotIs()
    ensures MemText(RBP, -8) == "[rbp - 8]"
  {
    assert Decimal(8) == "8";
  }

  lemma FirstSlotLine()
    ensures Render(Store(Dword32, RBP, -8, RAX)) == "    mov [rbp - 8], eax"
  {
    SlotIs();
    hide MemText;
    assert RegName(Dword32, RAX) == "eax";
  }

  lemma LoadSlotLine()
    ensures Render(Load(Dword32, RAX, RBP, -8)) == "    mov eax, [rbp - 8]"
  {
    SlotIs();
    hide MemText;
    assert RegName(Dword32, RAX) == "eax";
  }

  lemma LastSlotLine()
    ensures Render(Store(Dword32, RBP, -8, RDX)) == "    mov [rbp - 8], edx"
  {
    SlotIs();
    hide MemText;
    assert RegName(Dword32, RDX) == "edx";
  }

  const BEFORE: Program := [
    MovImm(Dword32, RAX, 0), MovImm(Qword64, 9, 0), Mov(Qword64, RBX, RBX), Push(RAX), Pop(RCX),
    Store(Dword32, RBP, -8, RAX), Load(Dword32, RAX, RBP, -8), Store(Dword32, RBP, -8, RAX), Store(Dword32, RBP, -8, RDX),
    Jmp(".L_end"), Def(".L_end"), Ret]

  const AFTER: Program := [
    Alu(Xor, Dword32, RAX, RAX), Alu(Xor, Dword32, 9, 9), Mov(Qword64, RCX, RAX), Store(Dword32, RBP, -8, RAX),
    Store(Dword32, RBP, -8, RDX), Def(".L_end"), Ret]

  lemma EndPeeped(c: Program)
    requires c == [Jmp(".L_end"), Def(".L_end"), Ret]
    ensures Peep(c) == [Def(".L_end"), Ret]
  {
    var ret: Program := [Ret];
    assert c == [Jmp(".L_end"), Def(".L_end")] + ret;
    hide Peep;
    JumpToNextDropped(".L_end", ret);
    OthersKept(ret);
    assert ret[1..] == [];
    PeepStep([]);
    assert [Ret] + [] == ret && [Def(".L_end")] + ret == [Def(".L_end"), Ret];
  }

  lemma BeforePeeped()
    ensures Peep(BEFORE) == AFTER
  {
    hide Peep;
    var c5 := BEFORE[9..];
    var c4 := BEFORE[7..];
    var c3 := BEFORE[5..];
    var c2 := BEFORE[3..];
    var c1 := BEFORE[2..];
    EndPeeped(c5);
    FirstStoreDropped(Dword32, -8, RAX, Dword32, RDX, c5);
    assert c4 == [Store(Dword32, 5, -8, RAX), Store(Dword32, 5, -8, RDX)] + c5;
    ReloadDropped(Dword32, -8, RAX, c4);
    assert c3 == [Store(Dword32, 5, -8, RAX), Load(Dword32, RAX, 5, -8)] + c4;
    PushPopBecomesMove(RAX, RCX, c3);
    assert c2 == [Push(RAX), Pop(RCX)] + c3;
    SelfMoveDropped(Qword64, RBX, c2);
    assert c1 == [Mov(Qword64, RBX, RBX)] + c2;
    ZeroBecomesXor(Qword64, 9, c1);
    ZeroBecomesXor(Dword32, RAX, [MovImm(Qword64, 9, 0)] + c1);
    assert BEFORE == [MovImm(Dword32, RAX, 0)] + ([MovImm(Qword64, 9, 0)] + c1);
    assert Peep(c4) == [Store(Dword32, RBP, -8, RDX), Def(".L_end"), Ret];
    assert Peep(c2) == [Mov(Qword64, RCX, RAX), Store(Dword32, RBP, -8, RAX), Store(Dword32, RBP, -8, RDX), Def(".L_end"), Ret];
  }

  lemma BeforePrintable()
    ensures forall i :: i in BEFORE ==> Printable(i)
  {
    assert LabelText(".L_end");
  }

  lemma LinesBefore()
    ensures Image(Render, BEFORE) == [
        "    mov eax, 0", "    mov r9, 0", "    mov rbx, rbx", "    push rax", "    pop rcx",
        "    mov [rbp - 8], eax", "    mov eax, [rbp - 8]", "    mov [rbp - 8], eax", "    mov [rbp - 8], edx",
        "    jmp .L_end", ".L_end:", "    ret"]
  {
    ZeroLines();
    MoveLines();
    StackLines();
    LabelLines();
    RetLine();
    FirstSlotLine();
    LoadSlotLine();
    LastSlotLine();
    hide Render;
  }

  lemma LinesAfter()
    ensures Image(Render, AFTER) == [
        "    xor eax, eax", "    xor r9d, r9d", "    mov rcx, rax", "    mov [rbp - 8], eax", "    mov [rbp - 8], edx", ".L_end:", "    ret"]
  {
    MoveLines();
    XorLines();
    LabelLines();
    RetLine();
    FirstSlotLine();
    LastSlotLine();
    hide Render;
  }

  /** Each pattern on the lines that the generator prints. */
  lemma ListingRewritten()
    ensures ValidTable(TEXT_TABLE) && Rewrite(TEXT_TABLE, [
        "    mov eax, 0", "    mov r9, 0", "    mov rbx, rbx", "    push rax", "    pop rcx",
        "    mov [rbp - 8], eax", "    mov eax, [rbp - 8]", "    mov [rbp - 8], eax", "    mov [rbp - 8], edx",
        "    jmp .L_end", ".L_end:", "    ret"]) ==
      ["    xor eax, eax", "    xor r9d, r9d", "    mov rcx, rax", "    mov [rbp - 8], eax", "    mov [rbp - 8], edx", ".L_end:", "    ret"]
  {
    BeforePrintable();
    BeforePeeped();
    LinesBefore();
    LinesAfter();
    hide *;
    TextPassCorrect(BEFORE);
  }
}
