/** The six matcher and replacer pairs over lines of text (src/peephole.c), and their
    correspondence with the instruction patterns of PeepholeRules.
 */
module PeepholeText {
  import opened Options
  import opened Numerals
  import opened Machine
  import opened AsmText
  import opened Peephole
  import opened PeepholeRules

  // ---------------------------------------------------------------- line parsers

  // g_zr_src and g_zr_dst: the register of each entry is cleared through its 32-bit name.
  const ZERO_REGS: seq<(Width, Reg)> := [
    (Qword64, RAX), (Qword64, RBX), (Qword64, RCX), (Qword64, RDX), (Qword64, RSI), (Qword64, RDI),
    (Qword64, 8), (Qword64, 9), (Qword64, 10), (Qword64, 11), (Qword64, 12), (Qword64, 13), (Qword64, 14), (Qword64, 15),
    (Dword32, RAX), (Dword32, RBX), (Dword32, RCX), (Dword32, RDX), (Dword32, RSI), (Dword32, RDI)
  ]

  function ZeroText(k: nat): string
    requires k < |ZERO_REGS|
  {
    RegName(ZERO_REGS[k].0, ZERO_REGS[k].1) + ", 0"
  }

  /** zr_find_reg: the table entry named in `mov REG, 0`. */
  predicate NamesZeroed(line: string, k: nat) {
    k < |ZERO_REGS| && Strip(line) == "mov " + ZeroText(k)
  }

  method FindZeroReg(line: string) returns (idx: int)
    ensures -1 <= idx < |ZERO_REGS|
    ensures idx >= 0 ==> NamesZeroed(line, idx)
    ensures idx < 0 ==> forall k: nat :: !NamesZeroed(line, k)
  {
    hide NamesZeroed, ZeroText, RegName;
    var p := Scan(line, 0, IsBlank);
    StrippedAt(line, p);
    if !("mov " <= line[p..]) {
      forall k: nat ensures !NamesZeroed(line, k) { ZeroedRest(line, k); }
      return -1;
    }
    var rest := line[p..][4..];
    for i := 0 to |ZERO_REGS|
      invariant forall k: nat :: k < i ==> !NamesZeroed(line, k)
    {
      var reg := RegName(ZERO_REGS[i].0, ZERO_REGS[i].1);
      ZeroedRest(line, i);
      if reg <= rest && rest[|reg|..] == ", 0" {
        assert rest == reg + ", 0";
        return i;
      }
      Halves(reg, ", 0");
    }
    forall k: nat ensures !NamesZeroed(line, k) { ZeroedRest(line, k); }
    return -1;
  }

  lemma StrippedAt(line: string, p: nat)
    requires p == 0 + Span(line[0..], IsBlank)
    ensures line[p..] == Strip(line)
  {
    assert line[0..] == line;
  }

  lemma ZeroedRest(line: string, k: nat)
    ensures NamesZeroed(line, k) <==>
            k < |ZERO_REGS| && "mov " <= Strip(line) && Strip(line)[4..] == RegName(ZERO_REGS[k].0, ZERO_REGS[k].1) + ", 0"
  {
    if k < |ZERO_REGS| {
      Halves("mov ", ZeroText(k));
      if "mov " <= Strip(line) {
        assert Strip(line) == "mov " + Strip(line)[4..];
      }
    }
  }

  lemma MovTail(a: string, b: string)
    requires "mov " + a == "mov " + b
    ensures a == b
  {
    assert ("mov " + a)[4..] == a && ("mov " + b)[4..] == b;
  }

  /** match_nop_move: `mov X, X`, where X has no comma. */
  function NopMove(line: string): bool {
    var s := Strip(line);
    if !("mov " <= s) then false
    else
      var rest := s[4..];
      var d := Span(rest, NotComma);
      d + 1 < |rest| && rest[d + 1] == ' ' && rest[d + 2..] == rest[..d]
  }

  /** pp_extract_reg: what follows `push ` or `pop `. */
  function ExtractReg(line: string, mnemonic: string): Option<string> {
    var s := Strip(line);
    if mnemonic <= s && 0 < |s[|mnemonic|..]| < 32 then Some(s[|mnemonic|..]) else None
  }

  datatype Slot = Slot(reg: string, offset: string)

  const RBP_MINUS := "[rbp - "

  /** pp_parse_store_rbp: `mov [rbp - N], REG`. */
  function ParseStore(line: string): Option<Slot> {
    var s := Strip(line);
    if !("mov " <= s && RBP_MINUS <= s[4..]) then None
    else
      var rest := s[11..];
      var n := Span(rest, IsDigit);
      if 0 < n < 16 && "], " <= rest[n..] && 0 < |rest[n + 3..]| < 32 then Some(Slot(rest[n + 3..], rest[..n])) else None
  }

  /** pp_parse_reload_rbp: `mov REG, [rbp - N]`. */
  function ParseReload(line: string): Option<Slot> {
    var s := Strip(line);
    if !("mov " <= s) then None
    else
      var rest := s[4..];
      var r := Span(rest, NotComma);
      if !(0 < r < 32 && ", [rbp - " <= rest[r..]) then None
      else
        var tail := rest[r + 9..];
        var n := Span(tail, IsDigit);
        if 0 < n < 16 && tail[n..] == "]" then Some(Slot(rest[..r], tail[..n])) else None
  }

  predicate NotComma(c: char) { c != ',' }

  predicate NotColon(c: char) { c != ':' }

  function TrimRight(s: string): string {
    if s != "" && s[|s| - 1] in {' ', '\t', '\r', '\n'} then TrimRight(s[..|s| - 1]) else s
  }

  /** pp_parse_jmp_label: the target after `jmp`, cut to the buffer and trimmed on the right. */
  function ParseJump(line: string): Option<string> {
    var s := Strip(line);
    if !("jmp" <= s && |s| > 3 && IsBlank(s[3])) then None
    else
      var rest := Strip(s[3..]);
      if rest == "" then None
      else
        var t := TrimRight(Fit(64, rest));
        if t != "" then Some(t) else None
  }

  /** pp_parse_label_def: the name before the colon of an unindented line. */
  function ParseLabel(line: string): Option<string> {
    if line == "" || IsBlank(line[0]) then None
    else
      var n := Span(line, NotColon);
      if n < |line| && 0 < n < 64 then Some(line[..n]) else None
  }

  // ---------------------------------------------------------------- the table

  function Indentation(line: string): string {
    line[..Span(line, IsBlank)]
  }

  function ZeroIndex(line: string, k: nat): (r: nat)
    requires k <= |ZERO_REGS|
    ensures k <= r <= |ZERO_REGS|
    ensures r < |ZERO_REGS| ==> NamesZeroed(line, r)
    ensures forall j: nat :: k <= j < r ==> !NamesZeroed(line, j)
    decreases |ZERO_REGS| - k
  {
    if k == |ZERO_REGS| || NamesZeroed(line, k) then k else ZeroIndex(line, k + 1)
  }

  function ReplaceZero(line: string): string {
    var k := ZeroIndex(line, 0);
    if k == |ZERO_REGS| then line
    else
      var d := RegName(Dword32, ZERO_REGS[k].1);
      Fit(64, Fit(63, Indentation(line)) + "xor " + d + ", " + d)
  }

  function ReplacePushPop(a: string, b: string): seq<string> {
    var r0, r1 := ExtractReg(a, "push "), ExtractReg(b, "pop ");
    if r0.None? || r1.None? || r0 == r1 then []
    else [Fit(80, Fit(79, Indentation(a)) + "mov " + r1.value + ", " + r0.value)]
  }

  function OneLine(test: string -> bool, out: string -> seq<string>): Pattern<string> {
    Pattern(1, (win: seq<string>) => |win| == 1 && test(win[0]), (win: seq<string>) => if |win| == 1 then out(win[0]) else [])
  }

  function TwoLines(test: (string, string) -> bool, out: (string, string) -> seq<string>): Pattern<string> {
    Pattern(2, (win: seq<string>) => |win| == 2 && test(win[0], win[1]),
            (win: seq<string>) => if |win| == 2 then out(win[0], win[1]) else [])
  }

  predicate ReloadLines(a: string, b: string) {
    ParseStore(a).Some? && ParseReload(b).Some? && ParseStore(a) == ParseReload(b)
  }

  predicate StoreLines(a: string, b: string) {
    ParseStore(a).Some? && ParseStore(b).Some? && ParseStore(a).value.offset == ParseStore(b).value.offset
  }

  predicate JumpLines(a: string, b: string) {
    ParseJump(a).Some? && ParseJump(a) == ParseLabel(b)
  }

  const TEXT_TABLE: seq<Pattern<string>> := [
    OneLine(a => ZeroIndex(a, 0) < |ZERO_REGS|, a => [ReplaceZero(a)]),
    OneLine(a => NopMove(a), a => []),
    TwoLines((a, b) => ExtractReg(a, "push ").Some? && ExtractReg(b, "pop ").Some?, (a, b) => ReplacePushPop(a, b)),
    TwoLines((a, b) => ReloadLines(a, b), (a, b) => [a]),
    TwoLines((a, b) => StoreLines(a, b), (a, b) => [b]),
    TwoLines((a, b) => JumpLines(a, b), (a, b) => [b])
  ]

  lemma TextTableValid()
    ensures ValidTable(TEXT_TABLE)
  {
    hide ZeroIndex, NopMove, ExtractReg, ReloadLines, StoreLines, JumpLines, ReplaceZero;
    forall p | p in TEXT_TABLE ensures ValidPattern(p) {
    }
  }

  // ---------------------------------------------------------------- mnemonics

  lemma MovLine(i: Instr)
    requires Printable(i)
    ensures var s := Strip(Render(i));
            ("mov " <= s <==> IsMov(i)) && (IsMov(i) ==> s == "mov " + Operands(i) && s[4..] == Operands(i))
  {
    StripRender(i);
    hide Render, Strip, Operands;
    if i.Def? {
      NoMnemonic(i.name, "mov ", 3);
    } else if IsMov(i) {
      Halves("mov ", Operands(i));
    } else {
      NotMov(i, Operands(i));
    }
  }

  lemma NoMnemonic(l: Label, m: string, k: nat)
    requires LabelText(l) && k < |m| && m[k] == ' '
    ensures !(m <= l + ":")
  {
    LabelLineHasNoBlank(l);
    var s := l + ":";
    if k < |s| {
      assert s[k] in s;
    }
    NotPrefix(m, s, k);
  }

  lemma NotMov(i: Instr, x: string)
    requires !IsMov(i) && !i.Def? 
    ensures !("mov " <= Mnemonic(i) + x)
  {
    var s, m := Mnemonic(i) + x, Mnemonic(i);
    MnemonicShape(i);
    assert s[0] == m[0] && s[1] == m[1] && s[2] == m[2];
    if i.LoadSx? || i.Movsxd? || i.Movzx? {
      assert s[3] == m[3];
      NotPrefix("mov ", s, 3);
    } else {
      assert m[0] != 'm';
      NotPrefix("mov ", s, 0);
    }
  }

  lemma StackLine(i: Instr)
    requires Printable(i)
    ensures ExtractReg(Render(i), "push ") == if i.Push? then Some(RegName(Qword64, i.src)) else None
    ensures ExtractReg(Render(i), "pop ") == if i.Pop? then Some(RegName(Qword64, i.dst)) else None
  {
    StripRender(i);
    var s := Strip(Render(i));
    hide Render, Strip, RegName;
    if i.Def? {
      NoMnemonic(i.name, "push ", 4);
      NoMnemonic(i.name, "pop ", 3);
    } else if i.Push? {
      NameShape(Qword64, i.src);
      Halves("push ", RegName(Qword64, i.src));
      NotPrefix("pop ", s, 1);
    } else if i.Pop? {
      NameShape(Qword64, i.dst);
      Halves("pop ", RegName(Qword64, i.dst));
      NotPrefix("push ", s, 1);
    } else {
      hide Operands;
      NotStack(i, Operands(i));
    }
  }

  lemma NotStack(i: Instr, x: string)
    requires !i.Push? && !i.Pop? && !i.Def?
    ensures !("push " <= Mnemonic(i) + x) && !("pop " <= Mnemonic(i) + x)
  {
    MnemonicShape(i);
    var s, m := Mnemonic(i) + x, Mnemonic(i);
    assert s[0] == m[0] && m[0] != 'p';
    NotPrefix("push ", s, 0);
    NotPrefix("pop ", s, 0);
  }

  lemma JumpLine(i: Instr)
    requires Printable(i)
    ensures ParseJump(Render(i)) == if i.Jmp? then Some(CutLabel(i.target)) else None
  {
    hide Strip, TrimRight, Fit, Render;
    StripRender(i);
    var s := Strip(Render(i));
    hide Operands;
    if i.Def? {
      LabelLineHasNoBlank(i.name);
      if |s| > 3 {
        assert s[3] in s;
      }
    } else if i.Jmp? {
      JumpTarget(s, i.target);
    } else {
      NotJump(i, Operands(i));
    }
  }

  lemma JumpTarget(s: string, l: Label)
    requires s == "jmp " + l && LabelText(l)
    ensures "jmp" <= s && |s| > 3 && IsBlank(s[3]) && Strip(s[3..]) == l && TrimRight(Fit(64, l)) == CutLabel(l)
  {
    assert s == "jmp" + (" " + l);
    Halves("jmp", " " + l);
    assert l[0] in l;
    SpanPrefix(" ", l, IsBlank);
    NothingToTrim(CutLabel(l));
  }

  lemma NotJump(i: Instr, x: string)
    requires !i.Jmp? && !i.Def?
    ensures !("jmp" <= Mnemonic(i) + x)
  {
    MnemonicShape(i);
    var s, m := Mnemonic(i) + x, Mnemonic(i);
    assert s[0] == m[0] && s[1] == m[1];
    if i.Jcc? {
      assert m[1] == CondName(i.cc)[0];
      NotPrefix("jmp", s, 1);
    } else {
      assert m[0] != 'j';
      NotPrefix("jmp", s, 0);
    }
  }

  lemma NothingToTrim(l: Label)
    requires LabelText(l)
    ensures TrimRight(l) == l
  {
    assert l[|l| - 1] in l;
  }

  lemma LabelLine(i: Instr)
    requires Printable(i)
    ensures ParseLabel(Render(i)) == if i.Def? && |i.name| <= LABEL_LIMIT then Some(i.name) else None
  {
    if i.Def? {
      assert i.name[0] in i.name;
      SpanPrefix(i.name, ":", NotColon);
      Halves(i.name, ":");
    } else {
      StripRender(i);
    }
  }

  // ---------------------------------------------------------------- operands of mov

  predicate NoComma(s: string) {
    forall c :: c in s ==> c != ','
  }

  lemma MemNoComma(b: Reg, disp: int)
    ensures MemText(b, disp) != "" && NoComma(MemText(b, disp)) && MemText(b, disp)[0] == '['
  {
    NameShape(Qword64, b);
    DecimalDigits(if disp > 0 then disp else -disp);
    hide RegName, Decimal;
  }

  lemma IntShape(v: int)
    ensures var y := IntText(v); y != "" && (IsDigit(y[0]) || y[0] == '-')
  {
    DecimalDigits(if v < 0 then -v else v);
    hide Decimal;
    assert v >= 0 ==> Decimal(v)[0] in Decimal(v);
  }

  lemma OperandShape(i: Instr)
    requires IsMov(i)
    ensures var x, y := DstText(i), SrcText(i);
            && NoComma(x) && x != "" && y != ""
            && (i.Store? <==> x[0] == '[') && (!i.Store? ==> IsLetter(x[0]) && |x| <= 4)
            && (i.Load? <==> y[0] == '[') && (i.MovImm? <==> (IsDigit(y[0]) || y[0] == '-'))
  {
    hide RegName, MemText, IntText;
    match i
    case MovImm(w, d, imm) => NameShape(w, d); IntShape(imm);
    case Mov(w, d, r) => NameShape(w, d); NameShape(w, r);
    case Load(w, d, b, disp) => NameShape(w, d); MemNoComma(b, disp);
    case Store(w, b, disp, r) => NameShape(w, r); MemNoComma(b, disp);
  }

  lemma CommaSpan(x: string, y: string)
    requires NoComma(x)
    ensures var s := x + ", " + y;
            s == x + (", " + y) && Span(s, NotComma) == |x| && s[..|x|] == x && s[|x|..] == ", " + y && s[|x| + 2..] == y
  {
    var t := ", " + y;
    assert x + ", " + y == x + t;
    assert t[0] == ',' && t[2..] == y;
    SpanPrefix(x, t, NotComma);
    assert (x + t)[|x| + 2..] == (x + t)[|x|..][2..];
  }

  lemma SplitComma(x: string, y: string, x': string, y': string)
    requires NoComma(x) && NoComma(x') && x + ", " + y == x' + ", " + y'
    ensures x == x' && y == y'
  {
    CommaSpan(x, y);
    CommaSpan(x', y');
  }

  lemma OperandsOf(i: Instr)
    requires IsMov(i)
    ensures Operands(i) == DstText(i) + ", " + SrcText(i)
  {
  }

  lemma SelfMoveLine(i: Instr)
    requires Printable(i)
    ensures NopMove(Render(i)) == SelfMove(i)
  {
    hide Operands, RegName, MemText, Strip;
    MovLine(i);
    if IsMov(i) {
      var x, y := DstText(i), SrcText(i);
      OperandsOf(i);
      OperandShape(i);
      CommaSpan(x, y);
      assert (x + ", " + y)[|x| + 1] == ' ';
      if i.Mov? {
        NameInjective(i.w, i.dst, i.w, i.src);
      }
    }
  }

  // ---------------------------------------------------------------- mov REG, 0

  lemma DecimalZero(n: nat)
    ensures Decimal(n) == "0" <==> n == 0
  {
    if Decimal(n) == "0" {
      assert Decimal(0) == "0";
      DecimalInjective(n, 0);
    }
  }

  lemma ZeroEntry(w: Width, d: Reg)
    ensures (exists k: nat :: k < |ZERO_REGS| && ZERO_REGS[k] == (w, d)) <==> ZeroMov(MovImm(w, d, 0))
  {
    if ZeroMov(MovImm(w, d, 0)) {
      var k: nat :=
        if w == Dword32 then (if d == RAX then 14 else if d == RBX then 15 else if d == RCX then 16 else if d == RDX then 17
                              else if d == RSI then 18 else 19)
        else if d >= 8 then d - 2
        else if d == RAX then 0 else if d == RBX then 1 else if d == RCX then 2 else if d == RDX then 3 else if d == RSI then 4 else 5;
      assert ZERO_REGS[k] == (w, d);
    }
  }

  lemma ZeroLineAt(i: Instr, k: nat)
    requires Printable(i) && k < |ZERO_REGS|
    ensures NamesZeroed(Render(i), k) <==> i.MovImm? && i.imm == 0 && ZERO_REGS[k] == (i.w, i.dst)
  {
    MovLine(i);
    var (w, d) := ZERO_REGS[k];
    if IsMov(i) {
      var x, y := DstText(i), SrcText(i);
      OperandsOf(i);
      OperandShape(i);
      NameShape(w, d);
      hide Strip, Operands, RegName, MemText, Render;
      assert RegName(w, d) + ", 0" == RegName(w, d) + ", " + "0";
      if NamesZeroed(Render(i), k) {
        MovTail(Operands(i), ZeroText(k));
        SplitComma(x, y, RegName(w, d), "0");
        ZeroSource(i);
        NameInjective(i.w, i.dst, w, d);
      }
      if i.MovImm? && i.imm == 0 {
        DecimalZero(0);
      }
    }
  }

  lemma ZeroSource(i: Instr)
    requires IsMov(i) && SrcText(i) == "0"
    ensures i.MovImm? && i.imm == 0
  {
    hide RegName, MemText, Decimal;
    OperandShape(i);
    if i.imm >= 0 {
      DecimalZero(i.imm);
    }
  }

  lemma ZeroLine(i: Instr)
    requires Printable(i)
    ensures ZeroIndex(Render(i), 0) < |ZERO_REGS| <==> ZeroMov(i)
    ensures ZeroMov(i) ==> ReplaceZero(Render(i)) == Render(Alu(Xor, Dword32, i.dst, i.dst))
  {
    hide Mnemonic, Operands;
    var k := ZeroIndex(Render(i), 0);
    hide ZeroIndex, Render, NamesZeroed, ReplaceZero, RegName, Fit;
    if k < |ZERO_REGS| {
      ZeroLineAt(i, k);
      ZeroEntry(i.w, i.dst);
      StripRender(i);
      ZeroReplacement(Render(i), i.dst);
      RenderXor(i.dst);
    }
    if ZeroMov(i) {
      ZeroEntry(i.w, i.dst);
      var j: nat :| j < |ZERO_REGS| && ZERO_REGS[j] == (i.w, i.dst);
      ZeroLineAt(i, j);
    }
  }

  lemma ZeroReplacement(line: string, r: Reg)
    requires ZeroIndex(line, 0) < |ZERO_REGS| && ZERO_REGS[ZeroIndex(line, 0)].1 == r
    ensures var d := RegName(Dword32, r); ReplaceZero(line) == Fit(64, Fit(63, Indentation(line)) + "xor " + d + ", " + d)
  {
    hide ZeroIndex, RegName, Fit, Indentation;
  }

  lemma RenderXor(r: Reg)
    ensures var d := RegName(Dword32, r);
            Fit(64, Fit(63, INDENT) + "xor " + d + ", " + d) == Render(Alu(Xor, Dword32, r, r))
  {
    NameShape(Dword32, r);
    hide RegName;
    var d := RegName(Dword32, r);
    Associate(INDENT, "xor ", d, d);
  }

  lemma RenderMove(d: Reg, r: Reg)
    ensures var x, y := RegName(Qword64, d), RegName(Qword64, r);
            Fit(80, Fit(79, INDENT) + "mov " + x + ", " + y) == Render(Mov(Qword64, d, r))
  {
    NameShape(Qword64, d);
    NameShape(Qword64, r);
    hide RegName;
    Associate(INDENT, "mov ", RegName(Qword64, d), RegName(Qword64, r));
  }

  lemma Associate(a: string, b: string, c: string, d: string)
    ensures a + b + c + ", " + d == a + (b + (c + ", " + d))
  {
  }

  // ---------------------------------------------------------------- stores and reloads

  lemma OffsetFits(disp: int)
    requires disp <= 0
    ensures |Decimal(-disp)| < 16 <==> -OFFSET_LIMIT < disp
  {
    assert Pow10(5) == 100000;
    assert Pow10(10) == 10000000000;
    assert Pow10(15) == OFFSET_LIMIT;
    hide Decimal, Pow10;
    DecimalAtMost(-disp, 15);
  }

  /** Memory operands that begin like a frame slot are frame slots. */
  lemma SlotText(b: Reg, disp: int, tail: string)
    ensures RBP_MINUS <= MemText(b, disp) + tail <==> b == RBP && disp <= 0
    ensures b == RBP && disp <= 0 ==> MemText(b, disp) + tail == RBP_MINUS + (Decimal(-disp) + ("]" + tail))
  {
    var s, n := MemText(b, disp) + tail, RegName(Qword64, b);
    NameShape(Qword64, b);
    if b != RBP {
      NameInjective(Qword64, b, Qword64, RBP);
      OtherName(b);
      assert s[1] == n[0] && s[2] == n[1];
      assert |n| == 3 ==> s[3] == n[2];
      NotPrefix(RBP_MINUS, s, if n[0] != 'r' then 1 else if n[1] != 'b' then 2 else 3);
    } else if disp > 0 {
      assert n == "rbp";
      assert s[5] == '+';
      NotPrefix(RBP_MINUS, s, 5);
    } else {
      assert n == "rbp";
      hide Decimal;
      var d := Decimal(-disp);
      assert MemText(b, disp) == "[" + "rbp" + (" - " + d) + "]";
      assert "[" + "rbp" + (" - " + d) + "]" + tail == RBP_MINUS + (d + ("]" + tail));
      Halves(RBP_MINUS, d + ("]" + tail));
    }
  }

  lemma OtherName(b: Reg)
    requires b != RBP
    ensures var n := RegName(Qword64, b); n[0] != 'r' || n[1] != 'b' || (|n| == 3 && n[2] != 'p')
  {
  }

  lemma DigitSpan(n: nat, tail: string)
    requires tail != "" && !IsDigit(tail[0])
    ensures var s := Decimal(n) + tail; var k := Span(s, IsDigit);
            k == |Decimal(n)| && k > 0 && s[..k] == Decimal(n) && s[k..] == tail
  {
    DecimalDigits(n);
    hide Decimal;
    SpanPrefix(Decimal(n), tail, IsDigit);
  }

  lemma StoreLine(i: Instr)
    requires Printable(i)
    ensures ParseStore(Render(i)) == if SlotStore(i) then Some(Slot(RegName(i.w, i.src), Decimal(-i.disp))) else None
  {
    MovLine(i);
    if IsMov(i) {
      var x, y := DstText(i), SrcText(i);
      OperandsOf(i);
      OperandShape(i);
      CommaSpan(x, y);
      hide Strip, Operands, RegName, MemText, Render, Decimal;
      if i.Store? {
        SlotText(i.base, i.disp, ", " + y);
        if i.base == RBP && i.disp <= 0 {
          NameShape(i.w, i.src);
          StoreTail(Render(i), -i.disp, y);
          OffsetFits(i.disp);
        }
      } else {
        Halves(x, ", " + y);
        NotPrefix(RBP_MINUS, Operands(i), 0);
      }
    }
  }

  lemma StoreTail(line: string, n: nat, y: string)
    requires "mov " <= Strip(line) && Strip(line)[4..] == RBP_MINUS + (Decimal(n) + ("]" + (", " + y))) && 0 < |y| < 32
    ensures ParseStore(line) == if |Decimal(n)| < 16 then Some(Slot(y, Decimal(n))) else None
  {
    hide Strip, Decimal, Span;
    var rest := Decimal(n) + ("], " + y);
    assert "]" + (", " + y) == "], " + y;
    AfterSlot(Strip(line), rest);
    StoreRest(rest, n, y);
  }

  lemma AfterSlot(s: string, rest: string)
    requires |s| >= 4 && s[4..] == RBP_MINUS + rest
    ensures |s| >= 11 && s[11..] == rest && RBP_MINUS <= s[4..]
  {
    Halves(RBP_MINUS, rest);
    assert s[11..] == s[4..][7..];
  }

  lemma StoreRest(rest: string, n: nat, y: string)
    requires rest == Decimal(n) + ("], " + y)
    ensures var k := Span(rest, IsDigit);
      && k == |Decimal(n)| && k > 0 && k + 3 <= |rest| && rest[..k] == Decimal(n) && "], " <= rest[k..] && rest[k + 3..] == y
  {
    hide Decimal, Span;
    DigitSpan(n, "], " + y);
    Halves("], ", y);
    var k := |Decimal(n)|;
    assert rest[k + 3..] == rest[k..][3..];
  }

  lemma PlainSlotText(b: Reg, disp: int)
    ensures RBP_MINUS <= MemText(b, disp) <==> b == RBP && disp <= 0
    ensures b == RBP && disp <= 0 ==> MemText(b, disp) == RBP_MINUS + (Decimal(-disp) + "]")
  {
    hide MemText, Decimal;
    SlotText(b, disp, "");
    assert MemText(b, disp) + "" == MemText(b, disp) && "]" + "" == "]";
  }

  lemma ReloadLine(i: Instr)
    requires Printable(i)
    ensures ParseReload(Render(i)) ==
            if i.Load? && i.base == RBP && -OFFSET_LIMIT < i.disp <= 0 then Some(Slot(RegName(i.w, i.dst), Decimal(-i.disp))) else None
  {
    MovLine(i);
    hide *;
    IsMovOf(i);
    if i.Load? {
      ReloadOfLoad(i);
    } else if IsMov(i) {
      OperandsOf(i);
      OperandShape(i);
      NotPrefix(RBP_MINUS, SrcText(i), 0);
      NoReload(Render(i), DstText(i), SrcText(i));
    } else {
      NoMov(Render(i));
    }
  }

  lemma IsMovOf(i: Instr)
    ensures IsMov(i) <==> i.MovImm? || i.Mov? || i.Load? || i.Store?
  {
  }

  lemma ReloadOfLoad(i: Instr)
    requires i.Load? && "mov " <= Strip(Render(i)) && Strip(Render(i))[4..] == Operands(i)
    ensures ParseReload(Render(i)) ==
            if i.base == RBP && -OFFSET_LIMIT < i.disp <= 0 then Some(Slot(RegName(i.w, i.dst), Decimal(-i.disp))) else None
  {
    hide Strip, Operands, RegName, MemText, Render, Decimal, ParseReload;
    var x, y := DstText(i), SrcText(i);
    OperandsOf(i);
    OperandShape(i);
    PlainSlotText(i.base, i.disp);
    if i.base == RBP && i.disp <= 0 {
      ReloadTail(Render(i), -i.disp, x);
      OffsetFits(i.disp);
    } else {
      NoReload(Render(i), x, y);
    }
  }

  lemma NoMov(line: string)
    requires !("mov " <= Strip(line))
    ensures ParseReload(line).None?
  {
  }

  lemma NoReload(line: string, x: string, y: string)
    requires "mov " <= Strip(line) && Strip(line)[4..] == x + ", " + y && NoComma(x) && !(RBP_MINUS <= y)
    ensures ParseReload(line).None?
  {
    hide Strip;
    CommaSpan(x, y);
    CommaPrefix(y);
  }

  lemma CommaPrefix(y: string)
    ensures ", [rbp - " <= ", " + y <==> RBP_MINUS <= y
  {
    var a, b := ", " + RBP_MINUS, ", " + y;
    assert ", [rbp - " == a;
    if RBP_MINUS <= y {
      assert y == RBP_MINUS + y[7..];
      assert b == a + y[7..];
    }
    if a <= b {
      assert y[..7] == b[..9][2..];
    }
  }

  lemma ReloadTail(line: string, n: nat, x: string)
    requires NoComma(x) && 0 < |x| <= 4
    requires "mov " <= Strip(line) && Strip(line)[4..] == x + ", " + (RBP_MINUS + (Decimal(n) + "]"))
    ensures ParseReload(line) == if |Decimal(n)| < 16 then Some(Slot(x, Decimal(n))) else None
  {
    hide Strip, Decimal;
    var s, d := Strip(line), Decimal(n);
    var y := RBP_MINUS + (d + "]");
    CommaSpan(x, y);
    var rest := s[4..];
    assert ", " + y == ", [rbp - " + (d + "]");
    Halves(", [rbp - ", d + "]");
    assert rest[|x| + 9..] == rest[|x|..][9..];
    DigitSpan(n, "]");
  }

  lemma ReloadPair(i: Instr, j: Instr)
    requires Printable(i) && Printable(j)
    ensures ReloadLines(Render(i), Render(j)) == StoreReload(i, j)
  {
    hide ParseStore, ParseReload, RegName, Decimal, Render;
    StoreLine(i);
    ReloadLine(j);
    if SlotStore(i) && j.Load? && j.base == RBP && -OFFSET_LIMIT < j.disp <= 0 {
      NameInjective(i.w, i.src, j.w, j.dst);
      if Decimal(-i.disp) == Decimal(-j.disp) {
        DecimalInjective(-i.disp, -j.disp);
      }
    }
  }

  lemma StorePair(i: Instr, j: Instr)
    requires Printable(i) && Printable(j)
    ensures StoreLines(Render(i), Render(j)) == StoreStore(i, j)
  {
    hide ParseStore, RegName, Decimal, Render;
    StoreLine(i);
    StoreLine(j);
    if SlotStore(i) && SlotStore(j) && Decimal(-i.disp) == Decimal(-j.disp) {
      DecimalInjective(-i.disp, -j.disp);
    }
  }

  lemma JumpPair(i: Instr, j: Instr)
    requires Printable(i) && Printable(j)
    ensures JumpLines(Render(i), Render(j)) == JumpToNext(i, j)
  {
    hide ParseJump, ParseLabel, Render;
    JumpLine(i);
    LabelLine(j);
  }

  lemma StackPair(i: Instr, j: Instr)
    requires Printable(i) && Printable(j)
    ensures (ExtractReg(Render(i), "push ").Some? && ExtractReg(Render(j), "pop ").Some?) == PushPop(i, j)
    ensures PushPop(i, j) ==> ReplacePushPop(Render(i), Render(j)) == Image(Render, PushPopOut(i, j))
  {
    hide ExtractReg, RegName, Strip, Mnemonic, Operands;
    StackLine(i);
    StackLine(j);
    if PushPop(i, j) {
      StripRender(i);
      NameInjective(Qword64, i.src, Qword64, j.dst);
      RenderMove(j.dst, i.src);
      hide Render, Fit;
      assert Indentation(Render(i)) == INDENT;
      if i.src != j.dst {
        assert PushPopOut(i, j) == [Mov(Qword64, j.dst, i.src)];
        assert Image(Render, [Mov(Qword64, j.dst, i.src)]) == [Render(Mov(Qword64, j.dst, i.src))];
      }
    }
  }

  // ---------------------------------------------------------------- the two tables agree

  lemma OneMirrored(test: Instr -> bool, out: Instr -> Program, test': string -> bool, out': string -> seq<string>)
    requires forall i :: Printable(i) ==> test'(Render(i)) == test(i) && (test(i) ==> out'(Render(i)) == Image(Render, out(i)))
    ensures Mirrors(Render, Printable, One(test, out), OneLine(test', out'))
  {
    hide Render, Printable;
    var p, q := One(test, out), OneLine(test', out');
    forall win: Program | |win| == p.window && (forall x :: x in win ==> Printable(x))
      ensures q.matcher(Image(Render, win)) == p.matcher(win)
      ensures p.matcher(win) ==> q.replacer(Image(Render, win)) == Image(Render, p.replacer(win))
    {
      assert win[0] in win;
    }
  }

  lemma TwoMirrored(test: (Instr, Instr) -> bool, out: (Instr, Instr) -> Program,
                    test': (string, string) -> bool, out': (string, string) -> seq<string>)
    requires forall i, j :: Printable(i) && Printable(j) ==>
      test'(Render(i), Render(j)) == test(i, j) && (test(i, j) ==> out'(Render(i), Render(j)) == Image(Render, out(i, j)))
    ensures Mirrors(Render, Printable, Two(test, out), TwoLines(test', out'))
  {
    hide Render, Printable;
    var p, q := Two(test, out), TwoLines(test', out');
    forall win: Program | |win| == p.window && (forall x :: x in win ==> Printable(x))
      ensures q.matcher(Image(Render, win)) == p.matcher(win)
      ensures p.matcher(win) ==> q.replacer(Image(Render, win)) == Image(Render, p.replacer(win))
    {
      assert win[0] in win && win[1] in win;
    }
  }

  lemma TablesMirror()
    ensures MirrorTables(Render, Printable, TABLE, TEXT_TABLE)
  {
    hide Mirrors, Render, Printable, ZeroIndex, NopMove, ExtractReg, ReloadLines, StoreLines, JumpLines, ReplaceZero, ReplacePushPop;
    Mirror0();
    Mirror1();
    Mirror2();
    Mirror3();
    Mirror4();
    Mirror5();
    assert |TABLE| == 6 && |TEXT_TABLE| == 6;
  }

  lemma Mirror0()
    ensures Mirrors(Render, Printable, TABLE[0], TEXT_TABLE[0])
  {
    forall i | Printable(i)
      ensures ZeroIndex(Render(i), 0) < |ZERO_REGS| <==> ZeroMov(i)
      ensures ZeroMov(i) ==> [ReplaceZero(Render(i))] == Image(Render, [Alu(Xor, Dword32, i.dst, i.dst)])
    {
      ZeroLine(i);
    }
    hide Mirrors, Render, Printable, ZeroIndex, ReplaceZero, Image;
    OneMirrored(i => ZeroMov(i), i => if ZeroMov(i) then [Alu(Xor, Dword32, i.dst, i.dst)] else [],
                a => ZeroIndex(a, 0) < |ZERO_REGS|, a => [ReplaceZero(a)]);
  }

  lemma Mirror1()
    ensures Mirrors(Render, Printable, TABLE[1], TEXT_TABLE[1])
  {
    forall i | Printable(i) ensures NopMove(Render(i)) == SelfMove(i) {
      SelfMoveLine(i);
    }
    hide Mirrors, Render, Printable, NopMove;
    OneMirrored(i => SelfMove(i), i => [], a => NopMove(a), a => []);
  }

  lemma Mirror2()
    ensures Mirrors(Render, Printable, TABLE[2], TEXT_TABLE[2])
  {
    forall i, j | Printable(i) && Printable(j)
      ensures (ExtractReg(Render(i), "push ").Some? && ExtractReg(Render(j), "pop ").Some?) == PushPop(i, j)
      ensures PushPop(i, j) ==> ReplacePushPop(Render(i), Render(j)) == Image(Render, PushPopOut(i, j))
    {
      StackPair(i, j);
    }
    hide Mirrors, Render, Printable, ExtractReg, ReplacePushPop, Image, PushPopOut;
    TwoMirrored((i, j) => PushPop(i, j), (i, j) => if PushPop(i, j) then PushPopOut(i, j) else [],
                (a, b) => ExtractReg(a, "push ").Some? && ExtractReg(b, "pop ").Some?, (a, b) => ReplacePushPop(a, b));
  }

  lemma Mirror3()
    ensures Mirrors(Render, Printable, TABLE[3], TEXT_TABLE[3])
  {
    forall i, j | Printable(i) && Printable(j)
      ensures ReloadLines(Render(i), Render(j)) == StoreReload(i, j) && [Render(i)] == Image(Render, [i])
    {
      ReloadPair(i, j);
    }
    hide Mirrors, Render, Printable, ReloadLines, StoreReload, Image;
    TwoMirrored((i, j) => StoreReload(i, j), (i, j) => [i], (a, b) => ReloadLines(a, b), (a, b) => [a]);
  }

  lemma Mirror4()
    ensures Mirrors(Render, Printable, TABLE[4], TEXT_TABLE[4])
  {
    forall i, j | Printable(i) && Printable(j)
      ensures StoreLines(Render(i), Render(j)) == StoreStore(i, j) && [Render(j)] == Image(Render, [j])
    {
      StorePair(i, j);
    }
    hide Mirrors, Render, Printable, StoreLines, StoreStore, Image;
    TwoMirrored((i, j) => StoreStore(i, j), (i, j) => [j], (a, b) => StoreLines(a, b), (a, b) => [b]);
  }

  lemma Mirror5()
    ensures Mirrors(Render, Printable, TABLE[5], TEXT_TABLE[5])
  {
    forall i, j | Printable(i) && Printable(j)
      ensures JumpLines(Render(i), Render(j)) == JumpToNext(i, j) && [Render(j)] == Image(Render, [j])
    {
      JumpPair(i, j);
    }
    hide Mirrors, Render, Printable, JumpLines, JumpToNext, Image;
    TwoMirrored((i, j) => JumpToNext(i, j), (i, j) => [j], (a, b) => JumpLines(a, b), (a, b) => [b]);
  }

  /** The textual pass over printed instructions prints the rewritten instructions. */
  lemma TextPassCorrect(p: Program)
    requires forall i :: i in p ==> Printable(i)
    ensures ValidTable(TEXT_TABLE) && Rewrite(TEXT_TABLE, Image(Render, p)) == Image(Render, Peep(p))
  {
    TableValid();
    TextTableValid();
    TablesMirror();
    hide ValidTable, MirrorTables;
    RewriteMirrored(Render, Printable, TABLE, TEXT_TABLE, p);
  }
}
