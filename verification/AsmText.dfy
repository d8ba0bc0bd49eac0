/** Instructions as the lines of NASM text that the code generator prints, and the character scans
    with which the peephole pass reads them back (src/peephole.c).
 */
module AsmText {
  import opened Numerals
  import opened Machine

  // ---------------------------------------------------------------- registers

  function Stem(r: Reg): string
    requires r < 8
  {
    ["ax", "cx", "dx", "bx", "sp", "bp", "si", "di"][r]
  }

  function LowName(r: Reg): string
    requires r < 8
  {
    ["al", "cl", "dl", "bl", "spl", "bpl", "sil", "dil"][r]
  }

  function Number(r: Reg): string
    requires r >= 8
  {
    ["8", "9", "10", "11", "12", "13", "14", "15"][r - 8]
  }

  function RegName(w: Width, r: Reg): string {
    if r < 8 then
      match w
      case Qword64 => "r" + Stem(r)
      case Dword32 => "e" + Stem(r)
      case Half16 => Stem(r)
      case Byte8 => LowName(r)
    else
      "r" + Number(r) + match w case Qword64 => "" case Dword32 => "d" case Half16 => "w" case Byte8 => "b"
  }

  predicate IsLetter(c: char) {
    'a' <= c <= 'z'
  }

  lemma NameShape(w: Width, r: Reg)
    ensures var x := RegName(w, r);
            2 <= |x| <= 4 && IsLetter(x[0]) && forall c :: c in x ==> IsLetter(c) || IsDigit(c)
  {
    var x := RegName(w, r);
    if r < 8 {
      assert IsLetter(Stem(r)[0]) && IsLetter(Stem(r)[1]);
    }
    forall c | c in x ensures IsLetter(c) || IsDigit(c) {
      var k :| 0 <= k < |x| && x[k] == c;
    }
  }

  /** The sixty-four register names are different. */
  lemma NameInjective(w: Width, r: Reg, w': Width, r': Reg)
    ensures RegName(w, r) == RegName(w', r') <==> w == w' && r == r'
  {
    if RegName(w, r) == RegName(w', r') {
      SameHalf(w, r, w', r');
      if r < 8 {
        LegacyInjective(w, r, w', r');
      } else {
        NumberedInjective(w, r, w', r');
      }
    }
  }

  lemma SameHalf(w: Width, r: Reg, w': Width, r': Reg)
    requires RegName(w, r) == RegName(w', r')
    ensures r < 8 <==> r' < 8
  {
    var x, y := RegName(w, r), RegName(w', r');
    assert IsDigit(x[1]) <==> r >= 8;
    assert IsDigit(y[1]) <==> r' >= 8;
  }

  lemma LegacyInjective(w: Width, r: Reg, w': Width, r': Reg)
    requires RegName(w, r) == RegName(w', r') && r < 8 && r' < 8
    ensures w == w' && r == r'
  {
    var x, y := RegName(w, r), RegName(w', r');
    assert |x| == |y| && x[0] == y[0] && x[1] == y[1] && x[|x| - 1] == y[|y| - 1];
  }

  lemma NumberedInjective(w: Width, r: Reg, w': Width, r': Reg)
    requires RegName(w, r) == RegName(w', r') && r >= 8 && r' >= 8
    ensures w == w' && r == r'
  {
    var x, y := RegName(w, r), RegName(w', r');
    assert |x| == |y| && x[1] == y[1] && x[|x| - 1] == y[|y| - 1];
    assert |x| >= 3 ==> x[2] == y[2];
  }

  // ---------------------------------------------------------------- lines

  function IntText(v: int): string {
    if v < 0 then "-" + Decimal(-v) else Decimal(v)
  }

  function MemText(b: Reg, disp: int): string {
    "[" + RegName(Qword64, b) +
    (if disp > 0 then " + " + Decimal(disp) else if disp == 0 && b != RBP then "" else " - " + Decimal(-disp)) + "]"
  }

  function CondName(cc: Cond): string {
    match cc
    case CondE => "e" case CondNE => "ne" case CondL => "l" case CondLE => "le"
    case CondG => "g" case CondGE => "ge" case CondB => "b" case CondAE => "ae"
  }

  function AluName(op: AluOp): string {
    match op
    case Add => "add " case Sub => "sub " case Imul => "imul " case And => "and " case Or => "or " case Xor => "xor "
  }

  predicate IsMov(i: Instr) {
    i.MovImm? || i.Mov? || i.Load? || i.Store?
  }

  function Mnemonic(i: Instr): string {
    match i
    case MovImm(_, _, _) => "mov "
    case Mov(_, _, _) => "mov "
    case Load(_, _, _, _) => "mov "
    case Store(_, _, _, _) => "mov "
    case LoadSx(_, _, _, _) => "movsx "
    case Lea(_, _, _) => "lea "
    case Movsxd(_, _) => "movsxd "
    case Movzx(_, _) => "movzx "
    case Push(_) => "push "
    case Pop(_) => "pop "
    case Alu(op, _, _, _) => AluName(op)
    case AluImm(op, _, _, _) => AluName(op)
    case Neg(_, _) => "neg "
    case Not(_, _) => "not "
    case ShiftLeft(_, _) => "shl "
    case ShiftRight(_, _) => "sar "
    case Xchg(_, _, _) => "xchg "
    case SignDx(w) => if w == Qword64 then "cqo" else "cdq"
    case Idiv(_, _) => "idiv "
    case Cmp(_, _, _) => "cmp "
    case CmpImm(_, _, _) => "cmp "
    case Setcc(cc, _) => "set" + CondName(cc) + " "
    case Jmp(_) => "jmp "
    case Jcc(cc, _) => "j" + CondName(cc) + " "
    case Call(_) => "call "
    case Ret => "ret"
    case Def(_) => ""
  }

  function DstText(i: Instr): string
    requires IsMov(i)
  {
    if i.Store? then MemText(i.base, i.disp) else RegName(i.w, i.dst)
  }

  function SrcText(i: Instr): string
    requires IsMov(i)
  {
    match i
    case MovImm(_, _, imm) => IntText(imm)
    case Mov(w, _, r) => RegName(w, r)
    case Load(_, _, b, disp) => MemText(b, disp)
    case Store(w, _, _, r) => RegName(w, r)
  }

  function Operands(i: Instr): string {
    match i
    case MovImm(_, _, _) => DstText(i) + ", " + SrcText(i)
    case Mov(_, _, _) => DstText(i) + ", " + SrcText(i)
    case Load(_, _, _, _) => DstText(i) + ", " + SrcText(i)
    case Store(_, _, _, _) => DstText(i) + ", " + SrcText(i)
    case LoadSx(w, d, b, disp) => RegName(Dword32, d) + ", " + (if w == Byte8 then "byte " else "word ") + MemText(b, disp)
    case Lea(d, b, disp) => RegName(Qword64, d) + ", " + MemText(b, disp)
    case Movsxd(d, r) => RegName(Qword64, d) + ", " + RegName(Dword32, r)
    case Movzx(d, r) => RegName(Dword32, d) + ", " + RegName(Byte8, r)
    case Push(r) => RegName(Qword64, r)
    case Pop(d) => RegName(Qword64, d)
    case Alu(_, w, d, r) => RegName(w, d) + ", " + RegName(w, r)
    case AluImm(_, w, d, imm) => RegName(w, d) + ", " + IntText(imm)
    case Neg(w, d) => RegName(w, d)
    case Not(w, d) => RegName(w, d)
    case ShiftLeft(w, d) => RegName(w, d) + ", cl"
    case ShiftRight(w, d) => RegName(w, d) + ", cl"
    case Xchg(w, a, b) => RegName(w, a) + ", " + RegName(w, b)
    case SignDx(_) => ""
    case Idiv(w, r) => RegName(w, r)
    case Cmp(w, a, b) => RegName(w, a) + ", " + RegName(w, b)
    case CmpImm(w, a, imm) => RegName(w, a) + ", " + IntText(imm)
    case Setcc(_, d) => RegName(Byte8, d)
    case Jmp(l) => l
    case Jcc(_, l) => l
    case Call(l) => l
    case Ret => ""
    case Def(l) => l
  }

  const INDENT := "    "

  function Render(i: Instr): string {
    if i.Def? then i.name + ":" else INDENT + (Mnemonic(i) + Operands(i))
  }

  // ---------------------------------------------------------------- scans

  predicate IsBlank(c: char) {
    c == ' ' || c == '\t'
  }

  /** How many characters at the front satisfy the test. */
  function Span(s: string, test: char -> bool): (k: nat)
    ensures k <= |s| && (forall j :: 0 <= j < k ==> test(s[j])) && (k < |s| ==> !test(s[k]))
  {
    if s == "" || !test(s[0]) then 0 else 1 + Span(s[1..], test)
  }

  lemma SpanIs(s: string, test: char -> bool, k: nat)
    requires k <= |s| && (forall j :: 0 <= j < k ==> test(s[j])) && (k < |s| ==> !test(s[k]))
    ensures Span(s, test) == k
  {
  }

  lemma SpanPrefix(x: string, t: string, test: char -> bool)
    requires (forall c :: c in x ==> test(c)) && t != "" && !test(t[0])
    ensures Span(x + t, test) == |x| && (x + t)[..|x|] == x && (x + t)[|x|..] == t
  {
    var s := x + t;
    forall j | 0 <= j < |x| ensures test(s[j]) { assert s[j] == x[j] && x[j] in x; }
    SpanIs(s, test, |x|);
  }

  lemma NotPrefix(p: string, s: string, k: nat)
    requires k < |p| && (k < |s| ==> s[k] != p[k])
    ensures !(p <= s)
  {
  }

  lemma Halves(a: string, b: string)
    ensures (a + b)[..|a|] == a && (a + b)[|a|..] == b && a <= a + b
    ensures a != "" ==> (a + b)[0] == a[0]
  {
  }

  /** The pointer loop `while (*p is ...) p++` that every parser of the pass is made of. */
  method Scan(s: string, p: nat, test: char -> bool) returns (q: nat)
    requires p <= |s|
    ensures q == p + Span(s[p..], test)
  {
    q := p;
    while q < |s| && test(s[q])
      invariant p <= q <= |s|
      invariant forall j :: p <= j < q ==> test(s[j])
    {
      q := q + 1;
    }
    SpanIs(s[p..], test, q - p);
  }

  function Strip(line: string): string {
    line[Span(line, IsBlank)..]
  }

  /** What fits into a character buffer of the given size, leaving room for the terminator. */
  function Fit(size: nat, s: string): string
    requires size >= 1
  {
    if |s| < size then s else s[..size - 1]
  }

  lemma StripIndented(b: string)
    requires b != "" && !IsBlank(b[0])
    ensures Strip(INDENT + b) == b && (INDENT + b)[..Span(INDENT + b, IsBlank)] == INDENT
  {
    var s := INDENT + b;
    assert s[4] == b[0];
    SpanIs(s, IsBlank, 4);
  }

  /** Labels the assembler accepts: something, without blanks, line ends or colons. */
  predicate LabelText(l: Label) {
    l != "" && forall c :: c in l ==> !IsBlank(c) && c !in {':', '\r', '\n'}
  }

  predicate Printable(i: Instr) {
    match i
    case Jmp(l) => LabelText(l)
    case Jcc(_, l) => LabelText(l)
    case Call(l) => LabelText(l)
    case Def(l) => LabelText(l)
    case _ => true
  }

  lemma MnemonicShape(i: Instr)
    requires !i.Def?
    ensures var m := Mnemonic(i); |m| >= 3 && IsLetter(m[0])
  {
    match i
    case Jcc(cc, _) => assert Mnemonic(i) == "j" + CondName(cc) + " " && |CondName(cc)| >= 1;
    case _ =>
  }

  lemma StripRender(i: Instr)
    requires Printable(i)
    ensures Strip(Render(i)) == if i.Def? then i.name + ":" else Mnemonic(i) + Operands(i)
    ensures !i.Def? ==> Render(i)[..Span(Render(i), IsBlank)] == INDENT && Render(i)[0] == ' '
  {
    if i.Def? {
      var s := i.name + ":";
      assert s[0] == i.name[0] && i.name[0] in i.name;
      assert s[0..] == s;
    } else {
      MnemonicShape(i);
      StripIndented(Mnemonic(i) + Operands(i));
    }
  }

  // A rendered label line has no blank, so no mnemonic is a prefix of it.
  lemma LabelLineHasNoBlank(l: Label)
    requires LabelText(l)
    ensures forall c :: c in l + ":" ==> !IsBlank(c)
  {
  }
}
