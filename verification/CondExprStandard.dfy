/** The value that section 6.10.1 of ISO/IEC 9899:1999 gives to a condition whose macros have been expanded,
    and exactly when the evaluator finds it. */
module CondExprStandard {
  import opened Words
  import opened Numerals
  import opened CondExpr
  import opened CondExprCorrect
  import opened CondExprPrint
  import opened CondExprLimits

  // ---------------------------------------------------------------- literals

  predicate IsU(c: char) {
    c == 'u' || c == 'U'
  }

  predicate LongSuffix(s: string) {
    s == "" || s == "l" || s == "L" || s == "ll" || s == "LL"
  }

  /** The suffixes of section 6.4.4.1; the evaluator skips any run of these letters. */
  predicate StandardSuffix(s: string) {
    LongSuffix(s) || (s != "" && IsU(s[0]) && LongSuffix(s[1..])) || (s != "" && IsU(s[|s| - 1]) && LongSuffix(s[..|s| - 1]))
  }

  predicate HasU(s: string) {
    exists i :: 0 <= i < |s| && IsU(s[i])
  }

  predicate LeadingZero(l: Written)
    requires l.Literal?
  {
    l.prefix == "" && l.digits != "" && l.digits[0] == '0'
  }

  function DigitOf(c: char): int {
    if '0' <= c <= '9' then c as int - '0' as int
    else if 'a' <= c <= 'f' then 10 + (c as int - 'a' as int)
    else 10 + (c as int - 'A' as int)
  }

  function Positional(d: string, base: nat): int {
    if d == "" then 0 else base * Positional(d[..|d| - 1], base) + DigitOf(d[|d| - 1])
  }

  /** The characters of each class, by their ASCII codes. */
  lemma CharacterTable(c: char)
    ensures var n := c as int;
      && (Is(Blank, c) <==> n == 32 || n == 9)
      && (Is(Word, c) <==> 48 <= n <= 57 || 65 <= n <= 90 || n == 95 || 97 <= n <= 122)
      && (Is(Hex, c) <==> 48 <= n <= 57 || 65 <= n <= 70 || 97 <= n <= 102)
      && (Is(Dec, c) <==> 48 <= n <= 57)
      && (Is(Suffix, c) <==> n == 76 || n == 85 || n == 108 || n == 117)
  {
  }

  /** The evaluator's reading of digits is the positional one. */
  lemma {:induction false} NumberPositional(k: CharClass, d: string)
    requires (k == Hex || k == Dec) && All(k, d)
    ensures Number(k, d) == Positional(d, if k == Dec then 10 else 16)
    decreases |d|
  {
    if d != "" {
      NumberPositional(k, d[..|d| - 1]);
      assert Is(k, d[|d| - 1]);
    }
  }

  function Magnitude(l: Written): int
    requires l.Literal? && Grammatical(l)
  {
    if LeadingZero(l) && OctalDigits(l.digits) then Octal(l.digits) else Positional(l.digits, if l.prefix == "" then 10 else 16)
  }

  /** C's value: none for 8 and 9 after a leading zero, for 0x alone, for other suffixes and beyond the type.
      Only decimal literals without u are bound to the signed type. */
  function LiteralValue(l: Written): Result
    requires l.Literal? && Grammatical(l)
  {
    if !StandardSuffix(l.suffix) || l.digits == "" || (LeadingZero(l) && !OctalDigits(l.digits)) then Undefined
    else if HasU(l.suffix) || l.prefix != "" || LeadingZero(l) then FitUnsigned(Magnitude(l))
    else FitSigned(Magnitude(l))
  }

  function FitUnsigned(v: int): Result {
    if 0 <= v <= 0xFFFF_FFFF_FFFF_FFFF then Known(v) else Undefined
  }

  function FitSigned(v: int): Result {
    if -0x8000_0000_0000_0000 <= v <= 0x7FFF_FFFF_FFFF_FFFF then Known(v) else Undefined
  }

  function LiteralUnsigned(l: Written): bool
    requires l.Literal? && Grammatical(l)
  {
    LiteralValue(l).Known? && (HasU(l.suffix) || !IsLong(LiteralValue(l).value))
  }

  // ---------------------------------------------------------------- types and operators

  predicate Truthy(op: BinOp) {
    op in {Lt, Le, Gt, Ge, Eq, Ne, LogAnd, LogOr}
  }

  /** The type is uintmax_t, otherwise intmax_t. */
  function Unsigned(e: Written): bool
    requires Grammatical(e)
  {
    match e
    case Literal(_, _, _) => LiteralUnsigned(e)
    case Paren(_, e1, _) => Unsigned(e1)
    case Prefix(op, _, e1) => op != Not && Unsigned(e1)
    case Infix(l, _, op, _, r) =>
      if Truthy(op) then false else if op == Shl || op == Shr then Unsigned(l) else Unsigned(l) || Unsigned(r)
    case Choice(_, _, _, y, _, _, n) => Unsigned(y) || Unsigned(n)
    case _ => false
  }

  function Converted(v: int, unsigned: bool): int {
    if unsigned then Residue(v, W64) else v
  }

  function UnsignedBits(op: BitOp, a: int, b: int): int {
    Bitwise(op, Residue(a, W64), Residue(b, W64), 64)
  }

  /** The operators on uintmax_t: everything is modulo 2 to the power 64. */
  function ApplyUnsigned(op: BinOp, a: int, b: int): Result {
    match op
    case Mul => Known(Residue(a * b, W64))
    case Div => if b == 0 then Fatal else Known(a / b)
    case Mod => if b == 0 then Fatal else Known(a % b)
    case Add => Known(Residue(a + b, W64))
    case Sub => Known(Residue(a - b, W64))
    case And => Known(UnsignedBits(AndBits, a, b))
    case Xor => Known(UnsignedBits(XorBits, a, b))
    case Or => Known(UnsignedBits(OrBits, a, b))
    case _ => Comparison(op, a, b)
  }

  /** Comparisons and, on operands both evaluated, the logical operators. */
  function Comparison(op: BinOp, a: int, b: int): Result {
    match op
    case Lt => if a < b then Known(1) else Known(0)
    case Le => if b < a then Known(0) else Known(1)
    case Gt => if b < a then Known(1) else Known(0)
    case Ge => if a < b then Known(0) else Known(1)
    case Eq => if a == b then Known(1) else Known(0)
    case Ne => if a == b then Known(0) else Known(1)
    case LogAnd => if a == 0 || b == 0 then Known(0) else Known(1)
    case LogOr => if a == 0 && b == 0 then Known(0) else Known(1)
    case _ => Undefined
  }

  /** The operators on intmax_t: exact, and without a value where the exact result does not fit. */
  function ApplySigned(op: BinOp, a: int, b: int): Result {
    match op
    case Mul => FitSigned(a * b)
    case Div => if b == 0 then Fatal else FitSigned(TruncDiv(a, b))
    case Mod => if b == 0 then Fatal else if !FitSigned(TruncDiv(a, b)).Known? then Undefined else FitSigned(a - b * TruncDiv(a, b))
    case Add => FitSigned(a + b)
    case Sub => FitSigned(a - b)
    case And => FitSigned(SignedBits(AndBits, a, b))
    case Xor => FitSigned(SignedBits(XorBits, a, b))
    case Or => FitSigned(SignedBits(OrBits, a, b))
    case _ => Comparison(op, a, b)
  }

  function SignedBits(op: BitOp, a: int, b: int): int {
    var u := UnsignedBits(op, a, b);
    if u > 0x7FFF_FFFF_FFFF_FFFF then u - 0x1_0000_0000_0000_0000 else u
  }

  /** A shift has the type of its left operand; a negative value may not be shifted left. */
  function ShiftValue(op: BinOp, a: int, b: int, unsigned: bool): Result {
    if !(0 <= b < 64) then Undefined
    else if op == Shr then if unsigned then Known(a / Pow2(b)) else FitSigned(a / Pow2(b))
    else if unsigned then Known(Residue(a * Pow2(b), W64))
    else if a < 0 then Undefined
    else FitSigned(a * Pow2(b))
  }

  function Operation(op: BinOp, a: int, b: int, ua: bool, ub: bool): Result {
    if op == Shl || op == Shr then ShiftValue(op, a, b, ua)
    else if op == LogAnd || op == LogOr then Comparison(op, a, b)
    else if ua || ub then ApplyUnsigned(op, Converted(a, true), Converted(b, true))
    else ApplySigned(op, a, b)
  }

  function UnOperation(op: UnOp, v: int, unsigned: bool): Result {
    match op
    case Not => if v == 0 then Known(1) else Known(0)
    case Plus => Known(v)
    case Neg => if unsigned then Known(Residue(-v, W64)) else FitSigned(-v)
    case Compl => if unsigned then Known(W64 - 1 - v) else FitSigned(-v - 1)
  }

  // ---------------------------------------------------------------- the value of a condition

  /** The left operand alone decides. */
  predicate Decides(op: BinOp, a: Result) {
    a.Known? && ((op == LogAnd && a.value == 0) || (op == LogOr && a.value != 0))
  }

  /** Names are 0, and the operands that && and || and ?: do not select are not evaluated. */
  function Standard(m: Macros, e: Written): Result
    requires Grammatical(e)
  {
    match e
    case Literal(_, _, _) => LiteralValue(e)
    case Name(_) => Known(0)
    case IsDef(_, x) => if x in m.Keys then Known(1) else Known(0)
    case IsDefParen(_, _, x, _) => if x in m.Keys then Known(1) else Known(0)
    case Paren(_, e1, _) => Standard(m, e1)
    case Prefix(op, _, e1) =>
      var v := Standard(m, e1);
      if v.Known? then UnOperation(op, v.value, Unsigned(e1)) else v
    case Infix(l, _, op, _, r) =>
      var a := Standard(m, l);
      if Decides(op, a) then Known(if op == LogOr then 1 else 0)
      else
        var b := Standard(m, r);
        if !a.Known? then a else if !b.Known? then b else Operation(op, a.value, b.value, Unsigned(l), Unsigned(r))
    case Choice(c, _, _, y, _, _, n) =>
      var v := Standard(m, c);
      if !v.Known? then v
      else
        var r := if v.value != 0 then Standard(m, y) else Standard(m, n);
        if r.Known? then Known(Converted(r.value, Unsigned(y) || Unsigned(n))) else r
  }

  predicate Begins(c: char, t: string) {
    t != "" && t[0] == c
  }

  /** The last token is a hexadecimal literal that a sign would continue (section 6.4.8). */
  predicate EndsInE(e: Written) {
    match e
    case Literal(p, d, u) => p != "" && u == "" && d != "" && (d[|d| - 1] == 'e' || d[|d| - 1] == 'E')
    case Prefix(_, _, e1) => EndsInE(e1)
    case Infix(_, _, _, _, r) => EndsInE(r)
    case Choice(_, _, _, _, _, _, n) => EndsInE(n)
    case _ => false
  }

  /** C splits the text into the tokens of e: it holds no ++ or --, and no sign follows a literal such as 0xE. */
  predicate Separate(e: Written) {
    match e
    case Paren(_, e1, _) => Separate(e1)
    case Prefix(op, a, e1) => Separate(e1) && !(a == "" && (op == Neg || op == Plus) && Begins(UnSpelling(op), Text(e1)))
    case Infix(l, a, op, b, r) =>
      && Separate(l) && Separate(r)
      && (op == Add || op == Sub ==> !(b == "" && Begins(Spelling(op)[0], Text(r))) && !(a == "" && EndsInE(l)))
    case Choice(c, _, _, y, _, _, n) => Separate(c) && Separate(y) && Separate(n)
    case _ => true
  }

  /** C's value of the text of e. */
  function TextValue(m: Macros, e: Written): Result
    requires Grammatical(e)
  {
    if Separate(e) then Standard(m, e) else Undefined
  }

  /** The operands that C leaves out. */
  function Unevaluated(m: Macros, e: Written): (us: seq<Written>)
    requires Grammatical(e)
    ensures forall u :: u in us ==> Grammatical(u)
  {
    match e
    case Paren(_, e1, _) => Unevaluated(m, e1)
    case Prefix(_, _, e1) => Unevaluated(m, e1)
    case Infix(l, _, op, _, r) =>
      Unevaluated(m, l) + if Decides(op, Standard(m, l)) then [r] else Unevaluated(m, r)
    case Choice(c, _, _, y, _, _, n) =>
      var v := Standard(m, c);
      Unevaluated(m, c) + if v.Known? && v.value != 0 then Unevaluated(m, y) + [n] else [y] + Unevaluated(m, n)
    case _ => []
  }

  /** Every operand that C leaves out has a value for the evaluator all the same. */
  predicate Harmless(m: Macros, e: Written)
    requires Grammatical(e)
  {
    forall u :: u in Unevaluated(m, e) ==> Meaning(m, u).Known?
  }

  // ---------------------------------------------------------------- what the evaluator must be spared

  function Names(e: Written): set<string> {
    match e
    case Name(x) => {x}
    case Paren(_, e1, _) => Names(e1)
    case Prefix(_, _, e1) => Names(e1)
    case Infix(l, _, _, _, r) => Names(l) + Names(r)
    case Choice(c, _, _, y, _, _, n) => Names(c) + Names(y) + Names(n)
    case _ => {}
  }

  function Literals(e: Written): set<Written> {
    match e
    case Literal(_, _, _) => {e}
    case Paren(_, e1, _) => Literals(e1)
    case Prefix(_, _, e1) => Literals(e1)
    case Infix(l, _, _, _, r) => Literals(l) + Literals(r)
    case Choice(c, _, _, y, _, _, n) => Literals(c) + Literals(y) + Literals(n)
    case _ => {}
  }

  /** No u, no digit but the last after a leading zero, no value beyond long. */
  predicate Plain(l: Written)
    requires l.Literal? && Grammatical(l)
  {
    !HasU(l.suffix) && (LeadingZero(l) ==> Zeros(l.digits[..|l.digits| - 1])) && IsLong(Magnitude(l))
  }

  /** A literal that C does not accept may be anything. */
  predicate PlainOrNone(l: Written)
    requires l.Literal? && Grammatical(l)
  {
    LiteralValue(l).Known? ==> Plain(l)
  }

  /** The replacement starts with an integer that is zero. */
  predicate ZeroText(t: string) {
    var i := Skip(t, 0);
    var j := if At(t, i) == '-' then Skip(t, i + 1) else i;
    IsDigit(At(t, j)) && Zeros(SpanText(Dec, t, j))
  }

  predicate ReadsZero(m: Macros, x: string) {
    x in m && m[x].objectLike ==> ZeroText(m[x].replacement)
  }

  lemma {:induction false} NumberZero(d: string)
    requires All(Dec, d)
    ensures Number(Dec, d) == 0 <==> Zeros(d)
    decreases |d|
  {
    if d != [] {
      var n := |d| - 1;
      NumberZero(d[..n]);
      assert Is(Dec, d[n]);
      assert Zeros(d) <==> Zeros(d[..n]) && d[n] == '0';
    }
  }

  /** The evaluator reads a name as 0 exactly if it is no macro or its replacement starts with zero. */
  lemma NameZeroExact(m: Macros, x: string)
    ensures NameValue(m, x) == Known(0) <==> ReadsZero(m, x)
  {
    if x in m && m[x].objectLike {
      var t := m[x].replacement;
      var i := Skip(t, 0);
      var j := if At(t, i) == '-' then Skip(t, i + 1) else i;
      NumberZero(SpanText(Dec, t, j));
    }
  }

  predicate Spared(m: Macros, e: Written)
    requires Grammatical(e)
  {
    && (forall l :: l in Literals(e) ==> l.Literal? && Grammatical(l) && PlainOrNone(l))
    && (forall x :: x in Names(e) ==> ReadsZero(m, x))
  }

  lemma {:induction false} SparedSigned(m: Macros, e: Written)
    requires Grammatical(e) && Spared(m, e)
    ensures !Unsigned(e)
    decreases e
  {
    hide LiteralValue, Plain, ReadsZero;
    match e
    case Literal(_, _, _) => PlainSigned(e);
    case Paren(_, e1, _) => SparedSigned(m, e1);
    case Prefix(_, _, e1) => SparedSigned(m, e1);
    case Infix(l, _, _, _, r) => SparedSigned(m, l); SparedSigned(m, r);
    case Choice(c, _, _, y, _, _, n) => SparedSigned(m, y); SparedSigned(m, n);
    case _ =>
  }

  lemma PlainSigned(l: Written)
    requires l.Literal? && Grammatical(l) && PlainOrNone(l)
    ensures !LiteralUnsigned(l)
    ensures LiteralValue(l).Known? ==> LiteralValue(l) == Meaning(map[], l)
  {
    if LiteralValue(l).Known? {
      if LeadingZero(l) { OctalExact(l.digits); }
      NumberPositional(LiteralClass(l.prefix), l.digits);
      hide Octal, Number, Positional, StandardSuffix, HasU;
    }
  }

  lemma LiteralSame(m: Macros, l: Written)
    requires l.Literal? && Grammatical(l)
    ensures Meaning(m, l) == Meaning(map[], l)
  {
  }

  /** On signed operands C's operators are the evaluator's. */
  lemma OperationSame(op: BinOp, a: int, b: int)
    requires Operation(op, a, b, false, false).Known?
    ensures Operation(op, a, b, false, false) == Apply(op, a, b)
  {
    Pow2Values();
    hide Bitwise, Pow2, TruncDiv;
  }

  // ---------------------------------------------------------------- agreement

  /** Strict evaluation finds C's value or fails, and fails exactly on an operand left out. */
  ghost predicate Agrees(m: Macros, e: Written)
    requires Grammatical(e)
  {
    && (Harmless(m, e) <==> Meaning(m, e).Known?)
    && (Meaning(m, e).Known? ==> Meaning(m, e) == Standard(m, e))
  }

  lemma {:induction false} StandardExact(m: Macros, e: Written)
    requires Grammatical(e) && Spared(m, e) && Standard(m, e).Known?
    ensures Agrees(m, e)
    decreases e
  {
    hide LiteralValue, Apply, ApplyUn, Operation, NameValue, ReadsZero, PlainOrNone, Unsigned;
    match e
    case Literal(_, _, _) =>
      assert e in Literals(e);
      PlainSigned(e);
      LiteralSame(m, e);
    case Name(x) =>
      assert x in Names(e);
      NameZeroExact(m, x);
    case Paren(_, e1, _) => StandardExact(m, e1);
    case Prefix(op, _, e1) =>
      StandardExact(m, e1);
      SparedSigned(m, e1);
      UnOperationSame(op, Standard(m, e1).value);
    case Infix(l, _, op, _, r) =>
      SparedInfix(m, e);
      StandardExact(m, l);
      SparedSigned(m, l);
      SparedSigned(m, r);
      if !Decides(op, Standard(m, l)) { StandardExact(m, r); }
      hide Agrees;
      InfixExact(m, e);
    case Choice(c, _, _, y, _, _, n) =>
      SparedChoice(m, e);
      StandardExact(m, c);
      SparedSigned(m, y);
      SparedSigned(m, n);
      if Standard(m, c).value != 0 { StandardExact(m, y); } else { StandardExact(m, n); }
      ChoiceHarmless(m, e);
    case _ =>
  }

  lemma InfixExact(m: Macros, e: Written)
    requires Grammatical(e) && e.Infix? && Standard(m, e).Known? && !Unsigned(e.l) && !Unsigned(e.r)
    requires Agrees(m, e.l) && (!Decides(e.op, Standard(m, e.l)) ==> Agrees(m, e.r))
    ensures Agrees(m, e)
  {
    InfixHarmless(m, e);
    hide Unsigned, Harmless, Apply, Operation;
    var a, b := Standard(m, e.l), Standard(m, e.r);
    if Decides(e.op, a) {
      if Meaning(m, e.r).Known? { DecidesValue(e.op, a.value, Meaning(m, e.r).value); }
    } else {
      OperationSame(e.op, a.value, b.value);
    }
  }

  lemma DecidesValue(op: BinOp, a: int, b: int)
    requires Decides(op, Known(a))
    ensures Apply(op, a, b) == Truth(op == LogOr)
  {
  }

  lemma UnOperationSame(op: UnOp, v: int)
    ensures UnOperation(op, v, false) == ApplyUn(op, v)
  {
  }

  lemma SparedInfix(m: Macros, e: Written)
    requires Grammatical(e) && e.Infix? && Spared(m, e)
    ensures Spared(m, e.l) && Spared(m, e.r)
  {
  }

  lemma SparedChoice(m: Macros, e: Written)
    requires Grammatical(e) && e.Choice? && Spared(m, e)
    ensures Spared(m, e.c) && Spared(m, e.y) && Spared(m, e.n)
  {
  }

  lemma InfixHarmless(m: Macros, e: Written)
    requires Grammatical(e) && e.Infix?
    ensures Harmless(m, e) <==>
      (Harmless(m, e.l) && if Decides(e.op, Standard(m, e.l)) then Meaning(m, e.r).Known? else Harmless(m, e.r))
  {
    hide Meaning, Standard;
  }

  lemma ChoiceHarmless(m: Macros, e: Written)
    requires Grammatical(e) && e.Choice? && Standard(m, e.c).Known?
    ensures Harmless(m, e) <==>
      (Harmless(m, e.c) && if Standard(m, e.c).value != 0 then Harmless(m, e.y) && Meaning(m, e.n).Known? else Meaning(m, e.y).Known? && Harmless(m, e.n))
  {
    hide Meaning, Standard;
  }

  /** A condition of plain literals and of names that read 0, and defined by C, is decided as C decides it exactly
      if the operands C leaves out have values; otherwise the evaluator has no value for it. */
  lemma ConditionExact(m: Macros, before: string, e: Written, after: string)
    requires Grammatical(e) && All(Blank, before) && All(Blank, after) && Spared(m, e) && TextValue(m, e).Known?
    ensures var r := Condition(m, before + (Text(e) + after));
      (r == Tested(TextValue(m, e)) <==> Harmless(m, e)) && (r.Known? <==> Harmless(m, e))
  {
    hide Condition, Standard, Meaning, Harmless, Text, Spared, Grammatical, Separate;
    StandardExact(m, e);
    ConditionCorrect(m, before, e, after);
  }

  // ---------------------------------------------------------------- nothing else may be spared

  /** Expressions over some literals and names that C defines, and whose operands left out have values. */
  ghost predicate Over(m: Macros, e: Written, ls: set<Written>, xs: set<string>) {
    Grammatical(e) && Literals(e) <= ls && Names(e) <= xs && TextValue(m, e).Known? && Harmless(m, e)
  }

  ghost predicate Proper(ls: set<Written>, xs: set<string>) {
    (forall l :: l in ls ==> l.Literal? && Grammatical(l)) && (forall x :: x in xs ==> IsName(x) && x != "defined")
  }

  /** C and the evaluator decide the condition alike. */
  ghost predicate SameTruth(m: Macros, e: Written)
    requires Grammatical(e)
  {
    Condition(m, Text(e)) == Tested(TextValue(m, e))
  }

  ghost predicate AllPlain(ls: set<Written>) {
    forall l :: l in ls ==> l.Literal? && Grammatical(l) && PlainOrNone(l)
  }

  ghost predicate AllZero(m: Macros, xs: set<string>) {
    forall x :: x in xs ==> ReadsZero(m, x)
  }

  /** All conditions over a set of literals and a set of names are decided as C decides them, and all expressions
      have their C values, if and only if each literal that C accepts is plain and each name reads 0. */
  lemma AgreementExact(m: Macros, ls: set<Written>, xs: set<string>)
    requires Proper(ls, xs)
    ensures (forall e :: Over(m, e, ls, xs) ==> SameTruth(m, e)) <==> AllPlain(ls) && AllZero(m, xs)
    ensures (forall e :: Over(m, e, ls, xs) ==> Meaning(m, e) == TextValue(m, e)) <==> AllPlain(ls) && AllZero(m, xs)
  {
    hide Standard, Meaning, Harmless, Condition, Text, Grammatical, PlainOrNone, ReadsZero, IsName, SameTruth, Separate;
    if AllPlain(ls) && AllZero(m, xs) {
      forall e | Over(m, e, ls, xs) ensures Meaning(m, e) == TextValue(m, e) && SameTruth(m, e) {
        OverSpared(m, e, ls, xs);
        StandardExact(m, e);
        TruthIs(m, e);
      }
    } else {
      var e := Breaks(m, ls, xs);
      TruthIs(m, e);
    }
  }

  /** The same for names alone, among any literals that are plain. */
  lemma NamesExact(m: Macros, xs: set<string>)
    requires Proper({}, xs)
    ensures (forall e :: Over(m, e, Literals(e), xs) && AllPlain(Literals(e)) ==> Meaning(m, e) == TextValue(m, e)) <==> AllZero(m, xs)
  {
    hide Standard, Meaning, Harmless, Text, Grammatical, PlainOrNone, ReadsZero, IsName, Separate;
    if AllZero(m, xs) {
      forall e | Over(m, e, Literals(e), xs) && AllPlain(Literals(e)) ensures Meaning(m, e) == TextValue(m, e) {
        OverSpared(m, e, Literals(e), xs);
        StandardExact(m, e);
      }
    } else {
      var x :| x in xs && !ReadsZero(m, x);
      NameBreaks(m, x);
      NameLiterals(x);
    }
  }

  lemma NameLiterals(x: string)
    ensures Literals(Name(x)) == {} && AllPlain({})
  {
  }

  lemma OverSpared(m: Macros, e: Written, ls: set<Written>, xs: set<string>)
    requires Over(m, e, ls, xs) && AllPlain(ls) && AllZero(m, xs)
    ensures Spared(m, e)
  {
    hide PlainOrNone, ReadsZero, Standard, Harmless, Separate;
  }

  lemma TruthIs(m: Macros, e: Written)
    requires Grammatical(e)
    ensures SameTruth(m, e) <==> Tested(Meaning(m, e)) == Tested(TextValue(m, e))
  {
    hide Condition, TextValue, Meaning, Text, Grammatical, Tested;
    ConditionCorrect(m, "", e, "");
    assert "" + (Text(e) + "") == Text(e);
  }

  lemma Breaks(m: Macros, ls: set<Written>, xs: set<string>) returns (e: Written)
    requires Proper(ls, xs) && !(AllPlain(ls) && AllZero(m, xs))
    ensures Over(m, e, ls, xs) && Tested(Meaning(m, e)) != Tested(TextValue(m, e))
  {
    hide TextValue, Meaning, Harmless, Grammatical, IsName, ReadsZero, LiteralValue, Plain;
    if !AllPlain(ls) {
      var l :| l in ls && !PlainOrNone(l);
      e := LiteralBreaks(m, l);
    } else {
      var x :| x in xs && !ReadsZero(m, x);
      e := Name(x);
      NameBreaks(m, x);
    }
  }

  lemma NameBreaks(m: Macros, x: string)
    requires IsName(x) && x != "defined" && !ReadsZero(m, x)
    ensures Over(m, Name(x), {}, {x}) && Tested(Meaning(m, Name(x))) != Tested(TextValue(m, Name(x)))
  {
    NameZeroExact(m, x);
  }

  /** A single literal that is not plain suffices: alone, as ~l < l, or compared with its C value. */
  lemma LiteralBreaks(m: Macros, l: Written) returns (e: Written)
    requires l.Literal? && Grammatical(l) && LiteralValue(l).Known? && !Plain(l)
    ensures Over(m, e, {l}, {}) && Tested(Meaning(m, e)) != Tested(TextValue(m, e))
  {
    if !Meaning(m, l).Known? {
      e := l;
    } else if HasU(l.suffix) {
      e := Infix(Prefix(Compl, "", l), "", Lt, "", l);
      UnsignedBreaks(m, l);
    } else {
      var c := LiteralValue(l).value;
      OctalBreaks(m, l);
      e := Infix(l, "", Eq, "", Ones(l, c));
    }
  }

  lemma MagnitudeBelow(m: Macros, l: Written)
    requires l.Literal? && Grammatical(l) && LiteralValue(l).Known? && Meaning(m, l).Known?
    ensures LiteralValue(l) == Known(Magnitude(l)) && 0 <= Magnitude(l) <= Meaning(m, l).value && IsLong(Meaning(m, l).value)
  {
    if LeadingZero(l) { OctalExact(l.digits); }
    NumberPositional(LiteralClass(l.prefix), l.digits);
    hide Octal, Number, Positional, StandardSuffix, HasU;
  }

  lemma UnsignedBreaks(m: Macros, l: Written)
    requires l.Literal? && Grammatical(l) && LiteralValue(l).Known? && Meaning(m, l).Known? && HasU(l.suffix)
    ensures var e := Infix(Prefix(Compl, "", l), "", Lt, "", l);
      Over(m, e, {l}, {}) && Meaning(m, e) == Known(1) && TextValue(m, e) == Known(0)
  {
    hide LiteralValue, LiteralUnsigned, HasU, Unsigned, Standard, Unevaluated, Names, Literals, Meaning, Separate, EndsInE, Text, Operation, Apply, Grammatical, Over, TextValue;
    MagnitudeBelow(m, l);
    var c, v := LiteralValue(l).value, Meaning(m, l).value;
    LeafIs(m, l);
    UIsUnsigned(l);
    var n := Prefix(Compl, "", l);
    PrefixIs(m, Compl, l);
    assert Standard(m, n) == Known(W64 - 1 - c) && Meaning(m, n) == Known(-v - 1);
    InfixIs(m, n, Lt, l);
    InfixTokens(n, Lt, l);
    LessValues(c, v);
    OverBy(m, Infix(n, "", Lt, "", l), l);
  }

  lemma UIsUnsigned(l: Written)
    requires l.Literal? && Grammatical(l) && LiteralValue(l).Known? && HasU(l.suffix)
    ensures LiteralUnsigned(l)
  {
  }

  lemma OverBy(m: Macros, e: Written, l: Written)
    requires Grammatical(e) && Literals(e) == {l} && Names(e) == {} && Separate(e) && Standard(m, e).Known? && Unevaluated(m, e) == []
    ensures Over(m, e, {l}, {}) && TextValue(m, e) == Standard(m, e)
  {
    hide Grammatical, Standard, Unevaluated, Names, Literals, Separate;
  }

  lemma LessValues(c: nat, v: int)
    requires c <= v && IsLong(v)
    ensures Operation(Lt, W64 - 1 - c, c, true, true) == Known(0) && Apply(Lt, -v - 1, v) == Known(1)
  {
    hide Bits, UnsignedBits;
    ModUnique(c, 0, c, W64);
    ModUnique(W64 - 1 - c, 0, W64 - 1 - c, W64);
  }

  lemma LeafIs(m: Macros, l: Written)
    requires l.Literal? && Grammatical(l)
    ensures Separate(l) && Standard(m, l) == LiteralValue(l) && Unsigned(l) == LiteralUnsigned(l) && Unevaluated(m, l) == [] && Literals(l) == {l} && Names(l) == {}
  {
  }

  lemma PrefixIs(m: Macros, op: UnOp, a: Written)
    requires Grammatical(a) && Prec(a) == 0 && Standard(m, a).Known? && Meaning(m, a).Known?
    ensures var e := Prefix(op, "", a);
      && Grammatical(e) && Prec(e) == 0 && Literals(e) == Literals(a) && Names(e) == Names(a) && Unevaluated(m, e) == Unevaluated(m, a)
      && Standard(m, e) == UnOperation(op, Standard(m, a).value, Unsigned(a)) && Meaning(m, e) == ApplyUn(op, Meaning(m, a).value)
      && Unsigned(e) == (op != Not && Unsigned(a)) && EndsInE(e) == EndsInE(a) && Begins(UnSpelling(op), Text(e))
      && (op == Not || op == Compl ==> Separate(e) == Separate(a))
  {
    hide UnOperation, ApplyUn;
  }

  lemma InfixIs(m: Macros, a: Written, op: BinOp, b: Written)
    requires Grammatical(a) && Grammatical(b) && Prec(a) <= LevelOf(op) && Prec(b) < LevelOf(op) && op != LogAnd && op != LogOr
    requires Standard(m, a).Known? && Meaning(m, a).Known? && Standard(m, b).Known? && Meaning(m, b).Known?
    ensures var e := Infix(a, "", op, "", b);
      && Grammatical(e) && Literals(e) == Literals(a) + Literals(b) && Names(e) == Names(a) + Names(b)
      && Unevaluated(m, e) == Unevaluated(m, a) + Unevaluated(m, b)
      && Standard(m, e) == Operation(op, Standard(m, a).value, Standard(m, b).value, Unsigned(a), Unsigned(b))
      && Meaning(m, e) == Apply(op, Meaning(m, a).value, Meaning(m, b).value)
      && (op == Add ==> Unsigned(e) == (Unsigned(a) || Unsigned(b)))
  {
    hide Operation, Apply, LiteralValue, NameValue, UnOperation, Number, Magnitude;
  }

  lemma InfixTokens(a: Written, op: BinOp, b: Written)
    requires Separate(a) && Separate(b) && (op == Add ==> !EndsInE(a) && !Begins('+', Text(b))) && op != Sub
    ensures var e := Infix(a, "", op, "", b);
      Separate(e) && EndsInE(e) == EndsInE(b) && (Begins('!', Text(a)) ==> Begins('!', Text(e)))
  {
  }

  /** n as a sum of !!l. */
  function Ones(l: Written, n: nat): Written
    requires n > 0
  {
    var one := Prefix(Not, "", Prefix(Not, "", l));
    if n == 1 then one else Infix(Ones(l, n - 1), "", Add, "", one)
  }

  ghost predicate Counts(m: Macros, l: Written, e: Written, n: nat) {
    && Grammatical(e) && Prec(e) <= 2 && Literals(e) == {l} && Names(e) == {}
    && Standard(m, e) == Known(n) && Meaning(m, e) == Known(n) && Unevaluated(m, e) == [] && !Unsigned(e)
    && Separate(e) && !EndsInE(e) && Begins('!', Text(e))
  }

  lemma {:induction false} OnesCount(m: Macros, l: Written, n: nat)
    requires l.Literal? && Grammatical(l) && LiteralValue(l).Known? && Meaning(m, l).Known?
    requires LiteralValue(l).value != 0 && Meaning(m, l).value != 0 && 0 < n && IsLong(n) && !EndsInE(l)
    ensures Counts(m, l, Ones(l, n), n)
    decreases n
  {
    hide LiteralValue;
    var one := Ones(l, 1);
    OneCounts(m, l);
    if n > 1 {
      OnesCount(m, l, n - 1);
      SumCounts(m, l, Ones(l, n - 1), n - 1, one);
    }
  }

  lemma OneCounts(m: Macros, l: Written)
    requires l.Literal? && Grammatical(l) && LiteralValue(l).Known? && Meaning(m, l).Known?
    requires LiteralValue(l).value != 0 && Meaning(m, l).value != 0 && !EndsInE(l)
    ensures Counts(m, l, Ones(l, 1), 1)
  {
    LeafIs(m, l);
    hide LiteralValue, Grammatical, Unsigned, Standard, Unevaluated, Names, Literals, Meaning, Separate, EndsInE, Text;
    PrefixIs(m, Not, l);
    PrefixIs(m, Not, Prefix(Not, "", l));
  }

  lemma SumCounts(m: Macros, l: Written, e: Written, n: nat, one: Written)
    requires Counts(m, l, e, n) && Counts(m, l, one, 1) && one.Prefix? && IsLong(n + 1)
    ensures Counts(m, l, Infix(e, "", Add, "", one), n + 1)
  {
    hide Grammatical, Unsigned, Standard, Unevaluated, Names, Literals, Meaning, Separate, EndsInE, Text;
    InfixIs(m, e, Add, one);
    InfixTokens(e, Add, one);
  }

  lemma {:induction false} OctalZero(d: string)
    requires OctalDigits(d)
    ensures Octal(d) == 0 <==> Zeros(d)
    decreases |d|
  {
    if d != [] {
      var n := |d| - 1;
      OctalZero(d[..n]);
      assert Zeros(d) <==> Zeros(d[..n]) && d[n] == '0';
    }
  }

  lemma OctalBreaks(m: Macros, l: Written)
    requires l.Literal? && Grammatical(l) && LiteralValue(l).Known? && Meaning(m, l).Known? && !HasU(l.suffix) && !Plain(l)
    ensures LiteralValue(l).value > 0
    ensures var e := Infix(l, "", Eq, "", Ones(l, LiteralValue(l).value));
      Over(m, e, {l}, {}) && Meaning(m, e) == Known(0) && TextValue(m, e) == Known(1)
  {
    MagnitudeBelow(m, l);
    var c, v := LiteralValue(l).value, Meaning(m, l).value;
    OctalDiffers(m, l);
    OnesCount(m, l, c);
    hide LiteralValue, HasU, Ones, Plain;
    EqualCounts(m, l, Ones(l, c), c, v);
  }

  lemma ZerosFront(d: string)
    requires d != []
    ensures Zeros(d) ==> Zeros(d[..|d| - 1])
  {
  }

  lemma OctalDiffers(m: Macros, l: Written)
    requires l.Literal? && Grammatical(l) && LiteralValue(l).Known? && Meaning(m, l).Known? && !HasU(l.suffix) && !Plain(l)
    ensures LiteralValue(l).value > 0 && Meaning(m, l).value != LiteralValue(l).value && !EndsInE(l)
  {
    MagnitudeBelow(m, l);
    assert LeadingZero(l) && !Zeros(l.digits[..|l.digits| - 1]);
    OctalExact(l.digits);
    OctalZero(l.digits);
    NumberPositional(LiteralClass(l.prefix), l.digits);
    hide Octal, Number, Positional, StandardSuffix, HasU;
    ZerosFront(l.digits);
  }

  lemma EqualCounts(m: Macros, l: Written, w: Written, c: nat, v: int)
    requires l.Literal? && Grammatical(l) && LiteralValue(l) == Known(c) && Meaning(m, l) == Known(v) && v != c && !HasU(l.suffix) && IsLong(c)
    requires Counts(m, l, w, c)
    ensures var e := Infix(l, "", Eq, "", w); Over(m, e, {l}, {}) && Meaning(m, e) == Known(0) && TextValue(m, e) == Known(1)
  {
    hide LiteralValue, HasU, Grammatical, Unsigned, Standard, Unevaluated, Names, Literals, Meaning, Separate, EndsInE, Text, Over, TextValue;
    LeafIs(m, l);
    InfixIs(m, l, Eq, w);
    InfixTokens(l, Eq, w);
    OverBy(m, Infix(l, "", Eq, "", w), l);
  }

  // ---------------------------------------------------------------- inputs on which they differ

  /** A short literal in decimal. */
  function Decimals(d: string, u: string): Written {
    Literal("", d, u)
  }

  lemma Digit(m: Macros, c: char, u: string)
    requires ('0' <= c <= '7' && u == "u") || ('0' <= c <= '8' && u == "")
    ensures var l := Decimals([c], u); Grammatical(l) && Meaning(m, l) == Known((c - '0') as int)
    ensures var l := Decimals([c], u); LiteralValue(l) == Known((c - '0') as int) && LiteralUnsigned(l) == (u == "u")
  {
    var l := Decimals([c], u);
    assert [c][..0] == "";
    assert Is(Dec, c);
    assert u == "u" ==> u[1..] == "" && IsU(u[0]);
    assert u == "" ==> !HasU(u);
    assert Number(Dec, "") == 0;
    assert Number(Dec, [c]) == (c - '0') as nat;
    NumberPositional(Dec, [c]);
    if c == '0' { assert Octal("") == 0; assert Octal([c]) == 0; }
  }

  lemma OctalTen(m: Macros)
    ensures var l := Decimals("010", ""); Grammatical(l) && Meaning(m, l) == Known(10) && LiteralValue(l) == Known(8) && !LiteralUnsigned(l)
  {
    TenRead();
    hide Number, Octal;
    assert !HasU("");
  }

  /** 010 == 8 holds in C; here it does not. */
  lemma OctalEquals(m: Macros)
    ensures var e := Infix(Decimals("010", ""), " ", Eq, " ", Decimals("8", ""));
      && Grammatical(e) && Text(e) == "010 == 8" && Harmless(m, e)
      && TextValue(m, e) == Known(1) && Condition(m, "010 == 8") == Known(0)
  {
    var l, r := Decimals("010", ""), Decimals("8", "");
    var e := Infix(l, " ", Eq, " ", r);
    OctalTen(m);
    Digit(m, '8', "");
    LeafIs(m, l);
    LeafIs(m, r);
    EqualText();
    hide LiteralValue, Number, Text, Condition, HasU;
    SpacedIs(m, l, Eq, r);
    hide Operation, Apply, Grammatical, Standard, Meaning, Unevaluated, Separate, Harmless;
    assert Operation(Eq, 8, 8, false, false) == Known(1) && Apply(Eq, 10, 8) == Known(0) by { EqValues(); }
    BareCondition(m, e);
  }

  lemma EqualText()
    ensures Text(Infix(Decimals("010", ""), " ", Eq, " ", Decimals("8", ""))) == "010 == 8"
  {
    assert Text(Decimals("010", "")) == "010";
  }

  lemma EqValues()
    ensures Operation(Eq, 8, 8, false, false) == Known(1) && Apply(Eq, 10, 8) == Known(0)
  {
  }

  /** An operator between blanks. */
  lemma SpacedIs(m: Macros, a: Written, op: BinOp, b: Written)
    requires Grammatical(a) && Grammatical(b) && Prec(a) <= LevelOf(op) && Prec(b) < LevelOf(op) && op != LogAnd && op != LogOr
    requires Standard(m, a).Known? && Meaning(m, a).Known? && Standard(m, b).Known? && Meaning(m, b).Known?
    requires Unevaluated(m, a) == [] && Unevaluated(m, b) == [] && Separate(a) && Separate(b)
    ensures var e := Infix(a, " ", op, " ", b);
      && Grammatical(e) && Unevaluated(m, e) == [] && Harmless(m, e) && Separate(e)
      && Standard(m, e) == Operation(op, Standard(m, a).value, Standard(m, b).value, Unsigned(a), Unsigned(b))
      && Meaning(m, e) == Apply(op, Meaning(m, a).value, Meaning(m, b).value)
      && (op == Sub ==> Unsigned(e) == (Unsigned(a) || Unsigned(b)))
  {
    hide Operation, Apply, Text;
    assert All(Blank, " ");
  }

  lemma BareCondition(m: Macros, e: Written)
    requires Grammatical(e)
    ensures Condition(m, Text(e)) == Tested(Meaning(m, e))
  {
    hide Condition, Meaning, Text, Grammatical, Tested;
    ConditionCorrect(m, "", e, "");
    assert "" + (Text(e) + "") == Text(e);
  }

  /** 0u - 1 > 0 holds in C, where the difference is unsigned; here it does not. */
  lemma UnsignedWraps(m: Macros)
    ensures var e := Infix(Infix(Decimals("0", "u"), " ", Sub, " ", Decimals("1", "")), " ", Gt, " ", Decimals("0", ""));
      && Grammatical(e) && Text(e) == "0u - 1 > 0" && Harmless(m, e)
      && TextValue(m, e) == Known(1) && Condition(m, "0u - 1 > 0") == Known(0)
  {
    var z, one, o := Decimals("0", "u"), Decimals("1", ""), Decimals("0", "");
    var d := Infix(z, " ", Sub, " ", one);
    var e := Infix(d, " ", Gt, " ", o);
    Digit(m, '0', "u");
    Digit(m, '1', "");
    Digit(m, '0', "");
    LeafIs(m, z);
    LeafIs(m, one);
    LeafIs(m, o);
    WrapText();
    WrapValues();
    hide LiteralValue, Number, Text, Condition, HasU, Operation, Apply;
    SpacedIs(m, z, Sub, one);
    hide Grammatical, Standard, Meaning, Unevaluated, Separate, Harmless, Unsigned;
    SpacedIs(m, d, Gt, o);
    BareCondition(m, e);
  }

  lemma WrapText()
    ensures Text(Infix(Infix(Decimals("0", "u"), " ", Sub, " ", Decimals("1", "")), " ", Gt, " ", Decimals("0", ""))) == "0u - 1 > 0"
  {
    assert Text(Infix(Decimals("0", "u"), " ", Sub, " ", Decimals("1", ""))) == "0u - 1";
  }

  lemma WrapValues()
    ensures Operation(Sub, 0, 1, true, false) == Known(W64 - 1) && Apply(Sub, 0, 1) == Known(-1)
    ensures Operation(Gt, W64 - 1, 0, true, false) == Known(1) && Apply(Gt, -1, 0) == Known(0)
  {
    ModUnique(-1, -1, W64 - 1, W64);
    ModUnique(W64 - 1, 0, W64 - 1, W64);
  }

  /** C defines 0 && 1 / 0 as 0; here it is a fatal error. */
  lemma UnusedDivision(m: Macros)
    ensures var e := Infix(Decimals("0", ""), "", LogAnd, "", Infix(Decimals("1", ""), "", Div, "", Decimals("0", "")));
      Grammatical(e) && Text(e) == "0&&1/0" && TextValue(m, e) == Known(0) && Condition(m, "0&&1/0") == Fatal
  {
    var o, one := Decimals("0", ""), Decimals("1", "");
    var d := Infix(one, "", Div, "", o);
    var e := Infix(o, "", LogAnd, "", d);
    Digit(m, '0', "");
    Digit(m, '1', "");
    LeafIs(m, o);
    DivisionText();
    hide LiteralValue, Number, Text, Condition, HasU;
    assert Grammatical(d) && Meaning(m, d) == Fatal && Separate(d);
    assert Grammatical(e) && Meaning(m, e) == Fatal && Separate(e);
    BareCondition(m, e);
  }

  lemma DivisionText()
    ensures Text(Infix(Decimals("0", ""), "", LogAnd, "", Infix(Decimals("1", ""), "", Div, "", Decimals("0", "")))) == "0&&1/0"
  {
    assert Text(Infix(Decimals("1", ""), "", Div, "", Decimals("0", ""))) == "1/0";
  }

  // ---------------------------------------------------------------- precedence

  /** The binary operators of sections 6.5.5 to 6.5.14, tightest first, as they are written. */
  const OPERATORS: seq<seq<(string, BinOp)>> := [
    [("*", Mul), ("/", Div), ("%", Mod)],
    [("+", Add), ("-", Sub)],
    [("<<", Shl), (">>", Shr)],
    [("<", Lt), (">", Gt), ("<=", Le), (">=", Ge)],
    [("==", Eq), ("!=", Ne)],
    [("&", And)],
    [("^", Xor)],
    [("|", Or)],
    [("&&", LogAnd)],
    [("||", LogOr)]
  ]

  /** An operator, how it is written, and its row in the table. */
  predicate InRow(op: BinOp, text: string, i: nat) {
    i < |OPERATORS| && (text, op) in OPERATORS[i]
  }

  lemma RowIs(op: BinOp, text: string, i: nat)
    requires InRow(op, text, i)
    ensures Spelling(op) == text && LevelOf(op) == i + 1
  {
  }

  lemma EveryOperator(op: BinOp)
    ensures exists text, i :: InRow(op, text, i)
  {
    match op
    case Mul => assert InRow(op, "*", 0);
    case Div => assert InRow(op, "/", 0);
    case Mod => assert InRow(op, "%", 0);
    case Add => assert InRow(op, "+", 1);
    case Sub => assert InRow(op, "-", 1);
    case Shl => assert InRow(op, "<<", 2);
    case Shr => assert InRow(op, ">>", 2);
    case Lt => assert InRow(op, "<", 3);
    case Gt => assert InRow(op, ">", 3);
    case Le => assert InRow(op, "<=", 3);
    case Ge => assert InRow(op, ">=", 3);
    case Eq => assert InRow(op, "==", 4);
    case Ne => assert InRow(op, "!=", 4);
    case And => assert InRow(op, "&", 5);
    case Xor => assert InRow(op, "^", 6);
    case Or => assert InRow(op, "|", 7);
    case LogAnd => assert InRow(op, "&&", 8);
    case LogOr => assert InRow(op, "||", 9);
  }

  /** a x b y c: the tighter operator goes first, and the left one of two that are equally tight. */
  lemma PrecedenceExact(m: Macros, a: Written, x: BinOp, xs: string, i: nat, b: Written, y: BinOp, ys: string, j: nat, c: Written)
    requires Grammatical(a) && Grammatical(b) && Grammatical(c) && Prec(a) == Prec(b) == Prec(c) == 0
    requires InRow(x, xs, i) && InRow(y, ys, j)
    ensures var s := Text(a) + " " + xs + " " + Text(b) + " " + ys + " " + Text(c);
      var v := if i <= j then BinResult(y, BinResult(x, Meaning(m, a), Meaning(m, b)), Meaning(m, c))
               else BinResult(x, Meaning(m, a), BinResult(y, Meaning(m, b), Meaning(m, c)));
      Ternary(m, s, 0) == Done(v, |s|)
  {
    RowIs(x, xs, i);
    RowIs(y, ys, j);
    var s := Text(a) + " " + xs + " " + Text(b) + " " + ys + " " + Text(c);
    hide InRow, Spelling;
    if i <= j {
      var l := Infix(a, " ", x, " ", b);
      var e := Infix(l, " ", y, " ", c);
      InfixWritten(m, a, x, b);
      InfixWritten(m, l, y, c);
      hide *;
      BareText(m, e);
      LeftText(a, x, xs, b, y, ys, c);
    } else {
      var r := Infix(b, " ", y, " ", c);
      var e := Infix(a, " ", x, " ", r);
      InfixWritten(m, b, y, c);
      InfixWritten(m, a, x, r);
      hide *;
      BareText(m, e);
      RightText(a, x, xs, b, y, ys, c);
    }
  }

  lemma InfixWritten(m: Macros, a: Written, op: BinOp, b: Written)
    requires Grammatical(a) && Grammatical(b) && Prec(a) <= LevelOf(op) && Prec(b) < LevelOf(op)
    ensures var e := Infix(a, " ", op, " ", b); Grammatical(e) && Prec(e) == LevelOf(op) && Meaning(m, e) == BinResult(op, Meaning(m, a), Meaning(m, b))
  {
    hide BinResult, LevelOf;
  }

  lemma Glue(a: string, b: string, c: string)
    ensures a + (b + c) == (a + b) + c
  {
  }

  lemma Spread(p: string, x: string, q: string)
    ensures p + (" " + (x + (" " + q))) == p + " " + x + " " + q
  {
    Glue(p, " ", x + (" " + q));
    Glue(p + " ", x, " " + q);
    Glue(p + " " + x, " ", q);
  }

  lemma LeftText(a: Written, x: BinOp, xs: string, b: Written, y: BinOp, ys: string, c: Written)
    requires Spelling(x) == xs && Spelling(y) == ys
    ensures Text(Infix(Infix(a, " ", x, " ", b), " ", y, " ", c)) == Text(a) + " " + xs + " " + Text(b) + " " + ys + " " + Text(c)
  {
    Spread(Text(a), xs, Text(b));
    Spread(Text(a) + " " + xs + " " + Text(b), ys, Text(c));
    hide Spelling;
    InfixText(a, x, b);
    InfixText(Infix(a, " ", x, " ", b), y, c);
  }

  lemma InfixText(a: Written, op: BinOp, b: Written)
    ensures Text(Infix(a, " ", op, " ", b)) == Text(a) + (" " + (Spelling(op) + (" " + Text(b))))
  {
    hide Spelling;
  }

  lemma RightText(a: Written, x: BinOp, xs: string, b: Written, y: BinOp, ys: string, c: Written)
    requires Spelling(x) == xs && Spelling(y) == ys
    ensures Text(Infix(a, " ", x, " ", Infix(b, " ", y, " ", c))) == Text(a) + " " + xs + " " + Text(b) + " " + ys + " " + Text(c)
  {
    hide Spelling, Text;
    var p, q, r := Text(a) + " " + xs + " ", Text(b), Text(c);
    InfixText(b, y, c);
    Spread(q, ys, r);
    InfixText(a, x, Infix(b, " ", y, " ", c));
    Spread(Text(a), xs, Text(Infix(b, " ", y, " ", c)));
    Glue(p, q + " " + ys + " ", r);
    Glue(p, q + " " + ys, " ");
    Glue(p, q + " ", ys);
    Glue(p, q, " ");
  }
}
