/** The #if expression evaluator (eval_cond_* in src/preprocessor.c).

    The ten binary precedence levels have one shape and differ only in their operators, so they are one
    member indexed by level; level 0 is the unary expression.
 */
module CondExpr {
  import opened Options
  import opened Words
  import opened Numerals

  datatype BinOp =
    | Mul | Div | Mod | Add | Sub | Shl | Shr | Lt | Le | Gt | Ge | Eq | Ne | And | Xor | Or | LogAnd | LogOr

  datatype UnOp = Not | Neg | Plus | Compl

  const TOP := 10

  // ---------------------------------------------------------------- values

  predicate IsLong(v: int) {
    InRange(v, W64)
  }

  /** A value; an error that ends the compiler; or arithmetic on long that C leaves undefined, after which
      nothing is said about the run. */
  datatype Result = Known(value: int) | Fatal | Undefined

  function Fit(v: int): Result {
    if IsLong(v) then Known(v) else Undefined
  }

  function Truth(b: bool): Result {
    Known(if b then 1 else 0)
  }

  function Bits(op: BitOp, a: int, b: int): int {
    Pow2Values();
    Signed(Bitwise(op, Residue(a, W64), Residue(b, W64), 64), W64)
  }

  /** A zero divisor is fatal; overflow and shifts out of range are undefined. */
  function Apply(op: BinOp, a: int, b: int): Result {
    match op
    case Mul => Fit(a * b)
    case Div => if b == 0 then Fatal else Fit(TruncDiv(a, b))
    case Mod => if b == 0 then Fatal else if !IsLong(TruncDiv(a, b)) then Undefined else Fit(TruncMod(a, b))
    case Add => Fit(a + b)
    case Sub => Fit(a - b)
    case Shl => if 0 <= b < 64 then Fit(a * Pow2(b)) else Undefined
    case Shr => if 0 <= b < 64 then Fit(a / Pow2(b)) else Undefined
    case Lt => Truth(a < b)
    case Le => Truth(a <= b)
    case Gt => Truth(a > b)
    case Ge => Truth(a >= b)
    case Eq => Truth(a == b)
    case Ne => Truth(a != b)
    case And => Fit(Bits(AndBits, a, b))
    case Xor => Fit(Bits(XorBits, a, b))
    case Or => Fit(Bits(OrBits, a, b))
    case LogAnd => Truth(a != 0 && b != 0)
    case LogOr => Truth(a != 0 || b != 0)
  }

  function ApplyUn(op: UnOp, a: int): Result {
    match op
    case Not => Truth(a == 0)
    case Neg => Fit(-a)
    case Plus => Known(a)
    case Compl => Fit(-a - 1)
  }

  // ---------------------------------------------------------------- characters

  /** The character at i; the string ends in NUL. */
  function At(s: string, i: nat): char {
    if i < |s| then s[i] else '\0'
  }

  predicate IsBlank(c: char) {
    c == ' ' || c == '\t'
  }

  predicate IsAlpha(c: char) {
    'a' <= c <= 'z' || 'A' <= c <= 'Z'
  }

  predicate IsNameStart(c: char) {
    IsAlpha(c) || c == '_'
  }

  predicate IsWord(c: char) {
    IsAlpha(c) || IsDigit(c) || c == '_'
  }

  predicate IsHex(c: char) {
    IsDigit(c) || 'a' <= c <= 'f' || 'A' <= c <= 'F'
  }

  predicate IsSuffix(c: char) {
    c == 'u' || c == 'U' || c == 'l' || c == 'L'
  }

  function DigitValue(c: char): nat
    requires IsHex(c)
  {
    if IsDigit(c) then (c - '0') as nat
    else if 'a' <= c <= 'f' then (c - 'a') as nat + 10
    else (c - 'A') as nat + 10
  }

  datatype CharClass = Blank | Word | Hex | Dec | Suffix

  predicate Is(k: CharClass, c: char) {
    match k
    case Blank => IsBlank(c)
    case Word => IsWord(c)
    case Hex => IsHex(c)
    case Dec => IsDigit(c)
    case Suffix => IsSuffix(c)
  }

  /** The end of the run of characters of one class. */
  function Span(k: CharClass, s: string, i: nat): (r: nat)
    requires i <= |s|
    ensures i <= r <= |s|
    decreases |s| - i
  {
    if i < |s| && Is(k, s[i]) then Span(k, s, i + 1) else i
  }

  method Scan(k: CharClass, s: string, i: nat) returns (r: nat)
    requires i <= |s|
    ensures r == Span(k, s, i)
  {
    r := i;
    while r < |s| && Is(k, s[r])
      invariant i <= r <= |s| && Span(k, s, r) == Span(k, s, i)
    {
      r := r + 1;
    }
  }

  function Skip(s: string, i: nat): (r: nat)
    requires i <= |s|
    ensures i <= r <= |s|
  {
    Span(Blank, s, i)
  }

  method SkipBlanks(s: string, i: nat) returns (r: nat)
    requires i <= |s|
    ensures r == Skip(s, i)
  {
    r := Scan(Blank, s, i);
  }

  // ---------------------------------------------------------------- macros

  datatype Macro = Macro(objectLike: bool, replacement: string)

  type Macros = map<string, Macro>

  function Base(k: CharClass): nat {
    if k == Hex then 16 else 10
  }

  /** Value of a run of digits. */
  function Number(k: CharClass, ds: string): nat
    requires (k == Hex || k == Dec) && forall i :: 0 <= i < |ds| ==> Is(k, ds[i])
  {
    if ds == [] then 0
    else
      assert Is(k, ds[|ds| - 1]);
      Number(k, ds[..|ds| - 1]) * Base(k) + DigitValue(ds[|ds| - 1])
  }

  /** An identifier: 0 unless an object-like macro, whose replacement must start with an integer. */
  function NameValue(m: Macros, x: string): Result {
    if x !in m || !m[x].objectLike then Known(0)
    else
      var t := m[x].replacement;
      var i := Skip(t, 0);
      var neg := At(t, i) == '-';
      var j := if neg then Skip(t, i + 1) else i;
      if !IsDigit(At(t, j)) then Fatal
      else
        var v: int := Number(Dec, SpanText(Dec, t, j));
        Fit(if neg then -v else v)
  }

  lemma SpanAll(k: CharClass, s: string, i: nat, j: nat)
    requires i <= |s| && i <= j < Span(k, s, i)
    ensures Is(k, s[j])
    decreases |s| - i
  {
    if i < |s| && Is(k, s[i]) && i < j { SpanAll(k, s, i + 1, j); }
  }

  function SpanText(k: CharClass, s: string, i: nat): (r: string)
    requires i <= |s|
    ensures forall j :: 0 <= j < |r| ==> Is(k, r[j])
  {
    var e := Span(k, s, i);
    assert forall j :: i <= j < e ==> Is(k, s[j]) by {
      forall j | i <= j < e ensures Is(k, s[j]) { SpanAll(k, s, i, j); }
    }
    s[i..e]
  }

  function Defined(m: Macros, x: string): int {
    if x in m then 1 else 0
  }

  // ---------------------------------------------------------------- operators

  function LevelOf(op: BinOp): nat {
    match op
    case Mul => 1 case Div => 1 case Mod => 1
    case Add => 2 case Sub => 2
    case Shl => 3 case Shr => 3
    case Lt => 4 case Le => 4 case Gt => 4 case Ge => 4
    case Eq => 5 case Ne => 5
    case And => 6
    case Xor => 7
    case Or => 8
    case LogAnd => 9
    case LogOr => 10
  }

  function Spelling(op: BinOp): string {
    match op
    case Mul => "*" case Div => "/" case Mod => "%"
    case Add => "+" case Sub => "-"
    case Shl => "<<" case Shr => ">>"
    case Lt => "<" case Le => "<=" case Gt => ">" case Ge => ">="
    case Eq => "==" case Ne => "!="
    case And => "&" case Xor => "^" case Or => "|"
    case LogAnd => "&&" case LogOr => "||"
  }

  /** The operator that the loop of a level recognises at i, with the source's order of tests. */
  function OpAt(level: nat, s: string, i: nat): Option<BinOp> {
    var c, d := At(s, i), At(s, i + 1);
    match level
    case 1 => if c == '*' then Some(Mul) else if c == '/' then Some(Div) else if c == '%' then Some(Mod) else None
    case 2 => if c == '+' then Some(Add) else if c == '-' then Some(Sub) else None
    case 3 => if c == '<' && d == '<' then Some(Shl) else if c == '>' && d == '>' then Some(Shr) else None
    case 4 =>
      if c == '<' && d == '=' then Some(Le)
      else if c == '>' && d == '=' then Some(Ge)
      else if c == '<' && d != '<' then Some(Lt)
      else if c == '>' && d != '>' then Some(Gt)
      else None
    case 5 => if c == '=' && d == '=' then Some(Eq) else if c == '!' && d == '=' then Some(Ne) else None
    case 6 => if c == '&' && d != '&' then Some(And) else None
    case 7 => if c == '^' then Some(Xor) else None
    case 8 => if c == '|' && d != '|' then Some(Or) else None
    case 9 => if c == '&' && d == '&' then Some(LogAnd) else None
    case 10 => if c == '|' && d == '|' then Some(LogOr) else None
    case _ => None
  }

  function UnAt(s: string, i: nat): (r: Option<UnOp>)
    ensures r.Some? ==> i < |s|
  {
    match At(s, i)
    case '!' => Some(Not)
    case '-' => Some(Neg)
    case '+' => Some(Plus)
    case '~' => Some(Compl)
    case _ => None
  }

  lemma OpFits(level: nat, s: string, i: nat)
    requires OpAt(level, s, i).Some?
    ensures i + |Spelling(OpAt(level, s, i).value)| <= |s|
  {
  }

  // ---------------------------------------------------------------- the evaluator

  /** A value and the position after it, or why there is none. */
  datatype Out = Ok(v: int, pos: nat) | Fail(why: Result)

  function Done(v: Result, pos: nat): Out {
    if v.Known? then Ok(v.value, pos) else Fail(v)
  }

  predicate Advances(r: Out, s: string, i: nat) {
    r.Ok? ==> i <= r.pos <= |s|
  }

  function DefinedAt(m: Macros, s: string, i: nat): (r: Out)
    requires i <= |s|
    ensures Advances(r, s, i)
  {
    var j := Skip(s, i);
    if At(s, j) == '(' then
      var a := Skip(s, j + 1);
      var b := Span(Word, s, a);
      var c := Skip(s, b);
      if At(s, c) != ')' then Fail(Fatal) else Ok(Defined(m, s[a..b]), c + 1)
    else if IsNameStart(At(s, j)) then
      var b := Span(Word, s, j);
      Ok(Defined(m, s[j..b]), b)
    else Fail(Fatal)
  }

  function NumberAt(s: string, i: nat): (r: Out)
    requires i < |s|
    ensures Advances(r, s, i)
  {
    var hex := s[i] == '0' && (At(s, i + 1) == 'x' || At(s, i + 1) == 'X');
    var a := if hex then i + 2 else i;
    var k := if hex then Hex else Dec;
    var e := Span(k, s, a);
    Done(Fit(Number(k, SpanText(k, s, a))), Span(Suffix, s, e))
  }

  predicate IsDefined(s: string, i: nat) {
    i + 7 <= |s| && s[i..i + 7] == "defined" && !IsWord(At(s, i + 7))
  }

  function Primary(m: Macros, s: string, i: nat): (r: Out)
    requires i <= |s|
    ensures r.Ok? ==> i < r.pos <= |s|
    decreases |s| - i, 0
  {
    var j := Skip(s, i);
    var c := At(s, j);
    if IsDefined(s, j) then DefinedAt(m, s, j + 7)
    else if IsDigit(c) then
      assert Span(Dec, s, j) == Span(Dec, s, j + 1);
      NumberAt(s, j)
    else if IsNameStart(c) then
      assert Span(Word, s, j) == Span(Word, s, j + 1);
      Done(NameValue(m, s[j..Span(Word, s, j)]), Span(Word, s, j))
    else if c == '(' then
      var r := Ternary(m, s, Skip(s, j + 1));
      if r.Fail? then r
      else var e := Skip(s, r.pos); if At(s, e) != ')' then Fail(Fatal) else Ok(r.v, e + 1)
    else Fail(Fatal)
  }

  function Unary(m: Macros, s: string, i: nat): (r: Out)
    requires i <= |s|
    ensures r.Ok? ==> i < r.pos <= |s|
    decreases |s| - i, 1
  {
    var op := UnAt(s, i);
    if op.None? then Primary(m, s, i)
    else
      var r := Unary(m, s, Skip(s, i + 1));
      if r.Fail? then r else Done(ApplyUn(op.value, r.v), r.pos)
  }

  function Level(m: Macros, s: string, i: nat, level: nat): (r: Out)
    requires i <= |s|
    ensures r.Ok? ==> i < r.pos <= |s|
    decreases |s| - i, 2 + level
  {
    if level == 0 then Unary(m, s, i)
    else
      var r := Level(m, s, i, level - 1);
      if r.Fail? then r else Rest(m, s, r.pos, r.v, level)
  }

  /** The loop of a level, with the value so far. */
  function Rest(m: Macros, s: string, i: nat, v: int, level: nat): (r: Out)
    requires i <= |s| && level > 0
    ensures Advances(r, s, i)
    decreases |s| - i, 0
  {
    var j := Skip(s, i);
    var op := OpAt(level, s, j);
    if op.None? then Ok(v, j)
    else
      OpFits(level, s, j);
      var r := Level(m, s, Skip(s, j + |Spelling(op.value)|), level - 1);
      if r.Fail? then r
      else
        var w := Apply(op.value, v, r.v);
        if w.Known? then Rest(m, s, r.pos, w.value, level) else Fail(w)
  }

  function Ternary(m: Macros, s: string, i: nat): (r: Out)
    requires i <= |s|
    ensures r.Ok? ==> i < r.pos <= |s|
    decreases |s| - i, TOP + 3
  {
    var c := Level(m, s, i, TOP);
    if c.Fail? then c
    else
      var j := Skip(s, c.pos);
      if At(s, j) != '?' then Ok(c.v, j)
      else
        var y := Ternary(m, s, Skip(s, j + 1));
        if y.Fail? then y
        else
          var k := Skip(s, y.pos);
          if At(s, k) != ':' then Fail(Fatal)
          else
            var n := Ternary(m, s, Skip(s, k + 1));
            if n.Fail? then n else Ok(if c.v != 0 then y.v else n.v, n.pos)
  }

  // ---------------------------------------------------------------- the loops of the source

  function ApplyAll(ops: seq<UnOp>, r: Out): Out {
    if ops == [] || r.Fail? then r
    else ApplyAll(ops[..|ops| - 1], Done(ApplyUn(ops[|ops| - 1], r.v), r.pos))
  }

  lemma ApplyFront(op: UnOp, ops: seq<UnOp>, r: Out)
    ensures ApplyAll([op] + ops, r) == var x := ApplyAll(ops, r); if x.Fail? then x else Done(ApplyUn(op, x.v), x.pos)
    decreases |ops|
  {
    var all := [op] + ops;
    if ops != [] && r.Ok? {
      assert all[..|all| - 1] == [op] + ops[..|ops| - 1];
      var x := Done(ApplyUn(ops[|ops| - 1], r.v), r.pos);
      if x.Ok? { ApplyFront(op, ops[..|ops| - 1], x); }
    } else if r.Ok? {
      assert all[..0] == [];
    }
  }

  lemma ApplyLast(ops: seq<UnOp>, op: UnOp, r: Out)
    ensures ApplyAll(ops + [op], r) == if r.Fail? then r else ApplyAll(ops, Done(ApplyUn(op, r.v), r.pos))
  {
    assert (ops + [op])[..|ops|] == ops;
  }

  /** Collects the operators, evaluates the primary, applies the operators from the right. */
  method EvalUnary(m: Macros, s: string, i: nat) returns (r: Out)
    requires i <= |s|
    ensures r == Unary(m, s, i)
    decreases |s| - i, 1
  {
    var ops, j := [], i;
    while UnAt(s, j).Some?
      invariant i <= j <= |s| && ApplyAll(ops, Unary(m, s, j)) == Unary(m, s, i)
      decreases |s| - j
    {
      var op := UnAt(s, j).value;
      ApplyLast(ops, op, Unary(m, s, Skip(s, j + 1)));
      j := SkipBlanks(s, j + 1);
      ops := ops + [op];
    }
    r := EvalPrimary(m, s, j);
    var n := |ops|;
    assert ops[..n] == ops;
    while n > 0 && r.Ok?
      invariant 0 <= n <= |ops| && ApplyAll(ops[..n], r) == Unary(m, s, i)
    {
      n := n - 1;
      assert ops[..n + 1][..n] == ops[..n];
      r := Done(ApplyUn(ops[n], r.v), r.pos);
    }
    assert n == 0 ==> ops[..n] == [];
  }

  method EvalPrimary(m: Macros, s: string, i: nat) returns (r: Out)
    requires i <= |s|
    ensures r == Primary(m, s, i)
    decreases |s| - i, 0
  {
    hide NumberAt, DefinedAt, NameValue, Ternary;
    var j := SkipBlanks(s, i);
    var c := At(s, j);
    if IsDefined(s, j) {
      r := DefinedAt(m, s, j + 7);
    } else if IsDigit(c) {
      r := NumberAt(s, j);
    } else if IsNameStart(c) {
      var e := Scan(Word, s, j);
      r := Done(NameValue(m, s[j..e]), e);
    } else if c == '(' {
      var k := SkipBlanks(s, j + 1);
      r := EvalTernary(m, s, k);
      if r.Ok? {
        var e := SkipBlanks(s, r.pos);
        r := if At(s, e) != ')' then Fail(Fatal) else Ok(r.v, e + 1);
      }
    } else {
      r := Fail(Fatal);
    }
  }

  method EvalLevel(m: Macros, s: string, i: nat, level: nat) returns (r: Out)
    requires i <= |s|
    ensures r == Level(m, s, i, level)
    decreases |s| - i, 2 + level
  {
    hide Level, Rest, OpAt, Spelling, Apply, Skip, Unary;
    LevelZero(m, s, i);
    if level == 0 {
      r := EvalUnary(m, s, i);
      return;
    }
    r := EvalLevel(m, s, i, level - 1);
    LevelStep(m, s, i, level);
    if r.Fail? { return; }
    var j := SkipBlanks(s, r.pos);
    var v := r.v;
    SkipTwice(s, r.pos);
    RestSkip(m, s, r.pos, v, level);
    while OpAt(level, s, j).Some?
      invariant i < j <= |s| && Skip(s, j) == j && Rest(m, s, j, v, level) == Level(m, s, i, level)
      decreases |s| - j
    {
      var op := OpAt(level, s, j).value;
      OpFits(level, s, j);
      RestTurn(m, s, j, v, level);
      var k := SkipBlanks(s, j + |Spelling(op)|);
      r := EvalLevel(m, s, k, level - 1);
      if r.Fail? { return; }
      var w := Apply(op, v, r.v);
      if !w.Known? { return Fail(w); }
      v := w.value;
      SkipTwice(s, r.pos);
      RestSkip(m, s, r.pos, v, level);
      j := SkipBlanks(s, r.pos);
    }
    RestTurn(m, s, j, v, level);
    r := Ok(v, j);
  }

  lemma LevelZero(m: Macros, s: string, i: nat)
    requires i <= |s|
    ensures Level(m, s, i, 0) == Unary(m, s, i)
  {
  }

  lemma LevelStep(m: Macros, s: string, i: nat, level: nat)
    requires i <= |s| && level > 0
    ensures Level(m, s, i, level) == var r := Level(m, s, i, level - 1); if r.Fail? then r else Rest(m, s, r.pos, r.v, level)
  {
  }

  /** One turn of the loop. */
  lemma {:induction false} RestTurn(m: Macros, s: string, i: nat, v: int, level: nat)
    requires i <= |s| && level > 0
    ensures var j := Skip(s, i);
      match OpAt(level, s, j)
      case None => Rest(m, s, i, v, level) == Ok(v, j)
      case Some(op) =>
        && j + |Spelling(op)| <= |s|
        && var r := Level(m, s, Skip(s, j + |Spelling(op)|), level - 1);
           Rest(m, s, i, v, level) ==
             if r.Fail? then r else if Apply(op, v, r.v).Known? then Rest(m, s, r.pos, Apply(op, v, r.v).value, level) else Fail(Apply(op, v, r.v))
  {
    hide OpAt, Spelling, Apply, Level, Skip;
    if OpAt(level, s, Skip(s, i)).Some? { OpFits(level, s, Skip(s, i)); }
  }

  lemma {:induction false} RestSkip(m: Macros, s: string, i: nat, v: int, level: nat)
    requires i <= |s| && level > 0
    ensures Rest(m, s, i, v, level) == Rest(m, s, Skip(s, i), v, level)
  {
    hide OpAt, Spelling, Apply, Level, Rest, Skip;
    SkipTwice(s, i);
    RestTurn(m, s, i, v, level);
    RestTurn(m, s, Skip(s, i), v, level);
  }

  lemma SkipTwice(s: string, i: nat)
    requires i <= |s|
    ensures Skip(s, Skip(s, i)) == Skip(s, i)
    decreases |s| - i
  {
    if i < |s| && IsBlank(s[i]) { SkipTwice(s, i + 1); }
  }

  method EvalTernary(m: Macros, s: string, i: nat) returns (r: Out)
    requires i <= |s|
    ensures r == Ternary(m, s, i)
    decreases |s| - i, TOP + 3
  {
    hide Level, Ternary, Skip;
    TernaryStep(m, s, i);
    r := EvalLevel(m, s, i, TOP);
    if r.Fail? { return; }
    var j := SkipBlanks(s, r.pos);
    if At(s, j) != '?' { return Ok(r.v, j); }
    var k := SkipBlanks(s, j + 1);
    var y := EvalTernary(m, s, k);
    if y.Fail? { return y; }
    k := SkipBlanks(s, y.pos);
    if At(s, k) != ':' { return Fail(Fatal); }
    k := SkipBlanks(s, k + 1);
    var n := EvalTernary(m, s, k);
    r := if n.Fail? then n else Ok(if r.v != 0 then y.v else n.v, n.pos);
  }

  lemma TernaryStep(m: Macros, s: string, i: nat)
    requires i <= |s|
    ensures Ternary(m, s, i) ==
      var c := Level(m, s, i, TOP);
      if c.Fail? then c
      else
        var j := Skip(s, c.pos);
        if At(s, j) != '?' then Ok(c.v, j)
        else
          var y := Ternary(m, s, Skip(s, j + 1));
          if y.Fail? then y
          else
            var k := Skip(s, y.pos);
            if At(s, k) != ':' then Fail(Fatal)
            else
              var n := Ternary(m, s, Skip(s, k + 1));
              if n.Fail? then n else Ok(if c.v != 0 then y.v else n.v, n.pos)
  {
  }
}
