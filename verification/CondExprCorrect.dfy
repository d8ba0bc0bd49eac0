/** The evaluator computes the value of the expression that the text spells. */
module CondExprCorrect {
  import opened Options
  import opened Numerals
  import opened CondExpr

  // ---------------------------------------------------------------- texts

  /** An expression as written: layout (blanks) and parentheses included. */
  datatype Written =
    | Literal(prefix: string, digits: string, suffix: string)
    | Name(x: string)
    | IsDef(gap: string, x: string)
    | IsDefParen(gap: string, a: string, x: string, b: string)
    | Paren(a: string, e: Written, b: string)
    | Prefix(uop: UnOp, a: string, e: Written)
    | Infix(l: Written, a: string, op: BinOp, b: string, r: Written)
    | Choice(c: Written, a: string, b: string, y: Written, p: string, q: string, n: Written)

  function UnSpelling(op: UnOp): char {
    match op
    case Not => '!'
    case Neg => '-'
    case Plus => '+'
    case Compl => '~'
  }

  function Text(e: Written): string {
    match e
    case Literal(p, d, u) => p + (d + u)
    case Name(x) => x
    case IsDef(gap, x) => "defined" + (gap + x)
    case IsDefParen(gap, a, x, b) => "defined" + ((gap + "(") + (a + (x + (b + ")"))))
    case Paren(a, e1, b) => "(" + (a + (Text(e1) + (b + ")")))
    case Prefix(op, a, e1) => [UnSpelling(op)] + (a + Text(e1))
    case Infix(l, a, op, b, r) => Text(l) + (a + (Spelling(op) + (b + Text(r))))
    case Choice(c, a, b, y, p, q, n) => Text(c) + ((a + "?") + (b + (Text(y) + ((p + ":") + (q + Text(n))))))
  }

  /** Precedence: 0 for unary expressions, 1 to 10 for the binary operators, 11 for ?:. */
  function Prec(e: Written): nat {
    match e
    case Infix(_, _, op, _, _) => LevelOf(op)
    case Choice(_, _, _, _, _, _, _) => TOP + 1
    case _ => 0
  }

  predicate All(k: CharClass, t: string) {
    forall i :: 0 <= i < |t| ==> Is(k, t[i])
  }

  predicate IsName(x: string) {
    x != [] && IsNameStart(x[0]) && All(Word, x)
  }

  /** Well-formed by the grammar of section 6.6 of ISO/IEC 9899:1999. */
  predicate Grammatical(e: Written) {
    match e
    case Literal(p, d, u) =>
      && All(Suffix, u)
      && ((p == "" && d != [] && All(Dec, d)) || ((p == "0x" || p == "0X") && All(Hex, d)))
    case Name(x) => IsName(x) && x != "defined"
    case IsDef(gap, x) => All(Blank, gap) && gap != [] && IsName(x)
    case IsDefParen(gap, a, x, b) => All(Blank, gap) && All(Blank, a) && All(Blank, b) && IsName(x)
    case Paren(a, e1, b) => All(Blank, a) && All(Blank, b) && Grammatical(e1)
    case Prefix(_, a, e1) => All(Blank, a) && Grammatical(e1) && Prec(e1) == 0
    case Infix(l, a, op, b, r) =>
      && All(Blank, a) && All(Blank, b) && Grammatical(l) && Grammatical(r)
      && Prec(l) <= LevelOf(op) && Prec(r) < LevelOf(op)
    case Choice(c, a, b, y, p, q, n) =>
      && All(Blank, a) && All(Blank, b) && All(Blank, p) && All(Blank, q)
      && Grammatical(c) && Grammatical(y) && Grammatical(n) && Prec(c) <= TOP
  }

  function LiteralClass(prefix: string): CharClass {
    if prefix == "" then Dec else Hex
  }

  /** The first operand without a value decides. */
  function UnResult(op: UnOp, v: Result): Result {
    if v.Known? then ApplyUn(op, v.value) else v
  }

  function BinResult(op: BinOp, a: Result, b: Result): Result {
    if !a.Known? then a else if !b.Known? then b else Apply(op, a.value, b.value)
  }

  function CondResult(c: Result, y: Result, n: Result): Result {
    if !c.Known? then c else if !y.Known? then y else if !n.Known? then n else if c.value != 0 then y else n
  }

  /** Strict evaluation: every operand is evaluated, also those that C would skip. */
  function Meaning(m: Macros, e: Written): Result
    requires Grammatical(e)
  {
    match e
    case Literal(p, d, _) => Fit(Number(LiteralClass(p), d))
    case Name(x) => NameValue(m, x)
    case IsDef(_, x) => Known(Defined(m, x))
    case IsDefParen(_, _, x, _) => Known(Defined(m, x))
    case Paren(_, e1, _) => Meaning(m, e1)
    case Prefix(op, _, e1) => UnResult(op, Meaning(m, e1))
    case Infix(l, _, op, _, r) => BinResult(op, Meaning(m, l), Meaning(m, r))
    case Choice(c, _, _, y, _, _, n) => CondResult(Meaning(m, c), Meaning(m, y), Meaning(m, n))
  }

  // ---------------------------------------------------------------- positions

  /** The text t stands at i. */
  predicate Stands(s: string, i: nat, t: string) {
    i + |t| <= |s| && s[i..i + |t|] == t
  }

  lemma StandsParts(s: string, i: nat, a: string, b: string)
    requires Stands(s, i, a + b)
    ensures Stands(s, i, a) && Stands(s, i + |a|, b)
  {
    assert (a + b)[..|a|] == a && (a + b)[|a|..] == b;
    assert s[i..i + |a|] == s[i..i + |a + b|][..|a|];
    assert s[i + |a|..i + |a| + |b|] == s[i..i + |a + b|][|a|..];
  }

  lemma StandsFirst(s: string, i: nat, t: string)
    requires Stands(s, i, t) && t != []
    ensures At(s, i) == t[0]
  {
    assert s[i..i + |t|][0] == s[i];
  }

  /** A run of one class ends where the text does. */
  lemma {:induction false} SpanOver(k: CharClass, s: string, i: nat, t: string)
    requires Stands(s, i, t) && All(k, t) && !Is(k, At(s, i + |t|))
    ensures Span(k, s, i) == i + |t|
    decreases |t|
  {
    if t == [] {
    } else {
      StandsFirst(s, i, t);
      assert Is(k, t[0]);
      assert t == [t[0]] + t[1..];
      StandsParts(s, i, [t[0]], t[1..]);
      SpanOver(k, s, i + 1, t[1..]);
    }
  }

  lemma SpanTextOver(k: CharClass, s: string, i: nat, t: string)
    requires Stands(s, i, t) && All(k, t) && !Is(k, At(s, i + |t|))
    ensures SpanText(k, s, i) == t
  {
    SpanOver(k, s, i, t);
  }

  // ---------------------------------------------------------------- first and following characters

  /** Characters an expression can start with. */
  predicate Starts(c: char) {
    IsWord(c) || c == '(' || c == '!' || c == '-' || c == '+' || c == '~'
  }

  lemma {:induction false} FirstChar(e: Written)
    requires Grammatical(e)
    ensures Text(e) != [] && Starts(Text(e)[0])
    decreases e
  {
    match e
    case Literal(p, d, u) =>
      if p == "" { assert Is(Dec, d[0]); assert Text(e)[0] == d[0]; } else { assert Text(e)[0] == '0'; }
    case Name(x) =>
    case IsDef(_, _) => assert Text(e)[0] == 'd';
    case IsDefParen(_, _, _, _) => assert Text(e)[0] == 'd';
    case Paren(_, _, _) => assert Text(e)[0] == '(';
    case Prefix(op, _, _) => assert Text(e)[0] == UnSpelling(op);
    case Infix(l, _, _, _, _) => FirstChar(l); assert Text(e)[0] == Text(l)[0];
    case Choice(c, _, _, _, _, _, _) => FirstChar(c); assert Text(e)[0] == Text(c)[0];
  }

  /** An operator followed by a blank or an operand is recognised at its own level only. */
  lemma OpFound(s: string, i: nat, op: BinOp, level: nat)
    requires Stands(s, i, Spelling(op)) && (IsBlank(At(s, i + |Spelling(op)|)) || Starts(At(s, i + |Spelling(op)|)))
    ensures OpAt(level, s, i) == if level == LevelOf(op) then Some(op) else None
    ensures !IsBlank(At(s, i)) && !IsWord(At(s, i)) && At(s, i) != '?'
  {
    var t := Spelling(op);
    StandsFirst(s, i, t);
    if |t| == 2 {
      assert t == [t[0]] + [t[1]];
      StandsParts(s, i, [t[0]], [t[1]]);
      StandsFirst(s, i + 1, [t[1]]);
    }
  }

  /** No operator of a level below this one follows. */
  predicate NoOp(s: string, i: nat, level: nat)
    requires i <= |s|
  {
    forall k :: 1 <= k < level ==> OpAt(k, s, Skip(s, i)).None?
  }

  predicate Ends(s: string, i: nat) {
    !IsWord(At(s, i))
  }

  /** Nothing that could continue an expression follows. */
  predicate Stops(s: string, i: nat)
    requires i <= |s|
  {
    Ends(s, i) && NoOp(s, i, TOP + 1) && At(s, Skip(s, i)) != '?'
  }

  /** Blanks and then c. */
  lemma Gap(s: string, i: nat, a: string, c: char)
    requires Stands(s, i, a + [c]) && All(Blank, a) && !IsBlank(c)
    ensures Stands(s, i, a) && Skip(s, i) == i + |a| && At(s, i + |a|) == c && i + |a| < |s|
    ensures !IsWord(c) ==> Ends(s, i)
  {
    StandsParts(s, i, a, [c]);
    StandsFirst(s, i + |a|, [c]);
    SpanOver(Blank, s, i, a);
    if a != [] {
      StandsFirst(s, i, a);
      assert Is(Blank, a[0]);
    }
  }

  /** A closing character ends every expression. */
  lemma StopsAt(s: string, i: nat, a: string, c: char)
    requires Stands(s, i, a + [c]) && All(Blank, a) && (c == ')' || c == ':')
    ensures Stops(s, i) && Skip(s, i) == i + |a| && At(s, i + |a|) == c && i + |a| < |s|
  {
    Gap(s, i, a, c);
    NoOpAt(s, i, c);
  }

  lemma NoOpAt(s: string, i: nat, c: char)
    requires i <= |s| && At(s, Skip(s, i)) == c && (c == ')' || c == ':' || c == '?' || c == '\0')
    ensures NoOp(s, i, TOP + 1)
  {
  }

  /** What it means to stand where text is put together. */
  lemma Stands3(s: string, i: nat, a: string, b: string, c: string)
    requires Stands(s, i, a + (b + c))
    ensures Stands(s, i, a) && Stands(s, i + |a|, b) && Stands(s, i + |a| + |b|, c) && |a + (b + c)| == |a| + |b| + |c|
  {
    hide Stands;
    StandsParts(s, i, a, b + c);
    StandsParts(s, i + |a|, b, c);
  }

  lemma Stands5(s: string, i: nat, a: string, b: string, c: string, d: string, e: string)
    requires Stands(s, i, a + (b + (c + (d + e))))
    ensures Stands(s, i, a) && Stands(s, i + |a|, b) && Stands(s, i + |a| + |b|, c)
    ensures Stands(s, i + |a| + |b| + |c|, d) && Stands(s, i + |a| + |b| + |c| + |d|, e)
    ensures |a + (b + (c + (d + e)))| == |a| + |b| + |c| + |d| + |e|
  {
    hide Stands;
    Stands3(s, i, a, b, c + (d + e));
    Stands3(s, i + |a| + |b|, c, d, e);
  }

  // ---------------------------------------------------------------- leaves

  /** e stands at i and nothing runs into it. */
  predicate Here(s: string, i: nat, e: Written) {
    Grammatical(e) && Stands(s, i, Text(e)) && i + |Text(e)| <= |s| && Ends(s, i + |Text(e)|)
  }

  function End(i: nat, e: Written): nat {
    i + |Text(e)|
  }

  lemma NoBlank(s: string, i: nat, e: Written)
    requires Grammatical(e) && Stands(s, i, Text(e))
    ensures Skip(s, i) == i && Starts(At(s, i)) && i < |s|
  {
    FirstChar(e);
    StandsFirst(s, i, Text(e));
  }

  lemma LiteralCorrect(m: Macros, s: string, i: nat, e: Written)
    requires Here(s, i, e) && e.Literal?
    ensures Primary(m, s, i) == Done(Meaning(m, e), End(i, e))
  {
    hide Primary, NumberAt, Stands, Text, Number, Span, SpanText, IsDefined;
    NoBlank(s, i, e);
    var p, d, u := e.prefix, e.digits, e.suffix;
    LiteralParts(s, i, e);
    if p == "" { DecimalAt(s, i, d, u); } else { HexAt(s, i, p, d, u); }
    PrimaryDigit(m, s, i);
  }

  lemma LiteralParts(s: string, i: nat, e: Written)
    requires Here(s, i, e) && e.Literal?
    ensures var p, d, u := e.prefix, e.digits, e.suffix;
      Stands(s, i, p) && Stands(s, i + |p|, d) && Stands(s, i + |p| + |d|, u) && End(i, e) == i + |p| + |d| + |u|
  {
    hide Stands;
    Stands3(s, i, e.prefix, e.digits, e.suffix);
  }

  lemma PrimaryDigit(m: Macros, s: string, i: nat)
    requires i < |s| && Skip(s, i) == i && IsDigit(s[i])
    ensures Primary(m, s, i) == NumberAt(s, i)
  {
    hide NumberAt, Span;
    if IsDefined(s, i) { StandsFirst(s, i, "defined"); }
  }

  lemma SuffixAt(s: string, i: nat, u: string)
    requires Stands(s, i, u) && All(Suffix, u) && Ends(s, i + |u|)
    ensures Span(Suffix, s, i) == i + |u| && !IsHex(At(s, i)) && At(s, i) != 'x' && At(s, i) != 'X'
  {
    SpanOver(Suffix, s, i, u);
    if u != [] { StandsFirst(s, i, u); assert Is(Suffix, u[0]); }
  }

  lemma DecimalAt(s: string, i: nat, d: string, u: string)
    requires Stands(s, i, d) && Stands(s, i + |d|, u) && d != [] && All(Dec, d) && All(Suffix, u) && Ends(s, i + |d| + |u|)
    ensures i < |s| && IsDigit(s[i]) && NumberAt(s, i) == Done(Fit(Number(Dec, d)), i + |d| + |u|)
  {
    hide Number, Span, SpanText, Fit, Stands;
    SuffixAt(s, i + |d|, u);
    StandsFirst(s, i, d);
    assert Is(Dec, d[0]);
    NotHexMark(s, i, d, u);
    SpanTextOver(Dec, s, i, d);
    SpanOver(Dec, s, i, d);
  }

  lemma HexAt(s: string, i: nat, p: string, d: string, u: string)
    requires p == "0x" || p == "0X"
    requires Stands(s, i, p) && Stands(s, i + 2, d) && Stands(s, i + 2 + |d|, u) && All(Hex, d) && All(Suffix, u) && Ends(s, i + 2 + |d| + |u|)
    ensures i < |s| && IsDigit(s[i]) && NumberAt(s, i) == Done(Fit(Number(Hex, d)), i + 2 + |d| + |u|)
  {
    hide Number, Span, SpanText, Fit, Stands;
    SuffixAt(s, i + 2 + |d|, u);
    TwoChars(s, i, p);
    SpanTextOver(Hex, s, i + 2, d);
    SpanOver(Hex, s, i + 2, d);
  }

  lemma TwoChars(s: string, i: nat, p: string)
    requires Stands(s, i, p) && |p| == 2
    ensures i + 2 <= |s| && s[i] == p[0] && s[i + 1] == p[1]
  {
    assert s[i..i + 2][0] == s[i] && s[i..i + 2][1] == s[i + 1];
  }

  predicate HexMark(s: string, i: nat) {
    At(s, i) == '0' && (At(s, i + 1) == 'x' || At(s, i + 1) == 'X')
  }

  lemma NotHexMark(s: string, i: nat, d: string, u: string)
    requires Stands(s, i, d) && Stands(s, i + |d|, u) && d != [] && All(Dec, d) && All(Suffix, u) && Ends(s, i + |d| + |u|)
    ensures !HexMark(s, i)
  {
    if |d| == 1 {
      if u != [] { StandsFirst(s, i + 1, u); assert Is(Suffix, u[0]); }
    } else {
      assert d == [d[0]] + d[1..];
      StandsParts(s, i, [d[0]], d[1..]);
      StandsFirst(s, i + 1, d[1..]);
      assert Is(Dec, d[1]);
    }
  }

  lemma NameCorrect(m: Macros, s: string, i: nat, e: Written)
    requires Here(s, i, e) && e.Name?
    ensures Primary(m, s, i) == Done(Meaning(m, e), End(i, e))
  {
    NoBlank(s, i, e);
    StandsFirst(s, i, e.x);
    SpanOver(Word, s, i, e.x);
    assert !IsDefined(s, i) by {
      if IsDefined(s, i) {
        assert All(Word, "defined");
        SpanOver(Word, s, i, "defined");
      }
    }
  }

  lemma DefinedHere(s: string, i: nat, c: char, t: string)
    requires Stands(s, i, "defined" + t) && t != [] && t[0] == c && !IsWord(c)
    ensures IsDefined(s, i) && Skip(s, i) == i && Stands(s, i + 7, t)
  {
    StandsParts(s, i, "defined", t);
    StandsFirst(s, i, "defined");
    StandsFirst(s, i + 7, t);
  }

  lemma PrimaryDefined(m: Macros, s: string, i: nat)
    requires i <= |s| && Skip(s, i) == i && IsDefined(s, i)
    ensures Primary(m, s, i) == DefinedAt(m, s, i + 7)
  {
    hide DefinedAt, Span;
  }

  lemma IsDefCorrect(m: Macros, s: string, i: nat, e: Written)
    requires Here(s, i, e) && e.IsDef?
    ensures Primary(m, s, i) == Done(Meaning(m, e), End(i, e))
  {
    hide Stands, Span, IsDefined, Primary;
    var t := e.gap + e.x;
    assert Is(Blank, e.gap[0]) && t[0] == e.gap[0];
    DefinedHere(s, i, e.gap[0], t);
    PrimaryDefined(m, s, i);
    StandsParts(s, i + 7, e.gap, e.x);
    var j := i + 7 + |e.gap|;
    StandsFirst(s, j, e.x);
    SpanOver(Blank, s, i + 7, e.gap);
    SpanOver(Word, s, j, e.x);
    SliceOf(s, j, e.x);
  }

  lemma IsDefParenCorrect(m: Macros, s: string, i: nat, e: Written)
    requires Here(s, i, e) && e.IsDefParen?
    ensures Primary(m, s, i) == Done(Meaning(m, e), End(i, e))
  {
    hide Stands, Span, IsDefined, Primary, DefinedAt, All, BinResult, NameValue, Number, Prec, UnResult;
    var u := e.a + (e.x + (e.b + ")"));
    var t := (e.gap + "(") + u;
    GapFirst(e.gap, u);
    DefinedHere(s, i, t[0], t);
    PrimaryDefined(m, s, i);
    StandsParts(s, i + 7, e.gap + "(", u);
    Gap(s, i + 7, e.gap, '(');
    NameInParens(m, s, i + 7 + |e.gap| + 1, e.a, e.x, e.b);
    ParenDefined(m, s, i + 7, |e.gap|, |e.a|, e.x, |e.b|);
  }

  lemma GapFirst(gap: string, u: string)
    requires All(Blank, gap)
    ensures !IsWord(((gap + "(") + u)[0])
  {
    if gap != [] { assert Is(Blank, gap[0]); }
  }

  lemma ParenDefined(m: Macros, s: string, i: nat, g: nat, a: nat, x: string, b: nat)
    requires i <= |s| && Skip(s, i) == i + g && At(s, i + g) == '(' && i + g < |s|
    requires var j := i + g + 1; var k := j + a; var n := k + |x|;
      Skip(s, j) == k && Span(Word, s, k) == n && Skip(s, n) == n + b && At(s, n + b) == ')' && n + b < |s| && s[k..n] == x
    ensures DefinedAt(m, s, i) == Ok(Defined(m, x), i + g + 1 + a + |x| + b + 1)
  {
    hide Span, Skip;
  }

  lemma NameInParens(m: Macros, s: string, j: nat, a: string, x: string, b: string)
    requires Stands(s, j, a + (x + (b + ")"))) && All(Blank, a) && All(Blank, b) && IsName(x)
    ensures j <= |s|
    ensures var k := j + |a|; var n := k + |x|; Skip(s, j) == k && Span(Word, s, k) == n && Skip(s, n) == n + |b| && At(s, n + |b|) == ')' && n + |b| < |s| && s[k..n] == x
  {
    hide Stands, Span;
    Stands3(s, j, a, x, b + ")");
    var k := j + |a|;
    StandsFirst(s, k, x);
    SpanOver(Blank, s, j, a);
    var n := k + |x|;
    Gap(s, n, b, ')');
    SpanOver(Word, s, k, x);
    SliceOf(s, k, x);
  }

  lemma SliceOf(s: string, k: nat, x: string)
    requires Stands(s, k, x)
    ensures k + |x| <= |s| && s[k..k + |x|] == x
  {
  }

  // ---------------------------------------------------------------- composite expressions

  lemma {:induction false} PrimaryCorrect(m: Macros, s: string, i: nat, e: Written)
    requires Here(s, i, e) && Prec(e) == 0 && !e.Prefix?
    ensures Primary(m, s, i) == Done(Meaning(m, e), End(i, e))
    decreases e, 0
  {
    hide Stands, Text, Span, Primary, OpAt, All, BinResult, IsName, NameValue, Number, Ternary, UnResult;
    match e
    case Literal(_, _, _) => LiteralCorrect(m, s, i, e);
    case Name(_) => NameCorrect(m, s, i, e);
    case IsDef(_, _) => IsDefCorrect(m, s, i, e);
    case IsDefParen(_, _, _, _) => IsDefParenCorrect(m, s, i, e);
    case Paren(a, e1, b) =>
      ParenParts(s, i, e);
      var j := i + 1 + |a|;
      StopsAt(s, End(j, e1), b, ')');
      TernaryCorrect(m, s, j, e1);
      SkipTwice(s, End(j, e1));
      PrimaryParen(m, s, i);
  }

  lemma PrimaryParen(m: Macros, s: string, i: nat)
    requires i < |s| && Skip(s, i) == i && !IsDefined(s, i) && s[i] == '('
    ensures Primary(m, s, i) ==
      var r := Ternary(m, s, Skip(s, i + 1));
      if r.Fail? then r
      else var e := Skip(s, r.pos); if At(s, e) != ')' then Fail(Fatal) else Ok(r.v, e + 1)
  {
    hide Span, Ternary;
  }

  lemma ParenParts(s: string, i: nat, e: Written)
    requires Here(s, i, e) && e.Paren?
    ensures var j := i + 1 + |e.a|;
      && At(s, i) == '(' && Skip(s, i) == i && i < |s| && !IsDefined(s, i) && Skip(s, i + 1) == j
      && Stands(s, j, Text(e.e)) && Stands(s, End(j, e.e), e.b + ")") && End(i, e) == End(j, e.e) + |e.b| + 1
  {
    NoBlank(s, i, e);
    hide Stands, Span;
    Stands3(s, i, "(", e.a, Text(e.e) + (e.b + ")"));
    var j := i + 1 + |e.a|;
    StandsParts(s, j, Text(e.e), e.b + ")");
    hide Text;
    StandsFirst(s, i, "(");
    NoBlank(s, j, e.e);
    SpanOver(Blank, s, i + 1, e.a);
    NotDefined(s, i);
  }

  lemma NotDefined(s: string, i: nat)
    requires At(s, i) != 'd'
    ensures !IsDefined(s, i)
  {
    if IsDefined(s, i) { StandsFirst(s, i, "defined"); }
  }

  lemma {:induction false} UnaryCorrect(m: Macros, s: string, i: nat, e: Written)
    requires Here(s, i, e) && Prec(e) == 0
    ensures Unary(m, s, i) == Done(Meaning(m, e), End(i, e))
    decreases e, 1
  {
    hide Stands, Span, Primary;
    NoBlank(s, i, e);
    if e.Prefix? {
      var a, t := e.a, Text(e.e);
      Stands3(s, i, [UnSpelling(e.uop)], a, t);
      StandsFirst(s, i, [UnSpelling(e.uop)]);
      NoBlank(s, i + 1 + |a|, e.e);
      SpanOver(Blank, s, i + 1, a);
      UnaryCorrect(m, s, i + 1 + |a|, e.e);
    } else {
      NoPrefix(s, i, e);
      PrimaryCorrect(m, s, i, e);
    }
  }

  lemma NoPrefix(s: string, i: nat, e: Written)
    requires Here(s, i, e) && Prec(e) == 0 && !e.Prefix?
    ensures UnAt(s, i).None?
  {
    FirstChar(e);
    StandsFirst(s, i, Text(e));
    match e
    case Literal(p, d, u) => if p == "" { assert Is(Dec, d[0]); assert Text(e)[0] == d[0]; } else { assert Text(e)[0] == '0'; }
    case Name(x) =>
    case IsDef(_, _) => assert Text(e)[0] == 'd';
    case IsDefParen(_, _, _, _) => assert Text(e)[0] == 'd';
    case Paren(_, _, _) => assert Text(e)[0] == '(';
  }

  /** A level parses its expression and goes on with its loop. */
  function Then(m: Macros, s: string, v: Result, pos: nat, level: nat): Out
    requires pos <= |s| && level > 0
  {
    if v.Known? then Rest(m, s, pos, v.value, level) else Fail(v)
  }

  lemma ThenStops(m: Macros, s: string, v: Result, pos: nat, level: nat)
    requires pos <= |s| && level > 0 && NoOp(s, pos, level + 1)
    ensures Then(m, s, v, pos, level) == Done(v, Skip(s, pos))
  {
    if v.Known? {
      hide OpAt, Rest, Skip;
      RestTurn(m, s, pos, v.value, level);
    }
  }

  lemma {:induction false} LevelCorrect(m: Macros, s: string, i: nat, e: Written, level: nat)
    requires Here(s, i, e) && Prec(e) <= level <= TOP && level > 0 && NoOp(s, End(i, e), level)
    ensures Level(m, s, i, level) == Then(m, s, Meaning(m, e), End(i, e), level)
    decreases e, 2 + level
  {
    hide Level, Rest, OpAt, Skip, Text, Apply, Stands, All, IsName, NameValue, Number, UnResult, Unary;
    LevelStep(m, s, i, level);
    if Prec(e) == level {
      InfixCorrect(m, s, i, e, level);
    } else if level == 1 {
      LevelZero(m, s, i);
      UnaryCorrect(m, s, i, e);
    } else {
      LevelCorrect(m, s, i, e, level - 1);
      ThenStops(m, s, Meaning(m, e), End(i, e), level - 1);
      if Meaning(m, e).Known? { RestSkip(m, s, End(i, e), Meaning(m, e).value, level); }
    }
  }

  lemma InfixParts(s: string, i: nat, e: Written)
    requires Here(s, i, e) && e.Infix?
    ensures var p := End(i, e.l) + |e.a|;
      var q := p + |Spelling(e.op)| + |e.b|;
      && Here(s, i, e.l) && Here(s, q, e.r) && End(q, e.r) == End(i, e) && Skip(s, End(i, e.l)) == p
      && p + |Spelling(e.op)| <= |s| && Skip(s, p + |Spelling(e.op)|) == q
      && (forall k :: OpAt(k, s, p) == if k == LevelOf(e.op) then Some(e.op) else None)
      && At(s, p) != '?'
  {
    hide Stands, Span, OpAt, Spelling, All, IsName, Prec;
    Stands5(s, i, Text(e.l), e.a, Spelling(e.op), e.b, Text(e.r));
    hide Text, Skip;
    var q := End(i, e.l) + |e.a| + |Spelling(e.op)| + |e.b|;
    NoBlank(s, q, e.r);
    OperatorRegion(s, End(i, e.l), e.a, e.op, e.b);
    InBounds(s, i, Text(e.l));
  }

  lemma OperatorRegion(s: string, x: nat, a: string, op: BinOp, b: string)
    requires Stands(s, x, a) && Stands(s, x + |a|, Spelling(op)) && Stands(s, x + |a| + |Spelling(op)|, b)
    requires All(Blank, a) && All(Blank, b) && Starts(At(s, x + |a| + |Spelling(op)| + |b|))
    ensures var p := x + |a|;
      var q := p + |Spelling(op)|;
      && q <= |s| && Skip(s, x) == p && Skip(s, q) == q + |b| && Ends(s, x)
      && (forall k :: OpAt(k, s, p) == if k == LevelOf(op) then Some(op) else None)
      && At(s, p) != '?'
  {
    hide Stands, Span, OpAt, Spelling;
    var p := x + |a|;
    var q := p + |Spelling(op)|;
    InBounds(s, p, Spelling(op));
    SpanOver(Blank, s, q, b);
    if b != [] { StandsFirst(s, q, b); assert Is(Blank, b[0]); }
    forall k ensures OpAt(k, s, p) == if k == LevelOf(op) then Some(op) else None { OpFound(s, p, op, k); }
    OpFound(s, p, op, 0);
    SpanOver(Blank, s, x, a);
    if a != [] { StandsFirst(s, x, a); assert Is(Blank, a[0]); }
  }

  lemma InBounds(s: string, i: nat, t: string)
    requires Stands(s, i, t)
    ensures i + |t| <= |s|
  {
  }

  lemma {:induction false} InfixCorrect(m: Macros, s: string, i: nat, e: Written, level: nat)
    requires Here(s, i, e) && e.Infix? && level == LevelOf(e.op) && level <= TOP && NoOp(s, End(i, e), level)
    ensures level > 0 && Level(m, s, i, level) == Then(m, s, Meaning(m, e), End(i, e), level)
    decreases e, 0
  {
    hide Level, Rest, OpAt, Skip, Text, Apply, Stands, All, IsName, NameValue, Number, UnResult, Unary;
    InfixParts(s, i, e);
    LevelCorrect(m, s, i, e.l, level);
    var v := Meaning(m, e.l);
    var p := End(i, e.l) + |e.a|;
    var q := p + |Spelling(e.op)| + |e.b|;
    if v.Known? {
      RestTurn(m, s, End(i, e.l), v.value, level);
      var w := Meaning(m, e.r);
      if level == 1 {
        LevelZero(m, s, q);
        UnaryCorrect(m, s, q, e.r);
      } else {
        LevelCorrect(m, s, q, e.r, level - 1);
        ThenStops(m, s, w, End(q, e.r), level - 1);
        if w.Known? {
          var x := Apply(e.op, v.value, w.value);
          if x.Known? { RestSkip(m, s, End(q, e.r), x.value, level); }
        }
      }
    }
  }

  /** The whole evaluator: the value of the text, exactly its characters (and the blanks after it). */
  lemma {:induction false} TernaryCorrect(m: Macros, s: string, i: nat, e: Written)
    requires Here(s, i, e) && Stops(s, End(i, e))
    ensures Ternary(m, s, i) == Done(Meaning(m, e), Skip(s, End(i, e)))
    decreases e, TOP + 5
  {
    hide Level, Rest, OpAt, Skip, Text, Apply, Stands, Ternary, All, IsName, NameValue, Number, UnResult;
    TernaryStep(m, s, i);
    if e.Choice? {
      ChoiceParts(s, i, e);
      var j := End(i, e.c) + |e.a|;
      var y := j + 1 + |e.b|;
      var k := End(y, e.y) + |e.p|;
      var n := k + 1 + |e.q|;
      LevelCorrect(m, s, i, e.c, TOP);
      ThenStops(m, s, Meaning(m, e.c), End(i, e.c), TOP);
      SkipTwice(s, End(i, e.c));
      TernaryCorrect(m, s, y, e.y);
      SkipTwice(s, End(y, e.y));
      TernaryCorrect(m, s, n, e.n);
    } else {
      LevelCorrect(m, s, i, e, TOP);
      ThenStops(m, s, Meaning(m, e), End(i, e), TOP);
      SkipTwice(s, End(i, e));
    }
  }

  lemma ChoiceParts(s: string, i: nat, e: Written)
    requires Here(s, i, e) && e.Choice?
    ensures var j := End(i, e.c) + |e.a|;
      var y := j + 1 + |e.b|;
      var k := End(y, e.y) + |e.p|;
      var n := k + 1 + |e.q|;
      && Here(s, i, e.c) && NoOp(s, End(i, e.c), TOP + 1) && Skip(s, End(i, e.c)) == j && At(s, j) == '?' && j < |s| && Skip(s, j + 1) == y
      && Here(s, y, e.y) && Stops(s, End(y, e.y)) && Skip(s, End(y, e.y)) == k && At(s, k) == ':' && k < |s| && Skip(s, k + 1) == n
      && Here(s, n, e.n) && End(n, e.n) == End(i, e)
  {
    hide Stands, Span, OpAt, Text;
    ChoiceText(s, i, e);
    Gap(s, End(i, e.c), e.a, '?');
    NoOpAt(s, End(i, e.c), '?');
    var j := End(i, e.c) + |e.a|;
    var y := j + 1 + |e.b|;
    NoBlank(s, y, e.y);
    SpanOver(Blank, s, j + 1, e.b);
    ElseParts(s, End(y, e.y), e.p, e.q, e.n);
  }

  lemma ChoiceText(s: string, i: nat, e: Written)
    requires Here(s, i, e) && e.Choice?
    ensures var x := End(i, e.c);
      var y := x + |e.a| + 1 + |e.b|;
      && Stands(s, i, Text(e.c)) && Stands(s, x, e.a + "?") && Stands(s, x + |e.a| + 1, e.b) && Stands(s, y, Text(e.y))
      && Stands(s, End(y, e.y), (e.p + ":") + (e.q + Text(e.n)))
      && End(i, e) == End(y, e.y) + |e.p| + 1 + |e.q| + |Text(e.n)| && x <= |s| && End(y, e.y) <= |s|
  {
    hide Stands;
    Stands5(s, i, Text(e.c), e.a + "?", e.b, Text(e.y), (e.p + ":") + (e.q + Text(e.n)));
  }

  lemma ElseParts(s: string, x: nat, p: string, q: string, n: Written)
    requires Grammatical(n) && All(Blank, p) && All(Blank, q) && Stands(s, x, (p + ":") + (q + Text(n)))
    ensures x <= |s| && Stops(s, x) && Skip(s, x) == x + |p| && At(s, x + |p|) == ':' && x + |p| < |s|
    ensures Skip(s, x + |p| + 1) == x + |p| + 1 + |q| && Stands(s, x + |p| + 1 + |q|, Text(n))
    ensures |(p + ":") + (q + Text(n))| == |p| + 1 + |q| + |Text(n)|
  {
    hide Stands, Span, OpAt, Text;
    Stands3(s, x, p + ":", q, Text(n));
    StopsAt(s, x, p, ':');
    var k := x + |p| + 1;
    NoBlank(s, k + |q|, n);
    SpanOver(Blank, s, k, q);
  }
}
