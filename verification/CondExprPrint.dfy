/** Printing expression trees with the fewest parentheses and evaluating the text. */
module CondExprPrint {
  import opened Numerals
  import opened CondExpr
  import opened CondExprCorrect

  datatype Tree =
    | Lit(v: nat)
    | Un(uop: UnOp, t: Tree)
    | Bin(op: BinOp, l: Tree, r: Tree)
    | Cond(c: Tree, y: Tree, n: Tree)

  /** Strict value of a tree. */
  function Value(t: Tree): Result {
    match t
    case Lit(n) => Fit(n)
    case Un(op, a) => UnResult(op, Value(a))
    case Bin(op, l, r) => BinResult(op, Value(l), Value(r))
    case Cond(c, y, n) => CondResult(Value(c), Value(y), Value(n))
  }

  /** Parentheses only where the precedence is too low. */
  function Wrapped(level: nat, w: Written): Written {
    if Prec(w) <= level then w else Paren("", w, "")
  }

  function Show(t: Tree): Written {
    match t
    case Lit(n) => Literal("", Decimal(n), "")
    case Un(op, a) => Prefix(op, "", Wrapped(0, Show(a)))
    case Bin(op, l, r) =>
      assert LevelOf(op) >= 1;
      Infix(Wrapped(LevelOf(op), Show(l)), "", op, "", Wrapped(LevelOf(op) - 1, Show(r)))
    case Cond(c, y, n) => Choice(Wrapped(TOP, Show(c)), "", "", Show(y), "", "", Show(n))
  }

  lemma {:induction false} DecimalValue(n: nat)
    ensures Decimal(n) != [] && All(Dec, Decimal(n)) && Number(Dec, Decimal(n)) == n
  {
    DecimalDigits(n);
    var d := Decimal(n);
    assert forall i :: 0 <= i < |d| ==> d[i] in d;
    if n >= 10 {
      DecimalValue(n / 10);
      assert d[..|d| - 1] == Decimal(n / 10);
    } else {
      assert d[..0] == [];
    }
    assert DigitValue(d[|d| - 1]) == n % 10;
  }

  lemma WrappedOk(m: Macros, level: nat, w: Written)
    requires Grammatical(w)
    ensures Grammatical(Wrapped(level, w)) && Prec(Wrapped(level, w)) <= level && Meaning(m, Wrapped(level, w)) == Meaning(m, w)
  {
  }

  /** The printed text is an expression of the grammar with the tree's value. */
  lemma {:induction false} ShowMeans(m: Macros, t: Tree)
    ensures Means(m, t)
    decreases t
  {
    match t
    case Lit(n) => LitMeans(m, n);
    case Un(op, a) =>
      ShowMeans(m, a);
      UnMeans(m, op, a);
    case Bin(op, l, r) =>
      ShowMeans(m, l);
      ShowMeans(m, r);
      BinMeans(m, op, l, r);
    case Cond(c, y, n) =>
      ShowMeans(m, c);
      ShowMeans(m, y);
      ShowMeans(m, n);
      CondMeans(m, c, y, n);
  }

  ghost predicate Means(m: Macros, t: Tree) {
    Grammatical(Show(t)) && Meaning(m, Show(t)) == Value(t)
  }

  lemma LitMeans(m: Macros, n: nat)
    ensures Means(m, Lit(n))
  {
    hide Decimal, Number;
    DecimalValue(n);
  }

  lemma UnMeans(m: Macros, op: UnOp, a: Tree)
    requires Means(m, a)
    ensures Means(m, Un(op, a))
  {
    hide UnResult, Wrapped;
    WrappedOk(m, 0, Show(a));
  }

  lemma BinMeans(m: Macros, op: BinOp, l: Tree, r: Tree)
    requires Means(m, l) && Means(m, r)
    ensures Means(m, Bin(op, l, r))
  {
    hide Grammatical, Meaning;
    assert LevelOf(op) >= 1;
    hide BinResult, Wrapped, LevelOf, Show, Value;
    WrappedOk(m, LevelOf(op), Show(l));
    WrappedOk(m, LevelOf(op) - 1, Show(r));
    ShowBin(op, l, r);
    InfixMeans(m, Wrapped(LevelOf(op), Show(l)), op, Wrapped(LevelOf(op) - 1, Show(r)));
  }

  lemma ShowBin(op: BinOp, l: Tree, r: Tree)
    ensures LevelOf(op) >= 1 && Show(Bin(op, l, r)) == Infix(Wrapped(LevelOf(op), Show(l)), "", op, "", Wrapped(LevelOf(op) - 1, Show(r)))
    ensures Value(Bin(op, l, r)) == BinResult(op, Value(l), Value(r))
  {
    hide Wrapped, BinResult;
  }

  lemma InfixMeans(m: Macros, a: Written, op: BinOp, b: Written)
    requires Grammatical(a) && Grammatical(b) && Prec(a) <= LevelOf(op) && Prec(b) < LevelOf(op)
    ensures var w := Infix(a, "", op, "", b); Grammatical(w)
    ensures var w := Infix(a, "", op, "", b);
      Meaning(m, w) == BinResult(op, Meaning(m, a), Meaning(m, b))
  {
    hide BinResult, LevelOf;
  }

  lemma CondMeans(m: Macros, c: Tree, y: Tree, n: Tree)
    requires Means(m, c) && Means(m, y) && Means(m, n)
    ensures Means(m, Cond(c, y, n))
  {
    hide Wrapped, BinResult, Is, NameValue, Number, Prec, UnResult;
    WrappedOk(m, TOP, Show(c));
  }

  /** Evaluating the printed text gives the value of the tree and consumes exactly the text. */
  lemma PrintEval(m: Macros, t: Tree)
    ensures var s := Text(Show(t)); Ternary(m, s, 0) == Done(Value(t), |s|)
  {
    hide Grammatical, Meaning, Show, Ternary, Text, Value;
    ShowMeans(m, t);
    BareText(m, Show(t));
  }

  /** The text of an #if line, blanks around it allowed. */
  lemma WholeText(m: Macros, before: string, e: Written, after: string)
    requires Grammatical(e) && All(Blank, before) && All(Blank, after)
    ensures var s := before + (Text(e) + after); Ternary(m, s, Skip(s, 0)) == Done(Meaning(m, e), |s|)
  {
    hide *;
    var s := before + (Text(e) + after);
    StandsSelf(s);
    Stands3(s, 0, before, Text(e), after);
    NoBlank(s, |before|, e);
    SkipOver(s, 0, before);
    AtEnd(s, |before| + |Text(e)|, after);
    HereBy(s, |before|, e);
    TernaryCorrect(m, s, |before|, e);
  }

  lemma BareText(m: Macros, e: Written)
    requires Grammatical(e)
    ensures Ternary(m, Text(e), 0) == Done(Meaning(m, e), |Text(e)|)
  {
    hide Ternary, Text, Meaning, Grammatical, OpAt, Stands;
    WholeText(m, "", e, "");
    assert "" + (Text(e) + "") == Text(e);
    StandsSelf(Text(e));
    NoBlank(Text(e), 0, e);
  }

  lemma SkipOver(s: string, i: nat, t: string)
    requires Stands(s, i, t) && All(Blank, t) && Starts(At(s, i + |t|))
    ensures i <= |s| && Skip(s, i) == i + |t|
  {
    SpanOver(Blank, s, i, t);
  }

  lemma HereBy(s: string, i: nat, e: Written)
    requires Grammatical(e) && Stands(s, i, Text(e)) && i + |Text(e)| <= |s| && Stops(s, i + |Text(e)|)
    ensures Here(s, i, e) && End(i, e) == i + |Text(e)|
  {
    hide Grammatical, Stands, Text, OpAt;
  }

  lemma StandsSelf(s: string)
    ensures Stands(s, 0, s)
  {
  }

  /** Only blanks up to the end of the text. */
  lemma AtEnd(s: string, x: nat, after: string)
    requires Stands(s, x, after) && All(Blank, after) && x + |after| == |s|
    ensures Stops(s, x) && Skip(s, x) == |s|
  {
    hide Stands, Span, OpAt;
    SpanOver(Blank, s, x, after);
    NoOpAt(s, x, '\0');
    if after != [] { StandsFirst(s, x, after); assert Is(Blank, after[0]); }
  }

  /** The condition of an #if or #elif line: 1 or 0, a fatal error, or undefined arithmetic. */
  function Condition(m: Macros, s: string): Result {
    var r := Ternary(m, s, Skip(s, 0));
    if r.Fail? then r.why else if Skip(s, r.pos) != |s| then Fatal else Truth(r.v != 0)
  }

  function Tested(v: Result): Result {
    if v.Known? then Truth(v.value != 0) else v
  }

  /** An #if line holds exactly when its expression has a non-zero strict value; it is a fatal error exactly
      when a fatal operation comes first in the strict order. */
  lemma ConditionCorrect(m: Macros, before: string, e: Written, after: string)
    requires Grammatical(e) && All(Blank, before) && All(Blank, after)
    ensures Condition(m, before + (Text(e) + after)) == Tested(Meaning(m, e))
  {
    hide All, Grammatical, Meaning, Skip, Ternary, Text;
    WholeText(m, before, e, after);
    var s := before + (Text(e) + after);
    assert Skip(s, |s|) == |s|;
  }
}
