/** Literals with a leading zero: octal in C, decimal for the evaluator. */
module CondExprLimits {
  import opened CondExpr
  import opened CondExprCorrect
  import opened CondExprPrint

  // ---------------------------------------------------------------- leading zeros

  predicate OctalDigits(d: string) {
    forall i :: 0 <= i < |d| ==> '0' <= d[i] <= '7'
  }

  /** The value C gives to digits after a leading zero (section 6.4.4.1 of ISO/IEC 9899:1999). */
  function Octal(d: string): nat
    requires OctalDigits(d)
  {
    if d == [] then 0 else Octal(d[..|d| - 1]) * 8 + (d[|d| - 1] - '0') as nat
  }

  predicate Zeros(d: string) {
    forall i :: 0 <= i < |d| ==> d[i] == '0'
  }

  /** Read as decimal, digits are worth at least as much as in octal, and the same only if all but the last are zero. */
  lemma {:induction false} OctalExact(d: string)
    requires d != [] && OctalDigits(d)
    ensures All(Dec, d) && Octal(d) <= Number(Dec, d) && (Number(Dec, d) == 0 <==> Zeros(d))
    ensures Number(Dec, d) == Octal(d) <==> Zeros(d[..|d| - 1])
    ensures Number(Dec, d) == Octal(d) <==> Number(Dec, d) < 8
    decreases |d|
  {
    var n := |d| - 1;
    var p := d[..n];
    if p != [] {
      OctalExact(p);
    }
    assert Zeros(d) <==> Zeros(p) && d[n] == '0';
  }

  /** A literal with a leading zero gets its C value exactly if all its digits but the last are zero. */
  lemma LeadingZeroExact(m: Macros, before: string, d: string, u: string, after: string)
    requires d != [] && d[0] == '0' && OctalDigits(d) && All(Suffix, u) && All(Blank, before) && All(Blank, after)
    ensures var s := before + (Text(Literal("", d, u)) + after);
      Ternary(m, s, Skip(s, 0)) == Ok(Octal(d), |s|) <==> Zeros(d[..|d| - 1])
  {
    OctalExact(d);
    hide Ternary, Text, Octal, Number, Zeros;
    WholeText(m, before, Literal("", d, u), after);
  }

  /** C gives 010 the value 8, the evaluator 10. */
  lemma OctalIsDecimal(m: Macros)
    ensures Octal("010") == 8 && Ternary(m, "010", 0) == Ok(10, 3)
  {
    TenRead();
    hide Number, Octal;
    var e := Literal("", "010", "");
    assert Text(e) == "010";
    BareText(m, e);
  }

  lemma TenRead()
    ensures All(Dec, "010") && Number(Dec, "010") == 10 && OctalDigits("010") && Octal("010") == 8
  {
    assert "010"[..2] == "01" && "01"[..1] == "0" && "0"[..0] == "";
    assert Number(Dec, "0") == 0 && Octal("0") == 0;
    assert Number(Dec, "01") == 1 && Octal("01") == 1;
  }
}
