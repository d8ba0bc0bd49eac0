/** Lexing a string literal gives back the bytes that were printed into it, however they were escaped. */
module LexerTheorem {
  import opened Options
  import opened CondExpr
  import opened Stringify

  /** How a byte is written: as itself, by a letter after a backslash, by three octal digits or by two hexadecimal ones. */
  datatype Form = Plain | Letter | Octal | Hexa(upper: bool)

  datatype Item = Item(code: nat, form: Form)

  function HexChar(n: nat, upper: bool): char
    requires n < 16
  {
    if upper then "0123456789ABCDEF"[n] else "0123456789abcdef"[n]
  }

  /** The letters stand for line feed (10), tab (9), carriage return (13), backslash (92) and double quote (34). */
  function LetterOf(code: nat): Option<char> {
    if code == 10 then Some('n')
    else if code == 9 then Some('t')
    else if code == 13 then Some('r')
    else if code == 92 then Some('\\')
    else if code == 34 then Some('"')
    else None
  }

  predicate Writable(i: Item) {
    i.code < 256 &&
    match i.form
    case Plain => i.code !in {0, 10, 34, 92}
    case Letter => LetterOf(i.code).Some?
    case Octal => true
    case Hexa(_) => true
  }

  function Digit8(n: nat): char
    requires n < 8
  {
    "01234567"[n]
  }

  function Written(i: Item): string
    requires Writable(i)
  {
    match i.form
    case Plain => [i.code as char]
    case Letter => ['\\', LetterOf(i.code).value]
    case Octal => ['\\', Digit8(i.code / 64), Digit8(i.code / 8 % 8), Digit8(i.code % 8)]
    case Hexa(u) => ['\\', 'x', HexChar(i.code / 16, u), HexChar(i.code % 16, u)]
  }

  /** A hexadecimal escape ends before a character that is no hexadecimal digit. */
  predicate Printable(ts: seq<Item>) {
    ts != [] ==>
      && Writable(ts[0]) && Printable(ts[1..])
      && (ts[0].form.Hexa? && |ts| > 1 && ts[1].form == Plain ==> !HexDigit(ts[1].code))
  }

  predicate HexDigit(code: nat) {
    48 <= code <= 57 || 65 <= code <= 70 || 97 <= code <= 102
  }

  function Print(ts: seq<Item>): string
    requires Printable(ts)
  {
    if ts == [] then "" else Written(ts[0]) + Print(ts[1..])
  }

  function Bytes(ts: seq<Item>): string
    requires Printable(ts)
  {
    if ts == [] then "" else [ts[0].code as char] + Bytes(ts[1..])
  }

  /** The printed items stand at i, and the closing quote after them. */
  predicate Stands(s: string, i: nat, ts: seq<Item>)
    requires Printable(ts)
  {
    i + |Print(ts)| < |s| && s[i..i + |Print(ts)|] == Print(ts) && s[i + |Print(ts)|] == '"'
  }

  lemma Halves(s: string, i: nat, w: string, r: string)
    requires i + |w| + |r| <= |s| && s[i..i + |w + r|] == w + r
    ensures s[i..i + |w|] == w && s[i + |w|..i + |w| + |r|] == r
    ensures forall k :: 0 <= k < |w| ==> s[i + k] == w[k]
  {
    assert s[i..i + |w|] == s[i..i + |w + r|][..|w|];
    assert s[i + |w|..i + |w| + |r|] == s[i..i + |w + r|][|w|..];
    forall k | 0 <= k < |w|
      ensures s[i + k] == w[k]
    {
      assert s[i..i + |w|][k] == w[k];
    }
  }

  lemma StandsRest(s: string, i: nat, ts: seq<Item>)
    requires Printable(ts) && ts != [] && Stands(s, i, ts)
    ensures var w := Written(ts[0]); i + |w| <= |s| && s[i..i + |w|] == w && Stands(s, i + |w|, ts[1..])
    ensures forall k :: 0 <= k < |Written(ts[0])| ==> s[i + k] == Written(ts[0])[k]
  {
    Halves(s, i, Written(ts[0]), Print(ts[1..]));
    hide Written;
  }

  /** The character after a printed item: the quote, or the first of the next item. */
  lemma FirstStands(s: string, i: nat, ts: seq<Item>)
    requires Printable(ts) && Stands(s, i, ts)
    ensures i < |s| && s[i] == if ts == [] then '"' else Written(ts[0])[0]
  {
    if ts != [] {
      StandsRest(s, i, ts);
      hide Written, Stands, Print;
      assert s[i + 0] == Written(ts[0])[0];
    }
  }

  lemma FirstWritten(it: Item)
    requires Writable(it)
    ensures |Written(it)| > 0 && Written(it)[0] == if it.form.Plain? then it.code as char else '\\'
  {
  }

  lemma AfterHex(s: string, i: nat, ts: seq<Item>)
    requires Printable(ts) && ts != [] && ts[0].form.Hexa? && Stands(s, i, ts)
    ensures i + 4 < |s| && !IsHex(s[i + 4])
  {
    StandsRest(s, i, ts);
    assert |Written(ts[0])| == 4;
    hide Written, Stands, Print;
    FirstStands(s, i + 4, ts[1..]);
    if |ts| > 1 { FirstWritten(ts[1]); }
  }

  lemma HexValue(n: nat, u: bool)
    requires n < 16
    ensures IsHex(HexChar(n, u)) && DigitValue(HexChar(n, u)) == n
  {
  }

  lemma OctalValue(n: nat)
    requires n < 8
    ensures IsOctal(Digit8(n)) && (Digit8(n) - '0') as nat == n && Digit8(n) != 'x'
  {
  }

  lemma PlainDecodes(s: string, i: nat, c: nat)
    requires i < |s| && c < 256 && c !in {0, 10, 34, 92} && s[i] == c as char
    ensures Decode(s, i) == Prepend(c as char, Decode(s, i + 1))
  {
  }

  lemma LetterDecodes(s: string, i: nat, c: nat)
    requires i + 1 < |s| && s[i] == '\\' && LetterOf(c).Some? && s[i + 1] == LetterOf(c).value
    ensures Decode(s, i) == Prepend(c as char, Decode(s, i + 2))
  {
    assert SimpleEscape(s[i + 1]) == Some(c as char);
  }

  lemma OctalStep(s: string, i: nat, v: nat, count: nat, n: nat)
    requires i < |s| && count < 3 && n < 8 && s[i] == Digit8(n)
    ensures OctalRun(s, i, v, count) == OctalRun(s, i + 1, v * 8 + n, count + 1)
  {
    OctalValue(n);
    hide Digit8;
  }

  lemma OctalStop(s: string, i: nat, v: nat)
    requires i <= |s|
    ensures OctalRun(s, i, v, 3) == (v, i)
  {
  }

  lemma OctalValueOf(s: string, i: nat, x: nat, y: nat, z: nat)
    requires i + 2 < |s| && x < 8 && y < 8 && z < 8
    requires s[i] == Digit8(x) && s[i + 1] == Digit8(y) && s[i + 2] == Digit8(z)
    ensures OctalRun(s, i, 0, 0) == ((x * 8 + y) * 8 + z, i + 3)
  {
    hide Digit8, OctalRun;
    OctalStep(s, i, 0, 0, x);
    OctalStep(s, i + 1, x, 1, y);
    OctalStep(s, i + 2, x * 8 + y, 2, z);
    OctalStop(s, i + 3, (x * 8 + y) * 8 + z);
  }

  lemma OctalEscaped(s: string, i: nat)
    requires i + 1 < |s| && IsOctal(s[i + 1])
    ensures OctalRun(s, i + 1, 0, 0).1 <= |s|
    ensures Escaped(s, i) == Some((Byte(OctalRun(s, i + 1, 0, 0).0), OctalRun(s, i + 1, 0, 0).1))
  {
    hide OctalRun, Byte;
    OctalEnd(s, i + 1, 0, 0);
  }

  lemma DigitsOf(c: nat)
    requires c < 256
    ensures c / 64 < 8 && (c / 64 * 8 + c / 8 % 8) * 8 + c % 8 == c && Byte(c) == c as char
  {
  }

  lemma OctalDecodes(s: string, i: nat, c: nat)
    requires i + 3 < |s| && c < 256 && s[i] == '\\'
    requires s[i + 1] == Digit8(c / 64) && s[i + 2] == Digit8(c / 8 % 8) && s[i + 3] == Digit8(c % 8)
    ensures Decode(s, i) == Prepend(c as char, Decode(s, i + 4))
  {
    hide *;
    OctalValueOf(s, i + 1, c / 64, c / 8 % 8, c % 8);
    OctalValue(c / 64);
    DigitsOf(c);
    OctalEscaped(s, i);
    EscapeDecodes(s, i, c as char, i + 4);
  }

  lemma EscapeDecodes(s: string, i: nat, c: char, e: nat)
    requires i < |s| && s[i] == '\\' && Escaped(s, i) == Some((c, e))
    ensures Decode(s, i) == Prepend(c, Decode(s, e))
  {
    hide Escaped, Prepend;
  }

  lemma HexDecodes(s: string, i: nat, c: nat, u: bool)
    requires i + 4 < |s| && c < 256 && s[i] == '\\' && s[i + 1] == 'x' && !IsHex(s[i + 4])
    requires s[i + 2] == HexChar(c / 16, u) && s[i + 3] == HexChar(c % 16, u)
    ensures Decode(s, i) == Prepend(c as char, Decode(s, i + 4))
  {
    HexValue(c / 16, u);
    HexValue(c % 16, u);
    hide IsHex, DigitValue, HexChar, Decode;
    assert HexRun(s, i + 4, c) == (c, i + 4);
    assert HexRun(s, i + 3, c / 16) == HexRun(s, i + 4, c / 16 * 16 + c % 16);
    assert HexRun(s, i + 2, 0) == HexRun(s, i + 3, c / 16);
    hide HexRun;
    assert Escaped(s, i) == Some((c as char, i + 4));
    EscapeDecodes(s, i, c as char, i + 4);
  }

  lemma FormDecodes(s: string, i: nat, it: Item, w: string)
    requires Writable(it) && w == Written(it) && i + |w| < |s|
    requires forall k :: 0 <= k < |w| ==> s[i + k] == w[k]
    requires it.form.Hexa? ==> !IsHex(s[i + 4])
    ensures Decode(s, i) == Prepend(it.code as char, Decode(s, i + |w|))
  {
    hide Decode, Digit8, HexChar, LetterOf, IsHex, Prepend;
    assert s[i + 0] == w[0];
    match it.form
    case Plain => PlainDecodes(s, i, it.code);
    case Letter =>
      assert s[i + 1] == w[1];
      LetterDecodes(s, i, it.code);
    case Octal =>
      assert s[i + 1] == w[1] && s[i + 2] == w[2] && s[i + 3] == w[3];
      OctalDecodes(s, i, it.code);
    case Hexa(u) =>
      assert s[i + 1] == w[1] && s[i + 2] == w[2] && s[i + 3] == w[3];
      HexDecodes(s, i, it.code, u);
  }

  /** One printed byte is decoded to the byte. */
  lemma ItemDecodes(s: string, i: nat, ts: seq<Item>)
    requires Printable(ts) && ts != [] && Stands(s, i, ts)
    ensures i + |Written(ts[0])| < |s| && Stands(s, i + |Written(ts[0])|, ts[1..])
    ensures Decode(s, i) == Prepend(ts[0].code as char, Decode(s, i + |Written(ts[0])|))
  {
    StandsRest(s, i, ts);
    if ts[0].form.Hexa? { AfterHex(s, i, ts); }
    hide Written, Print, Decode;
    FormDecodes(s, i, ts[0], Written(ts[0]));
  }

  lemma PrintStep(ts: seq<Item>)
    requires Printable(ts) && ts != []
    ensures |Print(ts)| == |Written(ts[0])| + |Print(ts[1..])| && Bytes(ts) == [ts[0].code as char] + Bytes(ts[1..])
  {
    hide Written;
  }

  lemma PrependSome(c: char, b: string, e: nat)
    ensures Prepend(c, Some((b, e))) == Some(([c] + b, e))
  {
  }

  lemma NothingPrinted(s: string, i: nat)
    requires Stands(s, i, [])
    ensures Decode(s, i) == Some((Bytes([]), i + |Print([])| + 1))
  {
    assert s[i] == '"';
  }

  lemma {:induction false} DecodesPrinted(s: string, i: nat, ts: seq<Item>)
    requires Printable(ts) && Stands(s, i, ts)
    ensures Decode(s, i) == Some((Bytes(ts), i + |Print(ts)| + 1))
    decreases |ts|
  {
    hide Decode, Written, Stands, Print, Bytes, Prepend;
    if ts == [] {
      NothingPrinted(s, i);
    } else {
      ItemDecodes(s, i, ts);
      DecodesPrinted(s, i + |Written(ts[0])|, ts[1..]);
      PrintStep(ts);
      PrependSome(ts[0].code as char, Bytes(ts[1..]), i + |Print(ts)| + 1);
    }
  }

  /** Whatever way each byte is written, the lexer returns the bytes and stops after the closing quote. */
  lemma PrintLex(ts: seq<Item>)
    requires Printable(ts)
    ensures var s := "\"" + Print(ts) + "\""; Literal(s, 0) == Some((Bytes(ts), |s|))
  {
    var s := "\"" + Print(ts) + "\"";
    assert s[1..1 + |Print(ts)|] == Print(ts);
    hide Print, Bytes;
    DecodesPrinted(s, 1, ts);
  }

  lemma {:induction false} BytesAre(ts: seq<Item>, k: nat)
    requires Printable(ts) && k < |ts|
    ensures |Bytes(ts)| == |ts| && Bytes(ts)[k] as int == ts[k].code
    decreases |ts|
  {
    if k > 0 { BytesAre(ts[1..], k - 1); } else if |ts| > 1 { BytesAre(ts[1..], 0); }
  }

  /** Any other character after a backslash is an error. */
  lemma EscapeRejected(c: char, after: string)
    requires c !in {'n', 't', 'r', '\\', '"', 'x'} && !('0' <= c <= '7')
    ensures Literal("\"" + ['\\', c] + after, 0).None?
  {
    var s := "\"" + ['\\', c] + after;
    assert s[0] == '"' && s[1] == '\\' && s[2] == c;
  }
}
