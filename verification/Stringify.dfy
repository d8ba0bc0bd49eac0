/** The # operator (stringify_arg in src/preprocessor.c) and the decoding of string literals
    (lexer_next_token in src/lexer.c). */
module Stringify {
  import opened Options
  import opened CondExpr

  // ---------------------------------------------------------------- decoding

  predicate IsOctal(c: char) {
    '0' <= c <= '7'
  }

  function Byte(v: nat): char {
    (v % 256) as char
  }

  /** The value of the hexadecimal digits from i, and where they end. */
  function HexRun(s: string, i: nat, v: nat): (nat, nat)
    requires i <= |s|
    decreases |s| - i
  {
    if i < |s| && IsHex(s[i]) then HexRun(s, i + 1, v * 16 + DigitValue(s[i])) else (v, i)
  }

  lemma HexEnd(s: string, i: nat, v: nat)
    requires i <= |s|
    ensures i <= HexRun(s, i, v).1 <= |s|
    decreases |s| - i
  {
    if i < |s| && IsHex(s[i]) { HexEnd(s, i + 1, v * 16 + DigitValue(s[i])); }
  }

  /** At most three octal digits. */
  function OctalRun(s: string, i: nat, v: nat, count: nat): (nat, nat)
    requires i <= |s| && count <= 3
    decreases 3 - count
  {
    if count < 3 && i < |s| && IsOctal(s[i]) then OctalRun(s, i + 1, v * 8 + (s[i] - '0') as nat, count + 1) else (v, i)
  }

  lemma OctalEnd(s: string, i: nat, v: nat, count: nat)
    requires i <= |s| && count <= 3
    ensures i <= OctalRun(s, i, v, count).1 <= |s|
    decreases 3 - count
  {
    if count < 3 && i < |s| && IsOctal(s[i]) { OctalEnd(s, i + 1, v * 8 + (s[i] - '0') as nat, count + 1); }
  }

  function SimpleEscape(c: char): Option<char> {
    match c
    case 'n' => Some('\n')
    case 't' => Some('\t')
    case 'r' => Some('\r')
    case '\\' => Some('\\')
    case '"' => Some('"')
    case _ => None
  }

  /** The escape whose backslash stands at i: the byte and the position after it. */
  function Escaped(s: string, i: nat): (r: Option<(char, nat)>)
    requires i < |s|
    ensures r.Some? ==> i < r.value.1 <= |s|
  {
    var next := At(s, i + 1);
    if next == 'x' then
      if !IsHex(At(s, i + 2)) then None
      else
        HexEnd(s, i + 2, 0);
        Some((Byte(HexRun(s, i + 2, 0).0), HexRun(s, i + 2, 0).1))
    else if IsOctal(next) then
      OctalEnd(s, i + 1, 0, 0);
      Some((Byte(OctalRun(s, i + 1, 0, 0).0), OctalRun(s, i + 1, 0, 0).1))
    else
      var c := SimpleEscape(next);
      if c.None? then None else Some((c.value, i + 2))
  }

  /** The body of a literal from i: the decoded bytes and the position after the closing quote. */
  function Decode(s: string, i: nat): Option<(string, nat)>
    requires i <= |s|
    decreases |s| - i
  {
    if At(s, i) == '"' then Some(("", i + 1))
    else if At(s, i) == '\0' || At(s, i) == '\n' then None
    else if s[i] == '\\' then
      var e := Escaped(s, i);
      if e.None? then None else Prepend(e.value.0, Decode(s, e.value.1))
    else Prepend(s[i], Decode(s, i + 1))
  }

  function Prepend(c: char, r: Option<(string, nat)>): Option<(string, nat)> {
    if r.None? then None else Some(([c] + r.value.0, r.value.1))
  }

  /** A string literal token whose opening quote stands at i. */
  function Literal(s: string, i: nat): Option<(string, nat)>
    requires i < |s|
  {
    if s[i] == '"' then Decode(s, i + 1) else None
  }

  class Lexer {
    const source: string
    var pos: nat

    constructor (source: string)
      ensures this.source == source && pos == 0
    {
      this.source := source;
      pos := 0;
    }

    method HexDigits() returns (v: nat)
      requires pos <= |source|
      modifies this`pos
      ensures (v, pos) == HexRun(source, old(pos), 0) && pos <= |source|
    {
      v := 0;
      while pos < |source| && IsHex(source[pos])
        invariant pos <= |source| && HexRun(source, pos, v) == HexRun(source, old(pos), 0)
      {
        v := v * 16 + DigitValue(source[pos]);
        pos := pos + 1;
      }
    }

    method OctalDigits() returns (v: nat)
      requires pos <= |source|
      modifies this`pos
      ensures (v, pos) == OctalRun(source, old(pos), 0, 0) && pos <= |source|
    {
      v := 0;
      var count := 0;
      while count < 3 && pos < |source| && IsOctal(source[pos])
        invariant pos <= |source| && 0 <= count <= 3 && OctalRun(source, pos, v, count) == OctalRun(source, old(pos), 0, 0)
      {
        v := v * 8 + (source[pos] - '0') as nat;
        pos := pos + 1;
        count := count + 1;
      }
    }

    /** Reads the literal whose opening quote is at pos; None where the source reports an error. */
    method StringLiteral() returns (r: Option<string>)
      requires pos < |source| && source[pos] == '"'
      modifies this`pos
      ensures var want := Literal(source, old(pos)); r.Some? == want.Some? && (r.Some? ==> (r.value, pos) == want.value)
    {
      ghost var start := pos;
      pos := pos + 1;
      var decoded := "";
      JoinedNone(Decode(source, pos));
      while true
        invariant start < pos <= |source|
        invariant Literal(source, start) == Joined(decoded, Decode(source, pos))
        decreases |source| - pos
      {
        var ch := At(source, pos);
        if ch == '"' {
          pos := pos + 1;
          assert decoded + "" == decoded;
          return Some(decoded);
        }
        if ch == '\0' || ch == '\n' { return None; }
        ghost var before, was := decoded, pos;
        if ch == '\\' {
          var next := At(source, pos + 1);
          if next == 'x' {
            if !IsHex(At(source, pos + 2)) { return None; }
            pos := pos + 2;
            HexEnd(source, pos, 0);
            var v := HexDigits();
            decoded := decoded + [Byte(v)];
          } else if IsOctal(next) {
            pos := pos + 1;
            OctalEnd(source, pos, 0, 0);
            var v := OctalDigits();
            decoded := decoded + [Byte(v)];
          } else {
            var c := SimpleEscape(next);
            if c.None? { return None; }
            pos := pos + 2;
            decoded := decoded + [c.value];
          }
        } else {
          decoded := decoded + [ch];
          pos := pos + 1;
        }
        JoinedStep(before, decoded[|before|], Decode(source, pos));
      }
    }
  }

  function Joined(before: string, r: Option<(string, nat)>): Option<(string, nat)> {
    if r.None? then None else Some((before + r.value.0, r.value.1))
  }

  lemma JoinedNone(r: Option<(string, nat)>)
    ensures Joined("", r) == r
  {
    if r.Some? { assert "" + r.value.0 == r.value.0; }
  }

  lemma JoinedStep(before: string, c: char, r: Option<(string, nat)>)
    ensures Joined(before, Prepend(c, r)) == Joined(before + [c], r)
  {
    if r.Some? { assert before + ([c] + r.value.0) == (before + [c]) + r.value.0; }
  }

  // ---------------------------------------------------------------- the # operator

  /** Words separated by blanks. */
  function WordsOf(arg: string): seq<string> {
    if arg == "" then []
    else
      var n := |arg| - 1;
      var ws := WordsOf(arg[..n]);
      if IsBlank(arg[n]) then ws
      else if n == 0 || IsBlank(arg[n - 1]) || ws == [] then ws + [[arg[n]]]
      else ws[|ws| - 1 := ws[|ws| - 1] + [arg[n]]]
  }

  /** The words with one space between them. */
  function Spaced(ws: seq<string>): string {
    if ws == [] then "" else if |ws| == 1 then ws[0] else Spaced(ws[..|ws| - 1]) + " " + ws[|ws| - 1]
  }

  function Escape(t: string): string {
    if t == "" then ""
    else Escape(t[..|t| - 1]) + EscapeChar(t[|t| - 1])
  }

  function EscapeChar(c: char): string {
    if c == '"' || c == '\\' then ['\\', c] else [c]
  }

  function Stringified(arg: string): string {
    "\"" + Escape(Spaced(WordsOf(arg))) + "\""
  }

  /** The text collected so far: the words, and a space where one is pending. */
  function Collected(arg: string): string {
    var t := Spaced(WordsOf(arg));
    if arg != "" && IsBlank(arg[|arg| - 1]) && WordsOf(arg) != [] then t + " " else t
  }

  method StringifyArg(arg: string) returns (out: string)
    ensures out == Stringified(arg)
  {
    hide WordsOf, Spaced, Escape, Collected, EscapeChar;
    WordsNone();
    CollectedIs("");
    EscapeNone();
    var inner, inSpace := "", true;
    var lastNonSpace: nat := 0;
    assert arg[..0] == "";
    var i := 0;
    while i < |arg|
      invariant 0 <= i <= |arg|
      invariant inner == Escape(Collected(arg[..i]))
      invariant inSpace == BlankBefore(arg[..i])
      invariant lastNonSpace <= |inner| && inner[..lastNonSpace] == Escape(Spaced(WordsOf(arg[..i])))
    {
      var c := arg[i];
      ghost var before := arg[..i];
      ghost var p := arg[..i + 1];
      assert p == before + [c];
      if IsBlank(c) {
        GrowBlank(before, c);
        if !inSpace {
          inner := inner + " ";
          inSpace := true;
        }
      } else {
        GrowWord(before, c);
        inner := inner + EscapeChar(c);
        inSpace := false;
        lastNonSpace := |inner|;
      }
      i := i + 1;
    }
    assert arg[..i] == arg;
    out := "\"" + inner[..lastNonSpace] + "\"";
  }

  lemma EscapeLast(t: string, c: char)
    ensures Escape(t + [c]) == Escape(t) + EscapeChar(c)
  {
    assert (t + [c])[..|t|] == t;
  }

  lemma WordsLast(before: string, c: char)
    ensures WordsOf(before + [c]) ==
      var ws := WordsOf(before);
      if IsBlank(c) then ws
      else if before == "" || IsBlank(before[|before| - 1]) || ws == [] then ws + [[c]]
      else ws[|ws| - 1 := ws[|ws| - 1] + [c]]
  {
    var p := before + [c];
    assert p[..|before|] == before && p[|before|] == c;
    if before != "" { assert p[|before| - 1] == before[|before| - 1]; }
  }

  lemma SpacedMore(ws: seq<string>, w: string)
    ensures Spaced(ws + [w]) == if ws == [] then w else Spaced(ws) + " " + w
  {
    assert (ws + [w])[..|ws|] == ws;
  }

  lemma SpacedLonger(ws: seq<string>, c: char)
    requires ws != []
    ensures Spaced(ws[|ws| - 1 := ws[|ws| - 1] + [c]]) == Spaced(ws) + [c]
  {
    var n := |ws| - 1;
    var a, w := ws[..n], ws[n];
    assert ws == a + [w] && ws[n := w + [c]] == a + [w + [c]];
    SpacedMore(a, w);
    SpacedMore(a, w + [c]);
    if a != [] { assert Spaced(a) + " " + (w + [c]) == (Spaced(a) + " " + w) + [c]; }
  }

  lemma WordsSome(arg: string)
    requires arg != "" && !IsBlank(arg[|arg| - 1])
    ensures WordsOf(arg) != []
  {
  }

  predicate BlankBefore(t: string) {
    t == "" || IsBlank(t[|t| - 1])
  }

  /** Collected, by what the text ends in. */
  lemma CollectedIs(t: string)
    ensures BlankBefore(t) && WordsOf(t) == [] ==> Collected(t) == ""
    ensures BlankBefore(t) && WordsOf(t) != [] ==> Collected(t) == Spaced(WordsOf(t)) + " "
    ensures !BlankBefore(t) ==> WordsOf(t) != [] && Collected(t) == Spaced(WordsOf(t))
  {
    if !BlankBefore(t) { WordsSome(t); }
    if t == "" { WordsNone(); }
  }

  /** A blank adds a space, unless one is there or nothing is. */
  lemma GrowBlank(before: string, c: char)
    requires IsBlank(c)
    ensures WordsOf(before + [c]) == WordsOf(before)
    ensures Escape(Collected(before + [c])) == Escape(Collected(before)) + if BlankBefore(before) then "" else " "
  {
    hide WordsOf, Spaced, Escape, Collected;
    WordsLast(before, c);
    CollectedIs(before);
    CollectedIs(before + [c]);
    EscapeLast(Spaced(WordsOf(before)), ' ');
    assert Escape(Collected(before)) + "" == Escape(Collected(before));
  }

  /** Any other character is added, escaped where needed, and completes the text. */
  lemma GrowWord(before: string, c: char)
    requires !IsBlank(c)
    ensures Collected(before + [c]) == Spaced(WordsOf(before + [c]))
    ensures Escape(Collected(before + [c])) == Escape(Collected(before)) + EscapeChar(c)
  {
    hide WordsOf, Spaced, Escape, Collected;
    WordsLast(before, c);
    CollectedIs(before);
    CollectedIs(before + [c]);
    EscapeLast(Collected(before), c);
    var ws := WordsOf(before);
    if BlankBefore(before) {
      SpacedMore(ws, [c]);
      assert "" + [c] == [c];
    } else {
      SpacedLonger(ws, c);
    }
  }

  lemma EscapeNone()
    ensures Escape("") == ""
  {
  }

  lemma WordsNone()
    ensures WordsOf("") == [] && Spaced([]) == ""
  {
  }
}
