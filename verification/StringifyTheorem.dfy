/** Lexing what # produces gives back the argument with its blanks collapsed (section 6.10.3.2 of
    ISO/IEC 9899:1999). */
module StringifyTheorem {
  import opened Options
  import opened CondExpr
  import opened Stringify

  // ---------------------------------------------------------------- words

  predicate NoBlanks(w: string) {
    forall i :: 0 <= i < |w| ==> !IsBlank(w[i])
  }

  predicate AllBlank(g: string) {
    forall i :: 0 <= i < |g| ==> IsBlank(g[i])
  }

  /** Words with gaps around them. */
  function Laid(ws: seq<string>, gaps: seq<string>): string
    requires |gaps| == |ws| + 1
  {
    if ws == [] then gaps[0]
    else var n := |ws| - 1; Laid(ws[..n], gaps[..n + 1]) + ws[n] + gaps[n + 1]
  }

  predicate IsLayout(ws: seq<string>, gaps: seq<string>) {
    && |gaps| == |ws| + 1
    && (forall i :: 0 <= i < |ws| ==> ws[i] != "" && NoBlanks(ws[i]))
    && (forall i :: 0 <= i < |gaps| ==> AllBlank(gaps[i]))
    && (forall i :: 0 < i < |ws| ==> gaps[i] != "")
  }

  lemma {:induction false} WordsBlanks(t: string, g: string)
    requires AllBlank(g)
    ensures WordsOf(t + g) == WordsOf(t)
    decreases |g|
  {
    if g == "" {
      assert t + g == t;
    } else {
      var n := |g| - 1;
      WordsBlanks(t, g[..n]);
      assert t + g == (t + g[..n]) + [g[n]];
      WordsLast(t + g[..n], g[n]);
    }
  }

  /** A word after a blank, or at the start, is a word of its own. */
  lemma {:induction false} WordsWord(t: string, w: string)
    requires w != "" && NoBlanks(w) && BlankBefore(t)
    ensures WordsOf(t + w) == WordsOf(t) + [w]
    decreases |w|
  {
    hide WordsOf;
    var n := |w| - 1;
    if n == 0 {
      assert w == [w[0]];
      WordsLast(t, w[0]);
    } else {
      WordsWord(t, w[..n]);
      var u := t + w[..n];
      assert t + w == u + [w[n]];
      assert u[|u| - 1] == w[n - 1];
      WordsLast(u, w[n]);
      var ws := WordsOf(t);
      assert (ws + [w[..n]])[|ws| := w[..n] + [w[n]]] == ws + [w] by { assert w[..n] + [w[n]] == w; }
    }
  }

  lemma {:induction false} WordsOfLayout(ws: seq<string>, gaps: seq<string>)
    requires IsLayout(ws, gaps)
    ensures WordsOf(Laid(ws, gaps)) == ws
    decreases |ws|
  {
    if ws == [] {
      WordsBlanks("", gaps[0]);
      assert "" + gaps[0] == gaps[0];
      WordsNone();
    } else {
      var n := |ws| - 1;
      var a, g := ws[..n], gaps[..n + 1];
      WordsOfLayout(a, g);
      var t := Laid(a, g);
      LaidBlank(a, g);
      WordsWord(t, ws[n]);
      WordsBlanks(t + ws[n], gaps[n + 1]);
      assert a + [ws[n]] == ws;
    }
  }

  lemma LaidBlank(ws: seq<string>, gaps: seq<string>)
    requires IsLayout(ws, gaps) && (ws != [] ==> gaps[|ws|] != "")
    ensures BlankBefore(Laid(ws, gaps))
  {
    var t := Laid(ws, gaps);
    var g := gaps[|ws|];
    if t != "" {
      assert g != "" ==> t[|t| - 1] == g[|g| - 1];
    }
  }

  /** Every text is a layout of its words. */
  lemma {:induction false} HasLayout(t: string) returns (gaps: seq<string>)
    ensures IsLayout(WordsOf(t), gaps) && Laid(WordsOf(t), gaps) == t
    ensures gaps[|gaps| - 1] == "" <==> t == "" || !IsBlank(t[|t| - 1])
    decreases |t|
  {
    if t == "" {
      gaps := [""];
    } else {
      var n := |t| - 1;
      var before, c := t[..n], t[n];
      var g := HasLayout(before);
      assert t == before + [c];
      WordsLast(before, c);
      var ws := WordsOf(before);
      var last := |g| - 1;
      if IsBlank(c) {
        gaps := g[last := g[last] + [c]];
        GapMore(ws, g, c);
      } else if before == "" || IsBlank(before[n - 1]) || ws == [] {
        gaps := g + [""];
        WordMore(ws, g, c);
      } else {
        gaps := g;
        WordLonger(ws, g, c);
      }
    }
  }

  lemma GapMore(ws: seq<string>, g: seq<string>, c: char)
    requires IsLayout(ws, g) && IsBlank(c)
    ensures var h := g[|g| - 1 := g[|g| - 1] + [c]]; IsLayout(ws, h) && Laid(ws, h) == Laid(ws, g) + [c]
  {
    var last := |g| - 1;
    var h := g[last := g[last] + [c]];
    if ws != [] { assert h[..last] == g[..last]; }
  }

  lemma WordMore(ws: seq<string>, g: seq<string>, c: char)
    requires IsLayout(ws, g) && !IsBlank(c) && (ws != [] ==> g[|g| - 1] != "")
    ensures IsLayout(ws + [[c]], g + [""]) && Laid(ws + [[c]], g + [""]) == Laid(ws, g) + [c]
  {
    assert (ws + [[c]])[..|ws|] == ws && (g + [""])[..|g|] == g;
    assert (g + [""])[|g|] == "";
  }

  lemma WordLonger(ws: seq<string>, g: seq<string>, c: char)
    requires IsLayout(ws, g) && !IsBlank(c) && ws != [] && g[|g| - 1] == ""
    ensures var vs := ws[|ws| - 1 := ws[|ws| - 1] + [c]]; IsLayout(vs, g) && Laid(vs, g) == Laid(ws, g) + [c]
  {
    var n := |ws| - 1;
    var vs := ws[n := ws[n] + [c]];
    assert vs[..n] == ws[..n];
    var a := Laid(ws[..n], g[..n + 1]);
    assert a + (ws[n] + [c]) + "" == (a + ws[n] + "") + [c];
  }

  // ---------------------------------------------------------------- decoding what was escaped

  lemma {:induction false} EscapeFront(c: char, t: string)
    ensures Escape([c] + t) == EscapeChar(c) + Escape(t)
    decreases |t|
  {
    hide Escape, EscapeChar;
    if t == "" {
      assert [c] + t == [] + [c];
      EscapeLast("", c);
      EscapeNone();
    } else {
      var n := |t| - 1;
      EscapeFront(c, t[..n]);
      assert [c] + t == ([c] + t[..n]) + [t[n]];
      EscapeLast([c] + t[..n], t[n]);
      EscapeLast(t[..n], t[n]);
      assert t[..n] + [t[n]] == t;
    }
  }

  predicate Clean(t: string) {
    '\n' !in t && '\0' !in t
  }

  /** The escaped text of t stands at i, and the closing quote after it. */
  predicate Ahead(s: string, i: nat, t: string) {
    i + |Escape(t)| < |s| && s[i..i + |Escape(t)|] == Escape(t) && s[i + |Escape(t)|] == '"'
  }

  lemma {:induction false} DecodeEscaped(s: string, i: nat, t: string)
    requires Ahead(s, i, t)
    ensures Decode(s, i) == if Clean(t) then Some((t, i + |Escape(t)| + 1)) else None
    decreases |t|
  {
    hide Escape, EscapeChar, Decode, Clean;
    if t == "" {
      EscapeNone();
      DecodeQuote(s, i);
    } else {
      var c, rest := t[0], t[1..];
      assert t == [c] + rest;
      EscapeFront(c, rest);
      var e := EscapeChar(c);
      AheadParts(s, i, e, Escape(rest));
      DecodeEscaped(s, i + |e|, rest);
      DecodeOne(s, i, c);
      CleanFront(c, rest);
    }
  }

  lemma DecodeQuote(s: string, i: nat)
    requires i < |s| && s[i] == '"'
    ensures Decode(s, i) == Some(("", i + 1)) && Clean("")
  {
  }

  lemma CleanFront(c: char, rest: string)
    ensures Clean([c] + rest) <==> c != '\n' && c != '\0' && Clean(rest)
  {
  }

  lemma AheadParts(s: string, i: nat, e: string, r: string)
    requires i + |e + r| < |s| && s[i..i + |e + r|] == e + r && s[i + |e + r|] == '"'
    ensures s[i..i + |e|] == e && s[i + |e|..i + |e| + |r|] == r && s[i + |e| + |r|] == '"'
  {
    assert (e + r)[..|e|] == e && (e + r)[|e|..] == r;
    assert s[i..i + |e|] == s[i..i + |e + r|][..|e|];
    assert s[i + |e|..i + |e| + |r|] == s[i..i + |e + r|][|e|..];
  }

  /** One character, escaped or not. */
  lemma DecodeOne(s: string, i: nat, c: char)
    requires var e := EscapeChar(c); i + |e| <= |s| && s[i..i + |e|] == e
    ensures var j := i + |EscapeChar(c)|; Decode(s, i) == if c == '\n' || c == '\0' then None else Prepend(c, Decode(s, j))
  {
    var e := EscapeChar(c);
    assert s[i] == s[i..i + |e|][0];
    if |e| == 2 {
      assert s[i + 1] == s[i..i + |e|][1];
    }
  }

  // ---------------------------------------------------------------- the round trip

  lemma {:induction false} SpacedChars(ws: seq<string>, c: char)
    requires !IsBlank(c)
    ensures c in Spaced(ws) <==> exists i :: 0 <= i < |ws| && c in ws[i]
    decreases |ws|
  {
    if |ws| > 1 {
      var n := |ws| - 1;
      SpacedChars(ws[..n], c);
      if i :| 0 <= i < |ws| && c in ws[i] && i < n { assert ws[..n][i] == ws[i]; }
    }
  }

  lemma {:induction false} WordChars(t: string, c: char)
    requires !IsBlank(c)
    ensures c in Spaced(WordsOf(t)) <==> c in t
    decreases |t|
  {
    if t != "" {
      var n := |t| - 1;
      WordChars(t[..n], c);
      assert t == t[..n] + [t[n]];
      WordsLast(t[..n], t[n]);
      var ws := WordsOf(t[..n]);
      hide WordsOf, Spaced;
      if !IsBlank(t[n]) {
        if n == 0 || IsBlank(t[n - 1]) || ws == [] {
          SpacedMore(ws, [t[n]]);
          if ws == [] { WordsNone(); }
        } else {
          SpacedLonger(ws, t[n]);
        }
      }
    } else {
      WordsNone();
    }
  }

  /** Lexing the literal gives the argument with runs of blanks collapsed and its ends trimmed, whatever
      quotes and backslashes it holds; the lexer rejects it exactly if the argument has a newline or NUL. */
  lemma {:induction false} RoundTrip(arg: string)
    ensures Literal(Stringified(arg), 0) == if Clean(arg) then Some((Spaced(WordsOf(arg)), |Stringified(arg)|)) else None
  {
    var t := Spaced(WordsOf(arg));
    WordChars(arg, '\n');
    WordChars(arg, '\0');
    hide WordsOf, Spaced, Escape;
    var s := Stringified(arg);
    assert s[1..1 + |Escape(t)|] == Escape(t);
    DecodeEscaped(s, 1, t);
  }

  /** The same for an argument given as words and the blanks around them. */
  lemma {:induction false} RoundTripWords(ws: seq<string>, gaps: seq<string>)
    requires IsLayout(ws, gaps) && Clean(Laid(ws, gaps))
    ensures var s := Stringified(Laid(ws, gaps)); Literal(s, 0) == Some((Spaced(ws), |s|))
  {
    RoundTrip(Laid(ws, gaps));
    WordsOfLayout(ws, gaps);
  }
}
