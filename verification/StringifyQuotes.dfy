/** Blanks inside string literals and character constants of an argument: C keeps them, # collapses them. */
module StringifyQuotes {
  import opened Options
  import opened CondExpr
  import opened Stringify
  import opened StringifyTheorem

  /** Whether the text so far ends inside a literal, and whether a backslash there escapes what follows. */
  datatype Quote = Outside | Inside(mark: Mark, escaped: bool)

  datatype Mark = Single | Double

  function MarkChar(m: Mark): char {
    if m == Single then '\'' else '"'
  }

  function Read(q: Quote, c: char): Quote {
    match q
    case Outside => if c == MarkChar(Double) then Inside(Double, false) else if c == MarkChar(Single) then Inside(Single, false) else Outside
    case Inside(k, esc) =>
      if esc then Inside(k, false)
      else if c == '\\' then Inside(k, true)
      else if c == MarkChar(k) then Outside
      else q
  }

  function QuoteAfter(t: string): Quote {
    if t == "" then Outside else Read(QuoteAfter(t[..|t| - 1]), t[|t| - 1])
  }

  /** The spelling so far, and whether blanks between tokens wait for the next token. */
  datatype Spelt = Spelt(text: string, pending: bool)

  function Spell(t: string): Spelt {
    if t == "" then Spelt("", false)
    else
      var n := |t| - 1;
      var s, c := Spell(t[..n]), t[n];
      if IsBlank(c) && QuoteAfter(t[..n]).Outside? then Spelt(s.text, s.text != "")
      else Spelt((if s.pending then s.text + " " else s.text) + [c], false)
  }

  /** The spelling of section 6.10.3.2 of ISO/IEC 9899:1999: runs of blanks between tokens become one space,
      those at the ends go, and literals keep theirs. */
  function Spelled(arg: string): string {
    Spell(arg).text
  }

  /** A blank inside a literal at i. */
  predicate QuotedBlank(t: string, i: nat)
    requires i < |t|
  {
    IsBlank(t[i]) && QuoteAfter(t[..i]).Inside?
  }

  predicate BlankAt(t: string, i: int) {
    0 <= i < |t| && IsBlank(t[i])
  }

  /** Every run of blanks inside a literal is one space, and the argument does not end in it. */
  predicate Gentle(t: string) {
    forall i :: 0 <= i < |t| && QuotedBlank(t, i) ==> t[i] == ' ' && !BlankAt(t, i - 1) && i + 1 < |t|
  }

  /** The same, except for the end. */
  predicate Mild(t: string) {
    forall i :: 0 <= i < |t| ==> MildAt(t, i)
  }

  predicate MildAt(t: string, i: nat)
    requires i < |t|
  {
    QuotedBlank(t, i) ==> t[i] == ' ' && !BlankAt(t, i - 1)
  }

  /** How many quoted blanks follow another blank. */
  function Extra(t: string): nat {
    if t == "" then 0
    else
      var n := |t| - 1;
      Extra(t[..n]) + if QuotedBlank(t, n) && BlankAt(t, n - 1) then 1 else 0
  }

  // ---------------------------------------------------------------- one more character

  lemma SpellLast(t: string, c: char)
    ensures QuoteAfter(t + [c]) == Read(QuoteAfter(t), c)
    ensures Spell(t + [c]) ==
      var s := Spell(t);
      if IsBlank(c) && QuoteAfter(t).Outside? then Spelt(s.text, s.text != "")
      else Spelt((if s.pending then s.text + " " else s.text) + [c], false)
    ensures Extra(t + [c]) == Extra(t) + if IsBlank(c) && QuoteAfter(t).Inside? && t != "" && IsBlank(t[|t| - 1]) then 1 else 0
  {
    assert (t + [c])[..|t|] == t;
  }

  lemma CollectedLast(t: string, c: char)
    ensures Collected(t + [c]) == if !IsBlank(c) then Collected(t) + [c] else if BlankBefore(t) then Collected(t) else Collected(t) + " "
    ensures WordsOf(t + [c]) == [] <==> WordsOf(t) == [] && IsBlank(c)
  {
    hide WordsOf, Spaced, Collected;
    WordsLast(t, c);
    CollectedIs(t);
    CollectedIs(t + [c]);
    var ws := WordsOf(t);
    if !IsBlank(c) {
      if BlankBefore(t) {
        SpacedMore(ws, [c]);
        assert "" + [c] == [c];
      } else {
        SpacedLonger(ws, c);
      }
    }
  }

  lemma MildLast(t: string, c: char)
    ensures Mild(t + [c]) <==> Mild(t) && MildNext(t, c)
  {
    hide QuotedBlank, QuoteAfter;
    var u := t + [c];
    forall i | 0 <= i < |u| ensures MildAt(u, i) <==> if i < |t| then MildAt(t, i) else MildNext(t, c) { SameAt(t, c, i); }
    hide MildAt, MildNext;
    if Mild(u) {
      forall i | 0 <= i < |t| ensures MildAt(t, i) { assert MildAt(u, i); }
      assert MildAt(u, |t|);
    }
  }

  predicate MildNext(t: string, c: char) {
    IsBlank(c) && QuoteAfter(t).Inside? ==> c == ' ' && (t != "" ==> !IsBlank(t[|t| - 1]))
  }

  lemma SameAt(t: string, c: char, i: nat)
    requires i <= |t|
    ensures MildAt(t + [c], i) <==> if i < |t| then MildAt(t, i) else MildNext(t, c)
  {
    hide QuoteAfter;
    var u := t + [c];
    assert u[..i] == t[..i];
  }

  function Waiting(s: Spelt): string {
    if s.pending then s.text + " " else s.text
  }

  ghost predicate Tracks(t: string) {
    var s := Spell(t);
    && (s.text == "" <==> WordsOf(t) == [])
    && (s.pending <==> BlankBefore(t) && QuoteAfter(t).Outside? && WordsOf(t) != [])
    && (QuoteAfter(t).Inside? ==> WordsOf(t) != [])
    && |Waiting(s)| == |Collected(t)| + Extra(t)
    && (Mild(t) ==> Waiting(s) == Collected(t))
  }

  /** The two spellings side by side. */
  lemma {:induction false} SpellTracks(t: string)
    ensures Tracks(t)
    decreases |t|
  {
    if t == "" {
      WordsNone();
      CollectedIs(t);
    } else {
      var before, c := t[..|t| - 1], t[|t| - 1];
      SpellTracks(before);
      assert t == before + [c];
      if IsBlank(c) && QuoteAfter(before).Outside? { TrackGap(before, c); }
      else if IsBlank(c) { TrackQuoted(before, c); }
      else { TrackChar(before, c); }
    }
  }

  lemma TrackGap(t: string, c: char)
    requires Tracks(t) && IsBlank(c) && QuoteAfter(t).Outside?
    ensures Tracks(t + [c])
  {
    hide WordsOf, Collected, Spell, QuoteAfter, Mild, Extra;
    SpellLast(t, c);
    CollectedLast(t, c);
    CollectedIs(t);
    MildLast(t, c);
    var s, u := Spell(t), t + [c];
    assert BlankBefore(u) && QuoteAfter(u).Outside?;
    assert WordsOf(u) == [] <==> WordsOf(t) == [];
    assert Waiting(Spell(u)) == if BlankBefore(t) then Waiting(s) else Waiting(s) + " ";
    assert Extra(u) == Extra(t);
  }

  lemma TrackQuoted(t: string, c: char)
    requires Tracks(t) && IsBlank(c) && QuoteAfter(t).Inside?
    ensures Tracks(t + [c])
  {
    assert t != "";
    hide WordsOf, Collected, Spell, QuoteAfter, Mild, Extra, Read;
    SpellLast(t, c);
    QuoteStays(QuoteAfter(t), c);
    CollectedLast(t, c);
    CollectedIs(t);
    MildLast(t, c);
    assert Waiting(Spell(t + [c])) == Waiting(Spell(t)) + [c];
  }

  lemma QuoteStays(q: Quote, c: char)
    requires IsBlank(c)
    ensures Read(q, c).Inside? <==> q.Inside?
  {
  }

  lemma TrackChar(t: string, c: char)
    requires Tracks(t) && !IsBlank(c)
    ensures Tracks(t + [c])
  {
    hide WordsOf, Collected, Spell, QuoteAfter, Mild, Extra, Read;
    SpellLast(t, c);
    CollectedLast(t, c);
    CollectedIs(t);
    MildLast(t, c);
    assert Waiting(Spell(t + [c])) == Waiting(Spell(t)) + [c];
  }

  /** A quoted character is spelt as it is. */
  lemma {:induction false} QuotedKept(t: string, i: nat)
    requires i < |t| && QuoteAfter(t[..i]).Inside?
    ensures t[i] in Spelled(t)
    decreases |t|
  {
    var n := |t| - 1;
    if i < n {
      assert t[..n][..i] == t[..i];
      QuotedKept(t[..n], i);
    }
  }

  lemma {:induction false} SpacedBlanks(ws: seq<string>)
    requires forall i :: 0 <= i < |ws| ==> NoBlanks(ws[i])
    ensures '\t' !in Spaced(ws)
    decreases |ws|
  {
    if |ws| > 1 { SpacedBlanks(ws[..|ws| - 1]); }
    if ws != [] { assert NoBlanks(ws[|ws| - 1]); }
  }

  /** Some quoted blank follows another exactly if the count says so. */
  lemma {:induction false} ExtraCounts(t: string)
    ensures Extra(t) > 0 <==> exists i :: 0 < i < |t| && QuotedBlank(t, i) && BlankAt(t, i - 1)
    decreases |t|
  {
    if t != "" {
      var n := |t| - 1;
      var u := t[..n];
      ExtraCounts(u);
      hide QuoteAfter, Extra, QuotedBlank, BlankAt;
      forall i | 0 <= i < n ensures QuotedBlank(u, i) == QuotedBlank(t, i) && BlankAt(u, i - 1) == BlankAt(t, i - 1) { PrefixSame(t, i, n); }
      ExtraLast(t);
      assert !BlankAt(t, -1) by { NotBefore(t); }
    }
  }

  lemma PrefixSame(t: string, i: nat, n: nat)
    requires i < n <= |t|
    ensures QuotedBlank(t[..n], i) == QuotedBlank(t, i) && BlankAt(t[..n], i - 1) == BlankAt(t, i - 1)
  {
    hide QuoteAfter;
    assert t[..n][..i] == t[..i];
  }

  lemma NotBefore(t: string)
    ensures !BlankAt(t, -1)
  {
  }

  lemma ExtraLast(t: string)
    requires t != ""
    ensures var n := |t| - 1; Extra(t) == Extra(t[..n]) + if QuotedBlank(t, n) && BlankAt(t, n - 1) then 1 else 0
  {
  }

  /** Collapsing every run of blanks gives C's spelling exactly if the literals of the argument hold single spaces only. */
  lemma SpellingExact(arg: string)
    ensures Spaced(WordsOf(arg)) == Spelled(arg) <==> Gentle(arg)
  {
    if Gentle(arg) { GentleSpelt(arg); } else { RoughSpelt(arg); }
  }

  lemma GentleSpelt(arg: string)
    requires Gentle(arg)
    ensures Spaced(WordsOf(arg)) == Spelled(arg)
  {
    SpellTracks(arg);
    CollectedIs(arg);
    MildGentle(arg);
    if arg != "" && IsBlank(arg[|arg| - 1]) { EndsQuoted(arg); }
    hide WordsOf, Spaced, Collected, Spell, Extra, QuoteAfter, Mild, QuotedBlank, Gentle;
    var x, w := Spell(arg), Spaced(WordsOf(arg));
    WordsNone();
    if x.pending {
      assert x.text == (x.text + " ")[..|x.text|] && w == (w + " ")[..|w|];
    }
  }

  lemma MildGentle(arg: string)
    requires Gentle(arg)
    ensures Mild(arg)
    ensures arg != "" ==> !QuotedBlank(arg, |arg| - 1)
  {
    hide QuotedBlank, BlankAt;
    forall i | 0 <= i < |arg| ensures MildAt(arg, i) { }
  }

  lemma RoughSpelt(arg: string)
    requires !Gentle(arg)
    ensures Spaced(WordsOf(arg)) != Spelled(arg)
  {
    SpellTracks(arg);
    CollectedIs(arg);
    var gaps := HasLayout(arg);
    SpacedBlanks(WordsOf(arg));
    hide WordsOf, Spaced, Collected, Spell, Extra, QuoteAfter;
    var i :| 0 <= i < |arg| && QuotedBlank(arg, i) && !(arg[i] == ' ' && !BlankAt(arg, i - 1) && i + 1 < |arg|);
    if arg[i] == '\t' {
      QuotedKept(arg, i);
    } else if BlankAt(arg, i - 1) {
      ExtraCounts(arg);
      assert Extra(arg) > 0;
    } else {
      EndsQuoted(arg);
    }
  }

  /** A final blank is quoted if the argument ends inside a literal. */
  lemma EndsQuoted(t: string)
    requires t != "" && IsBlank(t[|t| - 1])
    ensures QuotedBlank(t, |t| - 1) <==> QuoteAfter(t).Inside?
  {
  }

  /** The literal that # makes reads as C's spelling of the argument exactly if the literals inside the argument
      hold single spaces only. */
  lemma QuotedBlanksExact(arg: string)
    requires Clean(arg)
    ensures Literal(Stringified(arg), 0) == Some((Spelled(arg), |Stringified(arg)|)) <==> Gentle(arg)
  {
    hide *;
    RoundTrip(arg);
    SpellingExact(arg);
  }

  // ---------------------------------------------------------------- backslashes outside literals

  /** C escapes every double quote, but backslashes only inside literals. */
  function EscapeStandard(t: string): string {
    if t == "" then ""
    else
      var n := |t| - 1;
      var c := t[n];
      EscapeStandard(t[..n]) + if c == '"' || (c == '\\' && QuoteAfter(t[..n]).Inside?) then ['\\', c] else [c]
  }

  /** The literal that section 6.10.3.2 makes of the argument. */
  function StandardLiteral(arg: string): string {
    "\"" + EscapeStandard(Spelled(arg)) + "\""
  }

  function Slashes(t: string): nat {
    if t == "" then 0 else Slashes(t[..|t| - 1]) + if t[|t| - 1] == '\\' then 1 else 0
  }

  function Quotes(t: string): nat {
    if t == "" then 0 else Quotes(t[..|t| - 1]) + if t[|t| - 1] == '"' then 1 else 0
  }

  /** Backslashes outside literals. */
  function Bare(t: string): nat {
    if t == "" then 0
    else Bare(t[..|t| - 1]) + if t[|t| - 1] == '\\' && QuoteAfter(t[..|t| - 1]).Outside? then 1 else 0
  }

  lemma CountLast(t: string, c: char)
    ensures Slashes(t + [c]) == Slashes(t) + if c == '\\' then 1 else 0
    ensures Quotes(t + [c]) == Quotes(t) + if c == '"' then 1 else 0
    ensures Bare(t + [c]) == Bare(t) + if c == '\\' && QuoteAfter(t).Outside? then 1 else 0
    ensures EscapeStandard(t + [c]) == EscapeStandard(t) + if c == '"' || (c == '\\' && QuoteAfter(t).Inside?) then ['\\', c] else [c]
  {
    assert (t + [c])[..|t|] == t;
  }

  lemma {:induction false} SlashesAppend(t: string, u: string)
    ensures Slashes(t + u) == Slashes(t) + Slashes(u)
    decreases |u|
  {
    if u == "" {
      assert t + u == t;
    } else {
      var n := |u| - 1;
      SlashesAppend(t, u[..n]);
      assert t + u == (t + u[..n]) + [u[n]] && u == u[..n] + [u[n]];
      hide Slashes, Quotes, Bare, EscapeStandard;
      CountLast(t + u[..n], u[n]);
      CountLast(u[..n], u[n]);
    }
  }

  lemma FewSlashes()
    ensures Slashes("") == 0 && Slashes("\\\\") == 2 && Slashes("\\\"") == 1 && forall c :: c != '\\' ==> Slashes([c]) == 0
    ensures Slashes("\\") == 1
  {
    assert "\\\\"[..1] == "\\" && "\\\""[..1] == "\\";
    assert forall c: char :: [c][..0] == "";
  }

  /** How many backslashes each spelling ends up with. */
  lemma {:induction false} EscapedSlashes(t: string)
    ensures Slashes(Escape(t)) == 2 * Slashes(t) + Quotes(t)
    ensures Slashes(EscapeStandard(t)) == 2 * Slashes(t) + Quotes(t) - Bare(t)
    ensures Bare(t) == 0 ==> EscapeStandard(t) == Escape(t)
    decreases |t|
  {
    FewSlashes();
    if t != "" {
      var b, c := t[..|t| - 1], t[|t| - 1];
      EscapedSlashes(b);
      assert t == b + [c];
      hide Slashes, Quotes, Bare, EscapeStandard, Escape, QuoteAfter;
      CountLast(b, c);
      EscapeLast(b, c);
      SlashesAppend(Escape(b), EscapeChar(c));
      SlashesAppend(EscapeStandard(b), if c == '"' || (c == '\\' && QuoteAfter(b).Inside?) then ['\\', c] else [c]);
    }
  }

  lemma EndsWith(p: string, c: char)
    ensures var e := p + EscapeChar(c); e != "" && e[|e| - 1] == c
  {
  }

  lemma CutEnd(p: string, q: string, x: string)
    requires p + x == q + x
    ensures p == q
  {
    assert |p + x| == |q + x|;
    assert p == (p + x)[..|p|] && q == (q + x)[..|q|];
  }

  lemma SplitEnd(p: string, c: char, q: string, d: char)
    requires p + EscapeChar(c) == q + EscapeChar(d)
    ensures c == d && p == q
  {
    hide EscapeChar;
    EndsWith(p, c);
    EndsWith(q, d);
    CutEnd(p, q, EscapeChar(c));
  }

  lemma FrontEqual(a: string, c: char, b: string, d: char)
    requires Escape(a + [c]) == Escape(b + [d])
    ensures c == d && Escape(a) == Escape(b)
  {
    hide Escape, EscapeChar;
    EscapeLast(a, c);
    EscapeLast(b, d);
    SplitEnd(Escape(a), c, Escape(b), d);
  }

  lemma {:induction false} EscapeInjective(t: string, u: string)
    requires Escape(t) == Escape(u)
    ensures t == u
    decreases |t|
  {
    if t != "" && u != "" {
      var a, b := t[..|t| - 1], u[..|u| - 1];
      var c, d := t[|t| - 1], u[|u| - 1];
      assert t == a + [c] && u == b + [d];
      hide Escape;
      FrontEqual(a, c, b, d);
      EscapeInjective(a, b);
    }
  }

  /** Collapsing blanks, whether C's way or the other, keeps all other characters, and literals where they are. */
  ghost predicate SameMarks(t: string) {
    var s, w := Spell(t), Collected(t);
    && Slashes(s.text) == Slashes(t) == Slashes(w) && Quotes(s.text) == Quotes(t) == Quotes(w)
    && Bare(s.text) == Bare(t) && QuoteAfter(s.text) == QuoteAfter(t) && (s.pending ==> QuoteAfter(t).Outside?)
  }

  lemma {:induction false} MarksKept(t: string)
    ensures SameMarks(t)
    decreases |t|
  {
    if t == "" {
      WordsNone();
      CollectedIs(t);
    } else {
      var b, c := t[..|t| - 1], t[|t| - 1];
      MarksKept(b);
      assert t == b + [c];
      MarksSpelt(b, c);
      MarksCollected(b, c);
    }
  }

  lemma MarksSpelt(b: string, c: char)
    requires SameMarks(b)
    ensures var s, t := Spell(b + [c]), b + [c];
      && Slashes(s.text) == Slashes(t) && Quotes(s.text) == Quotes(t) && Bare(s.text) == Bare(t) && QuoteAfter(s.text) == QuoteAfter(t)
      && (s.pending ==> QuoteAfter(t).Outside?)
  {
    hide Slashes, Quotes, Bare, EscapeStandard, QuoteAfter, Spell, Collected;
    SpellLast(b, c);
    CountLast(b, c);
    var x := Spell(b).text;
    var y := if Spell(b).pending then x + [' '] else x;
    CountLast(x, ' ');
    SpellLast(x, ' ');
    CountLast(y, c);
    SpellLast(y, c);
  }

  lemma MarksCollected(b: string, c: char)
    requires SameMarks(b)
    ensures Slashes(Collected(b + [c])) == Slashes(b + [c]) && Quotes(Collected(b + [c])) == Quotes(b + [c])
  {
    hide Slashes, Quotes, Bare, EscapeStandard, QuoteAfter, Spell, Collected;
    CollectedLast(b, c);
    CountLast(b, c);
    CountLast(Collected(b), c);
    CountLast(Collected(b), ' ');
  }

  lemma SpacedMarks(t: string)
    requires SameMarks(t)
    ensures Slashes(Spaced(WordsOf(t))) == Slashes(t) && Quotes(Spaced(WordsOf(t))) == Quotes(t)
  {
    hide Slashes, Quotes, Bare, EscapeStandard, QuoteAfter, Spell, Collected, WordsOf, Spaced;
    CollectedIs(t);
    var w := Spaced(WordsOf(t));
    CountLast(w, ' ');
    WordsNone();
    assert w + [' '] == w + " ";
    NoMarks();
  }

  lemma NoMarks()
    ensures Slashes("") == 0 && Quotes("") == 0
  {
  }

  /** # makes the very literal that C makes exactly if the literals inside the argument hold single spaces only and
      no backslash stands outside them. */
  lemma LiteralExact(arg: string)
    ensures Stringified(arg) == StandardLiteral(arg) <==> Gentle(arg) && Bare(arg) == 0
  {
    MarksKept(arg);
    SpacedMarks(arg);
    SpellingExact(arg);
    var w, c := Spaced(WordsOf(arg)), Spelled(arg);
    EscapedSlashes(w);
    EscapedSlashes(c);
    hide Slashes, Quotes, Bare, EscapeStandard, QuoteAfter, Collected, WordsOf, Spaced, Escape, Spell, Gentle;
    var e, f := Escape(w), EscapeStandard(c);
    if Stringified(arg) == StandardLiteral(arg) {
      assert e == ("\"" + e + "\"")[1..|e| + 1] && f == ("\"" + f + "\"")[1..|f| + 1];
      assert e == f;
      EscapeInjective(w, c);
    }
  }

  /** A bare backslash before n: a newline for C, here a backslash and an n. */
  lemma BareBackslash()
    ensures var arg := "\\n"; Literal(StandardLiteral(arg), 0) == Some(("\n", 4)) && Literal(Stringified(arg), 0) == Some(("\\n", 5))
  {
    BareSpelt();
    BareDecoded();
    BareKept();
  }

  lemma BareKept()
    ensures Literal(Stringified("\\n"), 0) == Some(("\\n", 5))
  {
    var arg := "\\n";
    BareWords();
    hide WordsOf, Spaced;
    RoundTrip(arg);
    hide Literal, Escape;
    EscapeLast("", '\\');
    EscapeLast("\\", 'n');
    EscapeNone();
    assert "" + ['\\'] == "\\" && "\\" + ['n'] == arg;
  }

  lemma BareWords()
    ensures Spaced(WordsOf("\\n")) == "\\n"
  {
    TwoWords('\\', 'n');
    assert "\\n" == ['\\', 'n'];
  }

  lemma TwoWords(c: char, d: char)
    requires !IsBlank(c) && !IsBlank(d)
    ensures Spaced(WordsOf([c, d])) == [c, d]
  {
    WordsNone();
    assert Spaced([[c, d]]) == [c, d];
    hide WordsOf, Spaced;
    WordsLast("", c);
    WordsLast([c], d);
    assert "" + [c] == [c] && [c] + [d] == [c, d];
    assert [[c]][0 := [c, d]] == [[c, d]];
  }

  lemma BareSpelt()
    ensures StandardLiteral("\\n") == "\"\\n\""
  {
    var arg := "\\n";
    assert QuoteAfter("") == Outside && QuoteAfter("\\") == Outside;
    SpellLast("", '\\');
    SpellLast("\\", 'n');
    assert Spell("\\") == Spelt("\\", false) && Spell(arg) == Spelt(arg, false);
    CountLast("", '\\');
    CountLast("\\", 'n');
    assert "" + ['\\'] == "\\" && "\\" + ['n'] == arg;
  }

  lemma BareDecoded()
    ensures Literal("\"\\n\"", 0) == Some(("\n", 4))
  {
    var s := "\"\\n\"";
    assert Decode(s, 3) == Some(("", 4));
    assert Escaped(s, 1) == Some(('\n', 3));
    assert ['\n'] + "" == "\n";
    hide Escaped;
    assert Decode(s, 1) == Prepend('\n', Decode(s, 3));
  }

  /** "a  b" in quotes: two blanks in C, one here. */
  lemma LiteralBlanksLost()
    ensures var arg := "\"a  b\""; Spelled(arg) == arg && Literal(Stringified(arg), 0) == Some(("\"a b\"", |Stringified(arg)|))
  {
    var arg := "\"a  b\"";
    hide WordsOf, Spaced, Literal, Escape, Spell;
    SpelledExample();
    var ws, gaps := ["\"a", "b\""], ["", "  ", ""];
    assert ws[..1] == ["\"a"] && gaps[..2] == ["", "  "];
    assert ["\"a"][..0] == [] && ["", "  "][..1] == [""];
    assert Laid([], [""]) == "";
    assert Laid(["\"a"], ["", "  "]) == "\"a  ";
    assert Laid(ws, gaps) == arg;
    SpacedTwo("\"a", "b\"");
    assert Clean(arg);
    RoundTripWords(ws, gaps);
    assert Spaced(ws) == "\"a b\"";
  }

  lemma SpelledExample()
    ensures Spelled("\"a  b\"") == "\"a  b\""
  {
    assert Spell("") == Spelt("", false) && QuoteAfter("") == Outside;
    hide Spell, QuoteAfter;
    Opens("", '"');
    assert "" + ['"'] == "\"";
    Goes("\"", 'a');
    assert "\"" + ['a'] == "\"a";
    Goes("\"a", ' ');
    assert "\"a" + [' '] == "\"a ";
    Goes("\"a ", ' ');
    assert "\"a " + [' '] == "\"a  ";
    Goes("\"a  ", 'b');
    assert "\"a  " + ['b'] == "\"a  b";
    Goes("\"a  b", '"');
    assert "\"a  b" + ['"'] == "\"a  b\"";
  }

  /** Outside a literal nothing waits, and a quote opens one. */
  lemma Opens(t: string, c: char)
    requires Spell(t) == Spelt(t, false) && QuoteAfter(t).Outside? && c == '"'
    ensures Spell(t + [c]) == Spelt(t + [c], false) && QuoteAfter(t + [c]) == Inside(Double, false)
  {
    hide Spell, QuoteAfter;
    SpellLast(t, c);
  }

  /** Inside, all but the backslash and the quote just go on. */
  lemma Goes(t: string, c: char)
    requires Spell(t) == Spelt(t, false) && QuoteAfter(t) == Inside(Double, false)
    ensures Spell(t + [c]) == Spelt(t + [c], false)
    ensures c != '"' && c != '\\' ==> QuoteAfter(t + [c]) == Inside(Double, false)
  {
    hide Spell, QuoteAfter;
    SpellLast(t, c);
  }

  lemma SpacedTwo(a: string, b: string)
    ensures Spaced([a, b]) == a + " " + b
  {
    assert [a, b][..1] == [a];
  }
}
