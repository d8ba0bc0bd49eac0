/** What macro expansion sees as a name: text is written as pieces, and scanning gives the pieces back. */
module MacroTokens {
  import opened CondExpr
  import CondExprCorrect
  import CondExprPrint
  import opened MacroExpand
  import opened Numerals

  // ---------------------------------------------------------------- pieces of a line

  predicate Letter(c: char) {
    65 <= c as int <= 90 || 97 <= c as int <= 122 || c == '_'
  }

  predicate LetterOrDigit(c: char) {
    Letter(c) || 48 <= c as int <= 57
  }

  predicate Identifier(x: string) {
    x != "" && Letter(x[0]) && forall k :: 0 <= k < |x| ==> LetterOrDigit(x[k])
  }

  predicate Blanks(t: string) {
    forall k :: 0 <= k < |t| ==> t[k] == ' ' || t[k] == '\t'
  }

  /** No newline and no quote outside an escape. */
  predicate Body(t: string, quote: char) {
    t == "" ||
    (t[0] == '\\' && |t| >= 2 && Body(t[2..], quote)) ||
    (t[0] != '\\' && t[0] != quote && t[0] != '\n' && Body(t[1..], quote))
  }

  /** A literal, an identifier, any other character, or the operator defined with its operand, bare or in parentheses. */
  datatype Piece =
    | Quoted(quote: char, body: string)
    | Ident(x: string)
    | Symbol(c: char)
    | Operand(blanks: string, x: string)
    | Guarded(blanks: string, inner: string)

  function Spelling(g: Piece): string {
    match g
    case Quoted(q, body) => [q] + body + [q]
    case Ident(x) => x
    case Symbol(c) => [c]
    case Operand(b, x) => "defined" + b + x
    case Guarded(b, inner) => "defined" + b + "(" + inner + ")"
  }

  /** Only an identifier may be a macro. */
  function AsToken(g: Piece): Token {
    if g.Ident? then Name(g.x) else Text(Spelling(g))
  }

  /** d tells whether defined is a macro that may be replaced. */
  predicate PieceOk(g: Piece, d: bool) {
    match g
    case Quoted(q, body) => (q == '"' || q == '\'') && Body(body, q)
    case Ident(x) => Identifier(x) && (x == "defined" ==> d)
    case Symbol(c) => !Letter(c) && c != '"' && c != '\''
    case Operand(b, x) => !d && Blanks(b) && b != "" && Identifier(x)
    case Guarded(b, inner) => !d && Blanks(b) && forall k :: 0 <= k < |inner| ==> inner[k] != ')' && inner[k] != '\n'
  }

  /** No piece runs into the next: after an identifier no letter or digit follows. */
  predicate PiecesOk(gs: seq<Piece>, d: bool) {
    gs != [] ==>
      && PieceOk(gs[0], d) && PiecesOk(gs[1..], d)
      && ((gs[0].Ident? || gs[0].Operand?) && |gs| > 1 ==> Spelling(gs[1]) != "" && !LetterOrDigit(Spelling(gs[1])[0]))
  }

  function Spell(gs: seq<Piece>): string {
    if gs == [] then "" else Spelling(gs[0]) + Spell(gs[1..])
  }

  function AsTokens(gs: seq<Piece>): seq<Token> {
    if gs == [] then [] else [AsToken(gs[0])] + AsTokens(gs[1..])
  }

  // ---------------------------------------------------------------- runs

  lemma {:induction false} SpanIs(k: CharClass, s: string, i: nat, e: nat)
    requires i <= e <= |s| && (forall j :: i <= j < e ==> Is(k, s[j])) && (e < |s| ==> !Is(k, s[e]))
    ensures Span(k, s, i) == e
    decreases e - i
  {
    hide Is;
    if i < e { SpanIs(k, s, i + 1, e); }
  }

  lemma {:induction false} CloseIs(s: string, i: nat, e: nat)
    requires i <= e < |s| && s[e] == ')' && forall j :: i <= j < e ==> s[j] != ')' && s[j] != '\n'
    ensures CloseAt(s, i) == e + 1
    decreases e - i
  {
    if i < e { CloseIs(s, i + 1, e); }
  }

  /** Where t stands in s. */
  predicate Stands(s: string, i: nat, t: string) {
    i + |t| <= |s| && s[i..i + |t|] == t
  }

  lemma StandsAt(s: string, i: nat, t: string, k: nat)
    requires Stands(s, i, t) && k < |t|
    ensures s[i + k] == t[k]
  {
    assert s[i..i + |t|][k] == t[k];
  }

  lemma StandsParts(s: string, i: nat, a: string, b: string)
    requires Stands(s, i, a + b)
    ensures Stands(s, i, a) && Stands(s, i + |a|, b)
  {
    var t := s[i..i + |a + b|];
    assert s[i..i + |a|] == t[..|a|] && s[i + |a|..i + |a| + |b|] == t[|a|..];
  }

  lemma {:induction false} BodyEnd(s: string, i: nat, t: string, quote: char)
    requires Body(t, quote) && Stands(s, i, t) && At(s, i + |t|) == quote && (quote == '"' || quote == '\'')
    ensures LiteralEnd(s, i, quote) == i + |t| + 1 <= |s|
    decreases |t|
  {
    if t != "" {
      StandsAt(s, i, t, 0);
      var n := if t[0] == '\\' then 2 else 1;
      assert t[..n] + t[n..] == t;
      StandsParts(s, i, t[..n], t[n..]);
      hide Stands;
      BodyEnd(s, i + n, t[n..], quote);
    }
  }

  lemma WordEnd(s: string, i: nat, x: string)
    requires Identifier(x) && Stands(s, i, x) && !LetterOrDigit(At(s, i + |x|))
    ensures Span(CharClass.Word, s, i) == i + |x|
  {
    forall j | i <= j < i + |x|
      ensures Is(CharClass.Word, s[j])
    {
      StandsAt(s, i, x, j - i);
      assert LetterOrDigit(x[j - i]);
    }
    SpanIs(CharClass.Word, s, i, i + |x|);
  }

  lemma BlanksEnd(s: string, i: nat, t: string)
    requires Blanks(t) && Stands(s, i, t) && At(s, i + |t|) != ' ' && At(s, i + |t|) != '\t'
    ensures Skip(s, i) == i + |t|
  {
    forall j | i <= j < i + |t|
      ensures Is(Blank, s[j])
    {
      StandsAt(s, i, t, j - i);
      assert t[j - i] == ' ' || t[j - i] == '\t';
    }
    SpanIs(Blank, s, i, i + |t|);
  }

  // ---------------------------------------------------------------- one piece

  /** The piece g stands at i and is not run into by what follows. */
  predicate Here(s: string, i: nat, g: Piece, d: bool) {
    && PieceOk(g, d) && Stands(s, i, Spelling(g))
    && (g.Ident? || g.Operand? ==> !LetterOrDigit(At(s, i + |Spelling(g)|)))
  }

  predicate Scanned(s: string, i: nat, g: Piece, d: bool)
    requires i < |s|
  {
    TokenEnd(s, i, d) == i + |Spelling(g)| && TokenAt(s, i, d) == AsToken(g)
  }

  lemma QuotedScanned(s: string, i: nat, g: Piece, d: bool)
    requires g.Quoted? && Here(s, i, g, d) && i < |s|
    ensures Scanned(s, i, g, d)
  {
    var q, t := g.quote, g.body;
    StandsParts(s, i, [q] + t, [q]);
    StandsParts(s, i, [q], t);
    StandsAt(s, i, [q], 0);
    StandsAt(s, i + 1 + |t|, [q], 0);
    hide Body, LiteralEnd, TokenAt, TokenEnd;
    BodyEnd(s, i + 1, t, q);
    OtherToken(s, i, d);
  }

  lemma SymbolScanned(s: string, i: nat, g: Piece, d: bool)
    requires g.Symbol? && Here(s, i, g, d) && i < |s|
    ensures Scanned(s, i, g, d)
  {
    StandsAt(s, i, [g.c], 0);
    hide TokenAt, TokenEnd, LiteralEnd;
    OtherToken(s, i, d);
  }

  lemma IdentScanned(s: string, i: nat, g: Piece, d: bool)
    requires g.Ident? && Here(s, i, g, d) && i < |s|
    ensures Scanned(s, i, g, d)
  {
    StandsAt(s, i, g.x, 0);
    WordEnd(s, i, g.x);
    hide TokenAt, TokenEnd, DefinedEnd, Span;
    NameToken(s, i, d);
  }

  /** The word defined stands at i, followed by b, which ends before a character that is no blank. */
  lemma DefinedWord(s: string, i: nat, b: string, t: string, d: bool)
    requires Stands(s, i, "defined" + b + t) && Blanks(b) && t != "" && t[0] != ' ' && t[0] != '\t' && i < |s| && !d
    requires b == "" ==> !LetterOrDigit(t[0])
    ensures var p := i + 7 + |b|; Stands(s, p, t) && p < |s| && s[p] == t[0] && Skip(s, i + 7) == p
    ensures TokenEnd(s, i, d) == DefinedEnd(s, i + 7) && TokenAt(s, i, d) == Text(s[i..DefinedEnd(s, i + 7)])
  {
    var x := "defined";
    hide TokenAt, TokenEnd, DefinedEnd, Span, Skip;
    StandsParts(s, i, x + b, t);
    StandsParts(s, i, x, b);
    StandsAt(s, i + 7 + |b|, t, 0);
    if b != "" { StandsAt(s, i + 7, b, 0); assert b[0] == ' ' || b[0] == '\t'; }
    StandsAt(s, i, x, 0);
    BlanksEnd(s, i + 7, b);
    WordEnd(s, i, x);
    assert s[i..i + 7] == x;
    hide Stands;
    NameToken(s, i, d);
  }

  lemma OperandScanned(s: string, i: nat, g: Piece, d: bool)
    requires g.Operand? && Here(s, i, g, d) && i < |s|
    ensures Scanned(s, i, g, d)
  {
    hide TokenAt, TokenEnd, Span, Skip, DefinedEnd, Stands;
    var p := i + 7 + |g.blanks|;
    DefinedWord(s, i, g.blanks, g.x, d);
    WordEnd(s, p, g.x);
    BareOperand(s, i + 7, p, g.x);
    StandsText(s, i, Spelling(g));
  }

  lemma BareOperand(s: string, i: nat, p: nat, x: string)
    requires i <= |s| && Skip(s, i) == p && p < |s| && Identifier(x) && s[p] == x[0] && Span(CharClass.Word, s, p) == p + |x|
    ensures DefinedEnd(s, i) == p + |x|
  {
    hide Skip, Span;
    assert Letter(s[p]);
  }

  lemma StandsText(s: string, i: nat, t: string)
    requires Stands(s, i, t)
    ensures i + |t| <= |s| && s[i..i + |t|] == t
  {
  }

  lemma GuardedScanned(s: string, i: nat, g: Piece, d: bool)
    requires g.Guarded? && Here(s, i, g, d) && i < |s|
    ensures Scanned(s, i, g, d)
  {
    hide TokenAt, TokenEnd, Span, Skip, CloseAt, DefinedEnd, Stands;
    var p, t := i + 7 + |g.blanks|, "(" + g.inner + ")";
    assert Spelling(g) == "defined" + g.blanks + t;
    DefinedWord(s, i, g.blanks, t, d);
    GuardedOperand(s, i + 7, p, g.inner);
    StandsText(s, i, Spelling(g));
  }

  lemma GuardedOperand(s: string, i: nat, p: nat, inner: string)
    requires i <= |s| && Skip(s, i) == p && p < |s| && Stands(s, p, "(" + inner + ")")
    requires forall k :: 0 <= k < |inner| ==> inner[k] != ')' && inner[k] != '\n'
    ensures DefinedEnd(s, i) == p + |inner| + 2
  {
    hide Skip, CloseAt;
    StandsParts(s, p, "(" + inner, ")");
    StandsParts(s, p, "(", inner);
    StandsAt(s, p, "(", 0);
    StandsAt(s, p + 1 + |inner|, ")", 0);
    forall j | p + 1 <= j < p + 1 + |inner|
      ensures s[j] != ')' && s[j] != '\n'
    {
      StandsAt(s, p + 1, inner, j - p - 1);
    }
    CloseIs(s, p + 1, p + 1 + |inner|);
  }

  lemma PieceScanned(s: string, i: nat, g: Piece, d: bool)
    requires Here(s, i, g, d) && i < |s|
    ensures Scanned(s, i, g, d)
  {
    hide Here, Scanned;
    match g
    case Quoted(_, _) => QuotedScanned(s, i, g, d);
    case Ident(_) => IdentScanned(s, i, g, d);
    case Symbol(_) => SymbolScanned(s, i, g, d);
    case Operand(_, _) => OperandScanned(s, i, g, d);
    case Guarded(_, _) => GuardedScanned(s, i, g, d);
  }

  // ---------------------------------------------------------------- lines

  lemma Suffix(s: string, i: nat, w: string, r: string)
    requires i <= |s| && s[i..] == w + r
    ensures Stands(s, i, w) && s[i + |w|..] == r
    ensures At(s, i + |w|) == At(r, 0)
  {
    var e := i + |w|;
    assert s[i..][..|w|] == s[i..e] && s[i..][|w|..] == s[e..];
    if r != "" { assert s[e] == s[e..][0]; }
  }

  lemma SpellingSome(g: Piece, d: bool)
    requires PieceOk(g, d)
    ensures Spelling(g) != ""
  {
  }

  lemma SpellFirst(gs: seq<Piece>)
    requires gs != [] && Spelling(gs[0]) != ""
    ensures At(Spell(gs), 0) == Spelling(gs[0])[0]
  {
    hide Spelling;
  }

  /** The first piece stands at i, and the others after it. */
  lemma FirstHere(s: string, i: nat, gs: seq<Piece>, d: bool)
    requires PiecesOk(gs, d) && gs != [] && i <= |s| && s[i..] == Spell(gs)
    ensures Here(s, i, gs[0], d)
    ensures i < i + |Spelling(gs[0])| <= |s| && s[i + |Spelling(gs[0])|..] == Spell(gs[1..])
  {
    Suffix(s, i, Spelling(gs[0]), Spell(gs[1..]));
    SpellingSome(gs[0], d);
    if |gs| > 1 && (gs[0].Ident? || gs[0].Operand?) { SpellFirst(gs[1..]); }
    hide Spelling, PieceOk, Spell;
  }

  lemma TokensStep(s: string, i: nat, d: bool)
    requires i < |s|
    ensures Tokens(s, i, d) == [TokenAt(s, i, d)] + Tokens(s, TokenEnd(s, i, d), d)
  {
    hide TokenAt, TokenEnd;
  }

  /** Scanning gives back the pieces: a literal is one token that is copied, and so is defined with its operand. */
  lemma {:induction false} PiecesBack(s: string, i: nat, gs: seq<Piece>, d: bool)
    requires PiecesOk(gs, d) && i <= |s| && s[i..] == Spell(gs)
    ensures Tokens(s, i, d) == AsTokens(gs)
    decreases |gs|
  {
    hide Spelling, TokenEnd, TokenAt, AsToken, Here, PieceOk;
    if gs != [] {
      FirstHere(s, i, gs, d);
      hide Spell;
      PieceScanned(s, i, gs[0], d);
      PiecesBack(s, i + |Spelling(gs[0])|, gs[1..], d);
      TokensStep(s, i, d);
      hide Tokens;
    }
  }

  /** A literal where scanning has arrived comes out as it is, whatever the table. */
  lemma LiteralVerbatim(env: Env, site: Site, text: string, i: nat, quote: char, body: string, lit: string, inside: set<string>)
    requires (quote == '"' || quote == '\'') && Body(body, quote) && lit == [quote] + body + [quote] && Stands(text, i, lit)
    ensures var d := Opens(env, inside);
      Output(ExpandTokens(env, site, Tokens(text, i, d), inside), site) == lit + Output(ExpandTokens(env, site, Tokens(text, i + |lit|, d), inside), site)
  {
    hide Body, Opens;
    LiteralToken(text, i, quote, body, lit, Opens(env, inside));
    hide *;
    TextVerbatim(env, site, text, i, lit, inside);
  }

  lemma TextVerbatim(env: Env, site: Site, text: string, i: nat, t: string, inside: set<string>)
    requires i < |text| && i + |t| <= |text|
    requires TokenAt(text, i, Opens(env, inside)) == Text(t) && TokenEnd(text, i, Opens(env, inside)) == i + |t|
    ensures var d := Opens(env, inside);
      Output(ExpandTokens(env, site, Tokens(text, i, d), inside), site) == t + Output(ExpandTokens(env, site, Tokens(text, i + |t|, d), inside), site)
  {
    hide *;
    OneToken(env, site, text, i, inside);
    PlainCopied(env, site, Text(t), inside);
  }

  lemma LiteralToken(text: string, i: nat, quote: char, body: string, lit: string, d: bool)
    requires (quote == '"' || quote == '\'') && Body(body, quote) && lit == [quote] + body + [quote] && Stands(text, i, lit)
    ensures i < |text| && TokenAt(text, i, d) == Text(lit) && TokenEnd(text, i, d) == i + |lit|
  {
    hide TokenAt, TokenEnd, Body;
    var g := Quoted(quote, body);
    assert Spelling(g) == lit && Here(text, i, g, d);
    hide Here;
    PieceScanned(text, i, g, d);
  }

  // ---------------------------------------------------------------- plain substitution

  predicate IsMacro(env: Env, site: Site, t: Token) {
    t.Name? && Predefined(t.x, site).None? && t.x in env
  }

  predicate Below(env: Env, site: Site, rank: map<string, nat>, ts: seq<Token>, n: nat) {
    forall k :: 0 <= k < |ts| && IsMacro(env, site, ts[k]) ==> ts[k].x in rank && rank[ts[k].x] < n
  }

  /** No macro uses itself, directly or through others. */
  ghost predicate Acyclic(env: Env, site: Site, rank: map<string, nat>) {
    "defined" !in env && forall x :: x in env && x in rank ==> Below(env, site, rank, Tokens(env[x], 0, false), rank[x])
  }

  /** Every macro name replaced by its substituted replacement, with nothing remembered of where a name came from. */
  ghost function Substituted(env: Env, site: Site, rank: map<string, nat>, ts: seq<Token>, n: nat): string
    requires Acyclic(env, site, rank) && Below(env, site, rank, ts, n)
    decreases n, |ts|
  {
    if ts == [] then ""
    else
      (if IsMacro(env, site, ts[0]) then Substituted(env, site, rank, Tokens(env[ts[0].x], 0, false), rank[ts[0].x]) else Shown(ts[0], site)) +
      Substituted(env, site, rank, ts[1..], n)
  }

  /** Without cycles expansion is plain substitution. */
  lemma {:induction false} ExpandIsSubstitution(env: Env, site: Site, rank: map<string, nat>, ts: seq<Token>, n: nat, inside: set<string>)
    requires Acyclic(env, site, rank) && Below(env, site, rank, ts, n)
    requires forall y :: y in inside ==> y in rank && rank[y] >= n
    ensures Output(ExpandTokens(env, site, ts, inside), site) == Substituted(env, site, rank, ts, n)
    decreases n, |ts|
  {
    hide Tokens, Output, ExpandToken;
    if ts == [] {
      NoOutput(site);
    } else {
      var t := ts[0];
      OutputAppend(ExpandToken(env, site, t, inside), ExpandTokens(env, site, ts[1..], inside), site);
      ExpandIsSubstitution(env, site, rank, ts[1..], n, inside);
      if IsMacro(env, site, t) {
        Unfolded(env, site, t.x, inside);
        ExpandIsSubstitution(env, site, rank, Tokens(env[t.x], 0, false), rank[t.x], inside + {t.x});
      } else {
        Copied(env, site, t, inside);
      }
    }
  }

  lemma NoOutput(site: Site)
    ensures Output([], site) == ""
  {
  }

  function AllShown(ts: seq<Token>, site: Site): string {
    if ts == [] then "" else Shown(ts[0], site) + AllShown(ts[1..], site)
  }

  lemma {:induction false} NothingReplaced(env: Env, site: Site, ts: seq<Token>, inside: set<string>)
    requires forall k :: 0 <= k < |ts| ==> !Replaceable(env, site, ts[k], inside)
    ensures Output(ExpandTokens(env, site, ts, inside), site) == AllShown(ts, site)
    decreases |ts|
  {
    hide Output, ExpandToken, Replaceable;
    if ts == [] {
      NoOutput(site);
    } else {
      OutputAppend(ExpandToken(env, site, ts[0], inside), ExpandTokens(env, site, ts[1..], inside), site);
      Copied(env, site, ts[0], inside);
      NothingReplaced(env, site, ts[1..], inside);
    }
  }

  /** A macro that names itself is replaced once. */
  lemma SelfStays(env: Env, site: Site, x: string)
    requires env.Keys == {x} && x != "defined" && Predefined(x, site).None?
    ensures Output(ExpandTokens(env, site, [Name(x)], {}), site) == AllShown(Tokens(env[x], 0, false), site)
  {
    hide Tokens, Output, ExpandTokens, Predefined;
    SingleToken(env, site, x);
    Unfolded(env, site, x, {});
    assert {} + {x} == {x};
    NothingReplaced(env, site, Tokens(env[x], 0, false), {x});
  }

  lemma SingleToken(env: Env, site: Site, x: string)
    ensures ExpandTokens(env, site, [Name(x)], {}) == ExpandToken(env, site, Name(x), {})
  {
    var ts := [Name(x)];
    hide ExpandToken;
    assert ts[1..] == [] && ExpandTokens(env, site, ts[1..], {}) == [];
  }

  /** Whatever the table says, __LINE__ gives the line in decimal and __FILE__ the name between quotes. */
  lemma SiteNames(env: Env, site: Site, inside: set<string>)
    ensures var out := Output(ExpandTokens(env, site, [Name("__LINE__")], inside), site);
      CondExprCorrect.All(Dec, out) && Number(Dec, out) == site.line
    ensures Output(ExpandTokens(env, site, [Name("__FILE__")], inside), site) == "\"" + site.file + "\""
  {
    hide Output, ExpandTokens, Decimal, Number;
    CondExprPrint.DecimalValue(site.line);
    OneCopied(env, site, "__LINE__", inside);
    OneCopied(env, site, "__FILE__", inside);
  }

  lemma OneCopied(env: Env, site: Site, x: string, inside: set<string>)
    requires Predefined(x, site).Some?
    ensures Output(ExpandTokens(env, site, [Name(x)], inside), site) == Predefined(x, site).value
  {
    hide Predefined;
    var ts := [Name(x)];
    NothingReplaced(env, site, ts, inside);
    assert ts[1..] == [] && AllShown(ts[1..], site) == "";
  }
}
