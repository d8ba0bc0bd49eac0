/** Object-like macro expansion (expand_macros_text in src/preprocessor.c). */
module MacroExpand {
  import opened Options
  import opened Numerals
  import opened CondExpr

  // ---------------------------------------------------------------- scanning

  /** The end of a string or character literal whose opening quote stands before i. */
  function LiteralEnd(s: string, i: nat, quote: char): (r: nat)
    requires i <= |s|
    ensures i <= r <= |s|
    decreases |s| - i
  {
    if i == |s| || s[i] == '\n' then i
    else if s[i] == quote then i + 1
    else if s[i] == '\\' && i + 1 < |s| then LiteralEnd(s, i + 2, quote)
    else LiteralEnd(s, i + 1, quote)
  }

  method ScanLiteral(s: string, i: nat, quote: char) returns (r: nat)
    requires i <= |s| && (quote == '"' || quote == '\'')
    ensures r == LiteralEnd(s, i, quote)
  {
    r := i;
    while r < |s| && s[r] != quote && s[r] != '\n'
      invariant i <= r <= |s| && LiteralEnd(s, r, quote) == LiteralEnd(s, i, quote)
    {
      if s[r] == '\\' && r + 1 < |s| { r := r + 1; }
      r := r + 1;
    }
    if r < |s| && s[r] == quote { r := r + 1; }
  }

  /** The closing parenthesis after i, or the end of the line. */
  function CloseAt(s: string, i: nat): (r: nat)
    requires i <= |s|
    ensures i <= r <= |s|
    decreases |s| - i
  {
    if i == |s| || s[i] == '\n' then i else if s[i] == ')' then i + 1 else CloseAt(s, i + 1)
  }

  method ScanClose(s: string, i: nat) returns (r: nat)
    requires i <= |s|
    ensures r == CloseAt(s, i)
  {
    r := i;
    while r < |s| && s[r] != ')' && s[r] != '\n'
      invariant i <= r <= |s| && CloseAt(s, r) == CloseAt(s, i)
    {
      r := r + 1;
    }
    if r < |s| && s[r] == ')' { r := r + 1; }
  }

  /** After the word "defined": its operand is copied, not expanded. */
  function DefinedEnd(s: string, i: nat): (r: nat)
    requires i <= |s|
    ensures i <= r <= |s|
  {
    var p := Skip(s, i);
    if At(s, p) == '(' then CloseAt(s, p + 1)
    else if IsNameStart(At(s, p)) then Span(Word, s, p)
    else i
  }

  /** A name that may be a macro, or text that is copied. */
  datatype Token = Name(x: string) | Text(t: string)

  function TokenText(t: Token): string {
    match t
    case Name(x) => x
    case Text(u) => u
  }

  /** The end of the token at i; d tells whether defined is a macro that may be replaced, which the source looks up first. */
  function TokenEnd(s: string, i: nat, d: bool): (r: nat)
    requires i < |s|
    ensures i < r <= |s|
  {
    if s[i] == '"' || s[i] == '\'' then LiteralEnd(s, i + 1, s[i])
    else if IsNameStart(s[i]) then
      assert Span(Word, s, i) == Span(Word, s, i + 1);
      var e := Span(Word, s, i);
      if s[i..e] == "defined" && !d then DefinedEnd(s, e) else e
    else i + 1
  }

  function TokenAt(s: string, i: nat, d: bool): Token
    requires i < |s|
  {
    var t := s[i..TokenEnd(s, i, d)];
    if IsNameStart(s[i]) && (d || s[i..Span(Word, s, i)] != "defined") then Name(t) else Text(t)
  }

  function Tokens(s: string, i: nat, d: bool): seq<Token>
    requires i <= |s|
    decreases |s| - i
  {
    if i == |s| then [] else [TokenAt(s, i, d)] + Tokens(s, TokenEnd(s, i, d), d)
  }

  function Join(ts: seq<Token>): string {
    if ts == [] then "" else TokenText(ts[0]) + Join(ts[1..])
  }

  /** Scanning loses nothing. */
  lemma {:induction false} TokensJoin(s: string, i: nat, d: bool)
    requires i <= |s|
    ensures Join(Tokens(s, i, d)) == s[i..]
    decreases |s| - i
  {
    if i < |s| {
      var e := TokenEnd(s, i, d);
      TokensJoin(s, e, d);
      assert s[i..] == s[i..e] + s[e..];
      hide TokenEnd, TokenAt;
      TokenIs(s, i, d);
      var ts := [TokenAt(s, i, d)] + Tokens(s, e, d);
      assert ts[1..] == Tokens(s, e, d);
    }
  }

  lemma TokenIs(s: string, i: nat, d: bool)
    requires i < |s|
    ensures TokenText(TokenAt(s, i, d)) == s[i..TokenEnd(s, i, d)]
  {
    hide TokenEnd;
  }

  /** A token that is not an identifier is copied. */
  lemma OtherToken(s: string, i: nat, d: bool)
    requires i < |s| && !IsNameStart(s[i])
    ensures TokenAt(s, i, d) == Text(s[i..TokenEnd(s, i, d)])
    ensures TokenEnd(s, i, d) == if s[i] == '"' || s[i] == '\'' then LiteralEnd(s, i + 1, s[i]) else i + 1
  {
  }

  lemma NameToken(s: string, i: nat, d: bool)
    requires i < |s| && IsNameStart(s[i])
    ensures var j := Span(Word, s, i);
      if s[i..j] == "defined" && !d then TokenEnd(s, i, d) == DefinedEnd(s, j) && TokenAt(s, i, d) == Text(s[i..DefinedEnd(s, j)])
      else TokenEnd(s, i, d) == j && TokenAt(s, i, d) == Name(s[i..j])
  {
    hide DefinedEnd;
  }

  // ---------------------------------------------------------------- expansion

  /** Where the text is expanded: the values of __FILE__ (already escaped) and __LINE__. */
  datatype Site = Site(file: string, line: nat)

  function Predefined(x: string, site: Site): Option<string> {
    if x == "__FILE__" then Some("\"" + site.file + "\"")
    else if x == "__LINE__" then Some(Decimal(site.line))
    else None
  }

  type Env = map<string, string>

  /** A token and the macros in whose expansion it arose. */
  datatype Tagged = Tagged(t: Token, inside: set<string>)

  /** The name is a macro that may be replaced here. */
  predicate Replaceable(env: Env, site: Site, t: Token, inside: set<string>) {
    t.Name? && Predefined(t.x, site).None? && t.x in env && t.x !in inside
  }

  /** Whether defined is a macro that may be replaced here. */
  predicate Opens(env: Env, inside: set<string>) {
    "defined" in env && "defined" !in inside
  }

  function Tag(ts: seq<Token>, inside: set<string>): (r: seq<Tagged>)
    ensures |r| == |ts| && forall i :: 0 <= i < |ts| ==> r[i] == Tagged(ts[i], inside)
  {
    seq(|ts|, i requires 0 <= i < |ts| => Tagged(ts[i], inside))
  }

  /** Names not yet inside their own expansion. */
  function Left(env: Env, inside: set<string>): nat {
    |env.Keys - inside|
  }

  lemma LeftLess(env: Env, inside: set<string>, x: string)
    requires x in env && x !in inside
    ensures Left(env, inside + {x}) < Left(env, inside)
  {
    var a, b := env.Keys - inside, env.Keys - (inside + {x});
    assert a == b + {x};
  }

  /** Full expansion: no name is replaced inside its own expansion. */
  function ExpandToken(env: Env, site: Site, t: Token, inside: set<string>): seq<Tagged>
    decreases Left(env, inside), 0, 0
  {
    if Replaceable(env, site, t, inside) then
      LeftLess(env, inside, t.x);
      ExpandTokens(env, site, Tokens(env[t.x], 0, Opens(env, inside + {t.x})), inside + {t.x})
    else [Tagged(t, inside)]
  }

  function ExpandTokens(env: Env, site: Site, ts: seq<Token>, inside: set<string>): seq<Tagged>
    decreases Left(env, inside), 1, |ts|
  {
    if ts == [] then [] else ExpandToken(env, site, ts[0], inside) + ExpandTokens(env, site, ts[1..], inside)
  }

  function Shown(t: Token, site: Site): string {
    if t.Name? && Predefined(t.x, site).Some? then Predefined(t.x, site).value else TokenText(t)
  }

  /** The text that comes out. */
  function Output(ts: seq<Tagged>, site: Site): string {
    if ts == [] then "" else Shown(ts[0].t, site) + Output(ts[1..], site)
  }

  lemma {:induction false} OutputAppend(a: seq<Tagged>, b: seq<Tagged>, site: Site)
    ensures Output(a + b, site) == Output(a, site) + Output(b, site)
    decreases |a|
  {
    if a == [] {
      assert a + b == b;
    } else {
      assert (a + b)[0] == a[0] && (a + b)[1..] == a[1..] + b;
      OutputAppend(a[1..], b, site);
    }
  }

  // ---------------------------------------------------------------- the macro table

  class MacroDef {
    const name: string
    const replacement: string
    var disabled: bool

    constructor (name: string, replacement: string)
      ensures this.name == name && this.replacement == replacement && !disabled
    {
      this.name := name;
      this.replacement := replacement;
      disabled := false;
    }
  }

  /** Adding a macro replaces one of the same name, so names are distinct. */
  ghost predicate TableOk(defs: seq<MacroDef>) {
    forall i, j :: 0 <= i < j < |defs| ==> defs[i].name != defs[j].name
  }

  function EnvOf(defs: seq<MacroDef>): Env {
    if defs == [] then map[] else EnvOf(defs[..|defs| - 1])[defs[|defs| - 1].name := defs[|defs| - 1].replacement]
  }

  ghost function Disabled(defs: seq<MacroDef>): set<string>
    reads set d | d in defs
  {
    set i | 0 <= i < |defs| && defs[i].disabled :: defs[i].name
  }

  lemma {:induction false} EnvAt(defs: seq<MacroDef>, i: nat)
    requires TableOk(defs) && i < |defs|
    ensures defs[i].name in EnvOf(defs) && EnvOf(defs)[defs[i].name] == defs[i].replacement
    decreases |defs|
  {
    if i < |defs| - 1 { EnvAt(defs[..|defs| - 1], i); }
  }

  lemma {:induction false} EnvOnly(defs: seq<MacroDef>, x: string)
    requires forall i :: 0 <= i < |defs| ==> defs[i].name != x
    ensures x !in EnvOf(defs)
    decreases |defs|
  {
    if defs != [] { EnvOnly(defs[..|defs| - 1], x); }
  }

  /** macro_find. */
  method MacroFind(defs: seq<MacroDef>, x: string) returns (r: Option<nat>)
    requires TableOk(defs)
    ensures r.Some? <==> x in EnvOf(defs)
    ensures r.Some? ==> r.value < |defs| && defs[r.value].name == x && EnvOf(defs)[x] == defs[r.value].replacement
  {
    var i := 0;
    while i < |defs|
      invariant 0 <= i <= |defs| && forall j :: 0 <= j < i ==> defs[j].name != x
    {
      if defs[i].name == x {
        EnvAt(defs, i);
        return Some(i);
      }
      i := i + 1;
    }
    EnvOnly(defs, x);
    return None;
  }

  /** expand_macros_text: the flags are as before, and the text is the full expansion in which the
      disabled macros count as being expanded already. */
  method ExpandMacrosText(defs: seq<MacroDef>, text: string, site: Site) returns (out: string)
    requires TableOk(defs)
    modifies set d | d in defs
    ensures forall d :: d in defs ==> d.disabled == old(d.disabled)
    ensures var inside := old(Disabled(defs));
      out == Output(ExpandTokens(EnvOf(defs), site, Tokens(text, 0, Opens(EnvOf(defs), inside)), inside), site)
    decreases Left(EnvOf(defs), Disabled(defs))
  {
    hide Tokens, TokenEnd, TokenAt, ExpandToken, ExpandTokens, Output, LiteralEnd, Left, EnvOf, Opens, Disabled, Span, Predefined, TokenText, Shown;
    ghost var env, inside := EnvOf(defs), Disabled(defs);
    ghost var d := Opens(env, inside);
    EmptyText();
    ghost var want := Output(ExpandTokens(env, site, Tokens(text, 0, d), inside), site);
    var i := 0;
    out := "";
    while i < |text|
      invariant 0 <= i <= |text|
      invariant forall d :: d in defs ==> d.disabled == old(d.disabled)
      invariant Disabled(defs) == inside
      invariant out + Output(ExpandTokens(env, site, Tokens(text, i, d), inside), site) == want
    {
      ghost var e, t, before := TokenEnd(text, i, d), TokenAt(text, i, d), out;
      ghost var rest := ExpandTokens(env, site, Tokens(text, e, d), inside);
      OneToken(env, site, text, i, inside);
      var piece;
      if text[i] == '"' || text[i] == '\'' {
        OtherToken(text, i, d);
        var j := ScanLiteral(text, i + 1, text[i]);
        piece := text[i..j];
        PlainCopied(env, site, t, inside);
        i := j;
      } else if IsNameStart(text[i]) {
        var j := Scan(Word, text, i);
        piece, i := ExpandName(defs, text, i, j, site);
      } else {
        OtherToken(text, i, d);
        piece := [text[i]];
        OneChar(text, i);
        PlainCopied(env, site, t, inside);
        i := i + 1;
      }
      assert i == e && piece == Output(ExpandToken(env, site, t, inside), site);
      out := out + piece;
      Reassociate(before, piece, Output(rest, site));
    }
    NothingLeft(env, site, text, inside);
  }

  lemma EmptyText()
    ensures forall t: string :: "" + t == t
  {
  }

  lemma NothingLeft(env: Env, site: Site, text: string, inside: set<string>)
    ensures Output(ExpandTokens(env, site, Tokens(text, |text|, Opens(env, inside)), inside), site) == ""
  {
  }

  lemma OneToken(env: Env, site: Site, text: string, i: nat, inside: set<string>)
    requires i < |text|
    ensures var d := Opens(env, inside);
      Output(ExpandTokens(env, site, Tokens(text, i, d), inside), site) ==
      Output(ExpandToken(env, site, TokenAt(text, i, d), inside), site) + Output(ExpandTokens(env, site, Tokens(text, TokenEnd(text, i, d), d), inside), site)
  {
    var d := Opens(env, inside);
    var ts, rest := Tokens(text, i, d), Tokens(text, TokenEnd(text, i, d), d);
    assert ts[0] == TokenAt(text, i, d) && ts[1..] == rest;
    OutputAppend(ExpandToken(env, site, ts[0], inside), ExpandTokens(env, site, rest, inside), site);
  }

  lemma Copied(env: Env, site: Site, t: Token, inside: set<string>)
    requires !Replaceable(env, site, t, inside)
    ensures Output(ExpandToken(env, site, t, inside), site) == Shown(t, site)
  {
    var r := [Tagged(t, inside)];
    assert r[1..] == [] && Output(r[1..], site) == "";
  }

  lemma PlainCopied(env: Env, site: Site, t: Token, inside: set<string>)
    requires t.Text?
    ensures Output(ExpandToken(env, site, t, inside), site) == t.t
  {
    hide ExpandToken, Output;
    Copied(env, site, t, inside);
  }

  /** An identifier from i to j. */
  method ExpandName(defs: seq<MacroDef>, text: string, i: nat, j: nat, site: Site) returns (piece: string, e: nat)
    requires TableOk(defs)
    requires i < |text| && IsNameStart(text[i]) && j == Span(Word, text, i)
    modifies set d | d in defs
    ensures (forall d :: d in defs ==> d.disabled == old(d.disabled)) && Disabled(defs) == old(Disabled(defs))
    ensures var inside := old(Disabled(defs));
      var d := Opens(EnvOf(defs), inside);
      e == TokenEnd(text, i, d) && piece == Output(ExpandToken(EnvOf(defs), site, TokenAt(text, i, d), inside), site)
    decreases Left(EnvOf(defs), Disabled(defs)), 1
  {
    hide Tokens, TokenEnd, TokenAt, ExpandToken, ExpandTokens, Output, Left, EnvOf, Span, Disabled, DefinedEnd;
    ghost var env, inside := EnvOf(defs), Disabled(defs);
    ghost var d := Opens(env, inside);
    ghost var t := TokenAt(text, i, d);
    NameToken(text, i, d);
    var x := text[i..j];
    e := j;
    if Predefined(x, site).Some? {
      piece := Predefined(x, site).value;
      Copied(env, site, t, inside);
      return;
    }
    var k := MacroFind(defs, x);
    if k.Some? && !defs[k.value].disabled {
      EnabledName(defs, k.value, inside);
      piece := ExpandReplacement(defs, k.value, site);
      return;
    }
    if x == "defined" {
      var p := SkipBlanks(text, j);
      if At(text, p) == '(' {
        e := ScanClose(text, p + 1);
      } else if IsNameStart(At(text, p)) {
        e := Scan(Word, text, p);
      }
    }
    piece := text[i..e];
    if k.Some? { DisabledName(defs, k.value); }
    assert e == TokenEnd(text, i, d) by { hide Replaceable; DefinedIs(text, j); }
    Copied(env, site, t, inside);
  }

  /** The replacement is expanded with the flag set. */
  method ExpandReplacement(defs: seq<MacroDef>, k: nat, site: Site) returns (piece: string)
    requires TableOk(defs) && k < |defs| && !defs[k].disabled && Predefined(defs[k].name, site).None?
    requires defs[k].name in EnvOf(defs) && EnvOf(defs)[defs[k].name] == defs[k].replacement
    modifies set d | d in defs
    ensures (forall d :: d in defs ==> d.disabled == old(d.disabled)) && Disabled(defs) == old(Disabled(defs))
    ensures piece == Output(ExpandToken(EnvOf(defs), site, Name(defs[k].name), old(Disabled(defs))), site)
    decreases Left(EnvOf(defs), Disabled(defs)), 0
  {
    hide Tokens, ExpandToken, ExpandTokens, Output, Left, EnvOf, Opens, Predefined;
    ghost var env, inside := EnvOf(defs), Disabled(defs);
    var x := defs[k].name;
    EnabledName(defs, k, inside);
    LeftLess(env, inside, x);
    Unfolded(env, site, x, inside);
    defs[k].disabled := true;
    NowDisabled(defs, k, inside);
    piece := ExpandMacrosText(defs, defs[k].replacement, site);
    defs[k].disabled := false;
  }

  lemma Reassociate(a: string, b: string, c: string)
    ensures a + (b + c) == (a + b) + c
  {
  }

  lemma OneChar(text: string, i: nat)
    requires i < |text|
    ensures text[i..i + 1] == [text[i]]
  {
  }

  lemma Unfolded(env: Env, site: Site, x: string, inside: set<string>)
    requires Replaceable(env, site, Name(x), inside)
    ensures ExpandToken(env, site, Name(x), inside) == ExpandTokens(env, site, Tokens(env[x], 0, Opens(env, inside + {x})), inside + {x})
  {
    hide ExpandTokens, Tokens;
  }

  lemma EnabledName(defs: seq<MacroDef>, k: nat, inside: set<string>)
    requires TableOk(defs) && k < |defs| && !defs[k].disabled && inside == Disabled(defs)
    ensures defs[k].name !in inside
  {
  }

  lemma DefinedIs(s: string, i: nat)
    requires i <= |s|
    ensures var p := Skip(s, i); DefinedEnd(s, i) == if At(s, p) == '(' then CloseAt(s, p + 1) else if IsNameStart(At(s, p)) then Span(Word, s, p) else i
  {
    hide Span, CloseAt;
  }

  lemma DisabledName(defs: seq<MacroDef>, k: nat)
    requires k < |defs| && defs[k].disabled
    ensures defs[k].name in Disabled(defs)
  {
  }

  lemma NowDisabled(defs: seq<MacroDef>, k: nat, inside: set<string>)
    requires k < |defs| && defs[k].disabled
    requires inside == (set i | 0 <= i < |defs| && i != k && defs[i].disabled :: defs[i].name)
    ensures Disabled(defs) == inside + {defs[k].name}
  {
  }
}
