/** Expansion is the result of replacing names in any order (section 6.10.3.4 of ISO/IEC 9899:1999). */
module MacroTheorem {
  import opened MacroExpand

  /** Tokens with their history, fully expanded. */
  function ExpandAll(env: Env, site: Site, ts: seq<Tagged>): seq<Tagged> {
    if ts == [] then [] else ExpandToken(env, site, ts[0].t, ts[0].inside) + ExpandAll(env, site, ts[1..])
  }

  /** How many replacements the full expansion makes. */
  function Work(env: Env, site: Site, t: Token, inside: set<string>): nat
    decreases Left(env, inside), 0, 0
  {
    if Replaceable(env, site, t, inside) then
      LeftLess(env, inside, t.x);
      1 + WorkTokens(env, site, Tokens(env[t.x], 0, Opens(env, inside + {t.x})), inside + {t.x})
    else 0
  }

  function WorkTokens(env: Env, site: Site, ts: seq<Token>, inside: set<string>): nat
    decreases Left(env, inside), 1, |ts|
  {
    if ts == [] then 0 else Work(env, site, ts[0], inside) + WorkTokens(env, site, ts[1..], inside)
  }

  function WorkAll(env: Env, site: Site, ts: seq<Tagged>): nat {
    if ts == [] then 0 else Work(env, site, ts[0].t, ts[0].inside) + WorkAll(env, site, ts[1..])
  }

  predicate Can(env: Env, site: Site, t: Tagged) {
    Replaceable(env, site, t.t, t.inside)
  }

  /** The replacement of a macro name, marked as coming from it. */
  function Replacement(env: Env, site: Site, t: Tagged): seq<Tagged>
    requires Can(env, site, t)
  {
    Tag(Tokens(env[t.t.x], 0, Opens(env, t.inside + {t.t.x})), t.inside + {t.t.x})
  }

  /** One replacement at position i. */
  function ReplaceAt(env: Env, site: Site, ts: seq<Tagged>, i: nat): seq<Tagged>
    requires i < |ts| && Can(env, site, ts[i])
  {
    ts[..i] + Replacement(env, site, ts[i]) + ts[i + 1..]
  }

  ghost predicate Step(env: Env, site: Site, a: seq<Tagged>, b: seq<Tagged>) {
    exists i :: 0 <= i < |a| && Can(env, site, a[i]) && b == ReplaceAt(env, site, a, i)
  }

  ghost predicate Normal(env: Env, site: Site, ts: seq<Tagged>) {
    forall i :: 0 <= i < |ts| ==> !Can(env, site, ts[i])
  }

  /** A sequence of replacements, in any order. */
  ghost predicate Derivation(env: Env, site: Site, run: seq<seq<Tagged>>) {
    run != [] && forall k :: 0 < k < |run| ==> Step(env, site, run[k - 1], run[k])
  }

  // ---------------------------------------------------------------- steps

  lemma {:induction false} Append(env: Env, site: Site, a: seq<Tagged>, b: seq<Tagged>)
    ensures ExpandAll(env, site, a + b) == ExpandAll(env, site, a) + ExpandAll(env, site, b)
    ensures WorkAll(env, site, a + b) == WorkAll(env, site, a) + WorkAll(env, site, b)
    decreases |a|
  {
    hide ExpandToken, Work;
    if a == [] {
      assert a + b == b;
    } else {
      assert (a + b)[0] == a[0] && (a + b)[1..] == a[1..] + b;
      Append(env, site, a[1..], b);
    }
  }

  /** Expanding marked tokens is expanding the tokens under that mark. */
  lemma {:induction false} ExpandTag(env: Env, site: Site, ts: seq<Token>, inside: set<string>)
    ensures ExpandAll(env, site, Tag(ts, inside)) == ExpandTokens(env, site, ts, inside)
    ensures WorkAll(env, site, Tag(ts, inside)) == WorkTokens(env, site, ts, inside)
    decreases |ts|
  {
    hide ExpandToken, Work;
    if ts != [] {
      assert Tag(ts, inside)[1..] == Tag(ts[1..], inside);
      ExpandTag(env, site, ts[1..], inside);
    }
  }

  lemma One(env: Env, site: Site, t: Tagged)
    ensures ExpandAll(env, site, [t]) == ExpandToken(env, site, t.t, t.inside) && WorkAll(env, site, [t]) == Work(env, site, t.t, t.inside)
  {
    hide ExpandToken, Work;
    assert [t][1..] == [];
    assert ExpandAll(env, site, []) == [] && WorkAll(env, site, []) == 0;
  }

  /** Replacing one name changes neither the final result nor, except by one, the work left. */
  lemma {:induction false} StepKeeps(env: Env, site: Site, ts: seq<Tagged>, i: nat)
    requires i < |ts| && Can(env, site, ts[i])
    ensures ExpandAll(env, site, ReplaceAt(env, site, ts, i)) == ExpandAll(env, site, ts)
    ensures WorkAll(env, site, ts) == 1 + WorkAll(env, site, ReplaceAt(env, site, ts, i))
  {
    hide ExpandAll, WorkAll, Tokens;
    var a, t, b := ts[..i], ts[i], ts[i + 1..];
    var r := Replacement(env, site, t);
    assert ts == (a + [t]) + b;
    Append(env, site, a + [t], b);
    Append(env, site, a, [t]);
    Append(env, site, a + r, b);
    Append(env, site, a, r);
    One(env, site, t);
    ExpandTag(env, site, Tokens(env[t.t.x], 0, Opens(env, t.inside + {t.t.x})), t.inside + {t.t.x});
  }

  lemma {:induction false} NormalIs(env: Env, site: Site, ts: seq<Tagged>)
    requires Normal(env, site, ts)
    ensures ExpandAll(env, site, ts) == ts
    decreases |ts|
  {
    if ts != [] {
      assert !Can(env, site, ts[0]);
      assert forall i :: 0 <= i < |ts[1..]| ==> ts[1..][i] == ts[i + 1];
      NormalIs(env, site, ts[1..]);
      assert ExpandToken(env, site, ts[0].t, ts[0].inside) == [ts[0]];
    }
  }

  /** Every sequence of replacements is finite, whatever the table: recursion through any macros ends. */
  lemma {:induction false} Finite(env: Env, site: Site, run: seq<seq<Tagged>>)
    requires Derivation(env, site, run)
    ensures |run| - 1 + WorkAll(env, site, run[|run| - 1]) == WorkAll(env, site, run[0])
    ensures ExpandAll(env, site, run[|run| - 1]) == ExpandAll(env, site, run[0])
    decreases |run|
  {
    hide Can, ExpandAll, ReplaceAt, WorkAll;
    if |run| > 1 {
      var n := |run| - 1;
      assert Step(env, site, run[n - 1], run[n]);
      var i :| 0 <= i < |run[n - 1]| && Can(env, site, run[n - 1][i]) && run[n] == ReplaceAt(env, site, run[n - 1], i);
      StepKeeps(env, site, run[n - 1], i);
      var front := run[..n];
      forall k | 0 < k < n ensures Step(env, site, front[k - 1], front[k]) {
        assert front[k - 1] == run[k - 1] && front[k] == run[k];
      }
      Finite(env, site, front);
    }
  }

  /** From any tokens some sequence of replacements reaches the full expansion, where none is left. */
  lemma {:induction false} Reached(env: Env, site: Site, ts: seq<Tagged>) returns (run: seq<seq<Tagged>>)
    ensures Derivation(env, site, run) && run[0] == ts && run[|run| - 1] == ExpandAll(env, site, ts)
    ensures Normal(env, site, ExpandAll(env, site, ts))
    decreases WorkAll(env, site, ts)
  {
    if Normal(env, site, ts) {
      run := [ts];
      NormalIs(env, site, ts);
    } else {
      var i :| 0 <= i < |ts| && Can(env, site, ts[i]);
      StepKeeps(env, site, ts, i);
      var next := ReplaceAt(env, site, ts, i);
      var rest := Reached(env, site, next);
      run := [ts] + rest;
      assert Step(env, site, ts, next);
      forall k | 0 < k < |run| ensures Step(env, site, run[k - 1], run[k]) {
        if k > 1 { assert run[k - 1] == rest[k - 2] && run[k] == rest[k - 1]; }
      }
    }
  }

  /** Whatever the order of replacements, if none is left the result is the full expansion. */
  lemma {:induction false} OrderIrrelevant(env: Env, site: Site, run: seq<seq<Tagged>>)
    requires Derivation(env, site, run) && Normal(env, site, run[|run| - 1])
    ensures run[|run| - 1] == ExpandAll(env, site, run[0]) && |run| == 1 + WorkAll(env, site, run[0])
  {
    Finite(env, site, run);
    NormalIs(env, site, run[|run| - 1]);
    NoWork(env, site, run[|run| - 1]);
  }

  lemma {:induction false} NoWork(env: Env, site: Site, ts: seq<Tagged>)
    requires Normal(env, site, ts)
    ensures WorkAll(env, site, ts) == 0
    decreases |ts|
  {
    if ts != [] {
      assert !Can(env, site, ts[0]);
      assert forall i :: 0 <= i < |ts[1..]| ==> ts[1..][i] == ts[i + 1];
      NoWork(env, site, ts[1..]);
    }
  }

  /** The text that expand_macros_text returns is the end of every complete sequence of replacements. */
  lemma {:induction false} ExpansionUnique(env: Env, site: Site, text: string, inside: set<string>, run: seq<seq<Tagged>>)
    requires Derivation(env, site, run) && run[0] == Tag(Tokens(text, 0, Opens(env, inside)), inside) && Normal(env, site, run[|run| - 1])
    ensures Output(run[|run| - 1], site) == Output(ExpandTokens(env, site, Tokens(text, 0, Opens(env, inside)), inside), site)
  {
    OrderIrrelevant(env, site, run);
    ExpandTag(env, site, Tokens(text, 0, Opens(env, inside)), inside);
  }
}
