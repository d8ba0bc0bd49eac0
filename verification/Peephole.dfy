/** The sliding-window engine of the peephole pass (peephole_apply in src/peephole.c).

    A pattern has a window size, a matcher and a replacer.  The engine walks once over the lines;
    at each position the first pattern whose window fits and matches fires, and scanning resumes
    after its output.  `Rewrite` is that pass as a function of the remaining lines only; `Apply`
    is the in-place engine, and its contract says that the two agree.
 */
module Peephole {
  import opened Options


  // PEEPHOLE_WINDOW_MAX: the replacer writes into an array of this many lines.
  const WINDOW_MAX := 4

  datatype Pattern<!T> = Pattern(window: nat, matcher: seq<T> -> bool, replacer: seq<T> -> seq<T>) {
    predicate Fires(rest: seq<T>) {
      window <= |rest| && matcher(rest[..window])
    }

    function Output(rest: seq<T>): seq<T>
      requires window <= |rest|
    {
      replacer(rest[..window])
    }
  }

  ghost predicate ValidPattern<T(!new)>(p: Pattern<T>) {
    p.window >= 1 && forall win :: |win| == p.window && p.matcher(win) ==> |p.replacer(win)| <= WINDOW_MAX
  }

  ghost predicate ValidTable<T(!new)>(ps: seq<Pattern<T>>) {
    forall p :: p in ps ==> ValidPattern(p)
  }

  /** The first pattern from index k on that fires at the head of `rest`. */
  function FirstFrom<T>(ps: seq<Pattern<T>>, rest: seq<T>, k: nat): (r: Option<Pattern<T>>)
    requires k <= |ps|
    ensures r.Some? ==> r.value in ps && r.value.Fires(rest)
    ensures r.None? <==> forall j :: k <= j < |ps| ==> !ps[j].Fires(rest)
    decreases |ps| - k
  {
    if k == |ps| then None
    else if ps[k].Fires(rest) then Some(ps[k])
    else FirstFrom(ps, rest, k + 1)
  }

  function FirstMatch<T>(ps: seq<Pattern<T>>, rest: seq<T>): (r: Option<Pattern<T>>)
    ensures r.Some? ==> r.value in ps && r.value.Fires(rest)
  {
    FirstFrom(ps, rest, 0)
  }

  /** How many lines the pass consumes at the head of `rest`, and what it puts in their place. */
  function Consumed<T(!new)>(ps: seq<Pattern<T>>, rest: seq<T>): (w: nat)
    requires ValidTable(ps) && rest != []
    ensures 1 <= w <= |rest|
  {
    var m := FirstMatch(ps, rest);
    if m.Some? then m.value.window else 1
  }

  function Produced<T(!new)>(ps: seq<Pattern<T>>, rest: seq<T>): (out: seq<T>)
    requires ValidTable(ps) && rest != []
    ensures |out| <= WINDOW_MAX
  {
    var m := FirstMatch(ps, rest);
    if m.Some? then m.value.Output(rest) else rest[..1]
  }

  function Rewrite<T(!new)>(ps: seq<Pattern<T>>, rest: seq<T>): seq<T>
    requires ValidTable(ps)
    decreases |rest|
  {
    if rest == [] then []
    else Produced(ps, rest) + Rewrite(ps, rest[Consumed(ps, rest)..])
  }

  lemma {:induction false} NoPatterns<T(!new)>(rest: seq<T>)
    ensures Rewrite<T>([], rest) == rest
    decreases |rest|
  {
    if rest != [] {
      NoPatterns(rest[1..]);
      assert rest[..1] + rest[1..] == rest;
    }
  }

  /** The mutable line array (char ***lines, int *nlines). */
  class Listing<T(!new)> {
    var lines: array<T>

    constructor (ls: array<T>)
      ensures lines == ls
    {
      lines := ls;
    }

    /** A new array holds the prefix, the replacement lines and the suffix; the old one is dropped. */
    method Splice(i: nat, w: nat, out: seq<T>)
      requires i + w <= lines.Length && w >= 1
      modifies this
      ensures fresh(lines)
      ensures lines[..] == old(lines[..])[..i] + out + old(lines[..])[i + w..]
    {
      var oldArr, n, delta := lines, lines.Length, |out| - w;
      var fill := oldArr[i];
      var newArr := new T[n + delta](_ => fill);
      CopyLines(oldArr[..i], newArr, 0);
      assert newArr[0..0 + i] == newArr[..i];
      CopyLines(out, newArr, i);
      assert newArr[..i + |out|] == newArr[..i] + newArr[i..i + |out|];
      CopyLines(oldArr[i + w..], newArr, i + |out|);
      assert newArr[..] == newArr[..i + |out|] + newArr[i + |out|..];
      lines := newArr;
    }

    static method CopyLines(src: seq<T>, dst: array<T>, at: nat)
      requires at + |src| <= dst.Length
      modifies dst
      ensures dst[..at] == old(dst[..at]) && dst[at..at + |src|] == src
    {
      for k := 0 to |src|
        invariant dst[..at] == old(dst[..at])
        invariant dst[at..at + k] == src[..k]
      {
        dst[at + k] := src[k];
        assert dst[at..at + k + 1] == dst[at..at + k] + [src[k]];
      }
    }

    /** The inner loop over the pattern table. */
    method FindPattern(ps: seq<Pattern<T>>, i: nat) returns (m: Option<Pattern<T>>)
      requires i <= lines.Length
      ensures m == FirstMatch(ps, lines[i..])
    {
      for p := 0 to |ps|
        invariant FirstMatch(ps, lines[i..]) == FirstFrom(ps, lines[i..], p)
      {
        var w := ps[p].window;
        if i + w <= lines.Length {
          assert lines[i..][..w] == lines[i..i + w];
          if ps[p].matcher(lines[i..i + w]) {
            return Some(ps[p]);
          }
        }
      }
      return None;
    }

    /** One turn of the outer loop: the window at i is replaced and i moves past the output. */
    method Advance(ps: seq<Pattern<T>>, i: nat) returns (j: nat)
      requires ValidTable(ps) && i < lines.Length
      modifies this
      ensures j <= lines.Length
      ensures lines[..j] == old(lines[..i]) + Produced(ps, old(lines[i..]))
      ensures lines[j..] == old(lines[i..])[Consumed(ps, old(lines[i..]))..]
    {
      var m := FindPattern(ps, i);
      if m.Some? {
        var w := m.value.window;
        var out := m.value.replacer(lines[i..i + w]);
        ghost var was := lines[..];
        assert lines[i..][..w] == lines[i..i + w];
        assert was[i + w..] == lines[i..][w..] && was[..i] == lines[..i];
        Splice(i, w, out);
        Resumed(was[..i], out, was[i + w..], lines[..], i);
        j := i + |out|;
        assert lines[..j] == lines[..][..j] && lines[j..] == lines[..][j..];
      } else {
        j := i + 1;
      }
    }

    /** The in-place pass computes Rewrite. It terminates because the number of lines not yet
        scanned drops by the window on a match and by one otherwise, however long the outputs are. */
    method Apply(ps: seq<Pattern<T>>)
      requires ValidTable(ps)
      modifies this
      ensures lines[..] == Rewrite(ps, old(lines[..]))
    {
      hide *;
      if ps == [] {
        NoPatterns(lines[..]);
        return;
      }
      var i := 0;
      assert lines[..] == lines[0..];
      while i < lines.Length
        invariant 0 <= i <= lines.Length
        invariant lines[..i] + Rewrite(ps, lines[i..]) == Rewrite(ps, old(lines[..]))
        decreases lines.Length - i
      {
        ghost var before, rest := lines[..i], lines[i..];
        i := Advance(ps, i);
        assert |lines[i..]| == |rest| - Consumed(ps, rest);
        RewriteStep(ps, before, rest);
      }
      RewriteNothing(ps);
      assert lines[i..] == [] && lines[..] == lines[..i];
    }
  }

  lemma RewriteStep<T(!new)>(ps: seq<Pattern<T>>, before: seq<T>, rest: seq<T>)
    requires ValidTable(ps) && rest != []
    ensures before + Rewrite(ps, rest) == before + Produced(ps, rest) + Rewrite(ps, rest[Consumed(ps, rest)..])
  {
    hide ValidPattern, FirstMatch, Produced, Consumed;
    var out, tail := Produced(ps, rest), Rewrite(ps, rest[Consumed(ps, rest)..]);
    assert Rewrite(ps, rest) == out + tail;
    assert before + (out + tail) == before + out + tail;
  }

  lemma RewriteNothing<T(!new)>(ps: seq<Pattern<T>>)
    requires ValidTable(ps)
    ensures Rewrite(ps, []) == []
  {
  }

  lemma Resumed<T>(a: seq<T>, out: seq<T>, b: seq<T>, all: seq<T>, i: nat)
    requires |a| == i && all == a + out + b
    ensures i + |out| <= |all| && all[..i + |out|] == a + out && all[i + |out|..] == b
  {
  }

  // ---------------------------------------------------------------- the pass commutes with a renaming

  function Image<S, T>(f: S -> T, c: seq<S>): (r: seq<T>)
    ensures |r| == |c| && forall k :: 0 <= k < |c| ==> r[k] == f(c[k])
  {
    seq(|c|, k requires 0 <= k < |c| => f(c[k]))
  }

  /** Pattern q on lines f(x) does what p does on x, for all windows drawn from `good`. */
  ghost predicate Mirrors<S(!new), T>(f: S -> T, good: S -> bool, p: Pattern<S>, q: Pattern<T>) {
    && p.window == q.window
    && forall win: seq<S> :: |win| == p.window && (forall x :: x in win ==> good(x)) ==>
         && q.matcher(Image(f, win)) == p.matcher(win)
         && (p.matcher(win) ==> q.replacer(Image(f, win)) == Image(f, p.replacer(win)))
  }

  ghost predicate MirrorTables<S(!new), T>(f: S -> T, good: S -> bool, ps: seq<Pattern<S>>, qs: seq<Pattern<T>>) {
    |ps| == |qs| && forall k :: 0 <= k < |ps| ==> Mirrors(f, good, ps[k], qs[k])
  }

  lemma {:induction false} FirstMirrored<S(!new), T>(f: S -> T, good: S -> bool, ps: seq<Pattern<S>>, qs: seq<Pattern<T>>, rest: seq<S>, k: nat)
    requires MirrorTables(f, good, ps, qs) && k <= |ps| && forall x :: x in rest ==> good(x)
    ensures var a, b := FirstFrom(ps, rest, k), FirstFrom(qs, Image(f, rest), k);
            && (a.Some? <==> b.Some?)
            && (a.Some? ==> a.value.window == b.value.window && b.value.Output(Image(f, rest)) == Image(f, a.value.Output(rest)))
    decreases |ps| - k
  {
    if k < |ps| {
      var p, q := ps[k], qs[k];
      assert Mirrors(f, good, p, q);
      if p.window <= |rest| {
        var win := rest[..p.window];
        assert forall x :: x in win ==> x in rest;
        assert Image(f, rest)[..p.window] == Image(f, win);
      }
      FirstMirrored(f, good, ps, qs, rest, k + 1);
    }
  }

  lemma StepMirrored<S(!new), T(!new)>(f: S -> T, good: S -> bool, ps: seq<Pattern<S>>, qs: seq<Pattern<T>>, rest: seq<S>)
    requires ValidTable(ps) && ValidTable(qs) && MirrorTables(f, good, ps, qs) && (forall x :: x in rest ==> good(x)) && rest != []
    ensures Consumed(qs, Image(f, rest)) == Consumed(ps, rest)
    ensures Produced(qs, Image(f, rest)) == Image(f, Produced(ps, rest))
  {
    hide Mirrors, ValidPattern;
    FirstMirrored(f, good, ps, qs, rest, 0);
    assert Image(f, rest[..1]) == Image(f, rest)[..1];
  }

  lemma ImageParts<S, T>(f: S -> T, a: seq<S>, b: seq<S>)
    ensures Image(f, a + b) == Image(f, a) + Image(f, b)
    ensures Image(f, a + b)[|a|..] == Image(f, b)
  {
  }

  /** Rewriting rendered lines is rendering the rewritten ones. */
  lemma {:induction false} RewriteMirrored<S(!new), T(!new)>(f: S -> T, good: S -> bool, ps: seq<Pattern<S>>, qs: seq<Pattern<T>>, rest: seq<S>)
    requires ValidTable(ps) && ValidTable(qs) && MirrorTables(f, good, ps, qs) && forall x :: x in rest ==> good(x)
    ensures Rewrite(qs, Image(f, rest)) == Image(f, Rewrite(ps, rest))
    decreases |rest|
  {
    hide ValidTable, MirrorTables, Image, Consumed, Produced;
    if rest != [] {
      StepMirrored(f, good, ps, qs, rest);
      var w, out := Consumed(ps, rest), Produced(ps, rest);
      ImageParts(f, rest[..w], rest[w..]);
      assert rest == rest[..w] + rest[w..];
      assert forall x :: x in rest[w..] ==> x in rest;
      RewriteMirrored(f, good, ps, qs, rest[w..]);
      ImageParts(f, out, Rewrite(ps, rest[w..]));
    }
  }
}
