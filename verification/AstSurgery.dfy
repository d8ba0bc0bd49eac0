/** The ways in which the optimiser rearranges nodes, and that each keeps ownership. */
module AstSurgery {
  import opened Options
  import opened AstHeap

  ghost predicate Below<T>(h: Nodes<T>, n: Addr) {
    forall a :: a in h ==> a < n
  }

  /** The tree t of heap h has become t': the nodes of t are in t' or gone, the nodes of t' come from t or
      are new, there is no sharing, and nothing else changed. */
  ghost predicate Becomes<T>(h: Nodes<T>, n: Addr, h': Nodes<T>, n': Addr, t: Tree<T>, t': Tree<T>) {
    && Below(h', n') && n <= n' && Owns(h', t') && Swapped(h, h', Ids(t), Ids(t'))
    && (forall x :: x in Ids(t') ==> x in Ids(t) || n <= x < n')
  }

  lemma BecomesSelf<T>(h: Nodes<T>, n: Addr, t: Tree<T>)
    requires Below(h, n) && Owns(h, t)
    ensures Becomes(h, n, h, n, t, t)
  {
    HeldIds(h, t);
    assert h.Keys == (h.Keys - Ids(t)) + Ids(t);
  }

  lemma BecomesThen<T>(h: Nodes<T>, n: Addr, h1: Nodes<T>, n1: Addr, h2: Nodes<T>, n2: Addr, t: Tree<T>, t1: Tree<T>, t2: Tree<T>)
    requires Below(h, n) && Becomes(h, n, h1, n1, t, t1) && Becomes(h1, n1, h2, n2, t1, t2)
    ensures Becomes(h, n, h2, n2, t, t2)
  {
    hide Owns, Ids;
    SwappedThen(h, h1, h2, Ids(t), Ids(t1), Ids(t2));
  }

  /** How often an address occurs in a tree. */
  function Occurs<T>(t: Tree<T>, x: Addr): nat
    decreases t, 1
  {
    (if t.at == x then 1 else 0) + OccursAll(t.kids, x)
  }

  function OccursAll<T>(ks: seq<Option<Tree<T>>>, x: Addr): nat
    decreases ks, 0
  {
    if ks == [] then 0 else OccursMaybe(ks[0], x) + OccursAll(ks[1..], x)
  }

  function OccursMaybe<T>(k: Option<Tree<T>>, x: Addr): nat
    decreases k, 2
  {
    match k case None => 0 case Some(t) => Occurs(t, x)
  }

  lemma {:induction false} OccursOnce<T>(t: Tree<T>, x: Addr)
    requires Distinct(t)
    ensures Occurs(t, x) == if x in Ids(t) then 1 else 0
    decreases t, 1
  {
    OccursOnceAll(t.kids, x);
  }

  lemma {:induction false} OccursOnceAll<T>(ks: seq<Option<Tree<T>>>, x: Addr)
    requires DistinctAll(ks)
    ensures OccursAll(ks, x) == if x in IdsAll(ks) then 1 else 0
    decreases ks, 0
  {
    if ks != [] {
      OccursOnceMaybe(ks[0], x);
      OccursOnceAll(ks[1..], x);
    }
  }

  lemma {:induction false} OccursOnceMaybe<T>(k: Option<Tree<T>>, x: Addr)
    requires DistinctMaybe(k)
    ensures OccursMaybe(k, x) == if x in IdsMaybe(k) then 1 else 0
    decreases k, 2
  {
    match k case None => case Some(t) => OccursOnce(t, x);
  }

  /** Conservation: a node of the old tree, or one made since, is either reachable exactly once or gone;
      nothing gone is reachable; every other node is as it was. */
  lemma Conserved<T>(h: Nodes<T>, n: Addr, h': Nodes<T>, n': Addr, t: Tree<T>, t': Tree<T>, x: Addr)
    requires Below(h, n) && Becomes(h, n, h', n', t, t')
    ensures x in Ids(t) || n <= x < n' ==> (Occurs(t', x) == 1 <==> x in h')
    ensures Occurs(t', x) <= 1 && (Occurs(t', x) == 1 ==> x in h' && (x in Ids(t) || n <= x < n'))
    ensures x in h && x !in Ids(t) ==> x in h' && h'[x] == h[x] && Occurs(t', x) == 0
  {
    OccursOnce(t', x);
    HeldIds(h', t');
  }

  function WithKid<T>(t: Tree<T>, i: nat, k: Option<Tree<T>>): Tree<T>
    requires i < |t.kids|
  {
    Tree(t.at, t.tag, t.kids[i := k])
  }

  lemma LinksUpdate<T>(ks: seq<Option<Tree<T>>>, i: nat, k: Option<Tree<T>>)
    requires i < |ks|
    ensures Links(ks[i := k]) == Links(ks)[i := Link(k)]
  {
  }

  /** A child has become another tree, and its slot has been set to it. */
  lemma {:induction false} BecomesKid<T>(h: Nodes<T>, n: Addr, h1: Nodes<T>, n1: Addr, t: Tree<T>, i: nat, k: Tree<T>, k': Tree<T>)
    requires Below(h, n) && Owns(h, t) && i < |t.kids| && t.kids[i] == Some(k) && Becomes(h, n, h1, n1, k, k')
    ensures t.at in h1 && h1[t.at] == Node(t.tag, Links(t.kids)) && i < |h1[t.at].kids|
    ensures Becomes(h, n, h1[t.at := Node(t.tag, Links(t.kids)[i := Some(k'.at)])], n1, t, WithKid(t, i, Some(k')))
  {
    OwnsParts(h, t);
    SplitAt(h, t.kids, i);
    HeldIds(h, t);
    var p, o := t.at, Others(t.kids, i);
    assert p !in Ids(k) && p !in Ids(k');
    var h2 := h1[p := Node(t.tag, Links(t.kids)[i := Some(k'.at)])];
    assert Agree(h, h2, o);
    Frame(h1, h2, k');
    assert IdsMaybe(Some(k')) == Ids(k') && IdsMaybe(Some(k)) == Ids(k);
    assert o <= h.Keys - Ids(k);
    assert Ids(k') !! o;
    ReplaceKid(h, h2, t.kids, i, Some(k'));
    LinksUpdate(t.kids, i, Some(k'));
    var t' := WithKid(t, i, Some(k'));
    OwnsParts(h2, t');
    assert Ids(t) == {p} + o + Ids(k) && Ids(t') == {p} + o + Ids(k');
    assert h2.Keys == (h.Keys - Ids(t)) + Ids(t');
  }

  // ---------------------------------------------------------------- surgeries

  /** Free the tree, return a fresh leaf. */
  method ReplaceByLeaf<T>(h: Heap<T>, a: Addr, tag: T, ghost t: Tree<T>) returns (r: Addr, ghost t': Tree<T>)
    requires h.Valid() && Owns(h.nodes, t) && t.at == a
    modifies h
    ensures t' == Tree(r, tag, []) && Becomes(old(h.nodes), old(h.next), h.nodes, h.next, t, t')
  {
    OwnsParts(h.nodes, t);
    h.Free(Some(a), Some(t));
    r := h.New(tag);
    t' := Tree(r, tag, []);
    OwnsParts(h.nodes, t');
    LeafOwned(h.nodes, t');
    assert h.nodes.Keys == (old(h.nodes).Keys - Ids(t)) + Ids(t');
  }

  lemma LeafOwned<T>(h: Nodes<T>, t: Tree<T>)
    requires t.kids == [] && t.at in h && h[t.at] == Node(t.tag, [])
    ensures Owns(h, t) && Ids(t) == {t.at}
  {
    assert Links(t.kids) == [];
    OwnsParts(h, t);
  }

  /** Detach child i, free the rest, return the child. */
  method KeepKid<T>(h: Heap<T>, a: Addr, i: nat, ghost t: Tree<T>) returns (r: Addr, ghost t': Tree<T>)
    requires h.Valid() && Owns(h.nodes, t) && t.at == a && i < |t.kids| && t.kids[i].Some?
    modifies h
    ensures Some(t') == t.kids[i] && r == t'.at && Becomes(old(h.nodes), old(h.next), h.nodes, h.next, t, t')
  {
    ghost var h0 := h.nodes;
    OwnsParts(h0, t);
    SplitAt(h0, t.kids, i);
    t' := t.kids[i].value;
    r := h.nodes[a].kids[i].value;
    h.SetKid(a, i, None);
    ghost var rest := WithKid(t, i, None);
    Detached(h0, h.nodes, t, i);
    ghost var h1 := h.nodes;
    h.Free(Some(a), Some(rest));
    KeptKid(h0, h1, h.nodes, t, i);
  }

  /** With a slot emptied, parent and child are two trees. */
  lemma {:induction false} Detached<T>(h: Nodes<T>, h1: Nodes<T>, t: Tree<T>, i: nat)
    requires Owns(h, t) && i < |t.kids| && t.kids[i].Some?
    requires h1 == h[t.at := Node(t.tag, Links(t.kids)[i := None])]
    ensures var rest, k := WithKid(t, i, None), t.kids[i].value;
      && OwnsMaybe(h1, Some(rest)) && Owns(h1, rest) && Owns(h1, k) && Ids(rest) !! Ids(k) && Ids(t) == Ids(rest) + Ids(k) && Ids(t) <= h.Keys
  {
    OwnsParts(h, t);
    SplitAt(h, t.kids, i);
    HeldIds(h, t);
    var k, rest := t.kids[i].value, WithKid(t, i, None);
    Frame(h, h1, k);
    assert Agree(h, h1, Others(t.kids, i));
    ReplaceKid(h, h1, t.kids, i, None);
    LinksUpdate(t.kids, i, None);
    OwnsParts(h1, rest);
    assert IdsMaybe(t.kids[i]) == Ids(k);
  }

  lemma {:induction false} KeptKid<T>(h: Nodes<T>, h1: Nodes<T>, h2: Nodes<T>, t: Tree<T>, i: nat)
    requires Owns(h, t) && i < |t.kids| && t.kids[i].Some?
    requires h1 == h[t.at := Node(t.tag, Links(t.kids)[i := None])]
    requires Swapped(h1, h2, Ids(WithKid(t, i, None)), {})
    ensures Owns(h2, t.kids[i].value) && Swapped(h, h2, Ids(t), Ids(t.kids[i].value)) && Ids(t.kids[i].value) <= Ids(t)
  {
    Detached(h, h1, t, i);
    var k := t.kids[i].value;
    hide Ids, Holds, Distinct;
    assert Agree(h1, h2, Ids(k));
    FrameOwns(h1, h2, k);
    assert h2.Keys == (h.Keys - Ids(t)) + Ids(k);
  }

  lemma FrameOwns<T>(h: Nodes<T>, h': Nodes<T>, t: Tree<T>)
    requires Owns(h, t) && Agree(h, h', Ids(t))
    ensures Owns(h', t)
  {
    Frame(h, h', t);
  }

  /** Change what a node is, not its children. */
  method Retag<T>(h: Heap<T>, a: Addr, tag: T, ghost t: Tree<T>) returns (ghost t': Tree<T>)
    requires h.Valid() && Owns(h.nodes, t) && t.at == a
    modifies h
    ensures t' == Tree(a, tag, t.kids) && Becomes(old(h.nodes), old(h.next), h.nodes, h.next, t, t')
  {
    ghost var h0 := h.nodes;
    OwnsParts(h0, t);
    HeldIds(h0, t);
    h.SetTag(a, tag);
    t' := Tree(a, tag, t.kids);
    FrameAll(h0, h.nodes, t.kids);
    OwnsParts(h.nodes, t');
    assert h.nodes.Keys == (h0.Keys - Ids(t)) + Ids(t');
  }

  /** Free child i, put a fresh leaf in its slot. */
  method NewKid<T>(h: Heap<T>, a: Addr, i: nat, tag: T, ghost t: Tree<T>) returns (ghost t': Tree<T>)
    requires h.Valid() && Owns(h.nodes, t) && t.at == a && i < |t.kids| && t.kids[i].Some?
    modifies h
    ensures exists at :: t' == WithKid(t, i, Some(Tree(at, tag, [])))
    ensures Becomes(old(h.nodes), old(h.next), h.nodes, h.next, t, t')
  {
    ghost var h0, n0, k := h.nodes, h.next, t.kids[i].value;
    OwnsParts(h0, t);
    KidAt(h0, t.kids, i);
    OwnsParts(h0, k);
    ghost var lit;
    var r;
    r, lit := ReplaceByLeaf(h, h.nodes[a].kids[i].value, tag, k);
    BecomesKid(h0, n0, h.nodes, h.next, t, i, k, lit);
    h.SetKid(a, i, Some(r));
    t' := WithKid(t, i, Some(lit));
  }

  lemma TwoKids<T>(h: Nodes<T>, ks: seq<Option<Tree<T>>>)
    requires |ks| == 2 && ks[0].Some? && ks[1].Some?
    ensures OwnsAll(h, ks) <==> Owns(h, ks[0].value) && Owns(h, ks[1].value) && Ids(ks[0].value) !! Ids(ks[1].value)
    ensures IdsAll(ks) == Ids(ks[0].value) + Ids(ks[1].value)
  {
    var b := ks[1..];
    assert b[0] == ks[1] && b[1..] == [];
    assert IdsAll(b) == IdsMaybe(ks[1]) by { assert IdsAll(b[1..]) == {}; }
    assert HoldsAll(h, b) == HoldsMaybe(h, ks[1]);
    assert DistinctAll(b) == DistinctMaybe(ks[1]);
    OwnsParts(h, ks[0].value);
    OwnsParts(h, ks[1].value);
  }

  lemma OneKid<T>(h: Nodes<T>, ks: seq<Option<Tree<T>>>)
    requires |ks| == 1 && ks[0].Some?
    ensures (OwnsAll(h, ks) <==> Owns(h, ks[0].value)) && IdsAll(ks) == Ids(ks[0].value)
  {
    var rest := ks[1..];
    assert rest == [];
    assert HoldsAll(h, rest) && DistinctAll(rest) && IdsAll(rest) == {};
    assert HoldsAll(h, ks) == HoldsMaybe(h, ks[0]) && DistinctAll(ks) == DistinctMaybe(ks[0]);
    OwnsParts(h, ks[0].value);
  }

  /** The right child moves to the left slot, a fresh leaf takes the right one, the left child is freed. */
  method MoveRight<T>(h: Heap<T>, a: Addr, leaf: T, ghost t: Tree<T>) returns (ghost t': Tree<T>)
    requires h.Valid() && Owns(h.nodes, t) && t.at == a && |t.kids| == 2 && t.kids[0].Some? && t.kids[1].Some?
    modifies h
    ensures exists at :: t' == Tree(a, t.tag, [t.kids[1], Some(Tree(at, leaf, []))])
    ensures Becomes(old(h.nodes), old(h.next), h.nodes, h.next, t, t')
  {
    ghost var h0, n0, l, r := h.nodes, h.next, t.kids[0].value, t.kids[1].value;
    OwnsParts(h0, t);
    TwoKids(h0, t.kids);
    HeldIds(h0, t);
    var left, right := h.nodes[a].kids[0].value, h.nodes[a].kids[1].value;
    var lit := h.New(leaf);
    h.SetKid(a, 0, Some(right));
    h.SetKid(a, 1, Some(lit));
    ghost var h1 := h.nodes;
    t' := Tree(a, t.tag, [t.kids[1], Some(Tree(lit, leaf, []))]);
    assert h1[a] == Node(t.tag, Links(t'.kids));
    FrameOwns(h0, h1, l);
    FrameOwns(h0, h1, r);
    OwnsParts(h1, l);
    h.Free(Some(left), Some(l));
    MovedRight(h0, h1, h.nodes, n0, t, t', leaf);
  }

  lemma {:induction false} MovedRight<T>(h: Nodes<T>, h1: Nodes<T>, h2: Nodes<T>, n: Addr, t: Tree<T>, t': Tree<T>, leaf: T)
    requires Below(h, n) && Owns(h, t) && |t.kids| == 2 && t.kids[0].Some? && t.kids[1].Some?
    requires t' == Tree(t.at, t.tag, [t.kids[1], Some(Tree(n, leaf, []))])
    requires h1 == h[n := Node(leaf, [])][t.at := Node(t.tag, Links(t'.kids))]
    requires Swapped(h1, h2, Ids(t.kids[0].value), {})
    ensures Becomes(h, n, h2, n + 1, t, t')
  {
    var l, r, lit := t.kids[0].value, t.kids[1].value, t'.kids[1].value;
    OwnsParts(h, t);
    TwoKids(h, t.kids);
    HeldIds(h, t);
    assert t.at != n && t.at !in Ids(l) && t.at !in Ids(r);
    assert Agree(h, h2, Ids(r));
    FrameOwns(h, h2, r);
    LeafOwned(h2, lit);
    TwoKids(h2, t'.kids);
    OwnsParts(h2, t');
    assert Ids(t) == {t.at} + Ids(l) + Ids(r) && Ids(t') == {t.at} + Ids(r) + {n};
    assert h2.Keys == (h.Keys - Ids(t)) + Ids(t');
  }

  /** Detach the child of the only child, free both outer nodes, return the inner tree. */
  method KeepGrandkid<T>(h: Heap<T>, a: Addr, ghost t: Tree<T>) returns (r: Addr, ghost t': Tree<T>)
    requires h.Valid() && Owns(h.nodes, t) && t.at == a && |t.kids| == 1 && t.kids[0].Some?
    requires |t.kids[0].value.kids| == 1 && t.kids[0].value.kids[0].Some?
    modifies h
    ensures Some(t') == t.kids[0].value.kids[0] && r == t'.at && Becomes(old(h.nodes), old(h.next), h.nodes, h.next, t, t')
  {
    ghost var h0, inner := h.nodes, t.kids[0].value;
    OwnsParts(h0, t);
    OneKid(h0, t.kids);
    OwnsParts(h0, inner);
    HeldIds(h0, t);
    t' := inner.kids[0].value;
    var b := h.nodes[a].kids[0].value;
    r := h.nodes[b].kids[0].value;
    h.SetKid(b, 0, None);
    ghost var h1 := h.nodes;
    Detached(h0, h1, inner, 0);
    ghost var hollow := WithKid(inner, 0, None);
    ghost var rest := WithKid(t, 0, Some(hollow));
    OneKid(h1, rest.kids);
    assert h1[a] == Node(t.tag, Links(rest.kids));
    OwnsParts(h1, rest);
    h.Free(Some(a), Some(rest));
    FrameOwns(h1, h.nodes, t');
    assert Ids(t) == {a} + Ids(inner) && Ids(rest) == {a} + Ids(hollow);
    assert h.nodes.Keys == (h0.Keys - Ids(t)) + Ids(t');
  }

  /** A fresh node over x and a fresh leaf. */
  method Wrap<T>(h: Heap<T>, x: Addr, tag: T, leaf: T, ghost t: Tree<T>) returns (r: Addr, ghost t': Tree<T>)
    requires h.Valid() && Owns(h.nodes, t) && t.at == x
    modifies h
    ensures exists at :: t' == Tree(r, tag, [Some(t), Some(Tree(at, leaf, []))])
    ensures t'.at == r && Becomes(old(h.nodes), old(h.next), h.nodes, h.next, t, t')
  {
    ghost var h0 := h.nodes;
    HeldIds(h0, t);
    r := h.New(tag);
    var z := h.New(leaf);
    h.AddChild(r, x);
    h.AddChild(r, z);
    t' := Tree(r, tag, [Some(t), Some(Tree(z, leaf, []))]);
    assert h.nodes[r] == Node(tag, Links(t'.kids));
    FrameOwns(h0, h.nodes, t);
    LeafOwned(h.nodes, Tree(z, leaf, []));
    TwoKids(h.nodes, t'.kids);
    OwnsParts(h.nodes, t');
    assert Ids(t') == {r} + Ids(t) + {z};
    assert h.nodes.Keys == (h0.Keys - Ids(t)) + Ids(t');
  }

  /** A fresh node over x. */
  method WrapOne<T>(h: Heap<T>, x: Addr, tag: T, ghost t: Tree<T>) returns (r: Addr, ghost t': Tree<T>)
    requires h.Valid() && Owns(h.nodes, t) && t.at == x
    modifies h
    ensures t' == Tree(r, tag, [Some(t)]) && Becomes(old(h.nodes), old(h.next), h.nodes, h.next, t, t')
  {
    ghost var h0 := h.nodes;
    HeldIds(h0, t);
    r := h.New(tag);
    h.AddChild(r, x);
    t' := Tree(r, tag, [Some(t)]);
    assert h.nodes[r] == Node(tag, Links(t'.kids));
    FrameOwns(h0, h.nodes, t);
    OneKid(h.nodes, t'.kids);
    OwnsParts(h.nodes, t');
    assert h.nodes.Keys == (h0.Keys - Ids(t)) + Ids(t');
  }

  // ---------------------------------------------------------------- dropping children

  lemma {:induction false} JoinKids<T>(h: Nodes<T>, a: seq<Option<Tree<T>>>, b: seq<Option<Tree<T>>>)
    ensures IdsAll(a + b) == IdsAll(a) + IdsAll(b)
    ensures HoldsAll(h, a + b) <==> HoldsAll(h, a) && HoldsAll(h, b)
    ensures DistinctAll(a + b) <==> DistinctAll(a) && DistinctAll(b) && IdsAll(a) !! IdsAll(b)
    decreases |a|
  {
    if a == [] {
      assert a + b == b;
    } else {
      assert (a + b)[0] == a[0] && (a + b)[1..] == a[1..] + b;
      JoinKids(h, a[1..], b);
    }
  }

  /** Free the children from i up to j. */
  method FreeRange<T>(h: Heap<T>, a: Addr, i: nat, j: nat, ghost ks: seq<Option<Tree<T>>>)
    requires h.Valid() && a in h.nodes && i <= j <= |ks| && h.nodes[a].kids == Links(ks) && OwnsAll(h.nodes, ks[i..j]) && a !in IdsAll(ks[i..j])
    modifies h`nodes
    ensures h.Valid() && a in h.nodes && h.nodes[a] == old(h.nodes)[a] && Swapped(old(h.nodes), h.nodes, IdsAll(ks[i..j]), {})
  {
    hide HoldsAll, DistinctAll, Ids;
    ghost var h0, n := h.nodes, h.nodes[a];
    var k := i;
    RangeStart(ks, i, j);
    while k < j
      invariant i <= k <= j && h.Valid() && a in h.nodes && h.nodes[a] == n
      invariant Swapped(h0, h.nodes, IdsAll(ks[i..k]), {}) && OwnsAll(h.nodes, ks[k..j]) && a !in IdsAll(ks[k..j])
    {
      ghost var before := h.nodes;
      RangeStep(h.nodes, ks, i, k, j);
      h.Free(h.nodes[a].kids[k], ks[k]);
      FrameAll(before, h.nodes, ks[k + 1..j]);
      SwappedMore(h0, before, h.nodes, IdsAll(ks[i..k]), IdsMaybe(ks[k]));
      k := k + 1;
    }
  }

  lemma RangeStart<T>(ks: seq<Option<Tree<T>>>, i: nat, j: nat)
    requires i <= j <= |ks|
    ensures IdsAll(ks[i..i]) == {}
  {
    assert ks[i..i] == [];
  }

  lemma PrefixOf<T>(ks: seq<T>, i: nat, k: nat)
    requires i <= k < |ks|
    ensures var e := ks[i..k + 1]; e[..k - i] == ks[i..k] && e[..k - i + 1] == e
  {
  }

  lemma {:induction false} RangeStep<T>(h: Nodes<T>, ks: seq<Option<Tree<T>>>, i: nat, k: nat, j: nat)
    requires i <= k < j <= |ks| && OwnsAll(h, ks[k..j])
    ensures OwnsMaybe(h, ks[k]) && OwnsAll(h, ks[k + 1..j]) && IdsMaybe(ks[k]) !! IdsAll(ks[k + 1..j])
    ensures IdsAll(ks[k..j]) == IdsMaybe(ks[k]) + IdsAll(ks[k + 1..j]) && IdsAll(ks[i..k + 1]) == IdsAll(ks[i..k]) + IdsMaybe(ks[k])
  {
    var d, e := ks[k..j], ks[i..k + 1];
    assert d[0] == ks[k] && d[1..] == ks[k + 1..j];
    TakeKid(e, k - i);
    PrefixOf(ks, i, k);
  }

  /** Free the children from i up to j and close the gap. */
  method DropKids<T>(h: Heap<T>, a: Addr, i: nat, j: nat, ghost t: Tree<T>) returns (ghost t': Tree<T>)
    requires h.Valid() && Owns(h.nodes, t) && t.at == a && i <= j <= |t.kids|
    modifies h
    ensures t' == Tree(a, t.tag, t.kids[..i] + t.kids[j..]) && Becomes(old(h.nodes), old(h.next), h.nodes, h.next, t, t')
  {
    hide HoldsAll, DistinctAll, Holds, Distinct, Ids, IdsAll;
    ghost var h0 := h.nodes;
    OwnsParts(h0, t);
    Parts(h0, t.kids, i, j);
    FreeRange(h, a, i, j, t.kids);
    ghost var h1 := h.nodes;
    h.nodes := h.nodes[a := Node(h.nodes[a].tag, h.nodes[a].kids[..i] + h.nodes[a].kids[j..])];
    t' := Tree(a, t.tag, t.kids[..i] + t.kids[j..]);
    Dropped(h0, h1, h.nodes, t, i, j);
  }

  /** The kept and the dropped children. */
  lemma {:induction false} Parts<T>(h: Nodes<T>, ks: seq<Option<Tree<T>>>, i: nat, j: nat)
    requires OwnsAll(h, ks) && i <= j <= |ks|
    ensures var keep, drop := ks[..i] + ks[j..], ks[i..j];
      OwnsAll(h, keep) && OwnsAll(h, drop) && IdsAll(keep) !! IdsAll(drop) && IdsAll(ks) == IdsAll(keep) + IdsAll(drop)
  {
    assert ks == ks[..i] + (ks[i..j] + ks[j..]);
    JoinKids(h, ks[..i], ks[i..j] + ks[j..]);
    JoinKids(h, ks[i..j], ks[j..]);
    JoinKids(h, ks[..i], ks[j..]);
  }

  lemma {:induction false} Dropped<T>(h: Nodes<T>, h1: Nodes<T>, h2: Nodes<T>, t: Tree<T>, i: nat, j: nat)
    requires Owns(h, t) && i <= j <= |t.kids| && Swapped(h, h1, IdsAll(t.kids[i..j]), {})
    requires h2 == h1[t.at := Node(t.tag, Links(t.kids)[..i] + Links(t.kids)[j..])]
    ensures var t' := Tree(t.at, t.tag, t.kids[..i] + t.kids[j..]);
      Owns(h2, t') && Swapped(h, h2, Ids(t), Ids(t')) && Ids(t') <= Ids(t)
  {
    var ks, keep, drop := t.kids, t.kids[..i] + t.kids[j..], t.kids[i..j];
    OwnsParts(h, t);
    HeldIds(h, t);
    Parts(h, ks, i, j);
    assert Links(keep) == Links(ks)[..i] + Links(ks)[j..];
    assert Agree(h, h2, IdsAll(keep));
    FrameAll(h, h2, keep);
    var t' := Tree(t.at, t.tag, keep);
    OwnsParts(h2, t');
    assert Ids(t) == {t.at} + IdsAll(keep) + IdsAll(drop);
    assert h2.Keys == (h.Keys - Ids(t)) + Ids(t');
  }
}
