/** The syntax tree in memory (src/ast.c): nodes that are allocated, linked, updated in place and freed.

    A node exists while its address is a key of the heap; addresses are never reused, so touching or
    freeing a node twice is touching an address that is not there.
 */
module AstHeap {
  import opened Options

  type Addr = nat

  /** A node: what it is, and its child slots, which may be empty. */
  datatype Node<T> = Node(tag: T, kids: seq<Option<Addr>>)

  type Nodes<T> = map<Addr, Node<T>>

  /** A tree as it lies in memory. */
  datatype Tree<T> = Tree(at: Addr, tag: T, kids: seq<Option<Tree<T>>>)

  // ---------------------------------------------------------------- ownership

  function Ids<T>(t: Tree<T>): set<Addr>
    decreases t, 1
  {
    {t.at} + IdsAll(t.kids)
  }

  function IdsAll<T>(ks: seq<Option<Tree<T>>>): set<Addr>
    decreases ks, 0
  {
    if ks == [] then {} else IdsMaybe(ks[0]) + IdsAll(ks[1..])
  }

  function IdsMaybe<T>(k: Option<Tree<T>>): set<Addr>
    decreases k, 2
  {
    match k case None => {} case Some(t) => Ids(t)
  }

  /** No node is reachable twice. */
  ghost predicate Distinct<T>(t: Tree<T>)
    decreases t, 1
  {
    t.at !in IdsAll(t.kids) && DistinctAll(t.kids)
  }

  ghost predicate DistinctAll<T>(ks: seq<Option<Tree<T>>>)
    decreases ks, 0
  {
    ks != [] ==> DistinctMaybe(ks[0]) && IdsMaybe(ks[0]) !! IdsAll(ks[1..]) && DistinctAll(ks[1..])
  }

  ghost predicate DistinctMaybe<T>(k: Option<Tree<T>>)
    decreases k, 2
  {
    match k case None => true case Some(t) => Distinct(t)
  }

  function Link<T>(k: Option<Tree<T>>): Option<Addr> {
    if k.Some? then Some(k.value.at) else None
  }

  function Links<T>(ks: seq<Option<Tree<T>>>): (r: seq<Option<Addr>>)
    ensures |r| == |ks| && forall i :: 0 <= i < |ks| ==> r[i] == Link(ks[i])
  {
    seq(|ks|, i requires 0 <= i < |ks| => Link(ks[i]))
  }

  /** The tree lies in the heap. */
  ghost predicate Holds<T>(h: Nodes<T>, t: Tree<T>)
    decreases t, 1
  {
    t.at in h && h[t.at] == Node(t.tag, Links(t.kids)) && HoldsAll(h, t.kids)
  }

  ghost predicate HoldsAll<T>(h: Nodes<T>, ks: seq<Option<Tree<T>>>)
    decreases ks, 0
  {
    ks != [] ==> HoldsMaybe(h, ks[0]) && HoldsAll(h, ks[1..])
  }

  ghost predicate HoldsMaybe<T>(h: Nodes<T>, k: Option<Tree<T>>)
    decreases k, 2
  {
    match k case None => true case Some(t) => Holds(h, t)
  }

  /** The tree lies in the heap without sharing. */
  ghost predicate Owns<T>(h: Nodes<T>, t: Tree<T>) {
    Holds(h, t) && Distinct(t)
  }

  ghost predicate OwnsAll<T>(h: Nodes<T>, ks: seq<Option<Tree<T>>>) {
    HoldsAll(h, ks) && DistinctAll(ks)
  }

  ghost predicate OwnsMaybe<T>(h: Nodes<T>, k: Option<Tree<T>>) {
    HoldsMaybe(h, k) && DistinctMaybe(k)
  }

  lemma OwnsParts<T>(h: Nodes<T>, t: Tree<T>)
    ensures Owns(h, t) <==> t.at in h && h[t.at] == Node(t.tag, Links(t.kids)) && OwnsAll(h, t.kids) && t.at !in IdsAll(t.kids)
    ensures OwnsMaybe(h, Some(t)) <==> Owns(h, t)
    ensures IdsMaybe(Some(t)) == Ids(t) == {t.at} + IdsAll(t.kids)
  {
  }

  lemma {:induction false} HeldIds<T>(h: Nodes<T>, t: Tree<T>)
    requires Holds(h, t)
    ensures Ids(t) <= h.Keys
    decreases t, 1
  {
    HeldIdsAll(h, t.kids);
  }

  lemma {:induction false} HeldIdsAll<T>(h: Nodes<T>, ks: seq<Option<Tree<T>>>)
    requires HoldsAll(h, ks)
    ensures IdsAll(ks) <= h.Keys
    decreases ks, 0
  {
    if ks != [] {
      HeldIdsMaybe(h, ks[0]);
      HeldIdsAll(h, ks[1..]);
    }
  }

  lemma {:induction false} HeldIdsMaybe<T>(h: Nodes<T>, k: Option<Tree<T>>)
    requires HoldsMaybe(h, k)
    ensures IdsMaybe(k) <= h.Keys
    decreases k, 2
  {
    match k case None => case Some(t) => HeldIds(h, t);
  }

  /** Two heaps that agree on a set of addresses. */
  ghost predicate Agree<T>(h: Nodes<T>, h': Nodes<T>, s: set<Addr>) {
    forall a :: a in s && a in h ==> a in h' && h'[a] == h[a]
  }

  lemma {:induction false} Frame<T>(h: Nodes<T>, h': Nodes<T>, t: Tree<T>)
    requires Holds(h, t) && Agree(h, h', Ids(t))
    ensures Holds(h', t)
    decreases t, 1
  {
    FrameAll(h, h', t.kids);
  }

  lemma {:induction false} FrameAll<T>(h: Nodes<T>, h': Nodes<T>, ks: seq<Option<Tree<T>>>)
    requires HoldsAll(h, ks) && Agree(h, h', IdsAll(ks))
    ensures HoldsAll(h', ks)
    decreases ks, 0
  {
    if ks != [] {
      FrameMaybe(h, h', ks[0]);
      FrameAll(h, h', ks[1..]);
    }
  }

  lemma {:induction false} FrameMaybe<T>(h: Nodes<T>, h': Nodes<T>, k: Option<Tree<T>>)
    requires HoldsMaybe(h, k) && Agree(h, h', IdsMaybe(k))
    ensures HoldsMaybe(h', k)
    decreases k, 2
  {
    match k case None => case Some(t) => Frame(h, h', t);
  }

  /** Between two heaps exactly the nodes of a were taken away and those of b put in. */
  ghost predicate Swapped<T>(h: Nodes<T>, h': Nodes<T>, a: set<Addr>, b: set<Addr>) {
    h'.Keys == (h.Keys - a) + b && forall k :: k in h && k !in a ==> k in h' && h'[k] == h[k]
  }

  lemma SwappedThen<T>(h: Nodes<T>, h1: Nodes<T>, h2: Nodes<T>, a: set<Addr>, b: set<Addr>, c: set<Addr>)
    requires Swapped(h, h1, a, b) && Swapped(h1, h2, b, c) && b !! (h.Keys - a)
    ensures Swapped(h, h2, a, c)
  {
    assert h2.Keys == (h.Keys - a) + c;
  }

  // ---------------------------------------------------------------- children

  lemma {:induction false} KidAt<T>(h: Nodes<T>, ks: seq<Option<Tree<T>>>, i: nat)
    requires OwnsAll(h, ks) && i < |ks|
    ensures OwnsMaybe(h, ks[i]) && IdsMaybe(ks[i]) <= IdsAll(ks)
    decreases i
  {
    if i > 0 { KidAt(h, ks[1..], i - 1); }
  }

  lemma {:induction false} KidsApart<T>(ks: seq<Option<Tree<T>>>, i: nat, j: nat)
    requires DistinctAll(ks) && i < j < |ks|
    ensures IdsMaybe(ks[i]) !! IdsMaybe(ks[j])
    decreases i
  {
    if i > 0 {
      KidsApart(ks[1..], i - 1, j - 1);
    } else {
      InIds(ks[1..], j - 1);
    }
  }

  lemma {:induction false} InIds<T>(ks: seq<Option<Tree<T>>>, i: nat)
    requires i < |ks|
    ensures IdsMaybe(ks[i]) <= IdsAll(ks)
    decreases i
  {
    if i > 0 { InIds(ks[1..], i - 1); }
  }

  /** The addresses of the children other than i. */
  function Others<T>(ks: seq<Option<Tree<T>>>, i: nat): set<Addr>
    requires i < |ks|
  {
    IdsAll(ks[..i]) + IdsAll(ks[i + 1..])
  }

  lemma {:induction false} SplitAt<T>(h: Nodes<T>, ks: seq<Option<Tree<T>>>, i: nat)
    requires i < |ks|
    ensures IdsAll(ks) == Others(ks, i) + IdsMaybe(ks[i])
    ensures HoldsAll(h, ks) <==> HoldsAll(h, ks[..i]) && HoldsMaybe(h, ks[i]) && HoldsAll(h, ks[i + 1..])
    ensures DistinctAll(ks) <==> (DistinctAll(ks[..i]) && DistinctMaybe(ks[i]) && DistinctAll(ks[i + 1..])
      && IdsAll(ks[..i]) !! IdsMaybe(ks[i]) && IdsMaybe(ks[i]) !! IdsAll(ks[i + 1..]) && IdsAll(ks[..i]) !! IdsAll(ks[i + 1..]))
    decreases i
  {
    if i == 0 {
      assert ks[..0] == [];
    } else {
      SplitAt(h, ks[1..], i - 1);
      assert ks[1..][..i - 1] == ks[..i][1..] && ks[1..][i..] == ks[i + 1..];
    }
  }

  /** One child is exchanged for a tree of addresses nobody else has. */
  lemma {:induction false} ReplaceKid<T>(h: Nodes<T>, h': Nodes<T>, ks: seq<Option<Tree<T>>>, i: nat, k: Option<Tree<T>>)
    requires OwnsAll(h, ks) && i < |ks| && OwnsMaybe(h', k) && Agree(h, h', Others(ks, i)) && IdsMaybe(k) !! Others(ks, i)
    ensures OwnsAll(h', ks[i := k]) && IdsAll(ks[i := k]) == Others(ks, i) + IdsMaybe(k)
  {
    SplitAt(h, ks, i);
    var ks' := ks[i := k];
    assert ks'[..i] == ks[..i] && ks'[i + 1..] == ks[i + 1..];
    FrameAll(h, h', ks[..i]);
    FrameAll(h, h', ks[i + 1..]);
    SplitAt(h', ks', i);
  }

  // ---------------------------------------------------------------- the heap

  class Heap<T> {
    var nodes: Nodes<T>
    var next: Addr

    ghost predicate Valid()
      reads this
    {
      forall a :: a in nodes ==> a < next
    }

    constructor ()
      ensures Valid() && nodes == map[]
    {
      nodes, next := map[], 0;
    }

    /** ast_new */
    method New(tag: T) returns (a: Addr)
      requires Valid()
      modifies this
      ensures Valid() && a == old(next) && next == a + 1 && a !in old(nodes) && nodes == old(nodes)[a := Node(tag, [])]
    {
      a := next;
      nodes := nodes[a := Node(tag, [])];
      next := next + 1;
    }

    /** ast_add_child */
    method AddChild(p: Addr, c: Addr)
      requires Valid() && p in nodes
      modifies this`nodes
      ensures Valid() && nodes == old(nodes)[p := Node(old(nodes)[p].tag, old(nodes)[p].kids + [Some(c)])]
    {
      nodes := nodes[p := Node(nodes[p].tag, nodes[p].kids + [Some(c)])];
    }

    method SetKid(p: Addr, i: nat, k: Option<Addr>)
      requires Valid() && p in nodes && i < |nodes[p].kids|
      modifies this`nodes
      ensures Valid() && nodes == old(nodes)[p := Node(old(nodes)[p].tag, old(nodes)[p].kids[i := k])]
    {
      nodes := nodes[p := Node(nodes[p].tag, nodes[p].kids[i := k])];
    }

    method SetTag(p: Addr, tag: T)
      requires Valid() && p in nodes
      modifies this`nodes
      ensures Valid() && nodes == old(nodes)[p := Node(tag, old(nodes)[p].kids)]
    {
      nodes := nodes[p := Node(tag, nodes[p].kids)];
    }

    /** ast_free: takes away exactly the nodes of the tree, each once. */
    method Free(a: Option<Addr>, ghost k: Option<Tree<T>>)
      requires Valid() && OwnsMaybe(nodes, k) && a == Link(k)
      modifies this`nodes
      ensures Valid() && Swapped(old(nodes), nodes, IdsMaybe(k), {})
      decreases k
    {
      if a.None? { return; }
      ghost var t := k.value;
      OwnsParts(nodes, t);
      var p := a.value;
      var i := 0;
      assert t.kids[..0] == [] && t.kids[0..] == t.kids;
      while i < |nodes[p].kids|
        invariant 0 <= i <= |t.kids| && p == t.at && Valid()
        invariant p in nodes && nodes[p] == Node(t.tag, Links(t.kids))
        invariant Swapped(old(nodes), nodes, IdsAll(t.kids[..i]), {})
        invariant OwnsAll(nodes, t.kids[i..]) && IdsAll(t.kids[..i]) !! IdsAll(t.kids[i..]) && IdsAll(t.kids) == IdsAll(t.kids[..i]) + IdsAll(t.kids[i..])
        decreases |t.kids| - i
      {
        ghost var before, rest := nodes, t.kids[i..];
        assert rest[0] == t.kids[i] && rest[1..] == t.kids[i + 1..];
        TakeKid(t.kids, i);
        Free(nodes[p].kids[i], t.kids[i]);
        FrameAll(before, nodes, rest[1..]);
        SwappedMore(old(nodes), before, nodes, IdsAll(t.kids[..i]), IdsMaybe(t.kids[i]));
        i := i + 1;
      }
      assert t.kids[..i] == t.kids;
      nodes := nodes - {p};
      assert IdsMaybe(k) == {p} + IdsAll(t.kids);
    }
  }

  lemma {:induction false} TakeKid<T>(ks: seq<Option<Tree<T>>>, i: nat)
    requires i < |ks|
    ensures IdsAll(ks[..i + 1]) == IdsAll(ks[..i]) + IdsMaybe(ks[i])
  {
    var a := ks[..i + 1];
    SplitAt(map[], a, i);
    assert a[..i] == ks[..i] && a[i + 1..] == [];
  }

  lemma SwappedMore<T>(h: Nodes<T>, h1: Nodes<T>, h2: Nodes<T>, a: set<Addr>, b: set<Addr>)
    requires Swapped(h, h1, a, {}) && Swapped(h1, h2, b, {})
    ensures Swapped(h, h2, a + b, {})
  {
    assert h2.Keys == h.Keys - (a + b);
  }
}
