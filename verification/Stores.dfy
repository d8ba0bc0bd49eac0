/** Program variables by scope: a stack of frames, each naming the variables declared in one scope.
    A variable without a value has been declared but not initialised. */
module Stores {
  import opened Options

  type Frame = map<string, Option<int>>

  type Store = seq<Frame>

  /** The innermost scope that declares x. */
  function Find(st: Store, x: string): (r: Option<nat>)
    ensures r.Some? ==> r.value < |st| && x in st[r.value] && forall i :: r.value < i < |st| ==> x !in st[i]
    ensures r.None? <==> forall i :: 0 <= i < |st| ==> x !in st[i]
  {
    if st == [] then None
    else if x in st[|st| - 1] then Some(|st| - 1)
    else Find(st[..|st| - 1], x)
  }

  lemma FindIs(st: Store, x: string, i: nat)
    requires i < |st| && x in st[i] && forall j :: i < j < |st| ==> x !in st[j]
    ensures Find(st, x) == Some(i)
  {
  }

  function Get(st: Store, x: string): Option<int> {
    var i := Find(st, x);
    if i.Some? then st[i.value][x] else None
  }

  function Set(st: Store, x: string, v: int): (r: Store)
    requires Find(st, x).Some?
    ensures |r| == |st|
  {
    var i := Find(st, x).value;
    st[i := st[i][x := Some(v)]]
  }

  /** Assignment changes the value of x and nothing else, and declares nothing. */
  lemma SetGet(st: Store, x: string, v: int, y: string)
    requires Find(st, x).Some?
    ensures Find(Set(st, x, v), y) == Find(st, y)
    ensures Get(Set(st, x, v), y) == if y == x then Some(v) else Get(st, y)
  {
    var i, r := Find(st, x).value, Set(st, x, v);
    var j := Find(st, y);
    if j.Some? {
      FindIs(r, y, j.value);
    }
  }

  /** A declaration in the innermost scope. */
  function Declare(st: Store, x: string, v: Option<int>): (r: Store)
    requires st != []
    ensures |r| == |st|
  {
    var n := |st| - 1;
    st[n := st[n][x := v]]
  }

  lemma DeclareGet(st: Store, x: string, v: Option<int>, y: string)
    requires st != []
    ensures y == x ==> Find(Declare(st, x, v), y) == Some(|st| - 1)
    ensures y != x ==> Find(Declare(st, x, v), y) == Find(st, y)
    ensures Get(Declare(st, x, v), y) == if y == x then v else Get(st, y)
  {
    var r := Declare(st, x, v);
    if y == x {
      FindIs(r, y, |st| - 1);
    } else if Find(st, y).Some? {
      FindIs(r, y, Find(st, y).value);
    }
  }
}
