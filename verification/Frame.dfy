/** Stack frame slots (codegen_add_var, compute_decl_bytes, claim_struct_ret_temp and the prologue in
    src/codegen.c). A slot of n bytes at offset o occupies the addresses rbp - o up to rbp - o + n - 1. */
module Frame {
  import opened Options

  /** Rounding up to a multiple; the source masks with ~(a - 1), which is the same for powers of two. */
  function RoundUp(x: nat, a: nat): nat
    requires a > 0
  {
    (x + a - 1) / a * a
  }

  predicate IsAlign(a: nat) {
    a == 1 || a == 2 || a == 4 || a == 8
  }

  datatype Slot = Slot(offset: nat, size: nat, align: nat)

  /** A request for a slot and the bytes that the prologue budgets for it; a static or an unnamed
      parameter is budgeted but gets no slot. */
  datatype Request = Request(placed: bool, size: nat, align: nat, budget: nat)

  predicate WellFormed(q: Request) {
    IsAlign(q.align)
  }

  // ---------------------------------------------------------------- declarations

  datatype Decl =
    | Scalar(size: nat)
    | Array(size: nat, align: nat)
    | Aggregate(size: nat, align: nat)
    | Static(size: nat)
    | Literal(size: nat, align: nat)

  /** compute_decl_bytes and compute_compound_literal_bytes against codegen_add_var. */
  function DeclRequest(d: Decl): Request {
    match d
    case Scalar(n) => Request(true, n, n, 8)
    case Array(n, a) => Request(true, n, a, n + 7)
    case Aggregate(n, a) => Request(true, n, a, n + (if a > 0 then a - 1 else 0))
    case Static(_) => Request(false, 0, 1, 8)
    case Literal(n, a) => Request(true, n, a, n + (if a > 1 then a - 1 else 0))
  }

  datatype Param = ScalarParam(size: nat) | StructParam(size: nat) | UnnamedParam(bytes: nat)

  function ParamRequest(p: Param): Request {
    match p
    case ScalarParam(n) => Request(true, n, n, 8)
    case StructParam(n) => Request(true, RoundUp(n, 8), 8, RoundUp(n, 8))
    case UnnamedParam(n) => Request(false, 0, 1, RoundUp(n, 8))
  }

  /** The body as a tree of nodes with the declarations they carry. */
  datatype Node = Node(own: Option<Decl>, kids: seq<Node>)

  /** The recursive walk that adds up the budget. */
  function Budget(t: Node): nat
    decreases t, 1
  {
    (if t.own.Some? then DeclRequest(t.own.value).budget else 0) + BudgetAll(t.kids)
  }

  function BudgetAll(ts: seq<Node>): nat
    decreases ts, 0
  {
    if ts == [] then 0 else Budget(ts[0]) + BudgetAll(ts[1..])
  }

  /** The declarations in the order in which code is emitted for them. */
  function Flatten(t: Node): seq<Request>
    decreases t, 1
  {
    (if t.own.Some? then [DeclRequest(t.own.value)] else []) + FlattenAll(t.kids)
  }

  function FlattenAll(ts: seq<Node>): seq<Request>
    decreases ts, 0
  {
    if ts == [] then [] else Flatten(ts[0]) + FlattenAll(ts[1..])
  }

  function Total(qs: seq<Request>): nat {
    if qs == [] then 0 else qs[0].budget + Total(qs[1..])
  }

  lemma {:induction false} TotalAppend(a: seq<Request>, b: seq<Request>)
    ensures Total(a + b) == Total(a) + Total(b)
    decreases |a|
  {
    if a == [] {
      assert a + b == b;
    } else {
      assert (a + b)[1..] == a[1..] + b;
      TotalAppend(a[1..], b);
    }
  }

  /** The pre-walk budgets exactly the declarations met during emission. */
  lemma {:induction false} BudgetIsTotal(t: Node)
    ensures Budget(t) == Total(Flatten(t))
    decreases t, 1
  {
    BudgetAllIsTotal(t.kids);
    if t.own.Some? {
      var q := DeclRequest(t.own.value);
      TotalAppend([q], FlattenAll(t.kids));
      assert Total([q]) == q.budget by { assert [q][1..] == []; }
    } else {
      assert Flatten(t) == FlattenAll(t.kids);
    }
  }

  lemma {:induction false} BudgetAllIsTotal(ts: seq<Node>)
    ensures BudgetAll(ts) == Total(FlattenAll(ts))
    decreases ts, 0
  {
    if ts != [] {
      BudgetIsTotal(ts[0]);
      BudgetAllIsTotal(ts[1..]);
      TotalAppend(Flatten(ts[0]), FlattenAll(ts[1..]));
    }
  }

  // ---------------------------------------------------------------- placing slots

  /** codegen_add_var. */
  function Advance(offset: nat, q: Request): nat
    requires WellFormed(q)
  {
    if q.placed then RoundUp(offset + q.size, q.align) else offset
  }

  function FinalOffset(qs: seq<Request>, offset: nat): nat
    requires forall q :: q in qs ==> WellFormed(q)
  {
    if qs == [] then offset else assert qs[0] in qs; FinalOffset(qs[1..], Advance(offset, qs[0]))
  }

  function Place(qs: seq<Request>, offset: nat): seq<Slot>
    requires forall q :: q in qs ==> WellFormed(q)
  {
    if qs == [] then []
    else
      assert qs[0] in qs;
      var o := Advance(offset, qs[0]);
      (if qs[0].placed then [Slot(o, qs[0].size, qs[0].align)] else []) + Place(qs[1..], o)
  }

  /** The allocator as it runs. */
  class Allocator {
    var stackOffset: nat
    var locals: seq<Slot>

    constructor (start: nat)
      ensures stackOffset == start && locals == []
    {
      stackOffset := start;
      locals := [];
    }

    method AddVar(size: nat, align: nat) returns (offset: nat)
      requires IsAlign(align)
      modifies this
      ensures offset == stackOffset == RoundUp(old(stackOffset) + size, align)
      ensures locals == old(locals) + [Slot(offset, size, align)]
    {
      stackOffset := stackOffset + size;
      stackOffset := (stackOffset + align - 1) / align * align;
      locals := locals + [Slot(stackOffset, size, align)];
      offset := stackOffset;
    }

    method AddAll(qs: seq<Request>)
      requires forall q :: q in qs ==> WellFormed(q)
      modifies this
      ensures stackOffset == FinalOffset(qs, old(stackOffset)) && locals == old(locals) + Place(qs, old(stackOffset))
    {
      var i := 0;
      assert qs[0..] == qs;
      while i < |qs|
        invariant 0 <= i <= |qs|
        invariant FinalOffset(qs[i..], stackOffset) == FinalOffset(qs, old(stackOffset))
        invariant locals + Place(qs[i..], stackOffset) == old(locals) + Place(qs, old(stackOffset))
      {
        assert qs[i..][1..] == qs[i + 1..] && qs[i..][0] == qs[i];
        ghost var before := locals;
        assert WellFormed(qs[i]) by { assert qs[i] in qs; }
        if qs[i].placed {
          var o := AddVar(qs[i].size, qs[i].align);
          assert before + ([Slot(o, qs[i].size, qs[i].align)] + Place(qs[i + 1..], stackOffset)) == locals + Place(qs[i + 1..], stackOffset);
        } else {
          assert before + ([] + Place(qs[i + 1..], stackOffset)) == locals + Place(qs[i + 1..], stackOffset);
        }
        i := i + 1;
      }
      assert qs[i..] == [];
    }
  }

  // ---------------------------------------------------------------- a function

  datatype Function = Function(params: seq<Param>, variadic: bool, sret: bool, body: Node, literals: seq<Decl>, returned: seq<nat>)

  const SAVED := 40
  const SAVE_AREA := 176

  /** compute_struct_ret_bytes: every call that returns an aggregate budgets its rounded size and 8 more. */
  function ScratchBytes(sizes: seq<nat>): nat {
    if sizes == [] then 0 else RoundUp(sizes[0], 8) + 8 + ScratchBytes(sizes[1..])
  }

  function ParamRequests(ps: seq<Param>): seq<Request> {
    if ps == [] then [] else [ParamRequest(ps[0])] + ParamRequests(ps[1..])
  }

  function LiteralRequests(ds: seq<Decl>): seq<Request> {
    if ds == [] then [] else [DeclRequest(ds[0])] + LiteralRequests(ds[1..])
  }

  /** The slots in the order in which they are placed after the fixed part. */
  function Requests(f: Function): seq<Request> {
    ParamRequests(f.params) + LiteralRequests(f.literals) + Flatten(f.body)
  }

  function FrameBytes(f: Function): nat {
    var n := Total(ParamRequests(f.params)) + Budget(f.body) + Total(LiteralRequests(f.literals)) + ScratchBytes(f.returned)
             + (if f.sret then 8 else 0) + SAVED + (if f.variadic then 8 + SAVE_AREA else 0);
    if n % 16 != 0 then RoundUp(n, 16) else n
  }

  /** Where the register save area of a variadic function ends; SAVED for the others. */
  function SaveOffset(f: Function): nat {
    if f.variadic then (if SAVED % 16 != 0 then RoundUp(SAVED, 16) else SAVED) + SAVE_AREA else SAVED
  }

  /** stack_offset when the parameters are placed. */
  function Start(f: Function): nat {
    SaveOffset(f) + ScratchBytes(f.returned) + if f.sret then 8 else 0
  }

  /** claim_struct_ret_temp: a bump allocator inside the scratch area. */
  function Temps(sizes: seq<nat>, cursor: nat): seq<Slot> {
    if sizes == [] then []
    else var c := cursor + RoundUp(sizes[0], 8); [Slot(c, RoundUp(sizes[0], 8), 8)] + Temps(sizes[1..], c)
  }

  /** rbx and r12 to r15, the save area, the hidden return pointer. */
  function FixedSlots(f: Function): seq<Slot> {
    [Slot(8, 8, 8), Slot(16, 8, 8), Slot(24, 8, 8), Slot(32, 8, 8), Slot(40, 8, 8)]
    + (if f.variadic then [Slot(SaveOffset(f), SAVE_AREA, 8)] else [])
  }

  function SretSlot(f: Function): seq<Slot> {
    if f.sret then [Slot(SaveOffset(f) + ScratchBytes(f.returned) + 8, 8, 8)] else []
  }

  predicate Allowed(f: Function) {
    forall q :: q in Requests(f) ==> WellFormed(q)
  }

  function Slots(f: Function): seq<Slot>
    requires Allowed(f)
  {
    FixedSlots(f) + Temps(f.returned, SaveOffset(f)) + SretSlot(f) + Place(Requests(f), Start(f))
  }
}
