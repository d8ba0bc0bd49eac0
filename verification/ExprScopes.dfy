/** Shadowing: of several locals of one name the generated code uses the one declared last. */
module ExprScopes {
  import opened Options
  import opened Machine
  import opened Codegen
  import opened CodegenCorrect
  import opened ExprTheorem

  /** lv is an entry of that name, and no later entry has the name. */
  ghost predicate Innermost(ls: seq<Local>, name: string, lv: Local) {
    exists i :: 0 <= i < |ls| && ls[i] == lv && lv.name == name && forall j :: i < j < |ls| ==> ls[j].name != name
  }

  lemma {:induction false} InnermostFound(ls: seq<Local>, name: string, i: nat)
    requires i < |ls| && ls[i].name == name && forall j :: i < j < |ls| ==> ls[j].name != name
    ensures FindVar(ls, name) == Some(ls[i])
    decreases |ls|
  {
    if i < |ls| - 1 { InnermostFound(ls[..|ls| - 1], name, i); }
  }

  lemma {:induction false} FoundInnermost(ls: seq<Local>, name: string) returns (i: nat)
    requires FindVar(ls, name).Some?
    ensures i < |ls| && ls[i] == FindVar(ls, name).value && ls[i].name == name && forall j :: i < j < |ls| ==> ls[j].name != name
    decreases |ls|
  {
    if ls[|ls| - 1].name == name { i := |ls| - 1; } else { i := FoundInnermost(ls[..|ls| - 1], name); }
  }

  /** The local that is found is the last one of its name, and one is found if there is any. */
  lemma FindVarExact(ls: seq<Local>, name: string, lv: Local)
    ensures FindVar(ls, name) == Some(lv) <==> Innermost(ls, name, lv)
  {
    if FindVar(ls, name) == Some(lv) { var i := FoundInnermost(ls, name); }
    if Innermost(ls, name, lv) {
      var i :| 0 <= i < |ls| && ls[i] == lv && lv.name == name && forall j :: i < j < |ls| ==> ls[j].name != name;
      InnermostFound(ls, name, i);
    }
  }

  lemma NewestFound(ls: seq<Local>, lv: Local)
    ensures FindVar(ls + [lv], lv.name) == Some(lv)
  {
    InnermostFound(ls + [lv], lv.name, |ls|);
  }

  /** Whatever is declared before it, the code of the name of the newest local loads the value in that local's slot. */
  lemma ShadowRead(p: Program, ls: seq<Local>, lv: Local, n: nat, s: State, v: int) returns (t: State)
    requires UniqueLabels(p) && Framed(ls + [lv], s.regs[RSP], s.regs[RBP], s.mem, s.lim) && SlotHolds(lv, s.regs[RBP], s.mem, v)
    requires Gen(Var(lv.name), ls + [lv], n).Some? && CodeAt(p, s.pc, Gen(Var(lv.name), ls + [lv], n).value.code)
    ensures Reaches(p, s, Next(t)) && Represents(t, TypeOfWidth(lv.width), RAX, v) && forall a :: SameByte(s.mem, t.mem, a)
  {
    var all, e, env := ls + [lv], Var(lv.name), map[lv.name := v];
    NewestFound(ls, lv);
    assert Stored(all, env, s.regs[RBP], s.mem);
    assert PushDepth(e) == 0 && Declared(e, all) && WideAssignments(e, all);
    assert Eval(e, all, env) == Val(v, env) && TypeOf(e, all) == TypeOfWidth(lv.width) && Assigned(e) == {};
    hide Framed, Stored, Gen, Reaches, Represents, CodeAt;
    GenCorrect(p, e, all, n, s, env);
    var g := Gen(e, all, n).value;
    t := Arrival(p, all, s, |g.code|, g.ty, Val(v, env), {});
    NothingTouched(all, s, t);
  }

  lemma NothingTouched(ls: seq<Local>, s: State, t: State)
    requires Kept(ls, s, t, {})
    ensures forall a :: SameByte(s.mem, t.mem, a)
  {
    forall a ensures SameByte(s.mem, t.mem, a) { assert !Touched(ls, s.regs[RBP], {}, a); }
  }

  /** An assignment to the name stores into the newest local and leaves every older local of the name as it was. */
  lemma ShadowAssign(p: Program, ls: seq<Local>, lv: Local, a: Expr, n: nat, s: State, env: Env, prior: Local, u: int) returns (t: State)
    requires Ready(p, Assign(lv.name, a), ls + [lv], n, s, env) && Eval(Assign(lv.name, a), ls + [lv], env).Val?
    requires prior in ls && prior.name == lv.name && prior != lv && SlotHolds(prior, s.regs[RBP], s.mem, u)
    ensures Reaches(p, s, Next(t)) && t.regs[RBP] == s.regs[RBP]
    ensures SlotHolds(prior, t.regs[RBP], t.mem, u)
    ensures SlotHolds(lv, t.regs[RBP], t.mem, Eval(Assign(lv.name, a), ls + [lv], env).v)
  {
    var all, e := ls + [lv], Assign(lv.name, a);
    NewestFound(ls, lv);
    AssignedValue(lv.name, a, all, env);
    GenCorrect(p, e, all, n, s, env);
    var r, g := Eval(e, all, env), Gen(e, all, n).value;
    t := Arrival(p, all, s, |g.code|, g.ty, r, Assigned(e));
    assert prior in all;
    OlderApart(all, s, lv, prior, Assigned(e), s.regs[RBP]);
    hide Gen, Eval, Assigned, Reaches, Represents;
    OlderKept(all, s, t, prior, Assigned(e), u);
  }

  lemma AssignedValue(x: string, a: Expr, ls: seq<Local>, env: Env)
    requires Eval(Assign(x, a), ls, env).Val?
    ensures var r := Eval(Assign(x, a), ls, env); x in r.env && r.env[x] == r.v
  {
  }

  lemma OlderApart(ls: seq<Local>, s: State, lv: Local, o: Local, xs: set<string>, rbp: int)
    requires AllApart(ls) && o in ls && FindVar(ls, lv.name) == Some(lv) && o.name == lv.name && o != lv
    ensures forall k :: rbp - o.offset <= k < rbp - o.offset + o.width.Size() ==> !Touched(ls, rbp, xs, k)
  {
    forall k | rbp - o.offset <= k < rbp - o.offset + o.width.Size() ensures !Touched(ls, rbp, xs, k) {
      forall x | x in xs && FindVar(ls, x).Some? ensures !Covers(FindVar(ls, x).value, rbp, k) {
        var w := FindVar(ls, x).value;
        assert w in ls && w != o;
        assert Apart(w, o);
      }
    }
  }

  lemma OlderKept(ls: seq<Local>, s: State, t: State, o: Local, xs: set<string>, u: int)
    requires Kept(ls, s, t, xs) && SlotHolds(o, s.regs[RBP], s.mem, u)
    requires forall k :: s.regs[RBP] - o.offset <= k < s.regs[RBP] - o.offset + o.width.Size() ==> !Touched(ls, s.regs[RBP], xs, k)
    ensures t.regs[RBP] == s.regs[RBP] && SlotHolds(o, t.regs[RBP], t.mem, u)
  {
    var a, n := s.regs[RBP] - o.offset, o.width.Size();
    forall k | a <= k < a + n ensures k in t.mem && t.mem[k] == s.mem[k] { assert SameByte(s.mem, t.mem, k); }
    ReadAgree(s.mem, t.mem, a, n);
  }
}
