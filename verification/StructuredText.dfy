// Structured Text statements and their meaning (selection and iteration statements:
// sections 3.3.2.3 and 3.3.2.4 of IEC 61131-3:2003).

module StructuredText {
  import opened Ir

  datatype Stmt =
    | Assignment(v: string, e: Expr)
    | Invocation(instance: string, pou: string, pre: seq<Binding>, post: seq<Binding>)
    | If(cond: Expr, thn: seq<Stmt>, elifs: seq<Arm>, els: seq<Stmt>)
    | While(cond: Expr, body: seq<Stmt>)
    | Case(selector: Expr, arms: seq<CaseArm>, els: seq<Stmt>)

  // An argument or result assignment of an invocation.
  datatype Binding = Binding(v: string, e: Expr)
  datatype Arm = Arm(cond: Expr, body: seq<Stmt>)
  datatype CaseArm = CaseArm(values: seq<Expr>, body: seq<Stmt>)

  // The meaning of a statement as a function of the state. `fuel` bounds the iterations of loops:
  // None means that the bound was hit, so a statement takes st to t iff some fuel yields Some(t).
  function Exec(env: Env, s: Stmt, st: State, fuel: nat): Option<State>
    decreases fuel, s, 0
  {
    match s
    case Assignment(v, e) => Some(Update(env, v, e, st))
    case Invocation(f, _, pre, post) => Some(BindAll(env, post, env.callee(f, BindAll(env, pre, st))))
    case If(c, thn, elifs, els) =>
      var k := FirstTrue(env, elifs, st);
      if Holds(env, c, st) then ExecList(env, thn, st, fuel)
      else if k < |elifs| then ExecList(env, elifs[k].body, st, fuel)
      else ExecList(env, els, st, fuel)
    case While(c, body) =>
      if !Holds(env, c, st) then Some(st)
      else if fuel == 0 then None
      else
        var mid := ExecList(env, body, st, fuel - 1);
        if mid.None? then None else Exec(env, s, mid.value, fuel - 1)
    case Case(sel, arms, els) =>
      var k := FirstSelected(env, sel, arms, st);
      if k < |arms| then ExecList(env, arms[k].body, st, fuel) else ExecList(env, els, st, fuel)
  }

  function ExecList(env: Env, ss: seq<Stmt>, st: State, fuel: nat): Option<State>
    decreases fuel, ss, 0
  {
    if ss == [] then Some(st)
    else
      var mid := Exec(env, ss[0], st, fuel);
      if mid.None? then None else ExecList(env, ss[1..], mid.value, fuel)
  }

  // The first ELSIF whose condition holds, |arms| if there is none.
  function FirstTrue(env: Env, arms: seq<Arm>, st: State): (k: nat)
    ensures k <= |arms|
    ensures forall i | 0 <= i < k :: !Holds(env, arms[i].cond, st)
    ensures k < |arms| ==> Holds(env, arms[k].cond, st)
  {
    if arms == [] || Holds(env, arms[0].cond, st) then 0 else 1 + FirstTrue(env, arms[1..], st)
  }

  // The first CASE whose value list contains the selector, |arms| if there is none.
  function FirstSelected(env: Env, sel: Expr, arms: seq<CaseArm>, st: State): (k: nat)
    ensures k <= |arms|
    ensures forall i | 0 <= i < k :: !Selects(env, sel, arms[i].values, st)
    ensures k < |arms| ==> Selects(env, sel, arms[k].values, st)
  {
    if arms == [] || Selects(env, sel, arms[0].values, st) then 0
    else 1 + FirstSelected(env, sel, arms[1..], st)
  }

  predicate Selects(env: Env, sel: Expr, values: seq<Expr>, st: State) {
    exists i | 0 <= i < |values| :: Eval(env, values[i], st.vars) == Eval(env, sel, st.vars)
  }

  function BindAll(env: Env, bs: seq<Binding>, st: State): State {
    if bs == [] then st else BindAll(env, bs[1..], Update(env, bs[0].v, bs[0].e, st))
  }

  // The meaning does not depend on the bound: once a result is reached, more fuel gives the same.
  lemma {:induction false} MoreFuel(env: Env, s: Stmt, st: State, fuel: nat, more: nat)
    requires fuel <= more && Exec(env, s, st, fuel).Some?
    ensures Exec(env, s, st, more) == Exec(env, s, st, fuel)
    decreases fuel, s, 0
  {
    match s
    case If(c, thn, elifs, els) =>
      var k := FirstTrue(env, elifs, st);
      MoreFuelList(env, if Holds(env, c, st) then thn else if k < |elifs| then elifs[k].body else els, st, fuel, more);
    case While(c, body) =>
      if Holds(env, c, st) {
        MoreFuelList(env, body, st, fuel - 1, more - 1);
        MoreFuel(env, s, ExecList(env, body, st, fuel - 1).value, fuel - 1, more - 1);
      }
    case Case(sel, arms, els) =>
      var k := FirstSelected(env, sel, arms, st);
      MoreFuelList(env, if k < |arms| then arms[k].body else els, st, fuel, more);
    case _ =>
  }

  lemma {:induction false} MoreFuelList(env: Env, ss: seq<Stmt>, st: State, fuel: nat, more: nat)
    requires fuel <= more && ExecList(env, ss, st, fuel).Some?
    ensures ExecList(env, ss, st, more) == ExecList(env, ss, st, fuel)
    decreases fuel, ss, 0
  {
    if ss != [] {
      MoreFuel(env, ss[0], st, fuel, more);
      MoreFuelList(env, ss[1..], Exec(env, ss[0], st, fuel).value, fuel, more);
    }
  }

  // A list takes a state to at most one state.
  lemma {:induction false} OneResult(env: Env, ss: seq<Stmt>, st: State, t: State, u: State, m: nat, n: nat)
    requires ExecList(env, ss, st, m) == Some(t) && ExecList(env, ss, st, n) == Some(u)
    ensures t == u
  {
    MoreFuelList(env, ss, st, m, if m < n then n else m);
    MoreFuelList(env, ss, st, n, if m < n then n else m);
  }
}
