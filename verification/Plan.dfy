// The control structure the compiler keeps of a statement list, and what that structure does.
// A Core list is what is left of a statement list once invocations are split into argument
// assignments, call and result assignments, CASE is lowered to IF and ELSIF is nested into ELSE.

module Plan {
  import opened Ir
  import opened StructuredText

  datatype Core =
    | CAssign(v: string, e: Expr)
    | CCall(instance: string, pou: string, entry: int)
    | CSkip   // a statement without code: an IF without any statements, a loop without a body
    | CIf(cond: Expr, thn: seq<Core>, els: seq<Core>)
    | CUnless(cond: Expr, body: seq<Core>)   // IF with an empty THEN: only the ELSE list is compiled
    | CCopy(cond: Expr, thn: seq<Core>, other: Expr)   // a last ELSIF whose list has no code
    | CWhile(cond: Expr, body: seq<Core>)

  datatype CoreArm = CoreArm(cond: Expr, body: seq<Core>)

  // ---------- lowering of CASE ----------

  function CaseCondition(sel: Expr, values: seq<Expr>): Expr {
    if values == [] then BooleanConstant(false)
    else
      var last := BinaryExpression(Equality, sel, values[|values| - 1]);
      if |values| == 1 then last
      else BinaryExpression(BooleanOr, CaseCondition(sel, values[..|values| - 1]), last)
  }

  lemma {:induction false} CaseConditionSelects(env: Env, sel: Expr, values: seq<Expr>, st: State)
    ensures Holds(env, CaseCondition(sel, values), st) <==> Selects(env, sel, values, st)
  {
    var n := |values| - 1;
    if n > 0 {
      var front := values[..n];
      CaseConditionSelects(env, sel, front, st);
      var last := BinaryExpression(Equality, sel, values[n]);
      assert CaseCondition(sel, values) == BinaryExpression(BooleanOr, CaseCondition(sel, front), last);
      assert Eval(env, last, st.vars) == OfBool(Eval(env, sel, st.vars) == Eval(env, values[n], st.vars));
      forall i | 0 <= i < |values| && Eval(env, values[i], st.vars) == Eval(env, sel, st.vars)
        ensures Selects(env, sel, front, st) || i == n
      {
        if i < n { assert front[i] == values[i]; }
      }
      if Selects(env, sel, front, st) {
        var i :| 0 <= i < n && Eval(env, front[i], st.vars) == Eval(env, sel, st.vars);
        assert values[i] == front[i];
      }
    }
  }

  function LoweredArms(sel: Expr, arms: seq<CaseArm>): (r: seq<Arm>)
    ensures |r| == |arms|
    ensures forall i | 0 <= i < |arms| :: r[i] == Arm(CaseCondition(sel, arms[i].values), arms[i].body)
  {
    if arms == [] then []
    else [Arm(CaseCondition(sel, arms[0].values), arms[0].body)] + LoweredArms(sel, arms[1..])
  }

  // The IF that a CASE is compiled as.
  function Lowered(s: Stmt): Stmt
    requires s.Case? && s.arms != []
  {
    If(CaseCondition(s.selector, s.arms[0].values), s.arms[0].body, LoweredArms(s.selector, s.arms[1..]), s.els)
  }

  lemma {:induction false} LoweredChooses(env: Env, sel: Expr, arms: seq<CaseArm>, st: State)
    ensures FirstTrue(env, LoweredArms(sel, arms), st) == FirstSelected(env, sel, arms, st)
  {
    if arms != [] {
      CaseConditionSelects(env, sel, arms[0].values, st);
      assert LoweredArms(sel, arms)[1..] == LoweredArms(sel, arms[1..]);
      LoweredChooses(env, sel, arms[1..], st);
    }
  }

  // It runs the list of the first arm that lists the value of the selector, or the ELSE list.
  lemma {:induction false} LoweredMeans(env: Env, s: Stmt, st: State, fuel: nat)
    requires s.Case? && s.arms != []
    ensures Exec(env, Lowered(s), st, fuel) == Exec(env, s, st, fuel)
  {
    CaseConditionSelects(env, s.selector, s.arms[0].values, st);
    LoweredChooses(env, s.selector, s.arms[1..], st);
    FirstArmApart(env, s.selector, s.arms, s.els, st, fuel);
  }

  // What a CASE means, with its first arm set apart.
  lemma {:induction false} FirstArmApart(env: Env, sel: Expr, arms: seq<CaseArm>, els: seq<Stmt>, st: State, fuel: nat)
    requires arms != []
    ensures var rest := arms[1..];
            var k := FirstSelected(env, sel, rest, st);
            Exec(env, Case(sel, arms, els), st, fuel) ==
            if Selects(env, sel, arms[0].values, st) then ExecList(env, arms[0].body, st, fuel)
            else if k < |rest| then ExecList(env, rest[k].body, st, fuel)
            else ExecList(env, els, st, fuel)
  {
  }

  // ---------- the plan of a statement ----------

  function ArmBodies(arms: seq<Arm>): seq<seq<Stmt>> {
    seq(|arms|, i requires 0 <= i < |arms| => arms[i].body)
  }

  function CaseBodies(arms: seq<CaseArm>): seq<seq<Stmt>> {
    seq(|arms|, i requires 0 <= i < |arms| => arms[i].body)
  }

  predicate AllEmpty(bodies: seq<seq<Stmt>>) {
    forall i | 0 <= i < |bodies| :: bodies[i] == []
  }

  predicate NoneEmpty(bodies: seq<seq<Stmt>>) {
    forall i | 0 <= i < |bodies| :: bodies[i] != []
  }

  // `entries` holds the entry labels of the modules compiled before.
  function PlanOf(entries: map<string, int>, s: Stmt): (r: seq<Core>)
    ensures r != []
    decreases s, 0
  {
    match s
    case Assignment(v, e) => [CAssign(v, e)]
    case Invocation(f, pou, pre, post) =>
      PlanBindings(pre) + [CCall(f, pou, if pou in entries then entries[pou] else -1)] + PlanBindings(post)
    case If(c, thn, elifs, els) =>
      PlanSelection(c, PlanList(entries, thn), PlanArms(entries, elifs), PlanList(entries, els))
    case While(c, body) => if body == [] then [CSkip] else [CWhile(c, PlanList(entries, body))]
    case Case(sel, arms, els) =>
      if arms == [] then [CSkip]
      else PlanSelection(CaseCondition(sel, arms[0].values), PlanList(entries, arms[0].body),
                         PlanCaseArms(entries, sel, arms[1..]), PlanList(entries, els))
  }

  function PlanList(entries: map<string, int>, ss: seq<Stmt>): (r: seq<Core>)
    ensures r == [] <==> ss == []
    decreases ss, 1
  {
    if ss == [] then [] else PlanOf(entries, ss[0]) + PlanList(entries, ss[1..])
  }

  function PlanBindings(bs: seq<Binding>): (r: seq<Core>)
    ensures |r| == |bs|
  {
    seq(|bs|, i requires 0 <= i < |bs| => CAssign(bs[i].v, bs[i].e))
  }

  function PlanArms(entries: map<string, int>, arms: seq<Arm>): (r: seq<CoreArm>)
    ensures |r| == |arms|
    ensures forall i | 0 <= i < |arms| :: r[i] == CoreArm(arms[i].cond, PlanList(entries, arms[i].body))
    decreases arms, 1
  {
    if arms == [] then []
    else [CoreArm(arms[0].cond, PlanList(entries, arms[0].body))] + PlanArms(entries, arms[1..])
  }

  function PlanCaseArms(entries: map<string, int>, sel: Expr, arms: seq<CaseArm>): (r: seq<CoreArm>)
    ensures |r| == |arms|
    ensures forall i | 0 <= i < |arms| ::
              r[i] == CoreArm(CaseCondition(sel, arms[i].values), PlanList(entries, arms[i].body))
    decreases arms, 1
  {
    if arms == [] then []
    else [CoreArm(CaseCondition(sel, arms[0].values), PlanList(entries, arms[0].body))]
         + PlanCaseArms(entries, sel, arms[1..])
  }

  predicate NoCode(arms: seq<CoreArm>) {
    forall i | 0 <= i < |arms| :: arms[i].body == []
  }

  // Which conditions of an IF survive: with an empty THEN list the IF condition is not compiled,
  // unless no ELSIF list has statements either, and then the last condition written guards the ELSE list.
  function PlanSelection(cond: Expr, thn: seq<Core>, arms: seq<CoreArm>, els: seq<Core>): (r: seq<Core>)
    ensures r != []
  {
    var coded := ArmsWithCode(cond, thn, arms);
    if coded != [] then Nest(coded, els)
    else if els != [] then [CUnless(if arms != [] then arms[|arms| - 1].cond else cond, els)]
    else [CSkip]
  }

  function ArmsWithCode(cond: Expr, thn: seq<Core>, arms: seq<CoreArm>): seq<CoreArm> {
    (if thn != [] then [CoreArm(cond, thn)] else []) + (if NoCode(arms) then [] else arms)
  }

  // The last arm has no code and no ELSE behind it, so it copies the jump of the arm before.
  predicate Copies(arms: seq<CoreArm>, els: seq<Core>) {
    && |arms| > 1 && els == []
    && EndingOfList(arms[|arms| - 1].body) == Nothing && EndingOfList(arms[|arms| - 2].body) != Nothing
  }

  function Nest(arms: seq<CoreArm>, els: seq<Core>): (r: seq<Core>)
    ensures arms != [] || els != [] ==> r != []
  {
    if arms == [] then els
    else if |arms| == 2 && Copies(arms, els) then [CCopy(arms[0].cond, arms[0].body, arms[1].cond)]
    else [CIf(arms[0].cond, arms[0].body, Nest(arms[1..], els))]
  }

  // ---------- the last instruction of a plan ----------

  // What is emitted last: a goto, a call, or the header of a statement whose lists have no code.
  datatype Ending = Nothing | InGoto | InCall | InHeader

  function EndingOf(c: Core): Ending
    decreases c, 0
  {
    match c
    case CAssign(_, _) => InGoto
    case CCall(_, _, _) => InCall
    case CSkip => Nothing
    case CIf(_, thn, els) => Behind(Behind(InHeader, EndingOfList(thn)), EndingOfList(els))
    case CUnless(_, body) => Behind(InHeader, EndingOfList(body))
    case CCopy(_, _, _) => InHeader
    case CWhile(_, body) => Behind(InHeader, EndingOfList(body))
  }

  function EndingOfList(cs: seq<Core>): Ending
    decreases cs, 1
  {
    if cs == [] then Nothing else Behind(EndingOf(cs[0]), EndingOfList(cs[1..]))
  }

  // The last element has no code, so no jump of the list leads to its continuation.
  predicate Falls(cs: seq<Core>) {
    cs != [] && EndingOf(cs[|cs| - 1]) == Nothing
  }

  function Behind(a: Ending, b: Ending): Ending {
    if b == Nothing then a else b
  }

  lemma {:induction false} EndingAppend(a: seq<Core>, b: seq<Core>)
    ensures EndingOfList(a + b) == Behind(EndingOfList(a), EndingOfList(b))
  {
    if a == [] {
      assert a + b == b;
    } else {
      assert (a + b)[0] == a[0] && (a + b)[1..] == a[1..] + b;
      EndingAppend(a[1..], b);
    }
  }

  lemma {:induction false} EndingOne(c: Core)
    ensures EndingOfList([c]) == EndingOf(c)
  {
    assert [c][1..] == [];
  }

  lemma {:induction false} NoEnding(cs: seq<Core>)
    ensures EndingOfList(cs) == Nothing <==> forall i | 0 <= i < |cs| :: cs[i] == CSkip
  {
    if cs != [] {
      NoEnding(cs[1..]);
      forall i | 0 <= i < |cs[1..]| ensures cs[1..][i] == cs[i + 1] {
      }
      assert EndingOf(cs[0]) == Nothing <==> cs[0] == CSkip;
    }
  }

  // ---------- which statements the compiler can compile ----------

  // What the compiler's unchecked accesses need of a selection: no empty ELSIF list beside a
  // non-empty one; and where the false branch copies the target of the instruction emitted last, that
  // this instruction belongs to the selection and is a goto (or a call, behind THEN).
  predicate SelectionSupported(entries: map<string, int>, thn: seq<Stmt>, elifs: seq<seq<Stmt>>, els: seq<Stmt>) {
    && (AllEmpty(elifs) || NoneEmpty(elifs))
    && (els == [] && AllEmpty(elifs) && thn != [] ==> EndingOfList(PlanList(entries, thn)) in {InGoto, InCall})
    && (els == [] && !AllEmpty(elifs) ==> CopiedEnding(entries, thn, elifs) == InGoto)
    && (els != [] && AllEmpty(elifs) && thn == [] ==> EndingOfList(PlanList(entries, els)) == InGoto)
  }

  // The instruction in front of the end of the last ELSIF list: if this list has no code, that of the
  // list before it.
  function CopiedEnding(entries: map<string, int>, thn: seq<Stmt>, elifs: seq<seq<Stmt>>): Ending
    requires elifs != []
  {
    var n := |elifs| - 1;
    Behind(EndingOfList(PlanList(entries, if n > 0 then elifs[n - 1] else thn)),
           EndingOfList(PlanList(entries, elifs[n])))
  }

  predicate Supported(entries: map<string, int>, s: Stmt)
    decreases s, 0
  {
    match s
    case Assignment(_, _) => true
    case Invocation(_, pou, _, _) => pou in entries
    case If(_, thn, elifs, els) =>
      && SelectionSupported(entries, thn, ArmBodies(elifs), els)
      && SupportedList(entries, thn) && SupportedList(entries, els)
      && (forall i | 0 <= i < |elifs| :: SupportedList(entries, elifs[i].body))
    case While(_, body) => SupportedList(entries, body)
    case Case(_, arms, els) =>
      && arms != []
      && (forall i | 0 <= i < |arms| :: arms[i].values != [] && SupportedList(entries, arms[i].body))
      && SelectionSupported(entries, arms[0].body, CaseBodies(arms[1..]), els)
      && SupportedList(entries, els)
  }

  predicate SupportedList(entries: map<string, int>, ss: seq<Stmt>)
    decreases ss, 1
  {
    forall i | 0 <= i < |ss| :: Supported(entries, ss[i])
  }

  lemma {:induction false} LoweredPlan(entries: map<string, int>, s: Stmt)
    requires s.Case? && s.arms != []
    ensures PlanOf(entries, Lowered(s)) == PlanOf(entries, s)
    ensures ArmBodies(Lowered(s).elifs) == CaseBodies(s.arms[1..])
    ensures Supported(entries, s) ==> Supported(entries, Lowered(s))
  {
    var rest := s.arms[1..];
    var lowered := LoweredArms(s.selector, rest);
    assert PlanArms(entries, lowered) == PlanCaseArms(entries, s.selector, rest);
    assert ArmBodies(lowered) == CaseBodies(rest);
    forall i | 0 <= i < |lowered| && Supported(entries, s) ensures SupportedList(entries, lowered[i].body) {
      assert rest[i] == s.arms[i + 1];
    }
  }

  // ---------- what a plan does ----------

  // Where a stretch of code hands over: at its continuation, or at the label right behind it. The
  // latter happens to a list whose last statements have no code, as no jump leads out of it.
  datatype Outcome = Done(st: State) | Fell(st: State)

  function Run(env: Env, c: Core, st: State, fuel: nat): Option<Outcome>
    decreases fuel, c, 0
  {
    match c
    case CAssign(v, e) => Some(Done(Update(env, v, e, st)))
    case CCall(f, _, _) => Some(Done(env.callee(f, st)))
    case CSkip => Some(Fell(st))
    case CIf(cond, thn, els) =>
      if !Holds(env, cond, st) then
        if els == [] then ResumeList(env, thn, st, fuel) else RunList(env, els, st, fuel)
      else
        var mid := RunList(env, thn, st, fuel);
        if els == [] || mid.None? || mid.value.Done? then mid else RunList(env, els, mid.value.st, fuel)
    case CUnless(cond, body) =>
      if Holds(env, cond, st) then ResumeList(env, body, st, fuel) else RunList(env, body, st, fuel)
    case CCopy(cond, thn, other) =>
      if !Holds(env, cond, st) then RunCopy(env, thn, other, st, fuel)
      else
        var mid := RunList(env, thn, st, fuel);
        if mid.None? || mid.value.Done? then mid else RunCopy(env, thn, other, mid.value.st, fuel)
    case CWhile(cond, body) =>
      if !Holds(env, cond, st) then Some(Done(st))
      else if fuel == 0 then None
      else
        var mid := RunList(env, body, st, fuel - 1);
        if mid.None? || mid.value.Fell? then mid else Run(env, c, mid.value.st, fuel - 1)
  }

  // A condition in front of no code, whose false branch is the last jump of the list before it. If that
  // list falls, the jump leads back to the condition, and each round counts as an iteration.
  function RunCopy(env: Env, thn: seq<Core>, other: Expr, st: State, fuel: nat): Option<Outcome>
    decreases fuel, thn, 2
  {
    if Holds(env, other, st) then Some(Fell(st))
    else if fuel == 0 && Falls(thn) then None
    else
      var mid := ResumeList(env, thn, st, if Falls(thn) then fuel - 1 else fuel);
      if mid.None? || mid.value.Done? then mid
      else if fuel == 0 then None
      else RunCopy(env, thn, other, mid.value.st, fuel - 1)
  }

  // Only the last element of a list continues where the list does; the others lead to the next one.
  function RunList(env: Env, cs: seq<Core>, st: State, fuel: nat): Option<Outcome>
    decreases fuel, cs, 0
  {
    if cs == [] then Some(Done(st))
    else
      var mid := Run(env, cs[0], st, fuel);
      if |cs| == 1 || mid.None? then mid else RunList(env, cs[1..], mid.value.st, fuel)
  }

  // What happens from the label the last emitted jump of `c` leads to. An IF without ELSE sends its
  // false branch there: usually that is the end of the IF, but inside a loop it is the loop header.
  function Resume(env: Env, c: Core, st: State, fuel: nat): Option<Outcome>
    decreases fuel, c, 1
  {
    match c
    case CIf(_, thn, els) => ResumeList(env, if EndingOfList(els) == Nothing then thn else els, st, fuel)
    case CUnless(_, body) => ResumeList(env, body, st, fuel)
    case CWhile(_, body) =>
      var mid := ResumeList(env, body, st, fuel);
      if mid.None? || mid.value.Fell? then mid else Run(env, c, mid.value.st, fuel)
    case _ => Some(Done(st))
  }

  function ResumeList(env: Env, cs: seq<Core>, st: State, fuel: nat): Option<Outcome>
    decreases fuel, cs, 1
  {
    if cs == [] then Some(Done(st))
    else if |cs| == 1 then Resume(env, cs[0], st, fuel)
    else if EndingOfList(cs[1..]) != Nothing then ResumeList(env, cs[1..], st, fuel)
    else
      var mid := Resume(env, cs[0], st, fuel);
      if mid.None? then None else Some(Fell(mid.value.st))
  }

  // ---------- plans of lists ----------

  lemma {:induction false} PlanAppend(entries: map<string, int>, a: seq<Stmt>, b: seq<Stmt>)
    ensures PlanList(entries, a + b) == PlanList(entries, a) + PlanList(entries, b)
  {
    if a == [] {
      assert a + b == b;
    } else {
      assert (a + b)[0] == a[0] && (a + b)[1..] == a[1..] + b;
      PlanAppend(entries, a[1..], b);
    }
  }

  lemma {:induction false} PlanSnoc(entries: map<string, int>, ss: seq<Stmt>)
    requires ss != []
    ensures PlanList(entries, ss) == PlanList(entries, ss[..|ss| - 1]) + PlanOf(entries, ss[|ss| - 1])
  {
    var last := ss[|ss| - 1];
    assert ss == ss[..|ss| - 1] + [last];
    PlanAppend(entries, ss[..|ss| - 1], [last]);
    assert PlanList(entries, [last]) == PlanOf(entries, last);
  }

  lemma {:induction false} PlanNoCode(entries: map<string, int>, arms: seq<Arm>)
    ensures NoCode(PlanArms(entries, arms)) <==> AllEmpty(ArmBodies(arms))
  {
    var planned, bodies := PlanArms(entries, arms), ArmBodies(arms);
    forall i | 0 <= i < |arms| ensures planned[i].body == [] <==> bodies[i] == [] {
    }
  }
}
