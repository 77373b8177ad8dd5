// An IF without ELSIF and ELSE whose THEN list has no code at all. Its false branch copies the jump of
// the instruction in front of the statement, which leads back to the statement or into a loop before it.

module CopiedJumps {
  import opened Ir
  import opened StructuredText
  import opened Plan
  import opened Faithful
  import opened Deviations
  import opened GotoCode
  import opened Machines
  import opened Simulation
  import opened Correctness
  import opened PouCompiler

  // The labels from lo to l hold the code of `front`, and l the header of an IF with condition c
  // behind it, as the compiler emits it. Label l + 1 belongs to the statement behind the IF, or is the
  // exit; at the end of a nested list, it belongs to whatever is laid out there.
  ghost predicate LaidBehind(entries: map<string, int>, front: seq<Stmt>, c: Expr, before: Code, code: Code, lo: int,
        l: int) {
    && WellFormedList(front) && EndingOfList(PlanList(entries, front)) in {InGoto, InCall}
    && l == lo + SizeList(PlanList(entries, front)) && CodedList(before, PlanList(entries, front), lo, l)
    && l !in before && l + 1 !in before && l - 1 in before && (before[l - 1].Goto? || before[l - 1].Call?)
    && code == before[l := IfGoto(c, l + 1, JumpOf(before[l - 1]))]
  }

  // Visiting the statements of `front` and then the IF gives this layout.
  method CompileBehind(p: PouCompiler, front: seq<Stmt>, c: Expr, thn: seq<Stmt>, ghost entries: map<string, int>)
        returns (accepted: bool, ghost before: Code, ghost l: int)
    requires p.Valid() && !p.lastStatement && entries == p.Entries()
    requires WellFormedList(front) && SupportedList(entries, front)
            && EndingOfList(PlanList(entries, front)) in {InGoto, InCall}
    requires thn != [] && SupportedList(entries, thn) && EndingOfList(PlanList(entries, thn)) == Nothing
    modifies p
    ensures accepted && p.Valid() && p.freeLabel == l + 1
    ensures LaidBehind(entries, front, c, before, p.labelToInstruction, old(p.freeLabel), l)
  {
    ghost var lo := p.freeLabel;
    p.VisitAll(front, entries, While(c, front));
    before, l := p.labelToInstruction, p.freeLabel;
    LastJumpList(before, PlanList(entries, front), lo, l);
    accepted := p.VisitSilentIf(c, thn, entries, While(c, thn), l - 1);
    BehindLaid(entries, front, c, before, p.labelToInstruction, lo, l);
  }

  lemma {:induction false} BehindLaid(entries: map<string, int>, front: seq<Stmt>, c: Expr, before: Code, code: Code,
        lo: int, l: int)
    requires WellFormedList(front) && EndingOfList(PlanList(entries, front)) in {InGoto, InCall}
    requires l == lo + SizeList(PlanList(entries, front)) && CodedList(before, PlanList(entries, front), lo, l)
    requires Below(before, l) && l - 1 in before && (before[l - 1].Goto? || before[l - 1].Call?)
    requires code == before[l := IfGoto(c, l + 1, JumpOf(before[l - 1]))]
    ensures LaidBehind(entries, front, c, before, code, lo, l)
  {
  }

  // What the layout says once the header is in place.
  lemma {:induction false} HeaderCopies(entries: map<string, int>, front: seq<Stmt>, c: Expr, before: Code,
        code: Code, lo: int, l: int)
    requires LaidBehind(entries, front, c, before, code, lo, l)
    ensures var plan := PlanList(entries, front);
            && plan != [] && CodedList(code, plan, lo, l)
            && code[l] == IfGoto(c, l + 1, LastTargetList(plan, lo, l)) && l + 1 !in code
  {
    var plan := PlanList(entries, front);
    LastJumpList(before, plan, lo, l);
    CodedListFrame(before, code, plan, lo, l);
  }

  // From the header, the code reaches the label behind it with what `Waiting` computes.
  lemma {:induction false} WaitingReaches(env: Env, entries: map<string, int>, front: seq<Stmt>, c: Expr,
        before: Code, code: Code, lo: int, l: int, st: State, t: State, fuel: nat)
    requires LaidBehind(entries, front, c, before, code, lo, l)
    requires Exec(env, Waiting(front, c), st, fuel) == Some(t)
    ensures Reaches(env, code, l, st, l + 1, t)
    decreases fuel
  {
    HeaderCopies(entries, front, c, before, code, lo, l);
    var plan := PlanList(entries, front);
    if Holds(env, c, st) {
      Here(env, code, l + 1, st);
      First(env, code, l, st, l + 1, st, l + 1, t);
    } else {
      var loops := TrailingLoops(front);
      var mid := ExecList(env, loops, st, fuel - 1).value;
      ListResume(env, entries, front, st, fuel - 1);
      ResumeListReaches(env, code, plan, lo, l, st, fuel - 1, ResumeList(env, plan, st, fuel - 1).value);
      WaitingReaches(env, entries, front, c, before, code, lo, l, mid, t, fuel - 1);
      First(env, code, l, st, LastTargetList(plan, lo, l), st, l, mid);
      Then(env, code, l, st, l, mid, l + 1, t);
    }
  }

  // And a run that halts behind the header has computed it.
  lemma {:induction false} WaitingHalts(env: Env, entries: map<string, int>, front: seq<Stmt>, c: Expr,
        before: Code, code: Code, lo: int, l: int, st: State, t: State, n: nat)
    requires LaidBehind(entries, front, c, before, code, lo, l)
    requires Halts(env, code, l, st, n, Config(l + 1, t))
    ensures Exec(env, Waiting(front, c), st, n) == Some(t)
    decreases n
  {
    HeaderCopies(entries, front, c, before, code, lo, l);
    var plan := PlanList(entries, front);
    HaltsStep(env, code, l, st, n, Config(l + 1, t));
    if Holds(env, c, st) {
      HaltedStays(env, code, Config(l + 1, st), n - 1);
    } else {
      var o, m := HaltsResumeList(env, code, plan, lo, l, st, n - 1, Config(l + 1, t));
      ListResume(env, entries, front, st, n - 1);
      WaitingHalts(env, entries, front, c, before, code, lo, l, o.st, t, m);
      MoreFuel(env, Waiting(front, c), o.st, m, n - 1);
    }
  }

  // The code of `front` and the IF computes what `front` and `Waiting` compute.
  lemma {:induction false} SilentIfMeans(env: Env, entries: map<string, int>, front: seq<Stmt>, c: Expr,
        before: Code, code: Code, lo: int, l: int, st: State, t: State)
    requires LaidBehind(entries, front, c, before, code, lo, l)
    ensures Reaches(env, code, lo, st, l + 1, t) <==> Terminates(env, front + [Waiting(front, c)], st, t)
  {
    if Reaches(env, code, lo, st, l + 1, t) {
      SilentIfComputed(env, entries, front, c, before, code, lo, l, st, t);
    }
    if Terminates(env, front + [Waiting(front, c)], st, t) {
      SilentIfComputes(env, entries, front, c, before, code, lo, l, st, t);
    }
  }

  lemma {:induction false} SilentIfComputed(env: Env, entries: map<string, int>, front: seq<Stmt>, c: Expr,
        before: Code, code: Code, lo: int, l: int, st: State, t: State)
    requires LaidBehind(entries, front, c, before, code, lo, l) && Reaches(env, code, lo, st, l + 1, t)
    ensures Terminates(env, front + [Waiting(front, c)], st, t)
  {
    HeaderCopies(entries, front, c, before, code, lo, l);
    var plan, s := PlanList(entries, front), Waiting(front, c);
    var n: nat :| Steps(env, code, Config(lo, st), n) == Config(l + 1, t);
    var o, m := HaltsRunList(env, code, plan, lo, l, st, n, Config(l + 1, t));
    ListEffect(env, entries, front, st, n);
    WaitingHalts(env, entries, front, c, before, code, lo, l, o.st, t, m);
    MoreFuel(env, s, o.st, m, n);
    ExecOne(env, s, o.st, n);
    ExecAppend(env, front, [s], st, n);
  }

  lemma {:induction false} SilentIfComputes(env: Env, entries: map<string, int>, front: seq<Stmt>, c: Expr,
        before: Code, code: Code, lo: int, l: int, st: State, t: State)
    requires LaidBehind(entries, front, c, before, code, lo, l)
    requires Terminates(env, front + [Waiting(front, c)], st, t)
    ensures Reaches(env, code, lo, st, l + 1, t)
  {
    HeaderCopies(entries, front, c, before, code, lo, l);
    var plan, s := PlanList(entries, front), Waiting(front, c);
    var fuel: nat :| ExecList(env, front + [s], st, fuel) == Some(t);
    ExecAppend(env, front, [s], st, fuel);
    var mid := ExecList(env, front, st, fuel).value;
    ExecOne(env, s, mid, fuel);
    ListEffect(env, entries, front, st, fuel);
    RunListReaches(env, code, plan, lo, l, st, fuel, RunList(env, plan, st, fuel).value);
    WaitingReaches(env, entries, front, c, before, code, lo, l, mid, t, fuel);
    Then(env, code, lo, st, l, mid, l + 1, t);
  }

  // ---------- when the meaning is kept ----------

  // Behind statements that do not end in a loop: from st the code does what the source does iff the
  // condition holds in the state where the IF is reached. If it does not, the code never halts.
  lemma {:induction false} SilentIfAgreesExactly(env: Env, entries: map<string, int>, front: seq<Stmt>, c: Expr,
        thn: seq<Stmt>, before: Code, code: Code, lo: int, l: int, next: int, st: State, t: State)
    requires LaidBehind(entries, front, c, before, code, lo, l) && next == l + 1 && TrailingLoops(front) == []
    requires WellFormedList(thn) && EndingOfList(PlanList(entries, thn)) == Nothing
    requires Terminates(env, front + [If(c, thn, [], [])], st, t)
    ensures Terminates(env, front, st, t)
    ensures (forall u :: Reaches(env, code, lo, st, next, u) <==> u == t) <==> Holds(env, c, t)
    ensures (exists u :: Reaches(env, code, lo, st, next, u)) <==> Holds(env, c, t)
  {
    var fuel: nat :| ExecList(env, front + [If(c, thn, [], [])], st, fuel) == Some(t);
    ExecAppend(env, front, [If(c, thn, [], [])], st, fuel);
    var mid := ExecList(env, front, st, fuel).value;
    ExecOne(env, If(c, thn, [], []), mid, fuel);
    SilentPlan(entries, thn);
    SilentListDoesNothing(env, thn, mid, fuel);
    assert ExecList(env, front, st, fuel) == Some(t);
    forall u
      ensures Reaches(env, code, lo, st, next, u) <==> u == t && Holds(env, c, t)
    {
      SilentIfMeans(env, entries, front, c, before, code, lo, l, st, u);
      OnlyWhereItHolds(env, front, c, st, t, u);
    }
    assert Reaches(env, code, lo, st, next, t) <==> Holds(env, c, t);
  }

  lemma {:induction false} OnlyWhereItHolds(env: Env, front: seq<Stmt>, c: Expr, st: State, t: State, u: State)
    requires TrailingLoops(front) == [] && Terminates(env, front, st, t)
    ensures Terminates(env, front + [Waiting(front, c)], st, u) <==> u == t && Holds(env, c, t)
  {
    var s := Waiting(front, c);
    var m: nat :| ExecList(env, front, st, m) == Some(t);
    ExecAppend(env, front, [s], st, m);
    ExecOne(env, s, t, m);
    WaitingIdle(env, front, c, t, m);
    if Terminates(env, front + [s], st, u) {
      var n: nat :| ExecList(env, front + [s], st, n) == Some(u);
      ExecAppend(env, front, [s], st, n);
      var mid := ExecList(env, front, st, n).value;
      OneResult(env, front, st, mid, t, n, m);
      ExecOne(env, s, mid, n);
      WaitingIdle(env, front, c, mid, n);
    }
  }

  // x := TRUE; IF a THEN IF b THEN END_IF; END_IF with a false: the source ends, the code stays at the
  // IF for ever.
  lemma {:induction false} SilentIfFails(env: Env)
    ensures var put, silent := Assignment("x", BooleanConstant(true)), If(VariableAccess("b"), [], [], []);
            var code: Code := map[1 := Assign("x", BooleanConstant(true)), 2 := Goto(3),
                                  3 := IfGoto(VariableAccess("a"), 4, 3)];
            var st, t := State(map["a" := 0], 0), State(map["a" := 0, "x" := 1], 0);
            && LaidBehind(map[], [put], VariableAccess("a"), code - {3}, code, 1, 3)
            && Terminates(env, [put] + [If(VariableAccess("a"), [silent], [], [])], st, t)
            && forall next, u | next == 4 :: !Reaches(env, code, 1, st, next, u)
  {
    var a, put := VariableAccess("a"), Assignment("x", BooleanConstant(true));
    var silent := If(VariableAccess("b"), [], [], []);
    var code: Code := map[1 := Assign("x", BooleanConstant(true)), 2 := Goto(3), 3 := IfGoto(a, 4, 3)];
    var st, t := State(map["a" := 0], 0), State(map["a" := 0, "x" := 1], 0);
    PutIsLaid(code - {3}, code);
    PlanEmits(map[], silent);
    assert PlanList(map[], [silent]) == PlanOf(map[], silent);
    ExecOne(env, put, st, 0);
    ExecOne(env, If(a, [silent], [], []), t, 0);
    ExecAppend(env, [put], [If(a, [silent], [], [])], st, 0);
    assert ExecList(env, [put] + [If(a, [silent], [], [])], st, 0) == Some(t);
    SilentIfAgreesExactly(env, map[], [put], a, [silent], code - {3}, code, 1, 3, 4, st, t);
  }

  lemma {:induction false} PutIsLaid(before: Code, code: Code)
    requires before == map[1 := Assign("x", BooleanConstant(true)), 2 := Goto(3)]
    requires code == before[3 := IfGoto(VariableAccess("a"), 4, 3)]
    ensures LaidBehind(map[], [Assignment("x", BooleanConstant(true))], VariableAccess("a"), before, code, 1, 3)
    ensures TrailingLoops([Assignment("x", BooleanConstant(true))]) == []
  {
    var put := Assignment("x", BooleanConstant(true));
    assert PlanList(map[], [put]) == [CAssign("x", BooleanConstant(true))];
    SizeOne(CAssign("x", BooleanConstant(true)));
    EndingOne(CAssign("x", BooleanConstant(true)));
  }
}
