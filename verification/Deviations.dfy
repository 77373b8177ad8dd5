// Exactly when the compiler keeps the meaning of an IF or a loop over well-formed lists: what the
// code does is what the source does, followed by a list of statements that run by mistake.

module Deviations {
  import opened Ir
  import opened StructuredText
  import opened Plan
  import opened Simulation
  import opened Faithful

  // ---------- selections ----------

  predicate PartsWellFormed(s: Stmt)
    requires s.If?
  {
    && WellFormedList(s.thn) && WellFormedList(s.els)
    && (AllEmpty(ArmBodies(s.elifs)) || NoneEmpty(ArmBodies(s.elifs)))
    && ArmsWellFormed(s.elifs)
  }

  predicate ArmsWellFormed(arms: seq<Arm>) {
    forall i | 0 <= i < |arms| :: WellFormedList(arms[i].body)
  }

  // The conditions that are compiled, with their lists.
  function CodedArms(s: Stmt): seq<Arm>
    requires s.If?
  {
    (if s.thn != [] then [Arm(s.cond, s.thn)] else []) + (if AllEmpty(ArmBodies(s.elifs)) then [] else s.elifs)
  }

  // The code of a chain of conditions as a source text: a list that is not solid runs on into the
  // conditions behind it, and without ELSE the last condition leads to the loops its list ends in.
  function Unfolded(arms: seq<Arm>, els: seq<Stmt>): seq<Stmt>
    decreases |arms|, 1
  {
    if arms == [] then els
    else
      var Arm(c, body) := arms[0];
      if |arms| == 1 && els == [] then [If(c, body, [], TrailingLoops(body))]
      else if Solid(body) then [If(c, body, [], TextBehind(arms, els))]
      else [If(c, body, [], [])] + TextBehind(arms, els)
  }

  // The text of what is laid out behind the list of the first condition. A last condition without code
  // and without ELSE behind it leads to the loops that the list in front of it ends in.
  function TextBehind(arms: seq<Arm>, els: seq<Stmt>): seq<Stmt>
    requires arms != []
    decreases |arms|, 0
  {
    if |arms| == 2 && Copying(arms, els) then
      var Arm(d, silent) := arms[1];
      if Solid(arms[0].body) then [If(d, silent, [], TrailingLoops(arms[0].body))] else [Waiting(arms[0].body, d)]
    else Unfolded(arms[1..], els)
  }

  // The last condition copies the jump of the list in front of its own.
  predicate Copying(arms: seq<Arm>, els: seq<Stmt>) {
    |arms| > 1 && els == [] && Silent(arms[|arms| - 1].body) && !Silent(arms[|arms| - 2].body)
  }

  // What runs by mistake if no condition holds and there is no ELSE.
  function NoneHolds(arms: seq<Arm>): seq<Stmt>
    requires arms != []
  {
    var n := |arms| - 1;
    if !Copying(arms, []) then TrailingLoops(arms[n].body)
    else if Solid(arms[n - 1].body) then TrailingLoops(arms[n - 1].body)
    else [Waiting(arms[n - 1].body, arms[n].cond)]
  }

  // What runs on behind the list of the k-th condition.
  function RunsOn(arms: seq<Arm>, k: nat, els: seq<Stmt>): seq<Stmt>
    requires k < |arms|
  {
    if Solid(arms[k].body) || (k + 1 == |arms| && els == []) then [] else TextBehind(arms[k..], els)
  }

  // The condition that decides between ELSE and nothing if no other list has statements.
  function LastCondition(s: Stmt): Expr
    requires s.If?
  {
    if s.elifs != [] then s.elifs[|s.elifs| - 1].cond else s.cond
  }

  // The source chooses a list without statements.
  predicate ChoosesEmpty(env: Env, s: Stmt, st: State)
    requires s.If?
  {
    var k := FirstTrue(env, s.elifs, st);
    if Holds(env, s.cond, st) then s.thn == []
    else if k < |s.elifs| then s.elifs[k].body == []
    else s.els == []
  }

  // The statements of the source that run by mistake, after the list that should run.
  function Extra(env: Env, s: Stmt, st: State): seq<Stmt>
    requires s.If?
  {
    var arms := CodedArms(s);
    var j := FirstTrue(env, arms, st);
    if arms == [] then
      if !ChoosesEmpty(env, s, st) then [] else if Holds(env, LastCondition(s), st) then TrailingLoops(s.els) else s.els
    else if j < |arms| then
      (if ChoosesEmpty(env, s, st) then arms[j].body else []) + RunsOn(arms, j, s.els)
    else if s.els == [] then NoneHolds(arms)
    else if ChoosesEmpty(env, s, st) then s.els
    else []
  }

  lemma {:induction false} ChainMeans(env: Env, entries: map<string, int>, arms: seq<Arm>, els: seq<Stmt>, st: State,
        fuel: nat)
    requires arms != [] && ArmsWellFormed(arms) && WellFormedList(els)
    ensures Final(RunList(env, Nest(PlanArms(entries, arms), PlanList(entries, els)), st, fuel)) ==
            ExecList(env, Unfolded(arms, els), st, fuel)
    decreases |arms|, 1
  {
    var Arm(c, body) := arms[0];
    NestShape(entries, arms, els);
    ListFollows(env, entries, body, st, fuel);
    if |arms| == 1 && els == [] {
      ExecOne(env, If(c, body, [], TrailingLoops(body)), st, fuel);
    } else if |arms| == 2 && Copying(arms, els) {
      CopyMeans(env, entries, arms, st, fuel);
    } else {
      var rest := Nest(PlanArms(entries, arms[1..]), PlanList(entries, els));
      RestMeans(env, entries, arms, els, st, fuel);
      var mid := ExecList(env, body, st, fuel);
      if mid.Some? {
        RestMeans(env, entries, arms, els, mid.value, fuel);
      }
      GuardMeans(env, c, PlanList(entries, body), rest, body, Unfolded(arms[1..], els), st, fuel);
    }
  }

  // The plan of a chain starts with its first condition, or is one element if the second one copies.
  lemma {:induction false} NestShape(entries: map<string, int>, arms: seq<Arm>, els: seq<Stmt>)
    requires arms != []
    ensures var planned, otherwise := PlanArms(entries, arms), PlanList(entries, els);
            Nest(planned, otherwise) ==
            if |arms| == 2 && Copying(arms, els) then
              [CCopy(arms[0].cond, PlanList(entries, arms[0].body), arms[1].cond)]
            else [CIf(arms[0].cond, PlanList(entries, arms[0].body), Nest(PlanArms(entries, arms[1..]), otherwise))]
  {
    assert PlanArms(entries, arms)[1..] == PlanArms(entries, arms[1..]);
    SilentPlan(entries, arms[0].body);
    if |arms| == 2 {
      SilentPlan(entries, arms[1].body);
    }
  }

  lemma {:induction false} GuardMeans(env: Env, c: Expr, thn: seq<Core>, rest: seq<Core>, body: seq<Stmt>,
        tail: seq<Stmt>, st: State, fuel: nat)
    requires rest != [] && RunList(env, thn, st, fuel) == Ended(Solid(body), ExecList(env, body, st, fuel))
    requires Final(RunList(env, rest, st, fuel)) == ExecList(env, tail, st, fuel)
    requires var mid := ExecList(env, body, st, fuel);
            mid.Some? ==> Final(RunList(env, rest, mid.value, fuel)) == ExecList(env, tail, mid.value, fuel)
    ensures Final(RunList(env, [CIf(c, thn, rest)], st, fuel)) ==
            ExecList(env, if Solid(body) then [If(c, body, [], tail)] else [If(c, body, [], [])] + tail, st, fuel)
  {
    ArmMeans(env, c, body, tail, st, fuel);
  }

  // The last two conditions, if the last one copies.
  lemma {:induction false} CopyMeans(env: Env, entries: map<string, int>, arms: seq<Arm>, st: State, fuel: nat)
    requires |arms| == 2 && Copying(arms, []) && ArmsWellFormed(arms)
    ensures Final(RunList(env, Nest(PlanArms(entries, arms), []), st, fuel)) ==
            ExecList(env, Unfolded(arms, []), st, fuel)
  {
    var Arm(c, body) := arms[0];
    NestShape(entries, arms, []);
    ListFollows(env, entries, body, st, fuel);
    SecondMeans(env, entries, arms, st, fuel);
    var mid := ExecList(env, body, st, fuel);
    if mid.Some? {
      SecondMeans(env, entries, arms, mid.value, fuel);
    }
    CopyGuardMeans(env, c, PlanList(entries, body), arms[1].cond, body, TextBehind(arms, []), st, fuel);
  }

  lemma {:induction false} CopyGuardMeans(env: Env, c: Expr, thn: seq<Core>, d: Expr, body: seq<Stmt>,
        tail: seq<Stmt>, st: State, fuel: nat)
    requires RunList(env, thn, st, fuel) == Ended(Solid(body), ExecList(env, body, st, fuel))
    requires Final(RunCopy(env, thn, d, st, fuel)) == ExecList(env, tail, st, fuel)
    requires var mid := ExecList(env, body, st, fuel);
            mid.Some? ==> Final(RunCopy(env, thn, d, mid.value, fuel)) == ExecList(env, tail, mid.value, fuel)
    ensures Final(RunList(env, [CCopy(c, thn, d)], st, fuel)) ==
            ExecList(env, if Solid(body) then [If(c, body, [], tail)] else [If(c, body, [], [])] + tail, st, fuel)
  {
    ArmMeans(env, c, body, tail, st, fuel);
  }

  lemma {:induction false} SecondMeans(env: Env, entries: map<string, int>, arms: seq<Arm>, st: State, fuel: nat)
    requires |arms| == 2 && Copying(arms, []) && ArmsWellFormed(arms)
    ensures Final(RunCopy(env, PlanList(entries, arms[0].body), arms[1].cond, st, fuel)) ==
            ExecList(env, TextBehind(arms, []), st, fuel)
  {
    var body := arms[0].body;
    var Arm(d, silent) := arms[1];
    FallingPlan(entries, body);
    SilentListDoesNothing(env, silent, st, fuel);
    if Solid(body) {
      ListFollows(env, entries, body, st, fuel);
      ExecOne(env, If(d, silent, [], TrailingLoops(body)), st, fuel);
    } else {
      WaitingMeans(env, entries, body, d, st, fuel);
      ExecOne(env, Waiting(body, d), st, fuel);
    }
  }

  // One round of a condition that copies the jump of a list that falls.
  lemma {:induction false} FallsBack(env: Env, entries: map<string, int>, body: seq<Stmt>, st: State, fuel: nat)
    requires WellFormedList(body) && !Solid(body) && !Silent(body)
    ensures ResumeList(env, PlanList(entries, body), st, fuel) ==
            Ended(false, ExecList(env, TrailingLoops(body), st, fuel))
  {
    FallingPlan(entries, body);
    SilentPlan(entries, body);
    ListFollows(env, entries, body, st, fuel);
    if ResumeList(env, PlanList(entries, body), st, fuel).Some? {
      FallingResumes(env, PlanList(entries, body), st, fuel);
    }
  }

  lemma {:induction false} CopyRound(env: Env, thn: seq<Core>, d: Expr, st: State, fuel: nat, mid: Option<State>)
    requires Falls(thn) && fuel > 0 && !Holds(env, d, st) && ResumeList(env, thn, st, fuel - 1) == Ended(false, mid)
    ensures RunCopy(env, thn, d, st, fuel) == if mid.None? then None else RunCopy(env, thn, d, mid.value, fuel - 1)
  {
  }

  lemma {:induction false} WaitingMeans(env: Env, entries: map<string, int>, body: seq<Stmt>, d: Expr, st: State,
        fuel: nat)
    requires WellFormedList(body) && !Solid(body) && !Silent(body)
    ensures Final(RunCopy(env, PlanList(entries, body), d, st, fuel)) == Exec(env, Waiting(body, d), st, fuel)
    decreases fuel
  {
    var thn := PlanList(entries, body);
    FallingPlan(entries, body);
    if !Holds(env, d, st) && fuel > 0 {
      var mid := ExecList(env, TrailingLoops(body), st, fuel - 1);
      FallsBack(env, entries, body, st, fuel - 1);
      CopyRound(env, thn, d, st, fuel, mid);
      if mid.Some? {
        WaitingMeans(env, entries, body, d, mid.value, fuel - 1);
      }
    }
  }

  lemma {:induction false} RestMeans(env: Env, entries: map<string, int>, arms: seq<Arm>, els: seq<Stmt>, st: State,
        fuel: nat)
    requires arms != [] && ArmsWellFormed(arms) && WellFormedList(els) && (|arms| > 1 || els != [])
    ensures Nest(PlanArms(entries, arms[1..]), PlanList(entries, els)) != []
    ensures Final(RunList(env, Nest(PlanArms(entries, arms[1..]), PlanList(entries, els)), st, fuel)) ==
            ExecList(env, Unfolded(arms[1..], els), st, fuel)
    decreases |arms|, 0
  {
    if |arms| > 1 {
      ChainMeans(env, entries, arms[1..], els, st, fuel);
    } else {
      ListEffect(env, entries, els, st, fuel);
    }
  }

  // One condition of the unfolded text.
  lemma {:induction false} ArmMeans(env: Env, c: Expr, body: seq<Stmt>, rest: seq<Stmt>, st: State, fuel: nat)
    ensures ExecList(env, [If(c, body, [], rest)], st, fuel) ==
            if Holds(env, c, st) then ExecList(env, body, st, fuel) else ExecList(env, rest, st, fuel)
    ensures ExecList(env, [If(c, body, [], [])] + rest, st, fuel) ==
            if Holds(env, c, st) then Next(env, ExecList(env, body, st, fuel), rest, fuel)
                  else ExecList(env, rest, st, fuel)
  {
    ExecOne(env, If(c, body, [], rest), st, fuel);
    ExecOne(env, If(c, body, [], []), st, fuel);
    ExecAppend(env, [If(c, body, [], [])], rest, st, fuel);
  }

  // What the unfolded text computes: the list of the first condition that holds, and what runs on
  // behind it.
  function ChainResult(env: Env, arms: seq<Arm>, els: seq<Stmt>, st: State, fuel: nat): Option<State>
    requires arms != []
  {
    var k := FirstTrue(env, arms, st);
    if k < |arms| then Next(env, ExecList(env, arms[k].body, st, fuel), RunsOn(arms, k, els), fuel)
    else if els != [] then ExecList(env, els, st, fuel)
    else ExecList(env, NoneHolds(arms), st, fuel)
  }

  lemma {:induction false} ChainFirst(env: Env, arms: seq<Arm>, els: seq<Stmt>, st: State, fuel: nat)
    requires arms != [] && Holds(env, arms[0].cond, st)
    ensures ChainResult(env, arms, els, st, fuel) ==
            Next(env, ExecList(env, arms[0].body, st, fuel), RunsOn(arms, 0, els), fuel)
  {
  }

  lemma {:induction false} ChainRest(env: Env, arms: seq<Arm>, els: seq<Stmt>, st: State, fuel: nat)
    requires |arms| > 1 && !Holds(env, arms[0].cond, st) && !(|arms| == 2 && Copying(arms, els))
    ensures ChainResult(env, arms, els, st, fuel) == ChainResult(env, arms[1..], els, st, fuel)
  {
    var k, rest := FirstTrue(env, arms, st), arms[1..];
    assert FirstTrue(env, rest, st) == k - 1;
    if k < |arms| {
      assert rest[k - 1] == arms[k] && rest[k..] == arms[k + 1..];
    } else {
      assert rest[|rest| - 1] == arms[|arms| - 1];
    }
  }

  lemma {:induction false} UnfoldedFirst(env: Env, arms: seq<Arm>, els: seq<Stmt>, st: State, fuel: nat)
    requires |arms| > 1 || (arms != [] && els != [])
    ensures ExecList(env, Unfolded(arms, els), st, fuel) ==
            if Holds(env, arms[0].cond, st) then
              Next(env, ExecList(env, arms[0].body, st, fuel), RunsOn(arms, 0, els), fuel)
            else ExecList(env, TextBehind(arms, els), st, fuel)
  {
    var Arm(c, body) := arms[0];
    ArmMeans(env, c, body, TextBehind(arms, els), st, fuel);
    NextNothing(env, ExecList(env, body, st, fuel), fuel);
  }

  lemma {:induction false} UnfoldedRuns(env: Env, arms: seq<Arm>, els: seq<Stmt>, st: State, fuel: nat)
    requires arms != [] && ArmsWellFormed(arms)
    ensures ExecList(env, Unfolded(arms, els), st, fuel) == ChainResult(env, arms, els, st, fuel)
  {
    var Arm(c, body) := arms[0];
    if |arms| == 1 && els == [] {
      UnfoldedLast(env, c, body, arms, st, fuel);
    } else {
      UnfoldedFirst(env, arms, els, st, fuel);
      if Holds(env, c, st) {
        ChainFirst(env, arms, els, st, fuel);
      } else if |arms| == 2 && Copying(arms, els) {
        SecondRuns(env, arms, st, fuel);
      } else if |arms| > 1 {
        ChainRest(env, arms, els, st, fuel);
        UnfoldedRuns(env, arms[1..], els, st, fuel);
      }
    }
  }

  lemma {:induction false} SecondRuns(env: Env, arms: seq<Arm>, st: State, fuel: nat)
    requires |arms| == 2 && Copying(arms, []) && ArmsWellFormed(arms) && !Holds(env, arms[0].cond, st)
    ensures ExecList(env, TextBehind(arms, []), st, fuel) == ChainResult(env, arms, [], st, fuel)
  {
    var body := arms[0].body;
    var Arm(d, silent) := arms[1];
    assert FirstTrue(env, arms, st) == 1 + FirstTrue(env, arms[1..], st);
    assert FirstTrue(env, arms[1..], st) == if Holds(env, d, st) then 0 else 1;
    SilentListDoesNothing(env, silent, st, fuel);
    NextNothing(env, Some(st), fuel);
    ExecOne(env, If(d, silent, [], TrailingLoops(body)), st, fuel);
    ExecOne(env, Waiting(body, d), st, fuel);
  }

  lemma {:induction false} UnfoldedLast(env: Env, c: Expr, body: seq<Stmt>, arms: seq<Arm>, st: State, fuel: nat)
    requires arms == [Arm(c, body)]
    ensures ExecList(env, Unfolded(arms, []), st, fuel) == ChainResult(env, arms, [], st, fuel)
  {
    ArmMeans(env, c, body, TrailingLoops(body), st, fuel);
    NextNothing(env, ExecList(env, body, st, fuel), fuel);
  }

  lemma {:induction false} PlanOfArms(entries: map<string, int>, s: Stmt)
    requires s.If? && CodedArms(s) != []
    ensures PlanOf(entries, s) == Nest(PlanArms(entries, CodedArms(s)), PlanList(entries, s.els))
  {
    var arms, planned, p := CodedArms(s), PlanArms(entries, s.elifs), PlanList(entries, s.els);
    PlanNoCode(entries, s.elifs);
    assert Nest([], p) == p;
    if s.thn != [] {
      assert arms[1..] == if AllEmpty(ArmBodies(s.elifs)) then [] else s.elifs;
      assert PlanArms(entries, arms)[1..] == PlanArms(entries, arms[1..]);
    } else {
      assert arms == s.elifs;
    }
    assert PlanArms(entries, arms) == ArmsWithCode(s.cond, PlanList(entries, s.thn), planned);
  }

  // Which condition the code finds first, and which list the source chooses.
  lemma {:induction false} CodedChoice(env: Env, s: Stmt, st: State, fuel: nat)
    requires s.If? && (AllEmpty(ArmBodies(s.elifs)) || NoneEmpty(ArmBodies(s.elifs)))
    ensures var arms := CodedArms(s);
            var j := FirstTrue(env, arms, st);
            Exec(env, s, st, fuel) ==
            if ChoosesEmpty(env, s, st) then Some(st)
            else if j < |arms| then ExecList(env, arms[j].body, st, fuel)
            else ExecList(env, s.els, st, fuel)
  {
    var arms, k := CodedArms(s), FirstTrue(env, s.elifs, st);
    assert k < |s.elifs| ==> ArmBodies(s.elifs)[k] == s.elifs[k].body;
    assert ExecList(env, [], st, fuel) == Some(st);
    if s.thn != [] {
      assert arms[1..] == if AllEmpty(ArmBodies(s.elifs)) then [] else s.elifs;
    } else {
      assert arms == if AllEmpty(ArmBodies(s.elifs)) then [] else s.elifs;
    }
  }

  // The code of an IF does what the source does, and then the extra statements.
  lemma {:induction false} IfMeans(env: Env, entries: map<string, int>, s: Stmt, st: State, fuel: nat)
    requires s.If? && PartsWellFormed(s)
    ensures Final(RunList(env, PlanOf(entries, s), st, fuel)) ==
            Next(env, Exec(env, s, st, fuel), Extra(env, s, st), fuel)
  {
    CodedChoice(env, s, st, fuel);
    if CodedArms(s) == [] {
      OnlyElseMeans(env, entries, s, st, fuel);
    } else {
      ArmsMean(env, entries, s, st, fuel);
      assert ArmsWellFormed(CodedArms(s));
      ExtraRuns(env, s, st, fuel);
    }
  }

  lemma {:induction false} ArmsMean(env: Env, entries: map<string, int>, s: Stmt, st: State, fuel: nat)
    requires s.If? && PartsWellFormed(s) && CodedArms(s) != []
    ensures Final(RunList(env, PlanOf(entries, s), st, fuel)) == ExecList(env, Unfolded(CodedArms(s), s.els), st, fuel)
  {
    PlanOfArms(entries, s);
    assert ArmsWellFormed(CodedArms(s));
    ChainMeans(env, entries, CodedArms(s), s.els, st, fuel);
  }

  lemma {:induction false} ExtraRuns(env: Env, s: Stmt, st: State, fuel: nat)
    requires s.If? && CodedArms(s) != [] && ArmsWellFormed(CodedArms(s))
    ensures var arms, j := CodedArms(s), FirstTrue(env, CodedArms(s), st);
            ExecList(env, Unfolded(arms, s.els), st, fuel) ==
            Next(env, if ChoosesEmpty(env, s, st) then Some(st)
                      else if j < |arms| then ExecList(env, arms[j].body, st, fuel)
                      else ExecList(env, s.els, st, fuel), Extra(env, s, st), fuel)
  {
    var arms := CodedArms(s);
    var j := FirstTrue(env, arms, st);
    UnfoldedRuns(env, arms, s.els, st, fuel);
    if j < |arms| {
      ExecAppend(env, arms[j].body, RunsOn(arms, j, s.els), st, fuel);
      assert [] + RunsOn(arms, j, s.els) == RunsOn(arms, j, s.els);
    } else {
      NextNothing(env, ExecList(env, s.els, st, fuel), fuel);
    }
  }

  lemma {:induction false} NextNothing(env: Env, r: Option<State>, fuel: nat)
    ensures Next(env, r, [], fuel) == r
  {
  }

  lemma {:induction false} OnlyElseMeans(env: Env, entries: map<string, int>, s: Stmt, st: State, fuel: nat)
    requires s.If? && PartsWellFormed(s) && CodedArms(s) == []
    ensures Final(RunList(env, PlanOf(entries, s), st, fuel)) ==
            if s.els == [] then Some(st)
            else if Holds(env, LastCondition(s), st) then ExecList(env, TrailingLoops(s.els), st, fuel)
            else ExecList(env, s.els, st, fuel)
    ensures Holds(env, LastCondition(s), st) && s.els != [] ==> ChoosesEmpty(env, s, st)
  {
    OnlyElseShape(entries, s);
    ListFollows(env, entries, s.els, st, fuel);
    if Holds(env, LastCondition(s), st) {
      LastConditionChooses(env, s, st);
    }
  }

  lemma {:induction false} OnlyElseShape(entries: map<string, int>, s: Stmt)
    requires s.If? && CodedArms(s) == []
    ensures PlanOf(entries, s) ==
            if s.els == [] then [CSkip] else [CUnless(LastCondition(s), PlanList(entries, s.els))]
  {
    var planned := PlanArms(entries, s.elifs);
    PlanNoCode(entries, s.elifs);
    assert s.elifs != [] ==> planned[|planned| - 1].cond == s.elifs[|s.elifs| - 1].cond;
  }

  lemma {:induction false} LastConditionChooses(env: Env, s: Stmt, st: State)
    requires s.If? && CodedArms(s) == [] && Holds(env, LastCondition(s), st)
    ensures ChoosesEmpty(env, s, st)
  {
    var k, n := FirstTrue(env, s.elifs, st), |s.elifs|;
    assert k < n ==> ArmBodies(s.elifs)[k] == s.elifs[k].body;
  }

  // The meaning of an IF is kept exactly if the statements that run by mistake change nothing.
  lemma {:induction false} IfAgreesExactly(env: Env, entries: map<string, int>, s: Stmt, st: State, fuel: nat)
    requires s.If? && PartsWellFormed(s)
    ensures Final(RunList(env, PlanOf(entries, s), st, fuel)) == Exec(env, s, st, fuel)
            <==> forall t | Exec(env, s, st, fuel) == Some(t) :: ExecList(env, Extra(env, s, st), t, fuel) == Some(t)
  {
    IfMeans(env, entries, s, st, fuel);
  }

  // A CASE deviates as the IF that it is compiled as.
  lemma {:induction false} CaseAgreesExactly(env: Env, entries: map<string, int>, s: Stmt, st: State, fuel: nat)
    requires s.Case? && s.arms != [] && PartsWellFormed(Lowered(s))
    ensures Final(RunList(env, PlanOf(entries, s), st, fuel)) == Exec(env, s, st, fuel)
            <==> forall t | Exec(env, s, st, fuel) == Some(t) ::
                  ExecList(env, Extra(env, Lowered(s), st), t, fuel) == Some(t)
  {
    LoweredPlan(entries, s);
    LoweredMeans(env, s, st, fuel);
    IfMeans(env, entries, Lowered(s), st, fuel);
  }

  // Nothing runs by mistake in the selections that count as well-formed.
  lemma {:induction false} FaithfulHasNoExtra(env: Env, s: Stmt, st: State)
    requires s.If? && SelectionFaithful(s.thn, ArmBodies(s.elifs), s.els)
    ensures Extra(env, s, st) == []
  {
    var bodies, arms, k := ArmBodies(s.elifs), CodedArms(s), FirstTrue(env, s.elifs, st);
    assert k < |s.elifs| ==> bodies[k] == s.elifs[k].body;
    assert forall i | 0 <= i < |bodies| :: Solid(bodies[i]);
    if s.thn != [] {
      assert arms[1..] == if AllEmpty(bodies) then [] else s.elifs;
      assert FirstTrue(env, arms, st) == if Holds(env, s.cond, st) then 0 else 1 + FirstTrue(env, arms[1..], st);
    }
  }

  // ---------- loops that run by mistake ----------

  lemma {:induction false} LoopEnds(env: Env, s: Stmt, st: State, fuel: nat)
    requires s.While? && Exec(env, s, st, fuel).Some?
    ensures !Holds(env, s.cond, Exec(env, s, st, fuel).value)
    decreases fuel
  {
    if Holds(env, s.cond, st) {
      LoopEnds(env, s, ExecList(env, s.body, st, fuel - 1).value, fuel - 1);
    }
  }

  // Loops whose conditions do not hold change nothing; if they change nothing, the condition of the
  // outermost one, which runs last, does not hold.
  lemma {:induction false} LoopsIdle(env: Env, loops: seq<Stmt>, st: State, fuel: nat)
    requires AreLoops(loops)
    ensures (forall i | 0 <= i < |loops| :: !Holds(env, loops[i].cond, st)) ==>
            ExecList(env, loops, st, fuel) == Some(st)
    ensures ExecList(env, loops, st, fuel).Some? && loops != [] ==>
              !Holds(env, loops[|loops| - 1].cond, ExecList(env, loops, st, fuel).value)
  {
    if loops != [] {
      var mid := Exec(env, loops[0], st, fuel);
      if mid.Some? {
        LoopEnds(env, loops[0], st, fuel);
        LoopsIdle(env, loops[1..], mid.value, fuel);
        assert |loops| == 1 ==> ExecList(env, loops[1..], mid.value, fuel) == mid;
      }
    }
  }

  // ---------- a last condition that copies ----------

  // Waiting without a loop ends only where the condition holds already.
  lemma {:induction false} WaitingIdle(env: Env, front: seq<Stmt>, c: Expr, st: State, fuel: nat)
    requires TrailingLoops(front) == []
    ensures Exec(env, Waiting(front, c), st, fuel) == if Holds(env, c, st) then Some(st) else None
    decreases fuel
  {
    if fuel > 0 && !Holds(env, c, st) {
      WaitingIdle(env, front, c, st, fuel - 1);
    }
  }

  // IF c THEN thn ELSIF d THEN (no code) END_IF in a state in which c does not hold.
  lemma {:induction false} CopyRuns(env: Env, entries: map<string, int>, c: Expr, thn: seq<Stmt>, d: Expr,
        silent: seq<Stmt>, st: State, fuel: nat)
    requires WellFormedList(thn) && !Silent(thn) && WellFormedList(silent) && Silent(silent) && silent != []
    requires !Holds(env, c, st)
    ensures var s := If(c, thn, [Arm(d, silent)], []);
            && Exec(env, s, st, fuel) == Some(st)
            && Final(RunList(env, PlanOf(entries, s), st, fuel)) ==
               if Holds(env, d, st) then Some(st)
               else ExecList(env, if Solid(thn) then TrailingLoops(thn) else [Waiting(thn, d)], st, fuel)
  {
    var s := If(c, thn, [Arm(d, silent)], []);
    var arms := [Arm(c, thn), Arm(d, silent)];
    assert ArmBodies(s.elifs)[0] == silent;
    assert !AllEmpty(ArmBodies(s.elifs)) && NoneEmpty(ArmBodies(s.elifs));
    assert CodedArms(s) == [Arm(c, thn)] + s.elifs == arms;
    assert arms[1..] == [Arm(d, silent)] == s.elifs && s.elifs[1..] == [];
    assert FirstTrue(env, arms, st) == 1 + FirstTrue(env, s.elifs, st);
    assert FirstTrue(env, s.elifs, st) == if Holds(env, d, st) then 0 else 1;
    SilentListDoesNothing(env, silent, st, fuel);
    IfMeans(env, entries, s, st, fuel);
    NextNothing(env, Some(st), fuel);
  }

  lemma {:induction false} CopySupported(c: Expr, thn: seq<Stmt>, d: Expr, silent: seq<Stmt>)
    requires SupportedList(map[], thn) && SupportedList(map[], silent) && Silent(silent) && silent != []
    requires EndingOfList(PlanList(map[], thn)) == InGoto
    ensures Supported(map[], If(c, thn, [Arm(d, silent)], []))
  {
    var elifs := [Arm(d, silent)];
    assert ArmBodies(elifs) == [silent];
    SilentPlan(map[], silent);
  }

  // The meaning is kept exactly if a condition holds or, for a list that does not fall, the loop that it
  // ends in, if there is one, would not start.
  lemma {:induction false} CopyAgreesExactly(env: Env, entries: map<string, int>, c: Expr, thn: seq<Stmt>, d: Expr,
        silent: seq<Stmt>, st: State, fuel: nat)
    requires WellFormedList(thn) && !Silent(thn) && WellFormedList(silent) && Silent(silent) && silent != []
    requires !Holds(env, c, st) && |TrailingLoops(thn)| <= if Solid(thn) then 1 else 0
    ensures var s, loops := If(c, thn, [Arm(d, silent)], []), TrailingLoops(thn);
            Final(RunList(env, PlanOf(entries, s), st, fuel)) == Exec(env, s, st, fuel)
            <==> Holds(env, d, st) || (Solid(thn) && forall i | 0 <= i < |loops| :: !Holds(env, loops[i].cond, st))
  {
    CopyRuns(env, entries, c, thn, d, silent, st, fuel);
    LoopsIdle(env, TrailingLoops(thn), st, fuel);
    if !Solid(thn) {
      WaitingIdle(env, thn, d, st, fuel);
      ExecOne(env, Waiting(thn, d), st, fuel);
    }
  }

  // An IF without ELSE whose list ends in loops: the meaning is kept if the condition holds or no
  // loop would start, and only if the condition holds or the outermost loop would not start.
  lemma {:induction false} TrailingLoopsDecide(env: Env, entries: map<string, int>, c: Expr, thn: seq<Stmt>,
        st: State, fuel: nat)
    requires thn != [] && Solid(thn) && WellFormedList(thn)
    ensures var s, loops := If(c, thn, [], []), TrailingLoops(thn);
            var agrees := Final(RunList(env, PlanOf(entries, s), st, fuel)) == Exec(env, s, st, fuel);
            && (Holds(env, c, st) || (forall i | 0 <= i < |loops| :: !Holds(env, loops[i].cond, st)) ==> agrees)
            && (agrees && !Holds(env, c, st) && loops != [] ==> !Holds(env, loops[|loops| - 1].cond, st))
  {
    var s, loops := If(c, thn, [], []), TrailingLoops(thn);
    TrailingLoopsRun(env, entries, c, thn, st, fuel);
    LoopsIdle(env, loops, st, fuel);
    var compiled := Final(RunList(env, PlanOf(entries, s), st, fuel));
    if compiled == Exec(env, s, st, fuel) && !Holds(env, c, st) && loops != [] {
      assert ExecList(env, loops, st, fuel) == Some(st);
    }
  }

  // If the condition is false, the source does nothing and the code runs the loops.
  lemma {:induction false} TrailingLoopsRun(env: Env, entries: map<string, int>, c: Expr, thn: seq<Stmt>, st: State,
        fuel: nat)
    requires thn != [] && Solid(thn) && WellFormedList(thn)
    ensures var s := If(c, thn, [], []);
            var compiled := Final(RunList(env, PlanOf(entries, s), st, fuel));
            if Holds(env, c, st) then compiled == Exec(env, s, st, fuel)
            else Exec(env, s, st, fuel) == Some(st) && compiled == ExecList(env, TrailingLoops(thn), st, fuel)
  {
    var s := If(c, thn, [], []);
    IfMeans(env, entries, s, st, fuel);
    assert CodedArms(s) == [Arm(c, thn)];
    assert FirstTrue(env, [Arm(c, thn)], st) == if Holds(env, c, st) then 0 else 1;
    if Holds(env, c, st) {
      assert Extra(env, s, st) == [];
      NextNothing(env, ExecList(env, thn, st, fuel), fuel);
    } else {
      assert Exec(env, s, st, fuel) == ExecList(env, [], st, fuel) == Some(st);
      assert Extra(env, s, st) == TrailingLoops(thn);
    }
  }

  // With one trailing loop, the two conditions decide.
  lemma {:induction false} TrailingLoopAgreesExactly(env: Env, entries: map<string, int>, c: Expr, front: seq<Stmt>,
        d: Expr, body: seq<Stmt>, st: State, fuel: nat)
    requires WellFormedList(front) && WellFormed(While(d, body)) && TrailingLoops(body) == []
    ensures var s := If(c, front + [While(d, body)], [], []);
            Final(RunList(env, PlanOf(entries, s), st, fuel)) == Exec(env, s, st, fuel)
            <==> Holds(env, c, st) || !Holds(env, d, st)
  {
    var loop := While(d, body);
    var thn := front + [loop];
    assert thn[|thn| - 1] == loop && TrailingLoops(thn) == [loop];
    TrailingLoopsDecide(env, entries, c, thn, st, fuel);
  }

  // A loop whose body runs on is left after one iteration: the meaning is kept exactly if the source
  // does not start a second one.
  lemma {:induction false} FallingLoopAgreesExactly(env: Env, entries: map<string, int>, c: Expr, body: seq<Stmt>,
        st: State, fuel: nat)
    requires WellFormedList(body) && !Solid(body) && fuel > 0
    ensures Final(RunList(env, PlanOf(entries, While(c, body)), st, fuel)) == Exec(env, While(c, body), st, fuel)
            <==> !Holds(env, c, st)
                 || (forall t | ExecList(env, body, st, fuel - 1) == Some(t) :: !Holds(env, c, t))
  {
    ListEffect(env, entries, body, st, fuel - 1);
    var mid := ExecList(env, body, st, fuel - 1);
    if mid.Some? && Exec(env, While(c, body), mid.value, fuel - 1).Some? {
      LoopEnds(env, While(c, body), mid.value, fuel - 1);
    }
  }

  // A loop with an empty body is dropped; the source never leaves it once its condition holds.
  lemma {:induction false} EmptyLoopAgreesExactly(env: Env, entries: map<string, int>, c: Expr, st: State, fuel: nat)
    ensures Final(RunList(env, PlanOf(entries, While(c, [])), st, fuel)) == Exec(env, While(c, []), st, fuel)
            <==> !Holds(env, c, st)
  {
    if Holds(env, c, st) {
      EmptyLoopDiverges(env, c, st, fuel);
    }
  }

  lemma {:induction false} EmptyLoopDiverges(env: Env, c: Expr, st: State, fuel: nat)
    requires Holds(env, c, st)
    ensures Exec(env, While(c, []), st, fuel) == None
    decreases fuel
  {
    if fuel > 0 {
      assert ExecList(env, [], st, fuel - 1) == Some(st);
      EmptyLoopDiverges(env, c, st, fuel - 1);
    }
  }

  // ---------- programs that go wrong ----------

  function Var(x: string): Expr {
    VariableAccess(x)
  }

  function Put(x: string, b: bool): Stmt {
    Assignment(x, BooleanConstant(b))
  }

  lemma {:induction false} PutEnds(x: string, b: bool)
    ensures EndingOfList(PlanList(map[], [Put(x, b)])) == InGoto
  {
    EndingOne(CAssign(x, BooleanConstant(b)));
    assert PlanList(map[], [Put(x, b)]) == [CAssign(x, BooleanConstant(b))];
  }

  lemma {:induction false} PutDoes(env: Env, x: string, b: bool, st: State, fuel: nat)
    ensures ExecList(env, [Put(x, b)], st, fuel) == Some(State(st.vars[x := OfBool(b)], st.consumed))
  {
    ExecOne(env, Put(x, b), st, fuel);
  }

  // IF a THEN ELSIF b THEN x := TRUE; END_IF: the IF condition is lost.
  lemma {:induction false} EmptyThenFails(env: Env)
    ensures var s := If(Var("a"), [], [Arm(Var("b"), [Put("x", true)])], []);
            var st := State(map["a" := 1, "b" := 1], 0);
            && Supported(map[], s) && Exec(env, s, st, 0) == Some(st)
            && Final(RunList(env, PlanOf(map[], s), st, 0)) == Some(State(map["a" := 1, "b" := 1, "x" := 1], 0))
  {
    var list, st := [Put("x", true)], State(map["a" := 1, "b" := 1], 0);
    OneElsif(env, Var("a"), Var("b"), list, st, State(map["a" := 1, "b" := 1, "x" := 1], 0));
    PutEnds("x", true);
    PutDoes(env, "x", true, st, 0);
  }

  // An IF with an empty THEN list and one ELSIF, both of whose conditions hold.
  lemma {:induction false} OneElsif(env: Env, a: Expr, b: Expr, list: seq<Stmt>, st: State, t: State)
    requires list != [] && Holds(env, a, st) && Holds(env, b, st) && ExecList(env, list, st, 0) == Some(t)
    requires WellFormedList(list) && Solid(list) && SupportedList(map[], list)
            && EndingOfList(PlanList(map[], list)) == InGoto
    ensures var s := If(a, [], [Arm(b, list)], []);
            Supported(map[], s) && Exec(env, s, st, 0) == Some(st)
                  && Final(RunList(env, PlanOf(map[], s), st, 0)) == Some(t)
  {
    var s := If(a, [], [Arm(b, list)], []);
    assert ArmBodies(s.elifs) == [list] && [list][0] == list;
    IfMeans(env, map[], s, st, 0);
    assert Exec(env, s, st, 0) == ExecList(env, [], st, 0);
    assert CodedArms(s) == s.elifs;
    assert list + [] == list && Extra(env, s, st) == list;
  }

  // IF a THEN x := TRUE; ELSIF b THEN ELSE y := TRUE; END_IF: the ELSIF condition is lost.
  lemma {:induction false} EmptyElsifFails(env: Env)
    ensures var s := If(Var("a"), [Put("x", true)], [Arm(Var("b"), [])], [Put("y", true)]);
            var st := State(map["a" := 0, "b" := 1], 0);
            && Supported(map[], s) && Exec(env, s, st, 0) == Some(st)
            && Final(RunList(env, PlanOf(map[], s), st, 0)) == Some(State(map["a" := 0, "b" := 1, "y" := 1], 0))
  {
    var st := State(map["a" := 0, "b" := 1], 0);
    SilentElsif(env, Var("a"), [Put("x", true)], Var("b"), [Put("y", true)], st,
          State(map["a" := 0, "b" := 1, "y" := 1], 0));
    PutDoes(env, "y", true, st, 0);
  }

  // An IF with one empty ELSIF, whose condition alone holds.
  lemma {:induction false} SilentElsif(env: Env, a: Expr, thn: seq<Stmt>, b: Expr, els: seq<Stmt>, st: State, t: State)
    requires thn != [] && els != [] && !Holds(env, a, st) && Holds(env, b, st) && ExecList(env, els, st, 0) == Some(t)
    requires WellFormedList(thn) && WellFormedList(els) && SupportedList(map[], thn) && SupportedList(map[], els)
    ensures var s := If(a, thn, [Arm(b, [])], els);
            Supported(map[], s) && Exec(env, s, st, 0) == Some(st)
                  && Final(RunList(env, PlanOf(map[], s), st, 0)) == Some(t)
  {
    var s := If(a, thn, [Arm(b, [])], els);
    IfMeans(env, map[], s, st, 0);
    assert Exec(env, s, st, 0) == ExecList(env, [], st, 0);
    assert CodedArms(s) == [Arm(a, thn)];
    assert FirstTrue(env, [Arm(a, thn)], st) == 1;
  }

  // IF a THEN ELSIF b THEN ELSE x := TRUE; END_IF: only the last condition is left.
  lemma {:induction false} OnlyElseFails(env: Env)
    ensures var s := If(Var("a"), [], [Arm(Var("b"), [])], [Put("x", true)]);
            var st := State(map["a" := 1, "b" := 0], 0);
            && Supported(map[], s) && Exec(env, s, st, 0) == Some(st)
            && Final(RunList(env, PlanOf(map[], s), st, 0)) == Some(State(map["a" := 1, "b" := 0, "x" := 1], 0))
  {
    var st := State(map["a" := 1, "b" := 0], 0);
    LastConditionOnly(env, Var("a"), Var("b"), [Put("x", true)], st, State(map["a" := 1, "b" := 0, "x" := 1], 0));
    PutEnds("x", true);
    PutDoes(env, "x", true, st, 0);
  }

  // An IF of which only the ELSE list has statements, where the last condition is the only false one.
  lemma {:induction false} LastConditionOnly(env: Env, a: Expr, b: Expr, els: seq<Stmt>, st: State, t: State)
    requires els != [] && Holds(env, a, st) && !Holds(env, b, st) && ExecList(env, els, st, 0) == Some(t)
    requires WellFormedList(els) && SupportedList(map[], els) && EndingOfList(PlanList(map[], els)) == InGoto
    ensures var s := If(a, [], [Arm(b, [])], els);
            Supported(map[], s) && Exec(env, s, st, 0) == Some(st)
                  && Final(RunList(env, PlanOf(map[], s), st, 0)) == Some(t)
  {
    var s := If(a, [], [Arm(b, [])], els);
    IfMeans(env, map[], s, st, 0);
    assert Exec(env, s, st, 0) == ExecList(env, [], st, 0);
    assert CodedArms(s) == [];
  }

  // IF a THEN WHILE d DO d := FALSE; END_WHILE; ELSIF b THEN IF c THEN END_IF; END_IF: the loop runs
  // although neither a nor b holds.
  lemma {:induction false} CopiedLoopFails(env: Env)
    ensures var elifs := [Arm(Var("b"), [If(Var("c"), [], [], [])])];
            var s := If(Var("a"), [While(Var("d"), [Put("d", false)])], elifs, []);
            var st := State(map["a" := 0, "b" := 0, "d" := 1], 0);
            && Supported(map[], s) && Exec(env, s, st, 1) == Some(st)
            && Final(RunList(env, PlanOf(map[], s), st, 1)) == Some(State(map["a" := 0, "b" := 0, "d" := 0], 0))
  {
    var st, end := State(map["a" := 0, "b" := 0, "d" := 1], 0), State(map["a" := 0, "b" := 0, "d" := 0], 0);
    PutEnds("d", false);
    CopySupported(Var("a"), [While(Var("d"), [Put("d", false)])], Var("b"), [If(Var("c"), [], [], [])]);
    PutDoes(env, "d", false, st, 0);
    assert st.vars["d" := 0] == end.vars;
    CopiedLoop(env, Var("a"), Var("d"), [Put("d", false)], Var("b"), [If(Var("c"), [], [], [])], st, end);
  }

  // A loop in front of a last condition that copies, where the loop iterates once.
  lemma {:induction false} CopiedLoop(env: Env, a: Expr, d: Expr, body: seq<Stmt>, b: Expr, silent: seq<Stmt>,
        st: State, end: State)
    requires !Holds(env, a, st) && !Holds(env, b, st) && Holds(env, d, st) && !Holds(env, d, end)
    requires ExecList(env, body, st, 0) == Some(end)
    requires body != [] && Solid(body) && WellFormedList(body) && TrailingLoops(body) == []
    requires WellFormedList(silent) && Silent(silent) && silent != []
    ensures var s := If(a, [While(d, body)], [Arm(b, silent)], []);
            Exec(env, s, st, 1) == Some(st) && Final(RunList(env, PlanOf(map[], s), st, 1)) == Some(end)
  {
    var loop := While(d, body);
    assert TrailingLoops([loop]) == [] + [loop] == [loop];
    assert Exec(env, loop, end, 0) == Some(end);
    ExecOne(env, loop, st, 1);
    CopyRuns(env, map[], a, [loop], b, silent, st, 1);
  }

  // Without loops, and with a list that does not fall, nothing happens by mistake; with one that falls,
  // IF a THEN x := TRUE; IF c THEN END_IF; ELSIF b THEN IF c THEN END_IF; END_IF never ends.
  lemma {:induction false} CopiedFallFails(env: Env, fuel: nat)
    ensures var silent := If(Var("c"), [], [], []);
            var s := If(Var("a"), [Put("x", true), silent], [Arm(Var("b"), [silent])], []);
            var st := State(map["a" := 0, "b" := 0], 0);
            && Supported(map[], s) && Exec(env, s, st, fuel) == Some(st)
            && Final(RunList(env, PlanOf(map[], s), st, fuel)) == None
  {
    var silent := If(Var("c"), [], [], []);
    var st := State(map["a" := 0, "b" := 0], 0);
    PutEnds("x", true);
    CopiedFall(env, Var("a"), [Put("x", true)], silent, Var("b"), st, fuel);
    assert [Put("x", true)] + [silent] == [Put("x", true), silent];
  }

  lemma {:induction false} CopiedFall(env: Env, a: Expr, front: seq<Stmt>, silent: Stmt, b: Expr, st: State, fuel: nat)
    requires WellFormedList(front) && SupportedList(map[], front) && EndingOfList(PlanList(map[], front)) == InGoto
    requires front != [] && Solid(front) && TrailingLoops(front) == []
    requires WellFormed(silent) && !Emits(silent) && Supported(map[], silent)
    requires !Holds(env, a, st) && !Holds(env, b, st)
    ensures var s := If(a, front + [silent], [Arm(b, [silent])], []);
            && Supported(map[], s) && Exec(env, s, st, fuel) == Some(st)
            && Final(RunList(env, PlanOf(map[], s), st, fuel)) == None
  {
    var thn := front + [silent];
    assert thn[..|thn| - 1] == front && thn[|thn| - 1] == silent;
    PlanSnoc(map[], thn);
    PlanEmits(map[], silent);
    EndingAppend(PlanList(map[], front), PlanOf(map[], silent));
    CopySupported(a, thn, b, [silent]);
    SilentPlan(map[], thn);
    CopyRuns(env, map[], a, thn, b, [silent], st, fuel);
    WaitingIdle(env, thn, b, st, fuel);
    ExecOne(env, Waiting(thn, b), st, fuel);
  }

  // IF a THEN WHILE b DO b := FALSE; END_WHILE; END_IF: the loop runs although a is false.
  lemma {:induction false} TrailingLoopFails(env: Env)
    ensures var s := If(Var("a"), [While(Var("b"), [Put("b", false)])], [], []);
            var st := State(map["a" := 0, "b" := 1], 0);
            && Supported(map[], s) && Exec(env, s, st, 1) == Some(st)
            && Final(RunList(env, PlanOf(map[], s), st, 1)) == Some(State(map["a" := 0, "b" := 0], 0))
  {
    var st, end := State(map["a" := 0, "b" := 1], 0), State(map["a" := 0, "b" := 0], 0);
    PutDoes(env, "b", false, st, 0);
    assert st.vars["b" := 0] == end.vars;
    LoopRuns(env, Var("a"), Var("b"), [Put("b", false)], st, end);
  }

  // An IF whose condition does not hold, and whose list is a loop that iterates once.
  lemma {:induction false} LoopRuns(env: Env, a: Expr, b: Expr, body: seq<Stmt>, st: State, end: State)
    requires !Holds(env, a, st) && Holds(env, b, st) && !Holds(env, b, end) && ExecList(env, body, st, 0) == Some(end)
    requires body != [] && Solid(body) && WellFormedList(body) && TrailingLoops(body) == []
    ensures var s := If(a, [While(b, body)], [], []);
            Exec(env, s, st, 1) == Some(st) && Final(RunList(env, PlanOf(map[], s), st, 1)) == Some(end)
  {
    var loop := While(b, body);
    assert TrailingLoops([loop]) == [] + [loop] == [loop];
    TrailingLoopsRun(env, map[], a, [loop], st, 1);
    assert Exec(env, loop, end, 0) == Some(end);
    ExecOne(env, loop, st, 1);
  }

  // IF a THEN x := TRUE; IF b THEN END_IF; ELSE y := TRUE; END_IF: both lists run.
  lemma {:induction false} FallingThenFails(env: Env)
    ensures var s := If(Var("a"), [Put("x", true), If(Var("b"), [], [], [])], [], [Put("y", true)]);
            var st := State(map["a" := 1], 0);
            && Supported(map[], s) && Exec(env, s, st, 0) == Some(State(map["a" := 1, "x" := 1], 0))
            && Final(RunList(env, PlanOf(map[], s), st, 0)) == Some(State(map["a" := 1, "x" := 1, "y" := 1], 0))
  {
    var st, t := State(map["a" := 1], 0), State(map["a" := 1, "x" := 1], 0);
    FallingThenSupported();
    PutDoes(env, "x", true, st, 0);
    PutDoes(env, "y", true, t, 0);
    assert [Put("x", true), If(Var("b"), [], [], [])] == [Put("x", true)] + [If(Var("b"), [], [], [])];
    BothRun(env, Var("a"), [Put("x", true)], If(Var("b"), [], [], []), [Put("y", true)], st, t,
          State(map["a" := 1, "x" := 1, "y" := 1], 0));
  }

  lemma {:induction false} FallingThenSupported()
    ensures Supported(map[], If(Var("a"), [Put("x", true), If(Var("b"), [], [], [])], [], [Put("y", true)]))
  {
    assert Supported(map[], If(Var("b"), [], [], []));
  }

  // An IF whose condition holds and whose THEN list ends in a statement without code.
  lemma {:induction false} BothRun(env: Env, a: Expr, front: seq<Stmt>, silent: Stmt, els: seq<Stmt>, st: State,
        t: State, u: State)
    requires WellFormedList(front) && WellFormedList(els) && els != [] && WellFormed(silent) && !Emits(silent)
    requires Holds(env, a, st) && ExecList(env, front, st, 0) == Some(t) && ExecList(env, els, t, 0) == Some(u)
    ensures var s := If(a, front + [silent], [], els);
            Exec(env, s, st, 0) == Some(t) && Final(RunList(env, PlanOf(map[], s), st, 0)) == Some(u)
  {
    var thn := front + [silent];
    var s := If(a, thn, [], els);
    assert thn[|thn| - 1] == silent;
    SilentDoesNothing(env, silent, t, 0);
    ExecAppend(env, front, [silent], st, 0);
    ExecOne(env, silent, t, 0);
    IfMeans(env, map[], s, st, 0);
    var arms := [Arm(a, thn)];
    assert CodedArms(s) == arms && arms[0..] == arms && arms[1..] == [];
    assert RunsOn(arms, 0, els) == TextBehind(arms, els) == Unfolded([], els) == els;
    assert Extra(env, s, st) == [] + els == els;
  }

  // WHILE a DO a := b; b := FALSE; IF c THEN END_IF; END_WHILE is left after one iteration.
  lemma {:induction false} FallingLoopFails(env: Env)
    ensures var s := While(Var("a"), [Assignment("a", Var("b")), Put("b", false), If(Var("c"), [], [], [])]);
            var st := State(map["a" := 1, "b" := 1], 0);
            && Supported(map[], s) && Exec(env, s, st, 2) == Some(State(map["a" := 0, "b" := 0], 0))
            && Final(RunList(env, PlanOf(map[], s), st, 2)) == Some(State(map["a" := 1, "b" := 0], 0))
  {
    var st, mid, end := State(map["a" := 1, "b" := 1], 0), State(map["a" := 1, "b" := 0], 0),
          State(map["a" := 0, "b" := 0], 0);
    FallingLoopSupported();
    BodyOnce(env, st, mid, 1);
    BodyOnce(env, mid, end, 0);
    TwoIterations(env, Var("a"), [Assignment("a", Var("b")), Put("b", false), If(Var("c"), [], [], [])], st, mid, end);
  }

  lemma {:induction false} FallingLoopSupported()
    ensures Supported(map[], While(Var("a"), [Assignment("a", Var("b")), Put("b", false), If(Var("c"), [], [], [])]))
    ensures var body := [Assignment("a", Var("b")), Put("b", false), If(Var("c"), [], [], [])];
            WellFormedList(body) && !Solid(body)
  {
    assert Supported(map[], If(Var("c"), [], [], []));
  }

  lemma {:induction false} TwoIterations(env: Env, c: Expr, body: seq<Stmt>, st: State, mid: State, end: State)
    requires WellFormedList(body) && !Solid(body)
    requires Holds(env, c, st) && Holds(env, c, mid) && !Holds(env, c, end)
    requires ExecList(env, body, st, 1) == Some(mid) && ExecList(env, body, mid, 0) == Some(end)
    ensures Exec(env, While(c, body), st, 2) == Some(end)
    ensures Final(RunList(env, PlanOf(map[], While(c, body)), st, 2)) == Some(mid)
  {
    ListEffect(env, map[], body, st, 1);
    assert Exec(env, While(c, body), end, 0) == Some(end);
    assert Exec(env, While(c, body), mid, 1) == Some(end);
  }

  lemma {:induction false} BodyOnce(env: Env, st: State, t: State, fuel: nat)
    requires "a" in st.vars && "b" in st.vars && t == State(st.vars["a" := st.vars["b"]]["b" := 0], st.consumed)
    ensures ExecList(env, [Assignment("a", Var("b")), Put("b", false), If(Var("c"), [], [], [])], st, fuel) == Some(t)
  {
    var silent := If(Var("c"), [], [], []);
    var first, mid := Assignment("a", Var("b")), State(st.vars["a" := st.vars["b"]], st.consumed);
    ExecOne(env, first, st, fuel);
    PutDoes(env, "b", false, mid, fuel);
    ExecOne(env, silent, t, fuel);
    assert Exec(env, silent, t, fuel) == ExecList(env, [], t, fuel) == Some(t);
    ExecAppend(env, [first], [Put("b", false)], st, fuel);
    ExecAppend(env, [first] + [Put("b", false)], [silent], st, fuel);
    assert [first, Put("b", false), silent] == [first] + [Put("b", false)] + [silent];
  }
}
