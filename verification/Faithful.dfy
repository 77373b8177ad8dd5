// When the plan of a statement list does what the statements say, and exactly how it fails to.

module Faithful {
  import opened Ir
  import opened StructuredText
  import opened Plan
  import opened Simulation

  // ---------- statements that are compiled as written ----------

  // The statement emits at least one instruction.
  predicate Emits(s: Stmt) {
    match s
    case If(_, thn, elifs, els) => thn != [] || els != [] || !AllEmpty(ArmBodies(elifs))
    case Case(_, arms, els) => arms != [] && (arms[0].body != [] || els != [] || !AllEmpty(CaseBodies(arms[1..])))
    case While(_, body) => body != []
    case _ => true
  }

  // The last statement of the list emits code; it carries the jump to the end of the enclosing
  // statement. A list that is not solid runs on into the code behind it.
  predicate Solid(body: seq<Stmt>) {
    body == [] || Emits(body[|body| - 1])
  }

  predicate AllSolid(bodies: seq<seq<Stmt>>) {
    forall i | 0 <= i < |bodies| :: Solid(bodies[i])
  }

  // The branch whose code is emitted last.
  function LastBranch(thn: seq<Stmt>, elifs: seq<seq<Stmt>>, els: seq<Stmt>): (b: seq<Stmt>)
    ensures b == els || b == thn || b in elifs
  {
    if els != [] then els
    else if !AllEmpty(elifs) then elifs[|elifs| - 1]
    else thn
  }

  // The loops that a list ends in, the innermost one first: its last jump leads to the header of that
  // one, and from there to the others.
  function TrailingLoops(ss: seq<Stmt>): (r: seq<Stmt>)
    ensures AreLoops(r)
    decreases ss, 1
  {
    if ss == [] then []
    else if Emits(ss[|ss| - 1]) then LoopsOf(ss[|ss| - 1])
    else TrailingLoops(ss[..|ss| - 1])
  }

  function LoopsOf(s: Stmt): (r: seq<Stmt>)
    ensures AreLoops(r)
    decreases s, 0
  {
    match s
    case While(_, body) => TrailingLoops(body) + [s]
    case If(_, thn, elifs, els) =>
      if els != [] then TrailingLoops(els)
      else if !AllEmpty(ArmBodies(elifs)) then TrailingLoops(elifs[|elifs| - 1].body)
      else TrailingLoops(thn)
    case Case(_, arms, els) =>
      if els != [] then TrailingLoops(els)
      else if |arms| > 1 && !AllEmpty(CaseBodies(arms[1..])) then TrailingLoops(arms[|arms| - 1].body)
      else if arms != [] then TrailingLoops(arms[0].body)
      else []
    case _ => []
  }

  // A list without code.
  predicate Silent(ss: seq<Stmt>) {
    forall i | 0 <= i < |ss| :: !Emits(ss[i])
  }

  // A condition whose false branch leads back to the loops at the end of `front`, and from there to
  // the condition again.
  function Waiting(front: seq<Stmt>, c: Expr): Stmt {
    While(UnaryExpression(Complement, c), TrailingLoops(front))
  }

  predicate AreLoops(loops: seq<Stmt>) {
    forall i | 0 <= i < |loops| :: loops[i].While?
  }

  predicate SelectionFaithful(thn: seq<Stmt>, elifs: seq<seq<Stmt>>, els: seq<Stmt>) {
    && Solid(thn) && Solid(els) && AllSolid(elifs)
    && (AllEmpty(elifs) || NoneEmpty(elifs))
    && (AllEmpty(elifs) && elifs != [] ==> els == [])
    && (thn == [] ==> (els == [] && AllEmpty(elifs)) || (elifs == [] && TrailingLoops(els) == []))
    && (els == [] ==> TrailingLoops(LastBranch(thn, elifs, els)) == [])
  }

  predicate WellFormed(s: Stmt)
    decreases s, 0
  {
    match s
    case If(_, thn, elifs, els) =>
      && SelectionFaithful(thn, ArmBodies(elifs), els)
      && WellFormedList(thn) && WellFormedList(els)
      && (forall i | 0 <= i < |elifs| :: WellFormedList(elifs[i].body))
    case While(_, body) => body != [] && Solid(body) && WellFormedList(body)
    case Case(_, arms, els) =>
      && arms != []
      && SelectionFaithful(arms[0].body, CaseBodies(arms[1..]), els)
      && (forall i | 0 <= i < |arms| :: WellFormedList(arms[i].body))
      && WellFormedList(els)
    case _ => true
  }

  predicate WellFormedList(ss: seq<Stmt>)
    decreases ss, 1
  {
    forall i | 0 <= i < |ss| :: WellFormed(ss[i])
  }

  lemma {:induction false} WellFormedPrefix(ss: seq<Stmt>, n: nat)
    requires WellFormedList(ss) && n <= |ss|
    ensures WellFormedList(ss[..n])
  {
    forall i | 0 <= i < n ensures WellFormed(ss[..n][i]) {
      assert ss[..n][i] == ss[i];
    }
  }

  // A statement without code, among well-formed ones, does nothing.
  lemma {:induction false} SilentDoesNothing(env: Env, s: Stmt, st: State, fuel: nat)
    requires WellFormed(s) && !Emits(s)
    ensures Exec(env, s, st, fuel) == Some(st)
  {
    match s
    case If(_, _, elifs, _) =>
      var k := FirstTrue(env, elifs, st);
      assert k < |elifs| ==> ArmBodies(elifs)[k] == elifs[k].body;
    case Case(sel, arms, _) =>
      FirstArmApart(env, sel, arms, [], st, fuel);
      var rest := arms[1..];
      var k := FirstSelected(env, sel, rest, st);
      assert k < |rest| ==> CaseBodies(rest)[k] == rest[k].body;
  }

  lemma {:induction false} SilentListDoesNothing(env: Env, ss: seq<Stmt>, st: State, fuel: nat)
    requires WellFormedList(ss) && Silent(ss)
    ensures ExecList(env, ss, st, fuel) == Some(st)
  {
    if ss != [] {
      SilentDoesNothing(env, ss[0], st, fuel);
      SilentListDoesNothing(env, ss[1..], st, fuel);
    }
  }

  lemma {:induction false} SilentPlan(entries: map<string, int>, ss: seq<Stmt>)
    ensures EndingOfList(PlanList(entries, ss)) == Nothing <==> Silent(ss)
  {
    if ss != [] {
      EndingAppend(PlanOf(entries, ss[0]), PlanList(entries, ss[1..]));
      PlanEmits(entries, ss[0]);
      SilentPlan(entries, ss[1..]);
      assert Silent(ss) <==> !Emits(ss[0]) && Silent(ss[1..]) by {
        assert forall i | 0 < i < |ss| :: ss[i] == ss[1..][i - 1];
      }
    }
  }

  // The plan of a list falls where the list does.
  lemma {:induction false} FallingPlan(entries: map<string, int>, ss: seq<Stmt>)
    requires ss != []
    ensures Falls(PlanList(entries, ss)) <==> !Solid(ss)
  {
    var front, last := ss[..|ss| - 1], ss[|ss| - 1];
    var plan := PlanOf(entries, last);
    PlanSnoc(entries, ss);
    PlanEmits(entries, last);
    assert PlanList(entries, ss)[|PlanList(entries, ss)| - 1] == plan[|plan| - 1];
    LastEnding(entries, last);
  }

  lemma {:induction false} LastEnding(entries: map<string, int>, s: Stmt)
    ensures var plan := PlanOf(entries, s);
            EndingOf(plan[|plan| - 1]) == Nothing <==> plan == [CSkip]
  {
    match s
    case Invocation(f, pou, pre, post) =>
      var plan := PlanOf(entries, s);
      if post == [] { assert plan[|plan| - 1].CCall?; } else { assert plan[|plan| - 1].CAssign?; }
    case If(c, thn, elifs, els) =>
      SelectionEmits(entries, c, thn, elifs, els);
      EndingOne(PlanOf(entries, s)[0]);
      NoEnding(PlanOf(entries, s));
    case Case(sel, arms, els) =>
      if arms != [] {
        LoweredPlan(entries, s);
        SelectionEmits(entries, Lowered(s).cond, arms[0].body, Lowered(s).elifs, els);
        EndingOne(PlanOf(entries, s)[0]);
        NoEnding(PlanOf(entries, s));
      }
    case _ =>
  }

  // The jump of a list that falls leads on to its end.
  lemma {:induction false} FallingResumes(env: Env, cs: seq<Core>, st: State, fuel: nat)
    requires Falls(cs) && EndingOfList(cs) != Nothing && ResumeList(env, cs, st, fuel).Some?
    ensures ResumeList(env, cs, st, fuel).value.Fell?
  {
    if |cs| > 1 && EndingOfList(cs[1..]) != Nothing {
      FallingResumes(env, cs[1..], st, fuel);
    }
  }

  lemma {:induction false} PlanEmits(entries: map<string, int>, s: Stmt)
    ensures PlanOf(entries, s) == [CSkip] <==> !Emits(s)
    ensures EndingOfList(PlanOf(entries, s)) == Nothing <==> !Emits(s)
  {
    NoEnding(PlanOf(entries, s));
    match s
    case Invocation(_, _, pre, _) => assert PlanOf(entries, s)[|pre|].CCall?;
    case If(c, thn, elifs, els) => SelectionEmits(entries, c, thn, elifs, els);
    case Case(sel, arms, els) =>
      if arms != [] {
        LoweredPlan(entries, s);
        SelectionEmits(entries, Lowered(s).cond, arms[0].body, Lowered(s).elifs, els);
      }
    case _ =>
  }

  lemma {:induction false} SelectionEmits(entries: map<string, int>, c: Expr, thn: seq<Stmt>, elifs: seq<Arm>,
        els: seq<Stmt>)
    ensures |PlanOf(entries, If(c, thn, elifs, els))| == 1
    ensures PlanOf(entries, If(c, thn, elifs, els)) == [CSkip] <==> thn == [] && els == [] && AllEmpty(ArmBodies(elifs))
  {
    PlanNoCode(entries, elifs);
  }

  // ---------- outcomes ----------

  // What a list does, and where it hands over.
  function Ended(solid: bool, r: Option<State>): Option<Outcome> {
    if r.None? then None else Some(if solid then Done(r.value) else Fell(r.value))
  }

  function Next(env: Env, r: Option<State>, ss: seq<Stmt>, fuel: nat): Option<State> {
    if r.None? then None else ExecList(env, ss, r.value, fuel)
  }

  lemma {:induction false} ExecAppend(env: Env, a: seq<Stmt>, b: seq<Stmt>, st: State, fuel: nat)
    ensures ExecList(env, a + b, st, fuel) == Next(env, ExecList(env, a, st, fuel), b, fuel)
  {
    if a == [] {
      assert a + b == b;
    } else {
      assert (a + b)[0] == a[0] && (a + b)[1..] == a[1..] + b;
      var mid := Exec(env, a[0], st, fuel);
      if mid.Some? {
        ExecAppend(env, a[1..], b, mid.value, fuel);
      }
    }
  }

  lemma {:induction false} ExecOne(env: Env, s: Stmt, st: State, fuel: nat)
    ensures ExecList(env, [s], st, fuel) == Exec(env, s, st, fuel)
  {
    var mid := Exec(env, s, st, fuel);
    if mid.Some? {
      assert [s][1..] == [];
      assert ExecList(env, [], mid.value, fuel) == mid;
    }
  }

  // A list goes on with the next one where its continuation and its end are the same.
  lemma {:induction false} RunAppend(env: Env, a: seq<Core>, b: seq<Core>, st: State, fuel: nat)
    requires b != []
    ensures RunList(env, a + b, st, fuel) ==
            (var mid := RunList(env, a, st, fuel); if mid.None? then None else RunList(env, b, mid.value.st, fuel))
  {
    if a == [] {
      assert a + b == b;
    } else {
      assert (a + b)[0] == a[0] && (a + b)[1..] == a[1..] + b;
      var mid := Run(env, a[0], st, fuel);
      if mid.Some? && |a| > 1 {
        RunAppend(env, a[1..], b, mid.value.st, fuel);
      } else {
        assert |a| == 1 ==> a[1..] + b == b;
      }
    }
  }

  // The last jump of a list with code is the last jump of its last part with code.
  lemma {:induction false} ResumeAppend(env: Env, a: seq<Core>, b: seq<Core>, st: State, fuel: nat)
    requires EndingOfList(b) != Nothing
    ensures ResumeList(env, a + b, st, fuel) == ResumeList(env, b, st, fuel)
  {
    if a == [] {
      assert a + b == b;
    } else {
      assert (a + b)[0] == a[0] && (a + b)[1..] == a[1..] + b;
      EndingAppend(a[1..], b);
      ResumeAppend(env, a[1..], b, st, fuel);
    }
  }

  lemma {:induction false} ResumeSkip(env: Env, a: seq<Core>, st: State, fuel: nat)
    ensures Final(ResumeList(env, a + [CSkip], st, fuel)) == Final(ResumeList(env, a, st, fuel))
  {
    EndingOne(CSkip);
    if a == [] {
      assert a + [CSkip] == [CSkip];
    } else {
      assert (a + [CSkip])[0] == a[0] && (a + [CSkip])[1..] == a[1..] + [CSkip];
      EndingAppend(a[1..], [CSkip]);
      ResumeSkip(env, a[1..], st, fuel);
    }
  }

  lemma {:induction false} BindingsEffect(env: Env, bs: seq<Binding>, st: State, fuel: nat)
    ensures RunList(env, PlanBindings(bs), st, fuel) == Some(Done(BindAll(env, bs, st)))
  {
    if bs != [] {
      assert PlanBindings(bs)[1..] == PlanBindings(bs[1..]);
      BindingsEffect(env, bs[1..], Update(env, bs[0].v, bs[0].e, st), fuel);
    }
  }

  // ---------- the effect of a planned selection ----------

  function FirstArm(env: Env, arms: seq<CoreArm>, st: State): (k: nat)
    ensures k <= |arms|
  {
    if arms == [] || Holds(env, arms[0].cond, st) then 0 else 1 + FirstArm(env, arms[1..], st)
  }

  lemma {:induction false} ArmsChoose(env: Env, entries: map<string, int>, arms: seq<Arm>, st: State)
    ensures FirstArm(env, PlanArms(entries, arms), st) == FirstTrue(env, arms, st)
  {
    if arms != [] {
      assert PlanArms(entries, arms)[1..] == PlanArms(entries, arms[1..]);
      ArmsChoose(env, entries, arms[1..], st);
    }
  }

  // The code of the arms from the k-th on, which is not empty.
  function Rest(arms: seq<CoreArm>, k: nat, els: seq<Core>): seq<Core>
    requires k <= |arms|
  {
    Nest(arms[k..], els)
  }

  // What a chain of arms does: the first arm whose condition holds; if its list falls through, what
  // is left of the chain as well.
  function ChainEffect(env: Env, arms: seq<CoreArm>, els: seq<Core>, st: State, fuel: nat): Option<Outcome>
    requires arms != []
  {
    var k := FirstArm(env, arms, st);
    if k < |arms| then
      var mid := RunList(env, arms[k].body, st, fuel);
      var rest := Rest(arms, k + 1, els);
      if rest == [] || mid.None? || mid.value.Done? then mid else RunList(env, rest, mid.value.st, fuel)
    else if els == [] then ResumeList(env, arms[|arms| - 1].body, st, fuel)
    else RunList(env, els, st, fuel)
  }

  lemma {:induction false} NestEffect(env: Env, arms: seq<CoreArm>, els: seq<Core>, st: State, fuel: nat)
    requires arms != [] && !Copies(arms, els)
    ensures RunList(env, Nest(arms, els), st, fuel) == ChainEffect(env, arms, els, st, fuel)
  {
    assert arms[1..] == [] ==> Nest(arms[1..], els) == els;
    var k := FirstArm(env, arms, st);
    if k == 0 {
      assert Rest(arms, 1, els) == Nest(arms[1..], els);
    } else if |arms| > 1 {
      NestEffect(env, arms[1..], els, st, fuel);
      assert k < |arms| ==> arms[1..][k..] == arms[k + 1..];
    }
  }

  // What the code of a selection does, whatever its lists look like.
  function SelectionEffect(env: Env, cond: Expr, thn: seq<Core>, arms: seq<CoreArm>, els: seq<Core>, st: State,
        fuel: nat): Option<Outcome> {
    var chain := if NoCode(arms) then els else Nest(arms, els);
    if thn != [] && Holds(env, cond, st) then
      var mid := RunList(env, thn, st, fuel);
      if chain == [] || mid.None? || mid.value.Done? then mid else RunList(env, chain, mid.value.st, fuel)
    else if !NoCode(arms) then ChainEffect(env, arms, els, st, fuel)
    else if thn != [] then if els == [] then ResumeList(env, thn, st, fuel) else RunList(env, els, st, fuel)
    else if els == [] then Some(Fell(st))
    else if Holds(env, if arms != [] then arms[|arms| - 1].cond else cond, st) then ResumeList(env, els, st, fuel)
    else RunList(env, els, st, fuel)
  }

  // A selection with a THEN list is this list, guarded, in front of the rest.
  lemma {:induction false} SelectionShape(cond: Expr, thn: seq<Core>, arms: seq<CoreArm>, els: seq<Core>)
    requires !Copies(ArmsWithCode(cond, thn, arms), els)
    ensures var chain := if NoCode(arms) then els else Nest(arms, els);
            && (!NoCode(arms) ==> !Copies(arms, els))
            && (thn != [] ==> PlanSelection(cond, thn, arms, els) == [CIf(cond, thn, chain)])
            && (thn == [] && !NoCode(arms) ==> PlanSelection(cond, thn, arms, els) == chain)
  {
    var coded := ArmsWithCode(cond, thn, arms);
    if !NoCode(arms) {
      assert coded[|coded| - 1] == arms[|arms| - 1];
    }
    if thn != [] {
      var rest := if NoCode(arms) then [] else arms;
      assert coded[1..] == rest && coded[0] == CoreArm(cond, thn);
      assert PlanSelection(cond, thn, arms, els) == Nest(coded, els) == [CIf(cond, thn, Nest(rest, els))];
      assert Nest([], els) == els;
    } else if !NoCode(arms) {
      assert coded == arms;
    }
  }

  lemma {:induction false} SelectionRuns(env: Env, cond: Expr, thn: seq<Core>, arms: seq<CoreArm>, els: seq<Core>,
        st: State, fuel: nat)
    requires !Copies(ArmsWithCode(cond, thn, arms), els)
    ensures RunList(env, PlanSelection(cond, thn, arms, els), st, fuel) ==
            SelectionEffect(env, cond, thn, arms, els, st, fuel)
  {
    SelectionShape(cond, thn, arms, els);
    if !NoCode(arms) {
      NestEffect(env, arms, els, st, fuel);
    }
  }

  // The last jump of a planned selection is the last jump of the branch that is emitted last.
  lemma {:induction false} SelectionResume(env: Env, cond: Expr, thn: seq<Core>, arms: seq<CoreArm>, els: seq<Core>,
        st: State, fuel: nat)
    requires els != [] ==> EndingOfList(els) != Nothing
    requires forall i | 0 <= i < |arms| && arms[i].body != [] :: EndingOfList(arms[i].body) != Nothing
    requires NoCode(arms) || forall i | 0 <= i < |arms| :: arms[i].body != []
    ensures ResumeList(env, PlanSelection(cond, thn, arms, els), st, fuel) ==
            ResumeList(env, PlannedLast(thn, arms, els), st, fuel)
  {
    AllEndedCopiesNot(cond, thn, arms, els);
    SelectionShape(cond, thn, arms, els);
    if !NoCode(arms) {
      NestResume(env, arms, els, st, fuel);
    }
  }

  lemma {:induction false} AllEndedCopiesNot(cond: Expr, thn: seq<Core>, arms: seq<CoreArm>, els: seq<Core>)
    requires forall i | 0 <= i < |arms| && arms[i].body != [] :: EndingOfList(arms[i].body) != Nothing
    requires NoCode(arms) || forall i | 0 <= i < |arms| :: arms[i].body != []
    ensures !Copies(ArmsWithCode(cond, thn, arms), els)
  {
    var coded := ArmsWithCode(cond, thn, arms);
    if !NoCode(arms) {
      assert coded[|coded| - 1] == arms[|arms| - 1];
    }
  }

  lemma {:induction false} NestResume(env: Env, arms: seq<CoreArm>, els: seq<Core>, st: State, fuel: nat)
    requires els != [] ==> EndingOfList(els) != Nothing
    requires forall i | 0 <= i < |arms| :: EndingOfList(arms[i].body) != Nothing
    requires arms != []
    ensures EndingOfList(Nest(arms, els)) != Nothing
    ensures ResumeList(env, Nest(arms, els), st, fuel) ==
            ResumeList(env, if els != [] then els else arms[|arms| - 1].body, st, fuel)
  {
    var rest := arms[1..];
    EndingOne(Nest(arms, els)[0]);
    if rest != [] {
      NestResume(env, rest, els, st, fuel);
    } else {
      assert Nest(rest, els) == els;
    }
  }

  // ---------- a well-formed list is compiled to what it says ----------

  // The plan of a list does what the list says, hands over to its continuation if the list is solid,
  // and its last jump leads to the loops it ends in.
  predicate ListDoes(env: Env, entries: map<string, int>, ss: seq<Stmt>, st: State, fuel: nat) {
    && RunList(env, PlanList(entries, ss), st, fuel) == Ended(Solid(ss), ExecList(env, ss, st, fuel))
    && Final(ResumeList(env, PlanList(entries, ss), st, fuel)) == ExecList(env, TrailingLoops(ss), st, fuel)
    && (Solid(ss) ==> ResumeList(env, PlanList(entries, ss), st, fuel) == Ended(true,
          ExecList(env, TrailingLoops(ss), st, fuel)))
  }

  predicate PartsDo(env: Env, entries: map<string, int>, s: Stmt, st: State, fuel: nat)
    requires s.If?
  {
    && ListDoes(env, entries, s.thn, st, fuel) && ListDoes(env, entries, s.els, st, fuel)
    && forall i | 0 <= i < |s.elifs| :: ListDoes(env, entries, s.elifs[i].body, st, fuel)
  }

  lemma {:induction false} StatementEffect(env: Env, entries: map<string, int>, s: Stmt, st: State, fuel: nat)
    requires WellFormed(s)
    ensures RunList(env, PlanOf(entries, s), st, fuel) == Ended(Emits(s), Exec(env, s, st, fuel))
    decreases fuel, s, 2
  {
    match s
    case Assignment(v, e) =>
    case Invocation(f, pou, pre, post) =>
      InvocationEffect(env, entries, s, st, fuel);
    case While(c, body) =>
      if Holds(env, c, st) && fuel > 0 {
        ListEffect(env, entries, body, st, fuel - 1);
        var mid := ExecList(env, body, st, fuel - 1);
        if mid.Some? {
          StatementEffect(env, entries, s, mid.value, fuel - 1);
        }
      }
    case If(_, thn, elifs, els) =>
      ListFollows(env, entries, thn, st, fuel);
      ListFollows(env, entries, els, st, fuel);
      forall i | 0 <= i < |elifs|
        ensures ListDoes(env, entries, elifs[i].body, st, fuel)
      {
        ListFollows(env, entries, elifs[i].body, st, fuel);
      }
      IfEffect(env, entries, s, st, fuel);
    case Case(_, arms, els) =>
      var low := Lowered(s);
      LoweredPlan(entries, s);
      LoweredMeans(env, s, st, fuel);
      ListFollows(env, entries, arms[0].body, st, fuel);
      ListFollows(env, entries, els, st, fuel);
      forall i | 0 <= i < |low.elifs|
        ensures ListDoes(env, entries, low.elifs[i].body, st, fuel)
      {
        ListFollows(env, entries, arms[i + 1].body, st, fuel);
      }
      IfEffect(env, entries, low, st, fuel);
  }

  lemma {:induction false} ListFollows(env: Env, entries: map<string, int>, ss: seq<Stmt>, st: State, fuel: nat)
    requires WellFormedList(ss)
    ensures ListDoes(env, entries, ss, st, fuel)
    decreases fuel, ss, 4
  {
    ListEffect(env, entries, ss, st, fuel);
    ListResume(env, entries, ss, st, fuel);
  }

  lemma {:induction false} ListEffect(env: Env, entries: map<string, int>, ss: seq<Stmt>, st: State, fuel: nat)
    requires WellFormedList(ss)
    ensures RunList(env, PlanList(entries, ss), st, fuel) == Ended(Solid(ss), ExecList(env, ss, st, fuel))
    decreases fuel, ss, 3
  {
    if ss != [] {
      var p, rest := PlanOf(entries, ss[0]), PlanList(entries, ss[1..]);
      StatementEffect(env, entries, ss[0], st, fuel);
      var mid := Exec(env, ss[0], st, fuel);
      if |ss| == 1 {
        assert p + rest == p;
        assert mid.Some? ==> ExecList(env, ss[1..], mid.value, fuel) == mid;
      } else {
        RunAppend(env, p, rest, st, fuel);
        if mid.Some? {
          ListEffect(env, entries, ss[1..], mid.value, fuel);
        }
      }
    }
  }

  // Where the last jump of a list leads.
  lemma {:induction false} ListResume(env: Env, entries: map<string, int>, ss: seq<Stmt>, st: State, fuel: nat)
    requires WellFormedList(ss)
    ensures Final(ResumeList(env, PlanList(entries, ss), st, fuel)) == ExecList(env, TrailingLoops(ss), st, fuel)
    ensures Solid(ss) ==> ResumeList(env, PlanList(entries, ss), st, fuel) == Ended(true,
            ExecList(env, TrailingLoops(ss), st, fuel))
    decreases fuel, ss, 3
  {
    if ss != [] {
      var front, s := ss[..|ss| - 1], ss[|ss| - 1];
      PlanSnoc(entries, ss);
      PlanEmits(entries, s);
      if Emits(s) {
        ResumeAppend(env, PlanList(entries, front), PlanOf(entries, s), st, fuel);
        StatementResume(env, entries, s, st, fuel);
      } else {
        ResumeSkip(env, PlanList(entries, front), st, fuel);
        WellFormedPrefix(ss, |ss| - 1);
        ListResume(env, entries, front, st, fuel);
      }
    }
  }

  lemma {:induction false} StatementResume(env: Env, entries: map<string, int>, s: Stmt, st: State, fuel: nat)
    requires WellFormed(s) && Emits(s)
    ensures ResumeList(env, PlanOf(entries, s), st, fuel) == Ended(true, ExecList(env, LoopsOf(s), st, fuel))
    decreases fuel, s, 3
  {
    match s
    case Assignment(_, _) =>
    case Invocation(_, _, pre, post) =>
      InvocationResume(env, entries, s, st, fuel);
    case While(_, body) =>
      ListResume(env, entries, body, st, fuel);
      var mid := ExecList(env, TrailingLoops(body), st, fuel);
      ExecAppend(env, TrailingLoops(body), [s], st, fuel);
      if mid.Some? {
        ExecOne(env, s, mid.value, fuel);
        StatementEffect(env, entries, s, mid.value, fuel);
      }
    case If(_, thn, elifs, els) =>
      IfLast(s);
      IfResume(env, entries, s, st, fuel);
      ListResume(env, entries, LastList(s), st, fuel);
    case Case(_, arms, els) =>
      LoweredPlan(entries, s);
      CaseLast(s);
      IfResume(env, entries, Lowered(s), st, fuel);
      ListResume(env, entries, LastList(Lowered(s)), st, fuel);
  }

  lemma {:induction false} IfLast(s: Stmt)
    requires s.If? && WellFormed(s)
    ensures var last := LastList(s);
            && (last == s.thn || last == s.els || (s.elifs != [] && last == s.elifs[|s.elifs| - 1].body))
            && Solid(last) && WellFormedList(last) && LoopsOf(s) == TrailingLoops(last)
  {
    var bodies := ArmBodies(s.elifs);
    if s.els == [] && !AllEmpty(bodies) {
      assert bodies[|bodies| - 1] == s.elifs[|s.elifs| - 1].body;
    }
  }

  lemma {:induction false} CaseLast(s: Stmt)
    requires s.Case? && WellFormed(s)
    ensures var last := LastList(Lowered(s));
            && (last == s.arms[0].body || last == s.els || last == s.arms[|s.arms| - 1].body)
            && Solid(last) && WellFormedList(last) && LoopsOf(s) == TrailingLoops(last)
  {
    var rest := s.arms[1..];
    var bodies := CaseBodies(rest);
    assert ArmBodies(Lowered(s).elifs) == bodies;
    if s.els == [] && !AllEmpty(bodies) {
      assert bodies[|bodies| - 1] == rest[|rest| - 1].body == s.arms[|s.arms| - 1].body;
    }
  }

  lemma {:induction false} InvocationEffect(env: Env, entries: map<string, int>, s: Stmt, st: State, fuel: nat)
    requires s.Invocation?
    ensures RunList(env, PlanOf(entries, s), st, fuel) == Ended(true, Exec(env, s, st, fuel))
  {
    var Invocation(f, pou, pre, post) := s;
    var call := CCall(f, pou, if pou in entries then entries[pou] else -1);
    var called := env.callee(f, BindAll(env, pre, st));
    BindingsEffect(env, pre, st, fuel);
    RunAppend(env, PlanBindings(pre), [call], st, fuel);
    BindingsEffect(env, post, called, fuel);
    if post == [] {
      assert PlanOf(entries, s) == PlanBindings(pre) + [call];
    } else {
      RunAppend(env, PlanBindings(pre) + [call], PlanBindings(post), st, fuel);
    }
  }

  lemma {:induction false} InvocationResume(env: Env, entries: map<string, int>, s: Stmt, st: State, fuel: nat)
    requires s.Invocation?
    ensures ResumeList(env, PlanOf(entries, s), st, fuel) == Some(Done(st))
  {
    var Invocation(f, pou, pre, post) := s;
    var front := PlanBindings(pre) + [CCall(f, pou, if pou in entries then entries[pou] else -1)];
    if post == [] {
      var call := front[|front| - 1];
      EndingOne(call);
      ResumeAppend(env, PlanBindings(pre), [call], st, fuel);
      assert PlanOf(entries, s) == PlanBindings(pre) + [call];
    } else {
      var last := CAssign(post[|post| - 1].v, post[|post| - 1].e);
      EndingOne(last);
      ResumeAppend(env, front + PlanBindings(post[..|post| - 1]), [last], st, fuel);
      assert PlanOf(entries, s) == front + PlanBindings(post[..|post| - 1]) + [last];
    }
  }

  // The last jump of an IF is that of the list that is emitted last.
  lemma {:induction false} IfResume(env: Env, entries: map<string, int>, s: Stmt, st: State, fuel: nat)
    requires s.If? && SelectionFaithful(s.thn, ArmBodies(s.elifs), s.els)
    ensures ResumeList(env, PlanOf(entries, s), st, fuel) == ResumeList(env, PlanList(entries, LastList(s)), st, fuel)
  {
    var whole, last := PlanOf(entries, s), PlanList(entries, LastList(s));
    assert whole == PlanSelection(s.cond, PlanList(entries, s.thn), PlanArms(entries, s.elifs),
            PlanList(entries, s.els));
    PlanOfLast(entries, s);
    PartsResume(env, entries, s.cond, s.thn, s.elifs, s.els, whole, last, st, fuel);
  }

  lemma {:induction false} PartsResume(env: Env, entries: map<string, int>, c: Expr, thn: seq<Stmt>, elifs: seq<Arm>,
        els: seq<Stmt>,
                    whole: seq<Core>, last: seq<Core>, st: State, fuel: nat)
    requires SelectionFaithful(thn, ArmBodies(elifs), els)
    requires whole == PlanSelection(c, PlanList(entries, thn), PlanArms(entries, elifs), PlanList(entries, els))
    requires last == PlannedLast(PlanList(entries, thn), PlanArms(entries, elifs), PlanList(entries, els))
    ensures ResumeList(env, whole, st, fuel) == ResumeList(env, last, st, fuel)
  {
    SolidEnds(entries, els);
    ArmsEnd(entries, elifs);
    SelectionResume(env, c, PlanList(entries, thn), PlanArms(entries, elifs), PlanList(entries, els), st, fuel);
  }

  // The plan of the list that is emitted last.
  function PlannedLast(thn: seq<Core>, arms: seq<CoreArm>, els: seq<Core>): seq<Core> {
    if els != [] then els else if !NoCode(arms) then arms[|arms| - 1].body else thn
  }

  lemma {:induction false} PlanOfLast(entries: map<string, int>, s: Stmt)
    requires s.If?
    ensures PlanList(entries, LastList(s)) ==
            PlannedLast(PlanList(entries, s.thn), PlanArms(entries, s.elifs), PlanList(entries, s.els))
  {
    var arms := PlanArms(entries, s.elifs);
    PlanNoCode(entries, s.elifs);
    if s.els == [] && !NoCode(arms) {
      var last := s.elifs[|s.elifs| - 1];
      assert LastList(s) == last.body && arms[|arms| - 1] == CoreArm(last.cond, PlanList(entries, last.body));
    } else if s.els == [] {
      assert LastList(s) == s.thn;
    }
  }

  lemma {:induction false} ArmsEnd(entries: map<string, int>, elifs: seq<Arm>)
    requires AllSolid(ArmBodies(elifs)) && (AllEmpty(ArmBodies(elifs)) || NoneEmpty(ArmBodies(elifs)))
    ensures var arms := PlanArms(entries, elifs);
            && (forall i | 0 <= i < |arms| && arms[i].body != [] :: EndingOfList(arms[i].body) != Nothing)
            && (NoCode(arms) || forall i | 0 <= i < |arms| :: arms[i].body != [])
  {
    var arms, bodies := PlanArms(entries, elifs), ArmBodies(elifs);
    PlanNoCode(entries, elifs);
    forall i | 0 <= i < |arms| ensures arms[i].body == [] <==> bodies[i] == []
      ensures arms[i].body != [] ==> EndingOfList(arms[i].body) != Nothing
    {
      assert Solid(bodies[i]);
      SolidEnds(entries, bodies[i]);
    }
  }

  lemma {:induction false} SolidEnds(entries: map<string, int>, ss: seq<Stmt>)
    requires Solid(ss)
    ensures ss != [] ==> EndingOfList(PlanList(entries, ss)) != Nothing
  {
    if ss != [] {
      var front, last := ss[..|ss| - 1], ss[|ss| - 1];
      PlanSnoc(entries, ss);
      PlanEmits(entries, last);
      EndingAppend(PlanList(entries, front), PlanOf(entries, last));
    }
  }

  // The list of an IF that is emitted last.
  function LastList(s: Stmt): seq<Stmt>
    requires s.If?
  {
    if s.els != [] then s.els
    else if !AllEmpty(ArmBodies(s.elifs)) then s.elifs[|s.elifs| - 1].body
    else s.thn
  }

  lemma {:induction false} IfEffect(env: Env, entries: map<string, int>, s: Stmt, st: State, fuel: nat)
    requires s.If? && SelectionFaithful(s.thn, ArmBodies(s.elifs), s.els) && PartsDo(env, entries, s, st, fuel)
    ensures RunList(env, PlanOf(entries, s), st, fuel) == Ended(Emits(s), Exec(env, s, st, fuel))
  {
    var If(c, thn, elifs, els) := s;
    var arms, bodies, k := PlanArms(entries, elifs), ArmBodies(elifs), FirstTrue(env, elifs, st);
    var planned, otherwise := PlanList(entries, thn), PlanList(entries, els);
    PlanNoCode(entries, elifs);
    ArmsEnd(entries, elifs);
    SelectionRuns(env, c, planned, arms, otherwise, st, fuel);
    assert k < |elifs| ==> bodies[k] == elifs[k].body;
    if !AllEmpty(bodies) {
      ChainFaithful(env, entries, s, st, fuel);
    }
    SelectionDoes(env, c, thn, bodies, els, planned, arms, otherwise, st, fuel, k,
                  ExecList(env, thn, st, fuel), if k < |elifs| then ExecList(env, elifs[k].body, st, fuel) else None,
                  ExecList(env, els, st, fuel));
  }

  // rthn, rk and rels are what the THEN list, the first ELSIF list whose condition holds, and the ELSE
  // list do.
  lemma {:induction false} SelectionDoes(env: Env, c: Expr, thn: seq<Stmt>, bodies: seq<seq<Stmt>>, els: seq<Stmt>,
                      planned: seq<Core>, arms: seq<CoreArm>, otherwise: seq<Core>, st: State, fuel: nat, k: nat,
                      rthn: Option<State>, rk: Option<State>, rels: Option<State>)
    requires SelectionFaithful(thn, bodies, els) && k <= |bodies| == |arms|
    requires (thn == [] <==> planned == []) && (els == [] <==> otherwise == []) && (NoCode(arms) <==> AllEmpty(bodies))
    requires RunList(env, planned, st, fuel) == Ended(true, rthn)
            && RunList(env, otherwise, st, fuel) == Ended(true, rels)
    requires k < |bodies| && bodies[k] == [] ==> rk == Some(st)
    requires !AllEmpty(bodies) ==> ChainEffect(env, arms, otherwise, st, fuel) == Ended(true, if k < |bodies| then rk
            else rels)
    requires TrailingLoops(thn) == [] ==> ResumeList(env, planned, st, fuel) == Some(Done(st))
    requires TrailingLoops(els) == [] ==> ResumeList(env, otherwise, st, fuel) == Some(Done(st))
    ensures SelectionEffect(env, c, planned, arms, otherwise, st, fuel) ==
            Ended(thn != [] || els != [] || !AllEmpty(bodies), if Holds(env, c, st) then rthn else if k < |bodies|
                  then rk else rels)
  {
    assert AllEmpty(bodies) && k < |bodies| ==> bodies[k] == [];
  }

  lemma {:induction false} ChainFaithful(env: Env, entries: map<string, int>, s: Stmt, st: State, fuel: nat)
    requires s.If? && SelectionFaithful(s.thn, ArmBodies(s.elifs), s.els) && PartsDo(env, entries, s, st, fuel)
    requires !AllEmpty(ArmBodies(s.elifs))
    ensures var k := FirstTrue(env, s.elifs, st);
            ChainEffect(env, PlanArms(entries, s.elifs), PlanList(entries, s.els), st, fuel) ==
            Ended(true, if k < |s.elifs| then ExecList(env, s.elifs[k].body, st, fuel)
                  else ExecList(env, s.els, st, fuel))
  {
    var arms, p, k, n := PlanArms(entries, s.elifs), PlanList(entries, s.els), FirstTrue(env, s.elifs, st), |s.elifs|;
    ArmsChoose(env, entries, s.elifs, st);
    if k < n {
      ArmDoes(env, entries, s, k, st, fuel);
      ArmRuns(env, arms, p, st, fuel);
    } else if s.els == [] {
      LastArmDoesNothing(env, entries, s, st, fuel);
      NoArmRuns(env, arms, p, st, fuel);
    } else {
      NoArmRuns(env, arms, p, st, fuel);
    }
  }

  lemma {:induction false} LastArmDoesNothing(env: Env, entries: map<string, int>, s: Stmt, st: State, fuel: nat)
    requires s.If? && SelectionFaithful(s.thn, ArmBodies(s.elifs), s.els) && !AllEmpty(ArmBodies(s.elifs))
    requires s.els == [] && ListDoes(env, entries, s.elifs[|s.elifs| - 1].body, st, fuel)
    ensures ResumeList(env, PlanArms(entries, s.elifs)[|s.elifs| - 1].body, st, fuel) == Some(Done(st))
  {
    var bodies, n := ArmBodies(s.elifs), |s.elifs| - 1;
    assert bodies[n] == s.elifs[n].body && Solid(bodies[n]);
    LastDoesNothing(env, entries, bodies[n], st, fuel);
  }

  lemma {:induction false} ArmDoes(env: Env, entries: map<string, int>, s: Stmt, k: nat, st: State, fuel: nat)
    requires s.If? && AllSolid(ArmBodies(s.elifs)) && k < |s.elifs| && ListDoes(env, entries, s.elifs[k].body, st, fuel)
    ensures RunList(env, PlanArms(entries, s.elifs)[k].body, st, fuel) == Ended(true,
            ExecList(env, s.elifs[k].body, st, fuel))
  {
    assert Solid(ArmBodies(s.elifs)[k]);
  }

  lemma {:induction false} ArmRuns(env: Env, arms: seq<CoreArm>, els: seq<Core>, st: State, fuel: nat)
    requires arms != [] && FirstArm(env, arms, st) < |arms|
    requires var mid := RunList(env, arms[FirstArm(env, arms, st)].body, st, fuel); mid.None? || mid.value.Done?
    ensures ChainEffect(env, arms, els, st, fuel) == RunList(env, arms[FirstArm(env, arms, st)].body, st, fuel)
  {
  }

  lemma {:induction false} NoArmRuns(env: Env, arms: seq<CoreArm>, els: seq<Core>, st: State, fuel: nat)
    requires arms != [] && FirstArm(env, arms, st) == |arms|
    ensures ChainEffect(env, arms, els, st, fuel) ==
            if els == [] then ResumeList(env, arms[|arms| - 1].body, st, fuel) else RunList(env, els, st, fuel)
  {
  }

  lemma {:induction false} LastDoesNothing(env: Env, entries: map<string, int>, ss: seq<Stmt>, st: State, fuel: nat)
    requires ListDoes(env, entries, ss, st, fuel) && Solid(ss) && TrailingLoops(ss) == []
    ensures ResumeList(env, PlanList(entries, ss), st, fuel) == Some(Done(st))
  {
  }
}
