// The engine: explorer, executor and merger take a program from cycle to cycle
// (ahorn/src/se/ahorn/engine.cpp).

module Engine {
  import opened Ir
  import opened Cfg
  import opened Symbolic
  import opened Execution
  import opened Merging
  import opened Merger
  import opened Exploration
  import opened Cycles
  import opened Scheduling

  // What holds between the rounds of one cycle.
  ghost predicate Running(env: Env, g: Graph, vars: set<string>, frame: CallFrame, cycle: nat, W: World,
        live: multiset<Context>,
                          contexts: seq<Context>, queues: Queues, executed: set<int>, floor: int) {
    && LiveOk(env, g, W, vars, cycle, live) && LiveIs(live, contexts, queues)
    && Scheduled(g, contexts, queues, executed, floor) && QueuesFit(g, frame, queues) && Framed(contexts, frame)
  }

  // ---------- executing ----------

  ghost predicate ExecutedInstr(g: Graph, oracle: Oracle, vars: set<string>, W: World, U: World, c: Context,
        i: Instr, succeeding: Context, forked: Option<Context>)
    requires InstructionsOk([i], vars) && W.global.Keys == vars && c.version.Keys == vars
  {
    match i
    case Assign(x, e) =>
      && U == AssignedWorld(oracle, W, c, x, e) && forked == None
      && succeeding == Assigned(oracle, c, x, e, W.global[x] + 1, Follow(g.edges, c.vertexLabel, Intraprocedural))
    case IfGoto(e, _, _) => U == W && Forks(g, oracle, c, e, succeeding, forked)
    case _ => false
  }

  ghost predicate ExecutedTo(g: Graph, oracle: Oracle, vars: set<string>, W: World, U: World, c: Context,
        succeeding: Context, forked: Option<Context>)
    requires Executable(g, vars) && W.global.Keys == vars && c.version.Keys == vars && c.vertexLabel in g.vertices
  {
    match g.vertices[c.vertexLabel]
    case EntryVertex => U == W && succeeding == c.(vertexLabel := Follow(g.edges, c.vertexLabel, Intraprocedural))
          && forked == None
    case Regular(instrs) =>
      assert InstructionsOk(g.vertices[c.vertexLabel].instrs, vars);
      assert instrs == [instrs[0]];
      ExecutedInstr(g, oracle, vars, W, U, c, instrs[0], succeeding, forked)
    case ExitVertex => false
  }

  // The context c is replaced by live contexts that stand for it.
  ghost predicate StepsTo(env: Env, g: Graph, vars: set<string>, cycle: nat, W: World, U: World, c: Context,
        into: multiset<Context>) {
    && WorldOk(env, U, vars, cycle) && Extends(W, U) && Replaces(env, W, U, multiset{c}, into)
    && forall d | d in into :: LiveContext(env, g, U, vars, cycle, d) && d.frame == c.frame
  }

  lemma {:induction false} EntrySteps(env: Env, g: Graph, vars: set<string>, cycle: nat, W: World, c: Context)
    requires WellShaped(g) && WorldOk(env, W, vars, cycle) && LiveContext(env, g, W, vars, cycle, c)
            && c.vertexLabel == g.entry
    ensures StepsTo(env, g, vars, cycle, W, W, c, multiset{c.(vertexLabel := Follow(g.edges, c.vertexLabel,
            Intraprocedural))})
  {
    EntryExecuted(env, g, W, vars, cycle, c);
  }

  lemma {:induction false} AssignmentSteps(env: Env, g: Graph, oracle: Oracle, vars: set<string>, cycle: nat,
        W: World, U: World, c: Context, x: string, e: Expr, d: Context, forked: Option<Context>)
    requires WellShaped(g) && Sound(env, oracle) && WorldOk(env, W, vars, cycle)
            && LiveContext(env, g, W, vars, cycle, c)
    requires g.vertices[c.vertexLabel] == Regular([Assign(x, e)]) && x in vars && Encodable(e, vars)
            && InstructionTyped(env.boolean, Assign(x, e))
    requires U == AssignedWorld(oracle, W, c, x, e) && forked == None
    requires d == Assigned(oracle, c, x, e, W.global[x] + 1, Follow(g.edges, c.vertexLabel, Intraprocedural))
    ensures StepsTo(env, g, vars, cycle, W, U, c, ForkSet(d, forked))
  {
    AssignmentExecuted(env, g, oracle, W, vars, cycle, c, x, e);
  }

  lemma {:induction false} IfSteps(env: Env, g: Graph, oracle: Oracle, vars: set<string>, cycle: nat, W: World,
        c: Context, e: Expr, t: int, f: int, succeeding: Context, forked: Option<Context>)
    requires WellShaped(g) && Sound(env, oracle) && WorldOk(env, W, vars, cycle)
            && LiveContext(env, g, W, vars, cycle, c)
    requires g.vertices[c.vertexLabel] == Regular([IfGoto(e, t, f)]) && Encodable(e, vars)
            && InstructionTyped(env.boolean, IfGoto(e, t, f))
    requires Forks(g, oracle, c, e, succeeding, forked)
    ensures StepsTo(env, g, vars, cycle, W, W, c, ForkSet(succeeding, forked))
  {
    IfExecuted(env, g, oracle, W, vars, cycle, c, e, t, f, succeeding, forked);
    ForksKeepFrame(g, oracle, c, e, succeeding, forked);
    StepsInPlace(env, g, vars, cycle, W, c, ForkSet(succeeding, forked));
  }

  lemma {:induction false} StepsInPlace(env: Env, g: Graph, vars: set<string>, cycle: nat, W: World, c: Context,
        into: multiset<Context>)
    requires WorldOk(env, W, vars, cycle) && Replaces(env, W, W, multiset{c}, into)
    requires forall d | d in into :: LiveContext(env, g, W, vars, cycle, d) && d.frame == c.frame
    ensures StepsTo(env, g, vars, cycle, W, W, c, into)
  {
  }

  lemma {:induction false} ForksKeepFrame(g: Graph, oracle: Oracle, c: Context, e: Expr, succeeding: Context,
        forked: Option<Context>)
    requires Encodable(e, c.version.Keys) && Forks(g, oracle, c, e, succeeding, forked)
    ensures forall d | d in ForkSet(succeeding, forked) :: d.frame == c.frame
  {
  }

  lemma {:induction false} InstrSteps(env: Env, g: Graph, oracle: Oracle, vars: set<string>, cycle: nat, W: World,
        U: World, c: Context, i: Instr, succeeding: Context, forked: Option<Context>)
    requires WellShaped(g) && InstructionsOk([i], vars) && InstructionTyped(env.boolean, i) && Sound(env, oracle)
            && WorldOk(env, W, vars, cycle) && LiveContext(env, g, W, vars, cycle, c)
    requires g.vertices[c.vertexLabel] == Regular([i]) && ExecutedInstr(g, oracle, vars, W, U, c, i, succeeding, forked)
    ensures StepsTo(env, g, vars, cycle, W, U, c, ForkSet(succeeding, forked))
  {
    if i.Assign? {
      AssignmentSteps(env, g, oracle, vars, cycle, W, U, c, i.v, i.e, succeeding, forked);
    } else {
      IfSteps(env, g, oracle, vars, cycle, W, c, i.ifCond, i.thenLabel, i.elseLabel, succeeding, forked);
    }
  }

  lemma {:induction false} ExecutedLive(env: Env, g: Graph, oracle: Oracle, vars: set<string>, cycle: nat, W: World,
        U: World, c: Context, succeeding: Context, forked: Option<Context>)
    requires Executable(g, vars) && WellTyped(env.boolean, g) && Sound(env, oracle) && WorldOk(env, W, vars, cycle)
            && LiveContext(env, g, W, vars, cycle, c)
    requires ExecutedTo(g, oracle, vars, W, U, c, succeeding, forked)
    ensures StepsTo(env, g, vars, cycle, W, U, c, ForkSet(succeeding, forked))
  {
    assert VertexFits(g, c.vertexLabel);
    if g.vertices[c.vertexLabel].EntryVertex? {
      EntrySteps(env, g, vars, cycle, W, c);
    } else {
      var instrs := g.vertices[c.vertexLabel].instrs;
      assert InstructionsOk(instrs, vars) && instrs == [instrs[0]];
      InstrSteps(env, g, oracle, vars, cycle, W, U, c, instrs[0], succeeding, forked);
    }
  }

  // The edge that a step takes.
  lemma {:induction false} TakenEdge(g: Graph, l: int, kind: EdgeKind) returns (e: Edge)
    requires WellShaped(g) && l in g.vertices && LeavesBy(g.vertices[l], kind)
    ensures e in g.edges && e.source == l && e.kind == kind && e.target == Follow(g.edges, l, kind)
  {
    assert VertexFits(g, l);
    FollowOutgoing(g.edges, l, kind);
    var out := Outgoing(g.edges, l);
    assert out[0] in out;
    if |out| == 2 { assert out[1] in out && out[1..][0] == out[1]; }
    e := if out[0].kind == kind then out[0] else out[1];
  }

  // The edges from the label of c to the contexts it is replaced by; they differ if there are two.
  ghost predicate Edges(g: Graph, l: int, succeeding: Context, forked: Option<Context>, e1: Edge, e2: Edge) {
    && e1 in g.edges && e1.source == l && e1.target == succeeding.vertexLabel
    && (forked.Some? ==> e2 in g.edges && e2.source == l && e2.target == forked.value.vertexLabel && e1 != e2)
  }

  lemma {:induction false} ExecutedEdges(g: Graph, oracle: Oracle, vars: set<string>, W: World, U: World, c: Context,
        succeeding: Context, forked: Option<Context>) returns (e1: Edge, e2: Edge)
    requires Executable(g, vars) && W.global.Keys == vars && c.version.Keys == vars && c.vertexLabel in g.vertices
    requires ExecutedTo(g, oracle, vars, W, U, c, succeeding, forked)
    ensures Edges(g, c.vertexLabel, succeeding, forked, e1, e2)
  {
    var l := c.vertexLabel;
    match g.vertices[l]
    case EntryVertex =>
      e1 := TakenEdge(g, l, Intraprocedural);
      e2 := e1;
    case Regular(instrs) =>
      assert InstructionsOk(g.vertices[l].instrs, vars);
      match instrs[0] {
        case Assign(_, _) =>
          e1 := TakenEdge(g, l, Intraprocedural);
          e2 := e1;
        case IfGoto(e, _, _) =>
          var t := TakenEdge(g, l, TrueBranch);
          var f := TakenEdge(g, l, FalseBranch);
          e1, e2 := if oracle.takesTrue(c, Encode(oracle, e, c)) then t else f,
                if oracle.takesTrue(c, Encode(oracle, e, c)) then f else t;
      }
  }

  // The first context is pushed, then the forked one.
  function NextContexts(contexts: seq<Context>, queues: Queues, succeeding: Context,
        forked: Option<Context>): seq<Context> {
    var contexts', queues' := PushedContexts(contexts, queues, succeeding), PushedQueues(queues, succeeding);
    if forked.None? then contexts' else PushedContexts(contexts', queues', forked.value)
  }

  function NextQueues(queues: Queues, succeeding: Context, forked: Option<Context>): Queues {
    var queues' := PushedQueues(queues, succeeding);
    if forked.None? then queues' else PushedQueues(queues', forked.value)
  }

  lemma {:induction false} ExecutedScheduled(g: Graph, vars: set<string>, frame: CallFrame, contexts: seq<Context>,
        queues: Queues, executed: set<int>, floor: int,
                          i: nat, succeeding: Context, forked: Option<Context>, e1: Edge, e2: Edge)
    requires Executable(g, vars) && Scheduled(g, contexts, queues, executed, floor) && QueuesFit(g, frame, queues)
            && Framed(contexts, frame)
    requires i < |contexts| && Edges(g, contexts[i].vertexLabel, succeeding, forked, e1, e2)
    requires succeeding.frame == frame && (forked.Some? ==> forked.value.frame == frame)
    ensures var rest := Without(contexts, i);
            && Scheduled(g, NextContexts(rest, queues, succeeding, forked), NextQueues(queues, succeeding, forked),
                  executed + {contexts[i].vertexLabel}, floor)
            && QueuesFit(g, frame, NextQueues(queues, succeeding, forked))
                  && Framed(NextContexts(rest, queues, succeeding, forked), frame)
  {
    var l, rest := contexts[i].vertexLabel, Without(contexts, i);
    var executed' := executed + {l};
    assert Ready(g, executed, floor, contexts[i].vertexLabel);
    PopScheduled(g, contexts, queues, executed, floor, i);
    forall j | 0 <= j < |rest|
      ensures rest[j].frame == frame && exists k :: 0 <= k < |contexts| && rest[j] == contexts[k]
    {
      var k := if j < i then j else j + 1;
      assert rest[j] == contexts[k];
    }
    if !Joins(g, e1.target) { SuccessorFresh(g, vars, contexts, queues, executed, floor, e1); }
    PushedScheduled(g, frame, rest, queues, executed', floor, succeeding);
    PushedFit(g, frame, rest, queues, succeeding);
    if forked.Some? {
      if !Joins(g, e2.target) {
        SuccessorFresh(g, vars, contexts, queues, executed, floor, e2);
        if e1.target == e2.target { TwoEdgesJoin(g, vars, e1, e2); }
      }
      var contexts', queues' := PushedContexts(rest, queues, succeeding), PushedQueues(queues, succeeding);
      PushedScheduled(g, frame, contexts', queues', executed', floor, forked.value);
      PushedFit(g, frame, contexts', queues', forked.value);
    }
  }

  lemma {:induction false} ExecutedRunning(env: Env, g: Graph, oracle: Oracle, vars: set<string>, frame: CallFrame,
        cycle: nat, W: World, U: World, live: multiset<Context>,
                        contexts: seq<Context>, queues: Queues, executed: set<int>, floor: int, i: nat,
                              succeeding: Context, forked: Option<Context>)
    requires Executable(g, vars) && WellTyped(env.boolean, g) && Sound(env, oracle)
            && Running(env, g, vars, frame, cycle, W, live, contexts, queues, executed, floor)
    requires i < |contexts| && contexts[i].version.Keys == vars && contexts[i].vertexLabel in g.vertices
    requires ExecutedTo(g, oracle, vars, W, U, contexts[i], succeeding, forked)
    ensures Running(env, g, vars, frame, cycle, U, live - multiset{contexts[i]} + ForkSet(succeeding, forked),
                    NextContexts(Without(contexts, i), queues, succeeding, forked),
                          NextQueues(queues, succeeding, forked),
                    executed + {contexts[i].vertexLabel}, floor)
    ensures Extends(W, U)
  {
    var c, rest, into := contexts[i], live - multiset{contexts[i]}, ForkSet(succeeding, forked);
    PopLive(live, contexts, queues, i);
    assert LiveContext(env, g, W, vars, cycle, c);
    ExecutedLive(env, g, oracle, vars, cycle, W, U, c, succeeding, forked);
    assert succeeding in into && (forked.Some? ==> forked.value in into);
    Replaced(env, g, W, U, vars, cycle, rest, multiset{c}, into);
    var e1, e2 := ExecutedEdges(g, oracle, vars, W, U, c, succeeding, forked);
    ExecutedScheduled(g, vars, frame, contexts, queues, executed, floor, i, succeeding, forked, e1, e2);
    ForksLive(rest, Without(contexts, i), queues, succeeding, forked);
  }

  lemma {:induction false} ForksLive(rest: multiset<Context>, contexts: seq<Context>, queues: Queues,
        succeeding: Context, forked: Option<Context>)
    requires LiveIs(rest, contexts, queues)
    ensures LiveIs(rest + ForkSet(succeeding, forked), NextContexts(contexts, queues, succeeding, forked),
            NextQueues(queues, succeeding, forked))
  {
    PushedLive(rest, contexts, queues, succeeding);
    if forked.Some? {
      PushedLive(rest + multiset{succeeding}, PushedContexts(contexts, queues, succeeding),
            PushedQueues(queues, succeeding), forked.value);
      assert rest + multiset{succeeding} + multiset{forked.value} == rest + ForkSet(succeeding, forked);
    }
  }

  // ---------- merging ----------

  lemma {:induction false} QueuesOk(env: Env, g: Graph, vars: set<string>, frame: CallFrame, cycle: nat, W: World,
        live: multiset<Context>, contexts: seq<Context>, queues: Queues, mp: MergePoint)
    requires LiveOk(env, g, W, vars, cycle, live) && LiveIs(live, contexts, queues) && QueuesFit(g, frame, queues)
            && mp in queues
    ensures QueueOk(env, W, vars, cycle, mp, queues[mp])
    ensures forall i | 0 <= i < |queues[mp]| :: LiveContext(env, g, W, vars, cycle, queues[mp][i])
  {
    var cs := queues[mp];
    forall c | c in cs ensures multiset(cs)[c] <= live[c] && c in live {
      var i :| 0 <= i < |cs| && cs[i] == c;
      assert PointOf(c) == mp && live[c] == multiset(contexts)[c] + Waiting(queues, c);
      assert c in multiset(cs);
    }
    forall i | 0 <= i < |cs| ensures LiveContext(env, g, W, vars, cycle, cs[i]) {
      assert cs[i] in cs && cs[i] in live;
    }
    forall j, i | 0 <= j < i < |cs| ensures Exclusive(env, cs[j], cs[i]) {
      assert cs == cs[..j] + [cs[j]] + cs[j + 1..] && cs[i] == cs[j + 1..][i - j - 1];
      assert multiset(cs) == multiset(cs[..j]) + multiset{cs[j]} + multiset(cs[j + 1..]);
      assert cs[i] in multiset(cs[j + 1..]);
      assert cs[i] in live - multiset{cs[j]};
      assert cs[j] in cs && cs[j] in live;
    }
  }

  lemma {:induction false} MergedLive(env: Env, g: Graph, vars: set<string>, cycle: nat, W: World, U: World,
        live: multiset<Context>, cs: seq<Context>, m: Context)
    requires LiveOk(env, g, W, vars, cycle, live) && cs != [] && multiset(cs) <= live && forall i | 0 <= i < |cs| ::
            LiveContext(env, g, W, vars, cycle, cs[i])
    requires WorldOk(env, U, vars, cycle) && Gains(W, U, m) && ContextOk(U, vars, cycle, m) && Represents(env, cs, m)
    ensures LiveOk(env, g, U, vars, cycle, live - multiset(cs) + multiset{m})
  {
    MergeDescribes(env, g, W, vars, cycle, cs, m);
    ManyReplaced(env, W, U, cs, m);
    assert LiveContext(env, g, W, vars, cycle, cs[0]) && m.vertexLabel == cs[0].vertexLabel;
    assert live == live - multiset(cs) + multiset(cs);
    Replaced(env, g, W, U, vars, cycle, live - multiset(cs), multiset(cs), multiset{m});
  }

  lemma {:induction false} MergedRunning(env: Env, g: Graph, vars: set<string>, frame: CallFrame, cycle: nat,
        W: World, U: World, live: multiset<Context>,
                      queues: Queues, executed: set<int>, floor: int, mp: MergePoint, m: Context)
    requires Running(env, g, vars, frame, cycle, W, live, [], queues, executed, floor)
    requires mp in queues && queues[mp] != [] && forall p | p in queues && queues[p] != [] :: !Before(p, mp)
    requires WorldOk(env, U, vars, cycle) && Gains(W, U, m) && ContextOk(U, vars, cycle, m)
            && Represents(env, queues[mp], m)
    ensures floor < mp.vertexLabel && mp.vertexLabel in g.vertices
    ensures Running(env, g, vars, frame, cycle, U, live - multiset(queues[mp]) + multiset{m}, [m], queues[mp := []],
            executed, mp.vertexLabel)
  {
    var cs := queues[mp];
    QueuesOk(env, g, vars, frame, cycle, W, live, [], queues, mp);
    assert PointOf(cs[0]) == mp && LiveContext(env, g, W, vars, cycle, cs[0]);
    MergedQueues(env, g, frame, live, queues, executed, floor, mp, m);
    MergedLive(env, g, vars, cycle, W, U, live, cs, m);
  }

  // What the merge does to the queues.
  lemma {:induction false} MergedQueues(env: Env, g: Graph, frame: CallFrame, live: multiset<Context>,
        queues: Queues, executed: set<int>, floor: int, mp: MergePoint, m: Context)
    requires LiveIs(live, [], queues) && Scheduled(g, [], queues, executed, floor) && QueuesFit(g, frame, queues)
    requires mp in queues && queues[mp] != [] && forall p | p in queues && queues[p] != [] :: !Before(p, mp)
    requires Represents(env, queues[mp], m) && PointOf(queues[mp][0]) == mp
    ensures multiset(queues[mp]) <= live && LiveIs(live - multiset(queues[mp]) + multiset{m}, [m], queues[mp := []])
    ensures floor < mp.vertexLabel && Scheduled(g, [m], queues[mp := []], executed, mp.vertexLabel)
    ensures QueuesFit(g, frame, queues[mp := []]) && Framed([m], frame)
  {
    assert queues[mp][0].frame == m.frame && queues[mp][0].vertexLabel == m.vertexLabel;
    assert queues[mp][0] in queues[mp];
    DrainQueue(g, frame, live, queues, mp, m);
    MergeScheduled(g, frame, queues, executed, floor, mp, m);
  }

  // All definitions after the execution of c.
  ghost function WorldAfter(g: Graph, oracle: Oracle, vars: set<string>, W: World, c: Context): World
    requires Executable(g, vars) && W.global.Keys == vars && c.version.Keys == vars && c.vertexLabel in g.vertices
  {
    match g.vertices[c.vertexLabel]
    case Regular(instrs) =>
      assert InstructionsOk(g.vertices[c.vertexLabel].instrs, vars);
      if instrs[0].Assign? then AssignedWorld(oracle, W, c, instrs[0].v, instrs[0].e) else W
    case _ => W
  }

  lemma {:induction false} PoppedLive(env: Env, g: Graph, vars: set<string>, frame: CallFrame, cycle: nat, W: World,
        live: multiset<Context>,
                   contexts: seq<Context>, queues: Queues, executed: set<int>, floor: int, i: nat)
    requires Running(env, g, vars, frame, cycle, W, live, contexts, queues, executed, floor) && i < |contexts|
    ensures LiveContext(env, g, W, vars, cycle, contexts[i]) && contexts[i].frame == frame
            && contexts[i].vertexLabel !in executed
  {
    PopLive(live, contexts, queues, i);
    assert Ready(g, executed, floor, contexts[i].vertexLabel);
  }

  // ---------- the end of the cycle ----------

  // Without live contexts there would be no model.
  lemma {:induction false} NeverEmpty(env: Env, g: Graph, vars: set<string>, frame: CallFrame, cycle: nat, W: World,
        live: multiset<Context>, queues: Queues, executed: set<int>, floor: int)
    requires Running(env, g, vars, frame, cycle, W, live, [], queues, executed, floor)
    ensures exists mp :: mp in queues && queues[mp] != []
  {
    var zero: Valuation := (n: Versioned) => 0;
    var nu := ModelExists(env, W, 0, zero);
    assert SomeActive(env, nu, live);
    var c :| c in live && Active(env, nu, c);
    assert live[c] == multiset([])[c] + Waiting(queues, c);
    assert c in multiset(queues[PointOf(c)]);
    assert queues[PointOf(c)] != [];
  }

  // c is the only live context, at the exit, and is about to enter the next cycle.
  ghost predicate Finished(env: Env, g: Graph, xs: seq<string>, inputs: set<string>, frame: CallFrame, cycle: nat,
        W: World, c: Context, U: World, next: Context) {
    && LiveOk(env, g, W, Elements(xs), cycle, multiset{c}) && c.vertexLabel == g.exit && c.frame == frame
    && Current(c) && (forall x | x in xs :: x in c.version)
    && U == NextWorld(inputs, W, c, xs) && next == NextCycle(inputs, c, xs)
  }

  lemma {:induction false} FinishedStarts(env: Env, g: Graph, xs: seq<string>, inputs: set<string>, frame: CallFrame,
        cycle: nat, W: World, c: Context, U: World, next: Context)
    requires Finished(env, g, xs, inputs, frame, cycle, W, c, U, next) && frame.returnLabel == g.entry && Distinct(xs)
    ensures StartOk(env, g, U, Elements(xs), inputs, cycle + 1, next) && W.order <= U.order && Within(W.defs, U.defs)
            && next.frame == frame
    ensures forall nu | Satisfies(env, nu, next.store) :: CycleRuns(env, g, Elements(xs), inputs, nu, cycle)
  {
    NextStarts(env, g, W, Elements(xs), inputs, cycle, c, xs);
    forall nu | Satisfies(env, nu, next.store) ensures CycleRuns(env, g, Elements(xs), inputs, nu, cycle) {
      CycleEnds(env, g, W, Elements(xs), inputs, cycle, c, xs, nu);
    }
  }

  lemma {:induction false} StartsRunning(env: Env, g: Graph, vars: set<string>, inputs: set<string>,
        frame: CallFrame, cycle: nat, W: World, c: Context, queues: Queues)
    requires Executable(g, vars) && StartOk(env, g, W, vars, inputs, cycle, c) && c.frame == frame
    requires QueuesFit(g, frame, queues) && forall mp | mp in queues :: queues[mp] == []
    ensures Running(env, g, vars, frame, cycle, W, multiset{c}, [c], queues, {}, g.entry)
  {
    StartLive(env, g, W, vars, inputs, cycle, c);
    forall d ensures multiset{c}[d] == multiset([c])[d] + Waiting(queues, d) {
      if PointOf(d) in queues { assert queues[PointOf(d)] == []; }
    }
    assert Ready(g, {}, g.entry, c.vertexLabel);
  }

  // How far a cycle has come: all definitions, the live contexts, the executed labels, the last merge;
  // and what was executed and merged in the cycles before.
  datatype Progress = Progress(before: World, W: World, live: multiset<Context>, executed: set<int>, floor: int,
        last: Context, trace: seq<int>, merges: seq<int>, executedBefore: seq<int>, mergedBefore: seq<int>)

  lemma {:induction false} TracedMore(trace: seq<int>, executed: set<int>, l: int)
    requires Traced(trace, executed) && l !in executed
    ensures Traced(trace + [l], executed + {l})
  {
  }

  class Explorer {
    var contexts: seq<Context>

    constructor ()
      ensures contexts == []
    {
      contexts := [];
    }

    predicate IsEmpty()
      reads this
    {
      contexts == []
    }

    method Push(c: Context)
      modifies this
      ensures contexts == old(contexts) + [c]
    {
      contexts := contexts + [c];
    }

    // The heuristic may prefer any context.
    method Pop() returns (c: Context, ghost i: nat)
      requires !IsEmpty()
      modifies this
      ensures i < |old(contexts)| && c == old(contexts)[i] && contexts == Without(old(contexts), i)
    {
      var k :| 0 <= k < |contexts|;
      c := contexts[k];
      i := k;
      contexts := contexts[..k] + contexts[k + 1..];
    }
  }

  class Engine {
    const g: Graph
    const frame: CallFrame
    const explorer: Explorer
    const executor: Executor
    const merger: Merger
    var cycle: nat

    constructor (g: Graph, oracle: Oracle, scope: string, vars: seq<string>, inputs: set<string>)
      ensures Wired() && this.g == g && executor.oracle == oracle && executor.vars == vars
              && executor.wholeProgramInputs == inputs
      ensures fresh(explorer) && fresh(executor) && fresh(merger)
      ensures frame == CallFrame(scope, 1, g.entry)
      ensures cycle == 0 && explorer.contexts == [] && merger.mergePoints == {} && merger.mergePointToContexts == map[]
      ensures forall x :: x in executor.version <==> x in vars
      ensures forall x | x in vars :: executor.version[x] == 0
    {
      this.g, frame, cycle := g, CallFrame(scope, 1, g.entry), 0;
      explorer := new Explorer();
      var e := new Executor(g, oracle, vars, inputs);
      executor := e;
      merger := new Merger(e);
    }

    predicate Wired()
      reads this
    {
      merger.executor == executor && executor.g == g && frame.returnLabel == g.entry
    }

    ghost predicate Rounds(env: Env, W: World, live: multiset<Context>, executed: set<int>, floor: int)
      reads this, explorer, executor, merger
    {
      && Wired() && Executable(g, Elements(executor.vars)) && WellTyped(env.boolean, g) && Distinct(executor.vars)
            && Sound(env, executor.oracle)
      && merger.mergePoints == merger.mergePointToContexts.Keys && executor.version == W.global
      && Running(env, g, Elements(executor.vars), frame, cycle, W, live, explorer.contexts,
            merger.mergePointToContexts, executed, floor)
    }

    method PushContext(d: Context)
      requires merger.mergePoints == merger.mergePointToContexts.Keys
      modifies explorer, merger`mergePointToContexts
      ensures explorer.contexts == PushedContexts(old(explorer.contexts), old(merger.mergePointToContexts), d)
      ensures merger.mergePointToContexts == PushedQueues(old(merger.mergePointToContexts), d)
      ensures merger.mergePoints == merger.mergePointToContexts.Keys
    {
      if merger.ReachedMergePoint(d) {
        merger.Push(d);
      } else {
        explorer.Push(d);
      }
    }

    method PushBoth(succeeding: Context, forked: Option<Context>)
      requires merger.mergePoints == merger.mergePointToContexts.Keys
      modifies explorer, merger`mergePointToContexts
      ensures explorer.contexts == NextContexts(old(explorer.contexts), old(merger.mergePointToContexts), succeeding,
              forked)
      ensures merger.mergePointToContexts == NextQueues(old(merger.mergePointToContexts), succeeding, forked)
      ensures merger.mergePoints == merger.mergePointToContexts.Keys
    {
      PushContext(succeeding);
      if forked.Some? {
        PushContext(forked.value);
      }
    }

    // The explorer is empty: merge, and explore the merged context.
    method MergeRound(ghost env: Env, ghost W0: World, ghost live0: multiset<Context>, ghost executed: set<int>,
          ghost floor: int)
      returns (ghost W: World, ghost live: multiset<Context>, ghost l: int)
      requires Rounds(env, W0, live0, executed, floor) && explorer.IsEmpty()
      modifies explorer, merger`mergePointToContexts, merger`merged, executor`version
      ensures Rounds(env, W, live, executed, l) && !explorer.IsEmpty() && floor < l && l in g.vertices
      ensures Joins(g, l)
      ensures W0.order <= W.order && Within(W0.defs, W.defs) && merger.merged == old(merger.merged) + [l]
    {
      ghost var queues := merger.mergePointToContexts;
      NeverEmpty(env, g, Elements(executor.vars), frame, cycle, W0, live0, queues, executed, floor);
      forall p | p in queues ensures QueueOk(env, W0, Elements(executor.vars), cycle, p, queues[p]) {
        QueuesOk(env, g, Elements(executor.vars), frame, cycle, W0, live0, [], queues, p);
      }
      ghost var mp, cs;
      var m;
      m, mp, cs, W := merger.Merge(env, W0, cycle);
      MergedRunning(env, g, Elements(executor.vars), frame, cycle, W0, W, live0, queues, executed, floor, mp, m);
      live := live0 - multiset(cs) + multiset{m};
      l := mp.vertexLabel;
      explorer.Push(m);
    }

    // Take a context out of the explorer, execute it, and pass on what comes out of it.
    method ExecuteRound(ghost env: Env, ghost W0: World, ghost live0: multiset<Context>, ghost executed: set<int>,
          ghost floor: int)
      returns (next: Option<Context>, ghost W: World, ghost live: multiset<Context>, ghost l: int, ghost last: Context)
      requires Rounds(env, W0, live0, executed, floor) && !explorer.IsEmpty()
      modifies explorer, merger`mergePointToContexts, executor`version, executor`executed
      ensures l in g.vertices && l !in executed && executor.executed == old(executor.executed) + [l]
      ensures next.None? ==>
              Rounds(env, W, live, executed + {l}, floor) && W0.order <= W.order && Within(W0.defs, W.defs)
      ensures next.Some? ==>
        && explorer.IsEmpty() && merger.IsEmpty() && executor.version == W.global
              && merger.mergePointToContexts == old(merger.mergePointToContexts)
        && Finished(env, g, executor.vars, executor.wholeProgramInputs, frame, cycle, W0, last, W, next.value)
    {
      ghost var vars, contexts, queues := Elements(executor.vars), explorer.contexts, merger.mergePointToContexts;
      var c, succeeding, forked; ghost var i;
      c, i, succeeding, forked := PopAndExecute(env, W0, live0, executed, floor);
      l, last, live, W := c.vertexLabel, c, live0, W0;
      next := None;
      if cycle == succeeding.cycle {
        W, live := Continue(env, W0, live0, contexts, executed, floor, i, succeeding, forked);
      } else {
        ExitAlone(g, vars, frame, live0, contexts, queues, executed, floor, i);
        W := NextWorld(executor.wholeProgramInputs, W0, c, executor.vars);
        next := Some(succeeding);
      }
    }

    // The contexts that stay in the cycle are passed on.
    method Continue(ghost env: Env, ghost W0: World, ghost live0: multiset<Context>, ghost contexts: seq<Context>,
          ghost executed: set<int>, ghost floor: int,
                    ghost i: nat, succeeding: Context, forked: Option<Context>)
                          returns (ghost W: World, ghost live: multiset<Context>)
      requires Wired() && Executable(g, Elements(executor.vars)) && WellTyped(env.boolean, g)
              && Distinct(executor.vars) && Sound(env, executor.oracle)
      requires merger.mergePoints == merger.mergePointToContexts.Keys
      requires Running(env, g, Elements(executor.vars), frame, cycle, W0, live0, contexts,
              merger.mergePointToContexts, executed, floor)
      requires i < |contexts| && explorer.contexts == Without(contexts, i) && W0.global.Keys == Elements(executor.vars)
      requires contexts[i].version.Keys == Elements(executor.vars) && contexts[i].vertexLabel in g.vertices
      requires ExecutedTo(g, executor.oracle, Elements(executor.vars), W0,
              WorldAfter(g, executor.oracle, Elements(executor.vars), W0, contexts[i]), contexts[i], succeeding, forked)
      requires executor.version == WorldAfter(g, executor.oracle, Elements(executor.vars), W0, contexts[i]).global
      modifies explorer, merger`mergePointToContexts
      ensures Rounds(env, W, live, executed + {contexts[i].vertexLabel}, floor) && W0.order <= W.order
              && Within(W0.defs, W.defs)
    {
      W := WorldAfter(g, executor.oracle, Elements(executor.vars), W0, contexts[i]);
      ExecutedRunning(env, g, executor.oracle, Elements(executor.vars), frame, cycle, W0, W, live0, contexts,
            merger.mergePointToContexts, executed, floor, i, succeeding, forked);
      live := live0 - multiset{contexts[i]} + ForkSet(succeeding, forked);
      PushBoth(succeeding, forked);
    }

    method PopAndExecute(ghost env: Env, ghost W: World, ghost live: multiset<Context>, ghost executed: set<int>,
          ghost floor: int)
      returns (c: Context, ghost i: nat, succeeding: Context, forked: Option<Context>)
      requires Rounds(env, W, live, executed, floor) && !explorer.IsEmpty()
      modifies explorer, executor`version, executor`executed
      ensures executor.executed == old(executor.executed) + [c.vertexLabel]
      ensures i < |old(explorer.contexts)| && c == old(explorer.contexts)[i]
              && explorer.contexts == Without(old(explorer.contexts), i)
      ensures LiveContext(env, g, W, Elements(executor.vars), cycle, c) && c.vertexLabel !in executed
              && c.frame == frame && Current(c)
      ensures forall x | x in executor.vars :: x in c.version
      ensures if c.vertexLabel == g.exit then
                && succeeding == NextCycle(executor.wholeProgramInputs, c, executor.vars)
                && executor.version == NextWorld(executor.wholeProgramInputs, W, c, executor.vars).global
              else
                && succeeding.cycle == cycle
                && ExecutedTo(g, executor.oracle, Elements(executor.vars), W,
                      WorldAfter(g, executor.oracle, Elements(executor.vars), W, c), c, succeeding, forked)
                && executor.version == WorldAfter(g, executor.oracle, Elements(executor.vars), W, c).global
    {
      ghost var vars, contexts, queues := Elements(executor.vars), explorer.contexts, merger.mergePointToContexts;
      c, i := explorer.Pop();
      PoppedLive(env, g, vars, frame, cycle, W, live, contexts, queues, executed, floor, i);
      assert VertexFits(g, c.vertexLabel);
      succeeding, forked := ExecuteContext(c, W, vars);
    }

    method ExecuteContext(c: Context, ghost W: World, ghost vars: set<string>)
          returns (succeeding: Context, forked: Option<Context>)
      requires executor.g == g && Executable(g, vars) && vars == Elements(executor.vars) && executor.version == W.global
      requires W.global.Keys == vars && c.version.Keys == vars && c.vertexLabel in g.vertices && Current(c)
      modifies executor`version, executor`executed
      ensures executor.executed == old(executor.executed) + [c.vertexLabel]
      ensures forall x | x in executor.vars :: x in c.version
      ensures if c.vertexLabel == g.exit then
                && succeeding == NextCycle(executor.wholeProgramInputs, c, executor.vars)
                && executor.version == NextWorld(executor.wholeProgramInputs, W, c, executor.vars).global
              else
                && succeeding.cycle == c.cycle
                && ExecutedTo(g, executor.oracle, vars, W, WorldAfter(g, executor.oracle, vars, W, c), c, succeeding,
                      forked)
                && executor.version == WorldAfter(g, executor.oracle, vars, W, c).global
    {
      assert VertexFits(g, c.vertexLabel);
      assert forall x | x in executor.vars :: x in Elements(executor.vars);
      if g.vertices[c.vertexLabel].Regular? {
        assert InstructionsOk(g.vertices[c.vertexLabel].instrs, vars);
      }
      succeeding, forked := executor.Execute(c);
    }

    // What the engine needs before and after a cycle.
    ghost predicate Between(env: Env, W: World)
      reads this, explorer, executor, merger
    {
      && Wired() && Executable(g, Elements(executor.vars)) && WellTyped(env.boolean, g) && Distinct(executor.vars)
            && Sound(env, executor.oracle)
      && merger.mergePoints == merger.mergePointToContexts.Keys && executor.version == W.global
      && QueuesFit(g, frame, merger.mergePointToContexts) && merger.IsEmpty()
    }

    // One cycle. `trace` is what the executor adds to its log of executed labels, `merges` what the merger
    // adds to its log of merged ones.
    method Step(ghost env: Env, ghost W0: World, ghost c0: Context)
          returns (next: Context, ghost W: World, ghost trace: seq<int>, ghost merges: seq<int>)
      requires Between(env, W0) && explorer.contexts == [c0] && c0.frame == frame
      requires StartOk(env, g, W0, Elements(executor.vars), executor.wholeProgramInputs, cycle, c0)
      modifies explorer, merger`mergePointToContexts, merger`merged, executor`version, executor`executed
      ensures Between(env, W) && explorer.contexts == [] && next.frame == frame
      ensures StartOk(env, g, W, Elements(executor.vars), executor.wholeProgramInputs, cycle + 1, next)
      ensures W0.order <= W.order && Within(W0.defs, W.defs)
      ensures forall nu | Satisfies(env, nu, next.store) ::
              CycleRuns(env, g, Elements(executor.vars), executor.wholeProgramInputs, nu, cycle)
      ensures executor.executed == old(executor.executed) + trace && merger.merged == old(merger.merged) + merges
      ensures forall i, j | 0 <= i < j < |trace| :: trace[i] != trace[j]
      ensures forall i, j | 0 <= i < j < |merges| :: merges[i] < merges[j]
      ensures forall l | l in merges ::
                && l in g.vertices
                && (g.vertices[l].ExitVertex?
                    || (&& g.vertices[l].Regular?
                        && (exists i, j :: 0 <= i < j < |g.edges| && g.edges[i].target == l && g.edges[j].target == l)
                        && forall e | e in g.edges && e.target == l ::
                             e.kind.Intraprocedural? || e.kind.TrueBranch? || e.kind.FalseBranch?))
    {
      ghost var P := Progress(W0, W0, multiset{c0}, {}, g.entry, c0, [], [], executor.executed,
            merger.merged);
      StartsRunning(env, g, Elements(executor.vars), executor.wholeProgramInputs, frame, cycle, W0, c0,
            merger.mergePointToContexts);
      var succeedingCycleContext;
      succeedingCycleContext, P := ExploreAndMerge(env, W0, P);
      W, trace, merges := P.W, P.trace, P.merges;
      MergesJoin(g, merges, P.floor);
      next := LeaveCycle(env, W0, P, succeedingCycleContext);
    }

    // Executing and merging until nothing is left of either.
    method ExploreAndMerge(ghost env: Env, ghost W0: World, ghost P0: Progress)
          returns (succeedingCycleContext: Option<Context>, ghost P: Progress)
      requires InCycle(env, W0, P0, None)
      modifies explorer, merger`mergePointToContexts, merger`merged, executor`version, executor`executed
      ensures InCycle(env, W0, P, succeedingCycleContext) && explorer.IsEmpty() && merger.IsEmpty()
      ensures P.executedBefore == P0.executedBefore && P.mergedBefore == P0.mergedBefore
    {
      P, succeedingCycleContext := P0, None;
      while !explorer.IsEmpty() || !merger.IsEmpty()
        invariant InCycle(env, W0, P, succeedingCycleContext)
        invariant P.executedBefore == P0.executedBefore && P.mergedBefore == P0.mergedBefore
        decreases g.vertices.Keys - P.executed, if explorer.IsEmpty() then 1 else 0
      {
        succeedingCycleContext, P := Round(env, W0, P);
      }
    }

    // When nothing is left to explore or to merge, there is a context of the next cycle.
    method LeaveCycle(ghost env: Env, ghost W0: World, ghost P: Progress, succeeding: Option<Context>)
          returns (next: Context)
      requires InCycle(env, W0, P, succeeding) && explorer.IsEmpty() && merger.IsEmpty()
      ensures Between(env, P.W) && explorer.contexts == [] && next.frame == frame
      ensures StartOk(env, g, P.W, Elements(executor.vars), executor.wholeProgramInputs, cycle + 1, next)
      ensures W0.order <= P.W.order && Within(W0.defs, P.W.defs)
      ensures forall nu | Satisfies(env, nu, next.store) ::
              CycleRuns(env, g, Elements(executor.vars), executor.wholeProgramInputs, nu, cycle)
    {
      if succeeding.None? {
        NeverEmpty(env, g, Elements(executor.vars), frame, cycle, P.W, P.live, merger.mergePointToContexts,
              P.executed, P.floor);
        assert false;
      }
      next := succeeding.value;
      FinishedStarts(env, g, executor.vars, executor.wholeProgramInputs, frame, cycle, P.before, P.last, P.W, next);
    }

    // P.before are the definitions before the context P.last left the cycle.
    ghost predicate InCycle(env: Env, W0: World, P: Progress, next: Option<Context>)
      reads this, explorer, executor, merger
    {
      && P.executed <= g.vertices.Keys && W0.order <= P.before.order && Within(W0.defs, P.before.defs)
      && Traced(P.trace, P.executed) && Increasing(g, P.merges, P.floor)
      && executor.executed == P.executedBefore + P.trace && merger.merged == P.mergedBefore + P.merges
      && if next.None? then P.before == P.W && Rounds(env, P.W, P.live, P.executed, P.floor)
         else
           && explorer.IsEmpty() && Between(env, P.W)
           && Finished(env, g, executor.vars, executor.wholeProgramInputs, frame, cycle, P.before, P.last, P.W,
                 next.value)
    }

    method Round(ghost env: Env, ghost W0: World, ghost P: Progress) returns (next: Option<Context>, ghost Q: Progress)
      requires InCycle(env, W0, P, None) && (!explorer.IsEmpty() || !merger.IsEmpty())
      modifies explorer, merger`mergePointToContexts, merger`merged, executor`version, executor`executed
      ensures InCycle(env, W0, Q, next)
      ensures Q.executedBefore == P.executedBefore && Q.mergedBefore == P.mergedBefore
      ensures P.executed < Q.executed || (P.executed == Q.executed && old(explorer.IsEmpty()) && !explorer.IsEmpty())
      ensures Q.executed <= g.vertices.Keys
    {
      next := None;
      if explorer.IsEmpty() {
        Q := MergedOn(env, W0, P);
      } else {
        next, Q := ExecutedOn(env, W0, P);
      }
    }

    method MergedOn(ghost env: Env, ghost W0: World, ghost P: Progress) returns (ghost Q: Progress)
      requires InCycle(env, W0, P, None) && explorer.IsEmpty() && !merger.IsEmpty()
      modifies explorer, merger`mergePointToContexts, merger`merged, executor`version
      ensures InCycle(env, W0, Q, None) && Q.executed == P.executed && !explorer.IsEmpty()
      ensures Q.executedBefore == P.executedBefore && Q.mergedBefore == P.mergedBefore
    {
      ghost var W, live, l := MergeRound(env, P.W, P.live, P.executed, P.floor);
      Q := Progress(W, W, live, P.executed, l, P.last, P.trace, P.merges + [l], P.executedBefore, P.mergedBefore);
    }

    method ExecutedOn(ghost env: Env, ghost W0: World, ghost P: Progress)
          returns (next: Option<Context>, ghost Q: Progress)
      requires InCycle(env, W0, P, None) && !explorer.IsEmpty()
      modifies explorer, merger`mergePointToContexts, executor`version, executor`executed
      ensures InCycle(env, W0, Q, next) && P.executed < Q.executed <= g.vertices.Keys
      ensures Q.executedBefore == P.executedBefore && Q.mergedBefore == P.mergedBefore
    {
      ghost var W, live, l, last;
      next, W, live, l, last := ExecuteRound(env, P.W, P.live, P.executed, P.floor);
      TracedMore(P.trace, P.executed, l);
      Q := Progress(if next.None? then W else P.W, W, live, P.executed + {l}, P.floor, last, P.trace + [l], P.merges,
            P.executedBefore, P.mergedBefore);
    }

    method Initialize(ghost env: Env, values: map<string, int>) returns (ghost W: World, ghost c: Context)
      requires Wired() && Executable(g, Elements(executor.vars)) && WellTyped(env.boolean, g)
              && Distinct(executor.vars) && Sound(env, executor.oracle)
      requires cycle == 0 && explorer.contexts == [] && merger.mergePoints == {} && merger.mergePointToContexts == map[]
      requires (forall x :: x in executor.version <==> x in executor.vars) && forall x | x in executor.vars ::
              executor.version[x] == 0
      modifies explorer, merger
      ensures Between(env, W) && explorer.contexts == [c] && c.frame == frame
      ensures StartOk(env, g, W, Elements(executor.vars), executor.wholeProgramInputs, 0, c)
      ensures W == InitialWorld(env.boolean, executor.wholeProgramInputs, values, executor.vars)
    {
      merger.Initialize(g, frame);
      var context := InitialContext(executor.oracle.boolean, g, frame, executor.wholeProgramInputs, values,
            executor.vars);
      InitialOk(env, executor.wholeProgramInputs, values, executor.vars);
      InitialStarts(env, g, frame, executor.wholeProgramInputs, values, executor.vars);
      W, c := InitialWorld(env.boolean, executor.wholeProgramInputs, values, executor.vars), context;
      assert executor.version == W.global;
      explorer.Push(context);
    }

    // Every model of all definitions is a run of the program over all cycles.
    method Run(ghost env: Env, values: map<string, int>, cycleBound: nat) returns (ghost W: World, ghost c: Context)
      requires Wired() && Executable(g, Elements(executor.vars)) && WellTyped(env.boolean, g)
              && Distinct(executor.vars) && Sound(env, executor.oracle)
      requires cycle == 0 && explorer.contexts == [] && merger.mergePoints == {} && merger.mergePointToContexts == map[]
      requires (forall x :: x in executor.version <==> x in executor.vars) && forall x | x in executor.vars ::
              executor.version[x] == 0
      modifies this`cycle, explorer, merger, executor`version, executor`executed
      ensures cycle == cycleBound && explorer.contexts == [c] && Between(env, W)
      ensures AllCycles(env, g, Elements(executor.vars), executor.wholeProgramInputs, values, cycleBound, W, c)
    {
      W, c := Initialize(env, values);
      FirstCycle(env, g, executor.vars, executor.wholeProgramInputs, values, W, c);
      while cycle < cycleBound
        invariant cycle <= cycleBound && explorer.contexts == [c] && Between(env, W) && c.frame == frame
        invariant AllCycles(env, g, Elements(executor.vars), executor.wholeProgramInputs, values, cycle, W, c)
      {
        W, c := RunCycle(env, values, W, c);
      }
    }

    // One more cycle, from the context that the cycle before ended with.
    method RunCycle(ghost env: Env, ghost values: map<string, int>, ghost W0: World, ghost c0: Context)
          returns (ghost W: World, ghost c: Context)
      requires explorer.contexts == [c0] && Between(env, W0) && c0.frame == frame
      requires AllCycles(env, g, Elements(executor.vars), executor.wholeProgramInputs, values, cycle, W0, c0)
      modifies this`cycle, explorer, merger, executor`version, executor`executed
      ensures cycle == old(cycle) + 1 && explorer.contexts == [c] && Between(env, W) && c.frame == frame
      ensures AllCycles(env, g, Elements(executor.vars), executor.wholeProgramInputs, values, cycle, W, c)
    {
      ghost var trace, merges;
      var succeeding;
      succeeding, W, trace, merges := Step(env, W0, c0);
      OneMoreCycle(env, g, Elements(executor.vars), executor.wholeProgramInputs, values, cycle, W0, c0, W, succeeding);
      cycle := cycle + 1;
      c := succeeding;
      explorer.Push(succeeding);
    }
  }

  ghost predicate Traced(trace: seq<int>, executed: set<int>) {
    && (forall l :: l in trace <==> l in executed)
    && forall i, j | 0 <= i < j < |trace| :: trace[i] != trace[j]
  }

  // Merged labels increase, and paths meet at each of them.
  ghost predicate Increasing(g: Graph, merges: seq<int>, floor: int) {
    && (forall i | 0 <= i < |merges| :: Joins(g, merges[i]))
    && (forall i | 0 <= i < |merges| :: merges[i] <= floor)
    && forall i, j | 0 <= i < j < |merges| :: merges[i] < merges[j]
  }

  lemma {:induction false} MergesJoin(g: Graph, merges: seq<int>, floor: int)
    requires Increasing(g, merges, floor)
    ensures forall l | l in merges ::
              && l in g.vertices
              && (g.vertices[l].ExitVertex?
                  || (&& g.vertices[l].Regular?
                      && (exists i, j :: 0 <= i < j < |g.edges| && g.edges[i].target == l && g.edges[j].target == l)
                      && forall e | e in g.edges && e.target == l ::
                           e.kind.Intraprocedural? || e.kind.TrueBranch? || e.kind.FalseBranch?))
  {
    forall l | l in merges ensures Joins(g, l) {
      var i :| 0 <= i < |merges| && merges[i] == l;
    }
    forall l | l in merges
      ensures l in g.vertices
      ensures g.vertices[l].ExitVertex?
              || (&& g.vertices[l].Regular?
                  && (exists i, j :: 0 <= i < j < |g.edges| && g.edges[i].target == l && g.edges[j].target == l)
                  && forall e | e in g.edges && e.target == l ::
                       e.kind.Intraprocedural? || e.kind.TrueBranch? || e.kind.FalseBranch?)
    {
      JoinsExactly(g, l);
    }
  }

  // The context describes all cycles so far, whatever their inputs were: every model starts with the
  // initial values and runs through all of them.
  ghost predicate AllCycles(env: Env, g: Graph, vars: set<string>, inputs: set<string>, values: map<string, int>,
        cycle: nat, W: World, c: Context) {
    && StartOk(env, g, W, vars, inputs, cycle, c)
    && (forall nu {:trigger StartsWith(env, nu, vars, inputs, values)} | Satisfies(env, nu, W.defs) ::
          StartsWith(env, nu, vars, inputs, values))
    && (forall nu, j {:trigger CycleRuns(env, g, vars, inputs, nu, j)} | Satisfies(env, nu, W.defs)
          && 0 <= j < cycle :: CycleRuns(env, g, vars, inputs, nu, j))
    && forall j | 0 <= j <= cycle :: InputsFree(W, vars, inputs, j)
  }

  lemma {:induction false} FirstCycle(env: Env, g: Graph, xs: seq<string>, inputs: set<string>,
        values: map<string, int>, W: World, c: Context)
    requires Distinct(xs) && W == InitialWorld(env.boolean, inputs, values, xs)
            && StartOk(env, g, W, Elements(xs), inputs, 0, c)
    ensures AllCycles(env, g, Elements(xs), inputs, values, 0, W, c)
  {
    forall nu | Satisfies(env, nu, W.defs) ensures StartsWith(env, nu, Elements(xs), inputs, values) {
      InitialValues(env, inputs, values, xs, W.defs, nu);
    }
  }

  lemma {:induction false} OneMoreCycle(env: Env, g: Graph, vars: set<string>, inputs: set<string>,
        values: map<string, int>, cycle: nat, W: World, c: Context, U: World, d: Context)
    requires AllCycles(env, g, vars, inputs, values, cycle, W, c) && StartOk(env, g, U, vars, inputs, cycle + 1, d)
            && Within(W.defs, U.defs)
    requires forall nu | Satisfies(env, nu, d.store) :: CycleRuns(env, g, vars, inputs, nu, cycle)
    ensures AllCycles(env, g, vars, inputs, values, cycle + 1, U, d)
  {
    forall nu | Satisfies(env, nu, U.defs) ensures StartsWith(env, nu, vars, inputs, values) {
      SatisfiesLess(env, nu, U.defs, W.defs);
    }
    forall nu, j: nat | Satisfies(env, nu, U.defs) && 0 <= j < cycle + 1
      ensures CycleRuns(env, g, vars, inputs, nu, j)
    {
      SatisfiesLess(env, nu, U.defs, W.defs);
    }
    forall j: nat | 0 <= j <= cycle ensures InputsFree(U, vars, inputs, j) {
      assert InputsFree(W, vars, inputs, j);
    }
  }

  // Every choice of inputs for every cycle is a model: no run of the program is lost.
  lemma {:induction false} EveryRunIsDescribed(env: Env, g: Graph, vars: set<string>, inputs: set<string>,
        values: map<string, int>, cycle: nat, W: World, c: Context, nu: Valuation) returns (mu: Valuation)
    requires AllCycles(env, g, vars, inputs, values, cycle, W, c) && Typed(env, nu)
    ensures Satisfies(env, mu, W.defs) && StartsWith(env, mu, vars, inputs, values)
    ensures forall j: nat | j < cycle :: CycleRuns(env, g, vars, inputs, mu, j)
    ensures forall j: nat, x | j <= cycle && x in vars && x in inputs ::
            mu(Versioned(x, 0, j)) == nu(Versioned(x, 0, j))
  {
    mu := ModelExists(env, W, 0, nu);
    forall j: nat, x | j <= cycle && x in vars && x in inputs ensures mu(Versioned(x, 0, j)) == nu(Versioned(x, 0, j)) {
      assert InputsFree(W, vars, inputs, j);
    }
  }
}
