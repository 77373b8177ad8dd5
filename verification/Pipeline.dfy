// The stages together: from Structured Text to basic blocks, and to the cycles that the engine runs.

module Pipeline {
  import opened Ir
  import opened StructuredText
  import opened Plan
  import opened Faithful
  import opened GotoCode
  import opened Machines
  import opened PouCompiler
  import opened Correctness
  import opened Cfg
  import opened Builder
  import opened BasicBlocks
  import DecisionSplitting
  import Tac
  import opened Origins
  import opened Symbolic
  import opened Execution
  import Exploration
  import opened Cycles

  // The block graph of a compiled body takes st to t iff the source does.
  lemma {:induction false} SourceToBlocks(env: Env, entries: map<string, int>, body: seq<Stmt>, m: Module,
        name: string, exits: map<string, int>,
                       g: Graph, leaders: set<int>, blocks: map<int, seq<int>>, r: Graph, st: State, t: State)
    requires ModuleOk(entries, body, m) && WellFormedList(body) && Linked(m, exits) && IsGraphOf(m, name, exits, g)
    requires WellShaped(g) ==> AreLeaders(g, leaders) && IsBlockGraph(g, leaders, blocks, r)
    ensures Computes(env, r, st, t) <==> Terminates(env, body, st, t)
  {
    NoPlaceholderLeft(entries, body, m);
    GraphIsWellShaped(m, name, exits, g);
    CompiledBodyCorrect(env, entries, body, m, st, t);
    GraphComputesCode(env, m, name, exits, g, st, t);
    BlocksPreserveRuns(env, g, leaders, blocks, r, st, t);
  }

  // The graph with split decisions does what the source does.
  lemma {:induction false} SourceToSplit(env: Env, entries: map<string, int>, body: seq<Stmt>, m: Module,
        name: string, exits: map<string, int>, g: Graph, mid: DecisionSplitting.Middles, lo: int, hi: int, r: Graph,
        st: State, t: State)
    requires ModuleOk(entries, body, m) && WellFormedList(body) && Linked(m, exits) && IsGraphOf(m, name, exits, g)
    requires DecisionSplitting.SplitOf(g, mid, lo, hi, r)
    ensures Computes(env, r, st, t) <==> Terminates(env, body, st, t)
  {
    NoPlaceholderLeft(entries, body, m);
    CompiledBodyCorrect(env, entries, body, m, st, t);
    GraphComputesCode(env, m, name, exits, g, st, t);
    DecisionSplitting.SplitPreservesRuns(env, g, mid, lo, hi, r, st, t);
  }

  // The graph in three-address form does what the source does, up to temporaries.
  lemma {:induction false} SourceToTac(env: Env, entries: map<string, int>, body: seq<Stmt>, m: Module,
        name: string, exits: map<string, int>, g: Graph, r: Graph, st: State)
    requires ModuleOk(entries, body, m) && WellFormedList(body) && Linked(m, exits) && IsGraphOf(m, name, exits, g)
    requires Tac.CalleesIgnoreTemps(env) && Tac.AcceptedGraph(g) && Tac.ProgramGraph(g) && Tac.IsTacOf(g, r)
    ensures forall t | Terminates(env, body, st, t) :: exists u :: Tac.Same(t, u) && Computes(env, r, st, u)
    ensures forall u | Computes(env, r, st, u) :: exists t :: Tac.Same(t, u) && Terminates(env, body, st, t)
  {
    NoPlaceholderLeft(entries, body, m);
    forall t
      ensures Computes(env, g, st, t) <==> Terminates(env, body, st, t)
    {
      CompiledBodyCorrect(env, entries, body, m, st, t);
      GraphComputesCode(env, m, name, exits, g, st, t);
    }
    forall t | Terminates(env, body, st, t)
      ensures exists u :: Tac.Same(t, u) && Computes(env, r, st, u)
    {
      Tac.TacPreservesRuns(env, g, r, st, t);
    }
    forall u | Computes(env, r, st, u)
      ensures exists t :: Tac.Same(t, u) && Terminates(env, body, st, t)
    {
      Tac.TacPreservesRuns(env, g, r, st, u);
      var t :| Tac.Same(t, u) && Computes(env, g, st, t);
      assert Terminates(env, body, st, t);
    }
  }

  // The graph of a compiled body can be formed into basic blocks; if the body has no loops and no
  // calls, the engine can run it exactly if no condition leads back to itself, as in no well-formed body.
  lemma {:induction false} GraphIsReady(entries: map<string, int>, body: seq<Stmt>, m: Module, name: string,
        exits: map<string, int>, g: Graph,
                                        vars: set<string>, boolean: string -> bool)
    requires ModuleOk(entries, body, m) && Linked(m, exits) && IsGraphOf(m, name, exits, g)
    ensures WellShaped(g) && CallsReturn(g)
    ensures UsesList(RunsIn(vars, boolean), entries, body) && WellFormedList(body) ==>
              NoWaits(m.code, m.entry + 1, m.exit)
    ensures UsesList(RunsIn(vars, boolean), entries, body) ==>
              (Executable(g, vars) && WellTyped(boolean, g) <==> NoWaits(m.code, m.entry + 1, m.exit))
  {
    NoPlaceholderLeft(entries, body, m);
    GraphIsWellShaped(m, name, exits, g);
    GraphCallsReturn(m, name, exits, g);
    if UsesList(RunsIn(vars, boolean), entries, body) {
      if WellFormedList(body) {
        WellFormedNoCopies(entries, body);
      }
      if WellFormedList(body) || NoWaits(m.code, m.entry + 1, m.exit) {
        GraphIsExecutable(entries, body, m, name, exits, g, vars, boolean);
      }
      if Executable(g, vars) {
        ExecutableNeverWaits(m, name, exits, g, vars);
      }
    }
  }

  // One cycle of the source program: the body takes the start store to one whose values the next
  // cycle starts with.
  ghost predicate SourceCycle(env: Env, body: seq<Stmt>, vars: set<string>, inputs: set<string>, nu: Valuation,
        cycle: nat) {
    exists final: Store {:trigger Terminates(env, body, State(Exploration.StartStore(vars, cycle, nu), 0),
          State(final, 0))} ::
      && Terminates(env, body, State(Exploration.StartStore(vars, cycle, nu), 0), State(final, 0))
      && Outputs(vars, inputs, cycle, nu, final)
  }

  // What the engine calls a run of a cycle is a run of the source.
  lemma {:induction false} CyclesRunSource(env: Env, entries: map<string, int>, body: seq<Stmt>, m: Module,
        name: string, exits: map<string, int>, g: Graph,
                                           vars: set<string>, inputs: set<string>, nu: Valuation, cycle: nat)
    requires ModuleOk(entries, body, m) && WellFormedList(body) && Linked(m, exits) && IsGraphOf(m, name, exits, g)
    ensures CycleRuns(env, g, vars, inputs, nu, cycle) <==> SourceCycle(env, body, vars, inputs, nu, cycle)
  {
    var start := State(Exploration.StartStore(vars, cycle, nu), 0);
    NoPlaceholderLeft(entries, body, m);
    forall final: Store
      ensures Exploration.Reaches(env, g, start.vars, g.exit, final) <==> Terminates(env, body, start, State(final, 0))
    {
      CompiledBodyCorrect(env, entries, body, m, start, State(final, 0));
      GraphComputesCode(env, m, name, exits, g, start, State(final, 0));
    }
    if CycleRuns(env, g, vars, inputs, nu, cycle) {
      var final: Store :| Exploration.Reaches(env, g, start.vars, g.exit, final)
        && forall x | x in vars && x !in inputs :: x in final && final[x] == nu(Versioned(x, 0, cycle + 1));
      assert Terminates(env, body, start, State(final, 0));
    }
    if SourceCycle(env, body, vars, inputs, nu, cycle) {
      var final: Store :| Terminates(env, body, start, State(final, 0)) && Outputs(vars, inputs, cycle, nu, final);
      assert Exploration.Reaches(env, g, start.vars, g.exit, final);
    }
  }
}
