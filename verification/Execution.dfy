// One step of the executor on one context (ahorn/src/se/ahorn/execution/executor.cpp).

module Execution {
  import opened Ir
  import opened Cfg
  import opened Symbolic

  // The graphs that the engine runs in this model: assignments and branches between program
  // variables, with labels that increase along every edge.
  ghost predicate Executable(g: Graph, vars: set<string>) {
    && WellShaped(g)
    && (forall e | e in g.edges :: e.source in g.vertices && e.target in g.vertices && e.source < e.target)
    && (forall l {:trigger g.vertices[l]} | l in g.vertices && g.vertices[l].Regular? ::
          InstructionsOk(g.vertices[l].instrs, vars))
  }

  predicate InstructionsOk(instrs: seq<Instr>, vars: set<string>) {
    |instrs| == 1 &&
    match instrs[0]
    case Assign(x, e) => x in vars && Encodable(e, vars)
    case IfGoto(e, _, _) => Encodable(e, vars)
    case _ => false
  }

  // Sides of assignments have the same sort, conditions are Boolean, and no sum has a Boolean on its left.
  predicate InstructionTyped(boolean: string -> bool, i: Instr) {
    match i
    case Assign(x, e) => EncodesItself(boolean, e) && BooleanExpr(boolean, e) == boolean(x)
    case IfGoto(e, _, _) => EncodesItself(boolean, e) && BooleanExpr(boolean, e)
    case _ => true
  }

  ghost predicate WellTyped(boolean: string -> bool, g: Graph) {
    forall l {:trigger g.vertices[l]} | l in g.vertices && g.vertices[l].Regular? && |g.vertices[l].instrs| == 1 ::
      InstructionTyped(boolean, g.vertices[l].instrs[0])
  }

  function Negate(e: SExpr): SExpr {
    Unary(Complement, e)
  }

  // The variable gets a fresh version, defined by the encoded expression.
  function Assigned(oracle: Oracle, c: Context, x: string, e: Expr, version: nat, next: int): Context
    requires x in c.version && Encodable(e, c.version.Keys)
  {
    c.(vertexLabel := next, store := c.store[Versioned(x, version, c.cycle) := Encode(oracle, e, c)],
          version := c.version[x := version])
  }

  function Branched(c: Context, e: SExpr, next: int): Context {
    c.(vertexLabel := next, pathConstraint := c.pathConstraint + [e])
  }

  // The versions of the next cycle start at 0: inputs are unconstrained, the other variables keep
  // their newest definition.
  function NextDefinition(inputs: set<string>, c: Context, x: string): SExpr
    requires x in c.version && Newest(c, x) in c.store
  {
    if x in inputs then Symbol(Versioned(x, 0, c.cycle + 1)) else c.store[Newest(c, x)]
  }

  predicate Current(c: Context) {
    forall x | x in c.version :: Newest(c, x) in c.store
  }

  function NextStore(inputs: set<string>, c: Context, xs: seq<string>): SymbolicStore
    requires Current(c) && forall x | x in xs :: x in c.version
  {
    if xs == [] then c.store
    else NextStore(inputs, c, xs[..|xs| - 1])[Versioned(xs[|xs| - 1], 0, c.cycle + 1) := NextDefinition(inputs, c,
          xs[|xs| - 1])]
  }

  function NextCycle(inputs: set<string>, c: Context, xs: seq<string>): Context
    requires Current(c) && forall x | x in xs :: x in c.version
  {
    Context(c.cycle + 1, c.frame, c.frame.returnLabel, [], NextStore(inputs, c, xs), map x | x in c.version :: 0)
  }

  class Executor {
    const g: Graph
    const oracle: Oracle
    const vars: seq<string>           // the flattened interface of the program
    const wholeProgramInputs: set<string>
    var version: map<string, nat>     // the highest version of each variable
    ghost var executed: seq<int>      // the labels executed so far, in order

    constructor (g: Graph, oracle: Oracle, vars: seq<string>, inputs: set<string>)
      ensures this.g == g && this.oracle == oracle && this.vars == vars && wholeProgramInputs == inputs
      ensures version.Keys == (set x | x in vars) && forall x | x in vars :: version[x] == 0
    {
      this.g, this.oracle, this.vars, wholeProgramInputs := g, oracle, vars, inputs;
      version := map x | x in vars :: 0;
      executed := [];
    }

    // The succeeding context, and the one of the other branch if the solver finds it feasible.
    method Execute(c: Context) returns (succeeding: Context, forked: Option<Context>)
      requires Executable(g, set x | x in vars) && version.Keys == c.version.Keys == (set x | x in vars)
      requires c.vertexLabel in g.vertices && Current(c)
      modifies `version, `executed
      ensures executed == old(executed) + [c.vertexLabel]
      ensures match g.vertices[c.vertexLabel]
              case EntryVertex =>
                succeeding == c.(vertexLabel := Follow(g.edges, c.vertexLabel, Intraprocedural)) && forked == None
                      && version == old(version)
              case Regular(instrs) =>
                (match instrs[0]
                 case Assign(x, e) =>
                   && succeeding == Assigned(oracle, c, x, e, old(version)[x] + 1,
                         Follow(g.edges, c.vertexLabel, Intraprocedural))
                   && forked == None && version == old(version)[x := old(version)[x] + 1]
                 case IfGoto(e, _, _) =>
                   Forks(g, oracle, c, e, succeeding, forked) && version == old(version)
                 case _ => false)
              case ExitVertex =>
                succeeding == NextCycle(wholeProgramInputs, c, vars) && forked == None
                      && version == map x | x in old(version) :: 0
    {
      forked := None;
      executed := executed + [c.vertexLabel];
      assert VertexFits(g, c.vertexLabel);
      match g.vertices[c.vertexLabel]
      case EntryVertex =>
        succeeding := c.(vertexLabel := Follow(g.edges, c.vertexLabel, Intraprocedural));
      case Regular(instrs) =>
        assert InstructionsOk(g.vertices[c.vertexLabel].instrs, set x | x in vars);
        match instrs[0] {
          case Assign(x, e) =>
            succeeding := VisitAssignment(c, x, e);
          case IfGoto(e, _, _) =>
            succeeding, forked := VisitIf(c, e);
          case Havoc(_) => assert false;
          case Call(_, _, _, _) => assert false;
          case Goto(_) => assert false;
          case WhileGoto(_, _, _) => assert false;
        }
      case ExitVertex =>
        succeeding := HandleProgramExitVertex(c);
    }

    method VisitAssignment(c: Context, x: string, e: Expr) returns (r: Context)
      requires x in version && x in c.version && Encodable(e, c.version.Keys)
      modifies `version
      ensures r == Assigned(oracle, c, x, e, old(version)[x] + 1, Follow(g.edges, c.vertexLabel, Intraprocedural))
      ensures version == old(version)[x := old(version)[x] + 1]
    {
      // the right-hand side is encoded before the version is incremented
      var encodedExpression := Encode(oracle, e, c);
      var v := version[x] + 1;
      version := version[x := v];
      r := c.(version := c.version[x := v]);
      r := r.(store := r.store[Versioned(x, v, c.cycle) := encodedExpression]);
      r := r.(vertexLabel := Follow(g.edges, c.vertexLabel, Intraprocedural));
    }

    method VisitIf(c: Context, e: Expr) returns (succeeding: Context, forked: Option<Context>)
      requires Encodable(e, c.version.Keys)
      ensures Forks(g, oracle, c, e, succeeding, forked)
    {
      var encodedExpression := Encode(oracle, e, c);
      var nextPositiveLabel := Follow(g.edges, c.vertexLabel, TrueBranch);
      var nextNegativeLabel := Follow(g.edges, c.vertexLabel, FalseBranch);
      if oracle.takesTrue(c, encodedExpression) {
        forked := TryFork(c, Negate(encodedExpression), nextNegativeLabel);
        succeeding := Branched(c, encodedExpression, nextPositiveLabel);
      } else {
        forked := TryFork(c, encodedExpression, nextPositiveLabel);
        succeeding := Branched(c, Negate(encodedExpression), nextNegativeLabel);
      }
    }

    method TryFork(c: Context, e: SExpr, next: int) returns (forked: Option<Context>)
      ensures forked == if oracle.forks(c, e) then Some(Branched(c, e, next)) else None
    {
      if oracle.forks(c, e) {
        forked := Some(Branched(c, e, next));
      } else {
        forked := None;
      }
    }

    method HandleProgramExitVertex(c: Context) returns (r: Context)
      requires version.Keys == c.version.Keys == (set x | x in vars) && Current(c)
      modifies `version
      ensures r == NextCycle(wholeProgramInputs, c, vars) && version == map x | x in old(version) :: 0
    {
      var store := c.store;
      var i := 0;
      while i < |vars|
        invariant 0 <= i <= |vars|
        invariant store == NextStore(wholeProgramInputs, c, vars[..i])
        invariant version.Keys == old(version).Keys
        invariant forall j | 0 <= j < i :: version[vars[j]] == 0
      {
        assert vars[i] in c.version && Newest(c, vars[i]) in c.store;
        assert vars[..i + 1][..i] == vars[..i];
        version := version[vars[i] := 0];
        store := store[Versioned(vars[i], 0, c.cycle + 1) := NextDefinition(wholeProgramInputs, c, vars[i])];
        i := i + 1;
      }
      assert vars[..|vars|] == vars;
      forall x | x in version ensures version[x] == 0 {
        assert x in vars;
      }
      r := Context(c.cycle + 1, c.frame, c.frame.returnLabel, [], store, map x | x in c.version :: 0);
    }
  }

  // The branch that the concrete store takes comes first; the other one if it is feasible.
  predicate Forks(g: Graph, oracle: Oracle, c: Context, e: Expr, succeeding: Context, forked: Option<Context>)
    requires Encodable(e, c.version.Keys)
  {
    var s := Encode(oracle, e, c);
    var positive := Branched(c, s, Follow(g.edges, c.vertexLabel, TrueBranch));
    var negative := Branched(c, Negate(s), Follow(g.edges, c.vertexLabel, FalseBranch));
    if oracle.takesTrue(c, s) then
      succeeding == positive && forked == if oracle.forks(c, Negate(s)) then Some(negative) else None
    else
      succeeding == negative && forked == if oracle.forks(c, s) then Some(positive) else None
  }
}
