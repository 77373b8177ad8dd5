// The beginning and the end of a cycle
// (ahorn/src/se/ahorn/engine.cpp:134-174, ahorn/src/se/ahorn/execution/executor.cpp:151-198).

module Cycles {
  import opened Ir
  import opened Machines
  import opened Cfg
  import opened Symbolic
  import opened Execution
  import opened Merging
  import opened Merger
  import opened Exploration

  // One cycle of the program, as the valuation sees it: it runs to its exit, and all variables but
  // the inputs start the next cycle with their final values.
  ghost predicate CycleRuns(env: Env, g: Graph, vars: set<string>, inputs: set<string>, nu: Valuation, cycle: nat) {
    exists final: Store {:trigger Reaches(env, g, StartStore(vars, cycle, nu), g.exit, final)} ::
      && Reaches(env, g, StartStore(vars, cycle, nu), g.exit, final)
      && forall x | x in vars && x !in inputs :: x in final && final[x] == nu(Versioned(x, 0, cycle + 1))
  }

  // The inputs of a cycle are unconstrained.
  ghost predicate InputsFree(W: World, vars: set<string>, inputs: set<string>, cycle: nat) {
    forall x | x in vars && x in inputs :: Versioned(x, 0, cycle) in W.defs
            && W.defs[Versioned(x, 0, cycle)] == Symbol(Versioned(x, 0, cycle))
  }

  // The context with which a cycle starts.
  ghost predicate StartOk(env: Env, g: Graph, W: World, vars: set<string>, inputs: set<string>, cycle: nat,
        c: Context) {
    && WorldOk(env, W, vars, cycle) && ContextOk(W, vars, cycle, c) && c.store == W.defs && c.vertexLabel == g.entry
    && (forall x | x in vars :: c.version[x] == 0)
    && (forall nu :: Active(env, nu, c))
    && InputsFree(W, vars, inputs, cycle)
  }

  lemma {:induction false} StartLive(env: Env, g: Graph, W: World, vars: set<string>, inputs: set<string>,
        cycle: nat, c: Context)
    requires StartOk(env, g, W, vars, inputs, cycle, c) && g.entry in g.vertices
    ensures LiveOk(env, g, W, vars, cycle, multiset{c})
  {
    forall nu | Satisfies(env, nu, c.store) && Active(env, nu, c)
      ensures Reaches(env, g, StartStore(vars, c.cycle, nu), c.vertexLabel, StoreUnder(c, nu))
    {
      assert StoreUnder(c, nu) == StartStore(vars, c.cycle, nu);
      var f, s := GraphStep(env, g), Config(g.entry, State(StartStore(vars, c.cycle, nu), 0));
      assert Iterate(f, s, 0) == s;
    }
    assert c in multiset{c};
  }

  // ---------- the end ----------

  function NextDefs(inputs: set<string>, W: World, c: Context, xs: seq<string>): World
    requires Current(c) && forall x | x in xs :: x in c.version
  {
    if xs == [] then W
    else Define(NextDefs(inputs, W, c, xs[..|xs| - 1]), Versioned(xs[|xs| - 1], 0, c.cycle + 1),
          NextDefinition(inputs, c, xs[|xs| - 1]))
  }

  // The definitions for the next cycle come on top of those so far.
  ghost predicate NextShape(inputs: set<string>, W: World, c: Context, xs: seq<string>, U: World)
    requires Current(c) && forall x | x in xs :: x in c.version
  {
    && U.defs == NextStore(inputs, c, xs) && W.order <= U.order && Within(W.defs, U.defs)
    && (forall n | n in U.defs && n !in W.defs :: n.cycle == c.cycle + 1 && n.version == 0 && n.name in xs)
    && (forall x | x in xs :: Versioned(x, 0, c.cycle + 1) in U.defs
          && U.defs[Versioned(x, 0, c.cycle + 1)] == NextDefinition(inputs, c, x))
  }

  lemma {:induction false} OneMoreNext(inputs: set<string>, W: World, c: Context, xs: seq<string>, U: World, x: string)
    requires Current(c) && (forall y | y in xs + [x] :: y in c.version) && x !in xs
    requires c.store == W.defs && (forall n | n in W.defs :: n.cycle <= c.cycle)
    requires NextShape(inputs, W, c, xs, U)
    ensures Versioned(x, 0, c.cycle + 1) !in U.defs
    ensures NextShape(inputs, W, c, xs + [x], Define(U, Versioned(x, 0, c.cycle + 1), NextDefinition(inputs, c, x)))
  {
    var ys := xs + [x];
    assert ys[..|ys| - 1] == xs && ys[|ys| - 1] == x;
  }

  lemma {:induction false} NextDefsOrdered(env: Env, inputs: set<string>, W: World, c: Context, xs: seq<string>)
    requires Current(c) && (forall x | x in xs :: x in c.version) && Distinct(xs)
    requires Ordered(env, W) && c.store == W.defs && forall n | n in W.defs :: n.cycle <= c.cycle
    ensures Ordered(env, NextDefs(inputs, W, c, xs)) && NextShape(inputs, W, c, xs, NextDefs(inputs, W, c, xs))
    decreases |xs|
  {
    if xs != [] {
      var front, x := xs[..|xs| - 1], xs[|xs| - 1];
      NextDefsOrdered(env, inputs, W, c, front);
      var U, n := NextDefs(inputs, W, c, front), Versioned(x, 0, c.cycle + 1);
      assert x !in front && xs == front + [x];
      OneMoreNext(inputs, W, c, front, U, x);
      NextSymbols(env, inputs, W, U, c, x);
      DefineOrdered(env, U, n, NextDefinition(inputs, c, x));
    }
  }

  lemma {:induction false} NextSymbols(env: Env, inputs: set<string>, W: World, U: World, c: Context, x: string)
    requires Ordered(env, W) && c.store == W.defs && Within(W.defs, U.defs) && x in c.version && Newest(c, x) in c.store
    ensures NextDefinition(inputs, c, x) == Symbol(Versioned(x, 0, c.cycle + 1))
            || forall v | v in Symbols(NextDefinition(inputs, c, x)) :: v in U.defs
    ensures SortOk(env, Versioned(x, 0, c.cycle + 1), NextDefinition(inputs, c, x))
  {
    assert SortOk(env, Newest(c, x), W.defs[Newest(c, x)]);
    if x !in inputs {
      DefinitionSymbols(env, W, Newest(c, x));
    }
  }

  function NextWorld(inputs: set<string>, W: World, c: Context, xs: seq<string>): World
    requires Current(c) && forall x | x in xs :: x in c.version
  {
    NextDefs(inputs, W, c, xs).(global := map x | x in W.global :: 0)
  }

  // At the exit, the only live context has all definitions, and is active under all their models.
  lemma {:induction false} LastContext(env: Env, g: Graph, W: World, vars: set<string>, cycle: nat, c: Context)
    requires LiveOk(env, g, W, vars, cycle, multiset{c})
    ensures c.store == W.defs && LiveContext(env, g, W, vars, cycle, c)
    ensures forall nu | Satisfies(env, nu, W.defs) :: Active(env, nu, c)
  {
    assert c in multiset{c};
    assert LiveContext(env, g, W, vars, cycle, c);
    forall n | n in W.defs ensures n in c.store { assert Kept(n, multiset{c}); }
    forall nu | Satisfies(env, nu, W.defs) ensures Active(env, nu, c) { assert SomeActive(env, nu, multiset{c}); }
  }

  lemma {:induction false} NextWorldOk(env: Env, W: World, vars: set<string>, inputs: set<string>, cycle: nat,
        c: Context, xs: seq<string>)
    requires WorldOk(env, W, vars, cycle) && ContextOk(W, vars, cycle, c) && c.store == W.defs
            && vars == Elements(xs) && Distinct(xs)
    ensures Current(c) && forall x | x in xs :: x in c.version
    ensures WorldOk(env, NextWorld(inputs, W, c, xs), vars, cycle + 1)
            && NextShape(inputs, W, c, xs, NextWorld(inputs, W, c, xs))
    ensures InputsFree(NextWorld(inputs, W, c, xs), vars, inputs, cycle + 1)
  {
    forall n | n in W.defs ensures n.cycle <= cycle && n.name in vars { assert NameOk(W, vars, cycle, n); }
    NextWorldOrdered(env, inputs, W, c, xs);
    NextNames(inputs, W, vars, cycle, c, xs, NextWorld(inputs, W, c, xs));
  }

  lemma {:induction false} NextWorldOrdered(env: Env, inputs: set<string>, W: World, c: Context, xs: seq<string>)
    requires Current(c) && (forall x | x in xs :: x in c.version) && Distinct(xs)
    requires Ordered(env, W) && c.store == W.defs && forall n | n in W.defs :: n.cycle <= c.cycle
    ensures Ordered(env, NextWorld(inputs, W, c, xs)) && NextShape(inputs, W, c, xs, NextWorld(inputs, W, c, xs))
    ensures NextWorld(inputs, W, c, xs).global == map x | x in W.global :: 0
  {
    NextDefsOrdered(env, inputs, W, c, xs);
    SameOrder(env, NextDefs(inputs, W, c, xs), NextWorld(inputs, W, c, xs));
  }

  lemma {:induction false} NextNames(inputs: set<string>, W: World, vars: set<string>, cycle: nat, c: Context,
        xs: seq<string>, U: World)
    requires Current(c) && (forall x | x in xs :: x in c.version) && NextShape(inputs, W, c, xs, U)
            && c.cycle == cycle && vars == Elements(xs)
    requires (forall n | n in W.defs :: n.cycle <= cycle && n.name in vars) && forall x | x in U.global ::
            U.global[x] == 0
    ensures forall n | n in U.defs :: NameOk(U, vars, cycle + 1, n)
    ensures InputsFree(U, vars, inputs, cycle + 1)
  {
  }

  lemma {:induction false} SameOrder(env: Env, V: World, U: World)
    requires Ordered(env, V) && U.defs == V.defs && U.order == V.order
    ensures Ordered(env, U)
  {
    forall i | 0 <= i < |U.order| ensures U.order[i] in U.defs && RefersBack(U, i) {
      assert V.order[i] in V.defs && RefersBack(V, i);
    }
  }

  lemma {:induction false} NextStarts(env: Env, g: Graph, W: World, vars: set<string>, inputs: set<string>,
        cycle: nat, c: Context, xs: seq<string>)
    requires LiveOk(env, g, W, vars, cycle, multiset{c}) && c.frame.returnLabel == g.entry && vars == Elements(xs)
            && Distinct(xs)
    ensures c.store == W.defs && Current(c) && c.version.Keys == vars && forall x | x in xs :: x in c.version
    ensures var U := NextWorld(inputs, W, c, xs);
            && StartOk(env, g, U, vars, inputs, cycle + 1, NextCycle(inputs, c, xs)) && W.order <= U.order
                  && Within(W.defs, U.defs)
  {
    LastContext(env, g, W, vars, cycle, c);
    assert ContextOk(W, vars, cycle, c);
    NextWorldOk(env, W, vars, inputs, cycle, c, xs);
    var U, d := NextWorld(inputs, W, c, xs), NextCycle(inputs, c, xs);
    forall x | x in d.version ensures Newest(d, x) in d.store {
      assert x in vars;
    }
  }

  // Every model of the next cycle's definitions is a run of the cycle.
  lemma {:induction false} CycleEnds(env: Env, g: Graph, W: World, vars: set<string>, inputs: set<string>,
        cycle: nat, c: Context, xs: seq<string>, nu: Valuation)
    requires LiveOk(env, g, W, vars, cycle, multiset{c}) && c.vertexLabel == g.exit
    requires c.frame.returnLabel == g.entry && vars == Elements(xs) && Distinct(xs)
    requires Current(c) && (forall x | x in xs :: x in c.version) && Satisfies(env, nu, NextCycle(inputs, c, xs).store)
    ensures CycleRuns(env, g, vars, inputs, nu, cycle)
  {
    LastContext(env, g, W, vars, cycle, c);
    EndValues(env, inputs, W, vars, cycle, c, xs, nu);
    LastRuns(env, g, W, vars, cycle, c, nu);
  }

  lemma {:induction false} LastRuns(env: Env, g: Graph, W: World, vars: set<string>, cycle: nat, c: Context,
        nu: Valuation)
    requires LiveContext(env, g, W, vars, cycle, c) && c.vertexLabel == g.exit && Satisfies(env, nu, c.store)
            && Active(env, nu, c)
    ensures Reaches(env, g, StartStore(vars, cycle, nu), g.exit, StoreUnder(c, nu))
  {
  }

  lemma {:induction false} EndValues(env: Env, inputs: set<string>, W: World, vars: set<string>, cycle: nat,
        c: Context, xs: seq<string>, nu: Valuation)
    requires WorldOk(env, W, vars, cycle) && ContextOk(W, vars, cycle, c) && c.store == W.defs
            && vars == Elements(xs) && Distinct(xs)
    requires Current(c) && (forall x | x in xs :: x in c.version) && Satisfies(env, nu, NextStore(inputs, c, xs))
    ensures Satisfies(env, nu, c.store)
    ensures forall x | x in xs && x !in inputs ::
            x in StoreUnder(c, nu) && StoreUnder(c, nu)[x] == nu(Versioned(x, 0, cycle + 1))
  {
    NextWorldOk(env, W, vars, inputs, cycle, c, xs);
    SatisfiesLess(env, nu, NextStore(inputs, c, xs), W.defs);
    NextValues(env, inputs, W, c, xs, NextWorld(inputs, W, c, xs), nu);
  }

  // The variables that are no inputs start the next cycle with their newest values.
  lemma {:induction false} NextValues(env: Env, inputs: set<string>, W: World, c: Context, xs: seq<string>, U: World,
        nu: Valuation)
    requires Current(c) && (forall x | x in xs :: x in c.version) && NextShape(inputs, W, c, xs, U)
    requires Satisfies(env, nu, U.defs) && Satisfies(env, nu, c.store)
    ensures forall x | x in xs && x !in inputs ::
            x in StoreUnder(c, nu) && StoreUnder(c, nu)[x] == nu(Versioned(x, 0, c.cycle + 1))
  {
    forall x | x in xs && x !in inputs ensures nu(Newest(c, x)) == nu(Versioned(x, 0, c.cycle + 1)) {
      var n, k := Newest(c, x), Versioned(x, 0, c.cycle + 1);
      assert n in c.store && nu(n) == Value(env, c.store[n], nu);
      assert U.defs[k] == c.store[n] && nu(k) == Value(env, U.defs[k], nu);
    }
  }

  // ---------- exactly the runs of the cycle ----------

  // The values with which the next cycle starts, apart from its inputs.
  ghost predicate Outputs(vars: set<string>, inputs: set<string>, cycle: nat, nu: Valuation, final: Store) {
    forall x | x in vars && x !in inputs :: x in final && final[x] == nu(Versioned(x, 0, cycle + 1))
  }

  ghost predicate SameOn(nu: Valuation, mu: Valuation, store: SymbolicStore) {
    forall n | n in store :: mu(n) == nu(n)
  }

  lemma {:induction false} ReachesUnique(env: Env, g: Graph, start: Store, a: Store, b: Store)
    requires WellShaped(g) && Reaches(env, g, start, g.exit, a) && Reaches(env, g, start, g.exit, b)
    ensures a == b
  {
    var f, c := GraphStep(env, g), Config(g.entry, State(start, 0));
    var m: nat :| Iterate(f, c, m) == Config(g.exit, State(a, 0));
    var n: nat :| Iterate(f, c, n) == Config(g.exit, State(b, 0));
    if m <= n {
      IterateAdd(f, c, m, n - m);
      IterateFixed(f, Config(g.exit, State(a, 0)), n - m);
    } else {
      IterateAdd(f, c, n, m - n);
      IterateFixed(f, Config(g.exit, State(b, 0)), m - n);
    }
  }

  // Every start of the cycle, with any inputs for the next one, extends to a model of its end.
  lemma {:induction false} CycleComplete(env: Env, g: Graph, W: World, U: World, vars: set<string>,
        inputs: set<string>, cycle: nat, c: Context, d: Context, nu: Valuation) returns (mu: Valuation)
    requires StartOk(env, g, W, vars, inputs, cycle, c) && StartOk(env, g, U, vars, inputs, cycle + 1, d)
    requires W.order <= U.order && Within(W.defs, U.defs) && Satisfies(env, nu, c.store)
    ensures Satisfies(env, mu, d.store) && SameOn(nu, mu, c.store)
    ensures forall x | x in vars && x in inputs :: mu(Versioned(x, 0, cycle + 1)) == nu(Versioned(x, 0, cycle + 1))
  {
    var k := |W.order|;
    assert U.order[..k] == W.order;
    forall j | 0 <= j < k ensures U.order[j] in U.defs && nu(U.order[j]) == Value(env, U.defs[U.order[j]], nu) {
      assert U.order[j] == W.order[j] && W.order[j] in W.defs;
    }
    mu := ModelExists(env, U, k, nu);
    forall n | n in c.store ensures mu(n) == nu(n) {
      assert n in W.order;
    }
  }

  // The next cycle's context describes exactly what the program does in this cycle.
  lemma {:induction false} CycleExact(env: Env, g: Graph, W: World, U: World, vars: set<string>, inputs: set<string>,
        cycle: nat, c: Context, d: Context, nu: Valuation, final: Store)
    requires WellShaped(g) && StartOk(env, g, W, vars, inputs, cycle, c)
            && StartOk(env, g, U, vars, inputs, cycle + 1, d)
    requires W.order <= U.order && Within(W.defs, U.defs) && Satisfies(env, nu, c.store)
    requires forall mu | Satisfies(env, mu, d.store) :: CycleRuns(env, g, vars, inputs, mu, cycle)
    requires final.Keys == vars
    ensures (exists mu ::
            Satisfies(env, mu, d.store) && SameOn(nu, mu, c.store) && Outputs(vars, inputs, cycle, mu, final))
       <==> (exists run: Store :: Reaches(env, g, StartStore(vars, cycle, nu), g.exit, run) && forall x | x in vars
             && x !in inputs :: x in run && run[x] == final[x])
  {
    if mu :| Satisfies(env, mu, d.store) && SameOn(nu, mu, c.store) && Outputs(vars, inputs, cycle, mu, final) {
      SameStart(env, g, W, vars, inputs, cycle, c, nu, mu);
      assert CycleRuns(env, g, vars, inputs, mu, cycle);
    }
    if run: Store :| Reaches(env, g, StartStore(vars, cycle, nu), g.exit, run) && forall x | x in vars
          && x !in inputs :: x in run && run[x] == final[x] {
      var mu := CycleComplete(env, g, W, U, vars, inputs, cycle, c, d, nu);
      SameStart(env, g, W, vars, inputs, cycle, c, nu, mu);
      assert CycleRuns(env, g, vars, inputs, mu, cycle);
      SameOutputs(env, g, vars, inputs, cycle, mu, run, final);
    }
  }

  lemma {:induction false} SameStart(env: Env, g: Graph, W: World, vars: set<string>, inputs: set<string>,
        cycle: nat, c: Context, nu: Valuation, mu: Valuation)
    requires StartOk(env, g, W, vars, inputs, cycle, c) && SameOn(nu, mu, c.store)
    ensures StartStore(vars, cycle, mu) == StartStore(vars, cycle, nu)
  {
    forall x | x in vars ensures mu(Versioned(x, 0, cycle)) == nu(Versioned(x, 0, cycle)) {
      assert Newest(c, x) in c.store;
    }
  }

  lemma {:induction false} SameOutputs(env: Env, g: Graph, vars: set<string>, inputs: set<string>, cycle: nat,
        mu: Valuation, run: Store, final: Store)
    requires WellShaped(g) && CycleRuns(env, g, vars, inputs, mu, cycle) && final.Keys == vars
    requires Reaches(env, g, StartStore(vars, cycle, mu), g.exit, run) && forall x | x in vars && x !in inputs ::
            x in run && run[x] == final[x]
    ensures Outputs(vars, inputs, cycle, mu, final)
  {
    var last: Store :| Reaches(env, g, StartStore(vars, cycle, mu), g.exit, last) && forall x | x in vars
          && x !in inputs :: x in last && last[x] == mu(Versioned(x, 0, cycle + 1));
    ReachesUnique(env, g, StartStore(vars, cycle, mu), run, last);
  }

  // ---------- the first cycle ----------

  // The declared initial value, or that of the data type.
  function InitialValue(boolean: string -> bool, values: map<string, int>, x: string): int {
    var n := if x in values then values[x] else 0;
    if boolean(x) then OfBool(Truth(n)) else n
  }

  function InitialDefinition(boolean: string -> bool, inputs: set<string>, values: map<string, int>, x: string): SExpr {
    if x in inputs then Symbol(Versioned(x, 0, 0))
    else if boolean(x) then Boolean(Truth(InitialValue(boolean, values, x)))
    else Constant(InitialValue(boolean, values, x))
  }

  function InitialWorld(boolean: string -> bool, inputs: set<string>, values: map<string, int>,
        xs: seq<string>): World {
    if xs == [] then World(map[], [], map[])
    else
      var W, x := InitialWorld(boolean, inputs, values, xs[..|xs| - 1]), xs[|xs| - 1];
      Define(W, Versioned(x, 0, 0), InitialDefinition(boolean, inputs, values, x)).(global := W.global[x := 0])
  }

  lemma {:induction false} InitialOk(env: Env, inputs: set<string>, values: map<string, int>, xs: seq<string>)
    requires Distinct(xs)
    ensures var W := InitialWorld(env.boolean, inputs, values, xs);
            && Ordered(env, W) && (forall n | n in W.defs :: n.name in xs && n.version == 0 && n.cycle == 0)
            && (forall x :: x in W.global <==> x in xs) && (forall x | x in xs :: W.global[x] == 0)
            && forall x | x in xs :: Versioned(x, 0, 0) in W.defs
                  && W.defs[Versioned(x, 0, 0)] == InitialDefinition(env.boolean, inputs, values, x)
    decreases |xs|
  {
    if xs != [] {
      var front, x := xs[..|xs| - 1], xs[|xs| - 1];
      InitialOk(env, inputs, values, front);
      assert xs == front + [x] && x !in front;
      var W := InitialWorld(env.boolean, inputs, values, front);
      var V := Define(W, Versioned(x, 0, 0), InitialDefinition(env.boolean, inputs, values, x));
      DefineOrdered(env, W, Versioned(x, 0, 0), InitialDefinition(env.boolean, inputs, values, x));
      SameOrder(env, V, V.(global := W.global[x := 0]));
    }
  }

  function InitialContext(boolean: string -> bool, g: Graph, frame: CallFrame, inputs: set<string>,
        values: map<string, int>, xs: seq<string>): Context {
    Context(0, frame, g.entry, [Boolean(true)], InitialWorld(boolean, inputs, values, xs).defs, map x | x in xs :: 0)
  }

  lemma {:induction false} InitialStarts(env: Env, g: Graph, frame: CallFrame, inputs: set<string>,
        values: map<string, int>, xs: seq<string>)
    requires Distinct(xs)
    ensures StartOk(env, g, InitialWorld(env.boolean, inputs, values, xs), Elements(xs), inputs, 0,
            InitialContext(env.boolean, g, frame, inputs, values, xs))
  {
    InitialOk(env, inputs, values, xs);
    InitialBounds(env, inputs, xs, InitialWorld(env.boolean, inputs, values, xs));
    var c := InitialContext(env.boolean, g, frame, inputs, values, xs);
    forall nu: Valuation ensures Active(env, nu, c) {
      assert Value(env, Boolean(true), nu) == 1;
    }
  }

  lemma {:induction false} InitialBounds(env: Env, inputs: set<string>, xs: seq<string>, W: World)
    requires Ordered(env, W) && (forall n | n in W.defs :: n.name in xs && n.version == 0 && n.cycle == 0)
            && forall x :: x in W.global <==> x in xs
    requires forall x | x in xs ::
            Versioned(x, 0, 0) in W.defs && (x in inputs ==> W.defs[Versioned(x, 0, 0)] == Symbol(Versioned(x, 0, 0)))
    ensures WorldOk(env, W, Elements(xs), 0) && InputsFree(W, Elements(xs), inputs, 0)
  {
    forall n | n in W.defs ensures NameOk(W, Elements(xs), 0, n) {}
  }

  // The variables that are no inputs start the first cycle with their initial values.
  ghost predicate StartsWith(env: Env, nu: Valuation, vars: set<string>, inputs: set<string>,
        values: map<string, int>) {
    forall x | x in vars && x !in inputs ::
      nu(Versioned(x, 0, 0)) ==
      if x !in values then 0 else if env.boolean(x) && values[x] != 0 then 1 else values[x]
  }

  lemma {:induction false} InitialValues(env: Env, inputs: set<string>, values: map<string, int>, xs: seq<string>,
        store: SymbolicStore, nu: Valuation)
    requires Distinct(xs) && Within(InitialWorld(env.boolean, inputs, values, xs).defs, store)
            && Satisfies(env, nu, store)
    ensures StartsWith(env, nu, Elements(xs), inputs, values)
    ensures forall x | x in xs && x !in inputs ::
              nu(Versioned(x, 0, 0)) ==
              if x !in values then 0 else if env.boolean(x) && values[x] != 0 then 1 else values[x]
  {
    InitialOk(env, inputs, values, xs);
    var W := InitialWorld(env.boolean, inputs, values, xs);
    forall x | x in xs && x !in inputs
      ensures nu(Versioned(x, 0, 0)) ==
              if x !in values then 0 else if env.boolean(x) && values[x] != 0 then 1 else values[x]
    {
      assert Versioned(x, 0, 0) in W.defs && store[Versioned(x, 0, 0)] == InitialDefinition(env.boolean, inputs,
              values, x);
      assert nu(Versioned(x, 0, 0)) == Value(env, store[Versioned(x, 0, 0)], nu);
    }
  }
}
