// What the live contexts of one cycle describe together
// (ahorn/src/se/ahorn/engine.cpp:176-245, ahorn/src/se/ahorn/execution/executor.cpp).

module Exploration {
  import opened Ir
  import opened Machines
  import opened Cfg
  import opened Symbolic
  import opened Execution
  import opened Merging

  // The program store at the beginning of a cycle.
  function StartStore(vars: set<string>, cycle: nat, nu: Valuation): Store {
    map x | x in vars :: nu(Versioned(x, 0, cycle))
  }

  ghost predicate Reaches(env: Env, g: Graph, start: Store, l: int, vars: Store) {
    Arrives(GraphStep(env, g), Config(g.entry, State(start, 0)), Config(l, State(vars, 0)))
  }

  // Wherever the context is active, the program gets from the beginning of the cycle to its label,
  // with its store.
  ghost predicate Describes(env: Env, g: Graph, vars: set<string>, c: Context) {
    forall nu | Satisfies(env, nu, c.store) && Active(env, nu, c) ::
      Reaches(env, g, StartStore(vars, c.cycle, nu), c.vertexLabel, StoreUnder(c, nu))
  }

  ghost predicate LiveContext(env: Env, g: Graph, W: World, vars: set<string>, cycle: nat, c: Context) {
    ContextOk(W, vars, cycle, c) && c.vertexLabel in g.vertices && Describes(env, g, vars, c)
  }

  ghost predicate ExclusiveIn(env: Env, live: multiset<Context>) {
    forall c, d {:trigger Exclusive(env, c, d)} | c in live && d in live - multiset{c} :: Exclusive(env, c, d)
  }

  ghost predicate SomeActive(env: Env, nu: Valuation, live: multiset<Context>) {
    exists c :: c in live && Active(env, nu, c)
  }

  ghost predicate Kept(n: Versioned, live: multiset<Context>) {
    exists c :: c in live && n in c.store
  }

  // The live contexts are exclusive, one of them is active under every model of all definitions, and
  // no definition is lost.
  ghost predicate LiveOk(env: Env, g: Graph, W: World, vars: set<string>, cycle: nat, live: multiset<Context>) {
    && WorldOk(env, W, vars, cycle)
    && (forall c {:trigger LiveContext(env, g, W, vars, cycle, c)} | c in live ::
          LiveContext(env, g, W, vars, cycle, c))
    && ExclusiveIn(env, live)
    && (forall nu {:trigger SomeActive(env, nu, live)} | Satisfies(env, nu, W.defs) :: SomeActive(env, nu, live))
    && (forall n {:trigger Kept(n, live)} | n in W.defs :: Kept(n, live))
  }

  // ---------- replacing contexts ----------

  // Where c is active, so was one of the contexts in `out`.
  ghost predicate ComesFrom(env: Env, c: Context, out: multiset<Context>) {
    forall nu | Satisfies(env, nu, c.store) && Active(env, nu, c) ::
      exists o :: o in out && Satisfies(env, nu, o.store) && Active(env, nu, o)
  }

  // The contexts in `out` are replaced by those in `into`.
  ghost predicate Replaces(env: Env, W: World, U: World, out: multiset<Context>, into: multiset<Context>) {
    && (forall c | c in into :: ComesFrom(env, c, out))
    && ExclusiveIn(env, into)
    && (forall nu | Satisfies(env, nu, U.defs) && SomeActive(env, nu, out) :: SomeActive(env, nu, into))
    && (forall n | n in U.defs && (n !in W.defs || Kept(n, out)) :: Kept(n, into))
  }

  lemma {:induction false} FromExclusive(env: Env, rest: multiset<Context>, out: multiset<Context>, c: Context,
        d: Context)
    requires ExclusiveIn(env, rest + out) && ComesFrom(env, c, out) && d in rest
    ensures Exclusive(env, c, d) && Exclusive(env, d, c)
  {
    forall nu | Satisfies(env, nu, c.store) && Satisfies(env, nu, d.store) ensures !(Active(env, nu, c)
            && Active(env, nu, d)) {
      if Active(env, nu, c) {
        var o :| o in out && Satisfies(env, nu, o.store) && Active(env, nu, o);
        assert d in rest + out - multiset{o};
        assert Exclusive(env, o, d);
      }
    }
  }

  lemma {:induction false} ReplacedExclusive(env: Env, rest: multiset<Context>, out: multiset<Context>,
        into: multiset<Context>)
    requires ExclusiveIn(env, rest + out) && ExclusiveIn(env, into) && forall c | c in into :: ComesFrom(env, c, out)
    ensures ExclusiveIn(env, rest + into)
  {
    forall c, d | c in rest + into && d in rest + into - multiset{c} ensures Exclusive(env, c, d) {
      if c in rest && d in rest - multiset{c} {
        assert d in rest + out - multiset{c};
      } else if c in into && d in into - multiset{c} {
        assert Exclusive(env, c, d);
      } else if c in into && d in rest {
        FromExclusive(env, rest, out, c, d);
      } else {
        FromExclusive(env, rest, out, d, c);
      }
    }
  }

  // The invariant of the cycle survives.
  lemma {:induction false} Replaced(env: Env, g: Graph, W: World, U: World, vars: set<string>, cycle: nat,
        rest: multiset<Context>, out: multiset<Context>, into: multiset<Context>)
    requires LiveOk(env, g, W, vars, cycle, rest + out) && Extends(W, U) && WorldOk(env, U, vars, cycle)
    requires (forall c | c in into :: LiveContext(env, g, U, vars, cycle, c)) && Replaces(env, W, U, out, into)
    ensures LiveOk(env, g, U, vars, cycle, rest + into)
  {
    var live := rest + into;
    ReplacedExclusive(env, rest, out, into);
    forall c | c in live ensures LiveContext(env, g, U, vars, cycle, c) {
      if c in rest {
        assert c in rest + out && LiveContext(env, g, W, vars, cycle, c);
        ContextExtended(W, U, vars, cycle, c);
      }
    }
    forall nu | Satisfies(env, nu, U.defs) ensures SomeActive(env, nu, live) {
      SatisfiesLess(env, nu, U.defs, W.defs);
      assert SomeActive(env, nu, rest + out);
      var c :| c in rest + out && Active(env, nu, c);
      if c in rest {
        assert c in live;
      } else {
        assert SomeActive(env, nu, out);
        var d :| d in into && Active(env, nu, d);
        assert d in live;
      }
    }
    forall n | n in U.defs ensures Kept(n, live) {
      KeptReplaced(W, U, rest, out, into, n);
    }
  }

  lemma {:induction false} KeptReplaced(W: World, U: World, rest: multiset<Context>, out: multiset<Context>,
        into: multiset<Context>, n: Versioned)
    requires n in W.defs ==> Kept(n, rest + out)
    requires n !in W.defs || Kept(n, out) ==> Kept(n, into)
    ensures Kept(n, rest + into)
  {
    if n in W.defs && !Kept(n, out) {
      var c :| c in rest + out && n in c.store;
      assert c in rest + into;
    } else {
      var c :| c in into && n in c.store;
      assert c in rest + into;
    }
  }

  // ---------- the steps ----------

  lemma {:induction false} OneMoreStep(env: Env, g: Graph, start: Store, l: int, vars: Store, l': int, vars': Store)
    requires Reaches(env, g, start, l, vars) && StepAt(env, g, Config(l, State(vars, 0))) == Config(l', State(vars', 0))
    ensures Reaches(env, g, start, l', vars')
  {
    var f, c := GraphStep(env, g), Config(g.entry, State(start, 0));
    var n: nat :| Iterate(f, c, n) == Config(l, State(vars, 0));
    IterateAdd(f, c, n, 1);
    assert Iterate(f, Config(l, State(vars, 0)), 1) == Iterate(f, f(Config(l, State(vars, 0))), 0);
    assert Iterate(f, c, n + 1) == Config(l', State(vars', 0));
  }

  // A context is replaced by one that is active under the same models.
  lemma {:induction false} OneReplaces(env: Env, W: World, U: World, c: Context, d: Context)
    requires Within(c.store, d.store) && Gains(W, U, d)
    requires forall nu | Satisfies(env, nu, d.store) :: Active(env, nu, d) <==> Active(env, nu, c)
    requires Within(d.store, U.defs)
    ensures Replaces(env, W, U, multiset{c}, multiset{d})
  {
    forall nu | Satisfies(env, nu, d.store) && Active(env, nu, d)
      ensures exists o :: o in multiset{c} && Satisfies(env, nu, o.store) && Active(env, nu, o)
    {
      SatisfiesLess(env, nu, d.store, c.store);
      assert c in multiset{c};
    }
    forall nu | Satisfies(env, nu, U.defs) && SomeActive(env, nu, multiset{c})
      ensures SomeActive(env, nu, multiset{d})
    {
      SatisfiesLess(env, nu, U.defs, d.store);
      assert d in multiset{d};
    }
    forall n | n in U.defs && (n !in W.defs || Kept(n, multiset{c})) ensures Kept(n, multiset{d}) {
      assert d in multiset{d};
    }
  }

  // Both branches: the condition splits the models of c.
  lemma {:induction false} TwoReplace(env: Env, W: World, c: Context, d1: Context, d2: Context, e: SExpr)
    requires d1.store == c.store && d2.store == c.store && Within(c.store, W.defs)
    requires forall nu | Satisfies(env, nu, c.store) :: Active(env, nu, d1) <==>
            Active(env, nu, c) && Truth(Value(env, e, nu))
    requires forall nu | Satisfies(env, nu, c.store) :: Active(env, nu, d2) <==>
            Active(env, nu, c) && !Truth(Value(env, e, nu))
    ensures Replaces(env, W, W, multiset{c}, multiset{d1, d2})
  {
    var into := multiset{d1, d2};
    assert Exclusive(env, d1, d2) && Exclusive(env, d2, d1);
    forall a, b | a in into && b in into - multiset{a} ensures Exclusive(env, a, b) {
      if a == d1 { assert into - multiset{d1} == multiset{d2}; } else { assert into - multiset{d2} == multiset{d1}; }
    }
    forall a | a in into ensures ComesFrom(env, a, multiset{c}) {
      forall nu | Satisfies(env, nu, a.store) && Active(env, nu, a)
        ensures exists o :: o in multiset{c} && Satisfies(env, nu, o.store) && Active(env, nu, o)
      {
        assert c in multiset{c};
      }
    }
    forall nu | Satisfies(env, nu, W.defs) && SomeActive(env, nu, multiset{c}) ensures SomeActive(env, nu, into) {
      SatisfiesLess(env, nu, W.defs, c.store);
      assert d1 in into && d2 in into;
    }
    forall n | n in W.defs && (n !in W.defs || Kept(n, multiset{c})) ensures Kept(n, into) {
      assert d1 in into;
    }
  }

  // A merge.
  lemma {:induction false} ManyReplaced(env: Env, W: World, U: World, cs: seq<Context>, m: Context)
    requires Represents(env, cs, m) && Gains(W, U, m) && Within(m.store, U.defs)
    ensures Replaces(env, W, U, multiset(cs), multiset{m})
  {
    forall nu | Satisfies(env, nu, m.store) && Active(env, nu, m)
      ensures exists o :: o in multiset(cs) && Satisfies(env, nu, o.store) && Active(env, nu, o)
    {
      var i :| 0 <= i < |cs| && Active(env, nu, cs[i]);
      assert cs[i] in multiset(cs) && Within(cs[i].store, m.store);
      SatisfiesLess(env, nu, m.store, cs[i].store);
    }
    forall nu | Satisfies(env, nu, U.defs) && SomeActive(env, nu, multiset(cs))
      ensures SomeActive(env, nu, multiset{m})
    {
      SatisfiesLess(env, nu, U.defs, m.store);
      var c :| c in multiset(cs) && Active(env, nu, c);
      var i :| 0 <= i < |cs| && cs[i] == c;
      assert m in multiset{m};
    }
    forall n | n in U.defs && (n !in W.defs || Kept(n, multiset(cs))) ensures Kept(n, multiset{m}) {
      assert m in multiset{m};
      if n in W.defs {
        var c :| c in multiset(cs) && n in c.store;
        var i :| 0 <= i < |cs| && cs[i] == c;
        assert Within(cs[i].store, m.store);
      }
    }
  }

  lemma {:induction false} MergeDescribes(env: Env, g: Graph, W: World, vars: set<string>, cycle: nat,
        cs: seq<Context>, m: Context)
    requires Represents(env, cs, m) && m.cycle == cycle && forall i | 0 <= i < |cs| ::
            LiveContext(env, g, W, vars, cycle, cs[i])
    ensures Describes(env, g, vars, m)
  {
    forall nu | Satisfies(env, nu, m.store) && Active(env, nu, m)
      ensures Reaches(env, g, StartStore(vars, m.cycle, nu), m.vertexLabel, StoreUnder(m, nu))
    {
      var i :| 0 <= i < |cs| && Active(env, nu, cs[i]);
      assert LiveContext(env, g, W, vars, cycle, cs[i]) && Within(cs[i].store, m.store);
      SatisfiesLess(env, nu, m.store, cs[i].store);
    }
  }

  // ---------- what the executor does to a live context ----------

  lemma {:induction false} SingleRuns(env: Env, i: Instr, st: State)
    ensures RunBlock(env, [i], st) == Effect(env, i, st) && BlockBranch(env, [i], st) == Branch(env, i, st)
  {
    assert [i][1..] == [];
    assert RunBlock(env, [], Effect(env, i, st)) == Effect(env, i, st);
  }

  predicate LeavesBy(v: Vertex, kind: EdgeKind) {
    match v
    case EntryVertex => kind == Intraprocedural
    case Regular(instrs) =>
      instrs != [] &&
      if instrs[0].IfGoto? then kind == TrueBranch || kind == FalseBranch
      else IsSimple(instrs[0]) && kind == Intraprocedural
    case ExitVertex => false
  }

  // The edge that is followed leads to a label of the graph.
  lemma {:induction false} Followed(g: Graph, l: int, kind: EdgeKind)
    requires WellShaped(g) && l in g.vertices && LeavesBy(g.vertices[l], kind)
    ensures Follow(g.edges, l, kind) in g.vertices
  {
    assert VertexFits(g, l);
    FollowOutgoing(g.edges, l, kind);
    var out := Outgoing(g.edges, l);
    assert out[0] in out;
    if |out| == 2 {
      assert out[1] in out && out[1..][0] == out[1];
      assert Follow(out, l, kind) == if out[0].kind == kind then out[0].target else Follow(out[1..], l, kind);
    }
  }

  lemma {:induction false} EntryExecuted(env: Env, g: Graph, W: World, vars: set<string>, cycle: nat, c: Context)
    requires WellShaped(g) && LiveContext(env, g, W, vars, cycle, c) && c.vertexLabel == g.entry
            && WorldOk(env, W, vars, cycle)
    ensures var d := c.(vertexLabel := Follow(g.edges, c.vertexLabel, Intraprocedural));
            LiveContext(env, g, W, vars, cycle, d) && Replaces(env, W, W, multiset{c}, multiset{d})
  {
    var d := c.(vertexLabel := Follow(g.edges, c.vertexLabel, Intraprocedural));
    Followed(g, g.entry, Intraprocedural);
    forall nu | Satisfies(env, nu, d.store) && Active(env, nu, d)
      ensures Reaches(env, g, StartStore(vars, d.cycle, nu), d.vertexLabel, StoreUnder(d, nu))
    {
      assert Active(env, nu, c);
      assert StoreUnder(d, nu) == StoreUnder(c, nu);
      OneMoreStep(env, g, StartStore(vars, c.cycle, nu), c.vertexLabel, StoreUnder(c, nu), d.vertexLabel,
            StoreUnder(d, nu));
    }
    OneReplaces(env, W, W, c, d);
  }

  function AssignedWorld(oracle: Oracle, W: World, c: Context, x: string, e: Expr): World
    requires x in W.global && Encodable(e, c.version.Keys)
  {
    var v := W.global[x] + 1;
    Define(W, Versioned(x, v, c.cycle), Encode(oracle, e, c)).(global := W.global[x := v])
  }

  lemma {:induction false} EncodedSymbols(env: Env, oracle: Oracle, W: World, vars: set<string>, cycle: nat,
        c: Context, e: Expr)
    requires Sound(env, oracle) && ContextOk(W, vars, cycle, c) && Encodable(e, vars)
    ensures forall v | v in Symbols(Encode(oracle, e, c)) :: v in c.store && v in W.defs
  {
    EncodeSymbols(env, oracle, e, c);
    forall v | v in Symbols(Encode(oracle, e, c)) ensures v in c.store && v in W.defs {
      assert Newest(c, v.name) in c.store;
    }
  }

  lemma {:induction false} AssignmentOk(env: Env, oracle: Oracle, W: World, vars: set<string>, cycle: nat,
        c: Context, x: string, e: Expr, next: int)
    requires Sound(env, oracle) && WorldOk(env, W, vars, cycle) && ContextOk(W, vars, cycle, c) && x in vars
            && Encodable(e, vars)
    requires InstructionTyped(env.boolean, Assign(x, e))
    ensures var U, d := AssignedWorld(oracle, W, c, x, e), Assigned(oracle, c, x, e, W.global[x] + 1, next);
            && WorldOk(env, U, vars, cycle) && ContextOk(U, vars, cycle, d) && Gains(W, U, d)
                  && Within(c.store, d.store)
            && Versioned(x, W.global[x] + 1, cycle) !in W.defs
  {
    EncodedSymbols(env, oracle, W, vars, cycle, c, e);
    EncodeSort(env, oracle, e, c);
    FreshWorld(env, W, vars, cycle, x, Encode(oracle, e, c));
    AssignedContext(oracle, W, AssignedWorld(oracle, W, c, x, e), vars, cycle, c, x, e, next);
  }

  lemma {:induction false} AssignedContext(oracle: Oracle, W: World, U: World, vars: set<string>, cycle: nat,
        c: Context, x: string, e: Expr, next: int)
    requires ContextOk(W, vars, cycle, c) && x in vars && Encodable(e, vars) && Extends(W, U) && x in W.global
    requires Versioned(x, W.global[x] + 1, cycle) !in W.defs
            && U.defs == W.defs[Versioned(x, W.global[x] + 1, cycle) := Encode(oracle, e, c)]
    ensures var d := Assigned(oracle, c, x, e, W.global[x] + 1, next);
            ContextOk(U, vars, cycle, d) && Gains(W, U, d) && Within(c.store, d.store)
  {
    var d, n := Assigned(oracle, c, x, e, W.global[x] + 1, next), Versioned(x, W.global[x] + 1, cycle);
    assert n !in c.store;
    forall y | y in d.version ensures Newest(d, y) in d.store {
      if y != x { assert Newest(c, y) in c.store; }
    }
  }

  lemma {:induction false} AssignmentMeans(env: Env, g: Graph, oracle: Oracle, vars: set<string>, c: Context,
        x: string, e: Expr, v: nat, nu: Valuation)
    requires Sound(env, oracle) && c.vertexLabel in g.vertices && g.vertices[c.vertexLabel] == Regular([Assign(x, e)])
    requires c.version.Keys == vars && x in vars && Encodable(e, vars) && Versioned(x, v, c.cycle) !in c.store
    requires InstructionTyped(env.boolean, Assign(x, e))
    requires var d := Assigned(oracle, c, x, e, v, Follow(g.edges, c.vertexLabel, Intraprocedural));
             Satisfies(env, nu, d.store) && Reaches(env, g, StartStore(vars, c.cycle, nu), c.vertexLabel,
                   StoreUnder(c, nu))
    ensures var d := Assigned(oracle, c, x, e, v, Follow(g.edges, c.vertexLabel, Intraprocedural));
            Reaches(env, g, StartStore(vars, c.cycle, nu), d.vertexLabel, StoreUnder(d, nu))
  {
    var d := Assigned(oracle, c, x, e, v, Follow(g.edges, c.vertexLabel, Intraprocedural));
    EncodeMeans(env, oracle, e, c, nu);
    assert nu(Versioned(x, v, c.cycle)) == Value(env, d.store[Versioned(x, v, c.cycle)], nu);
    SingleRuns(env, Assign(x, e), State(StoreUnder(c, nu), 0));
    assert StoreUnder(d, nu) == StoreUnder(c, nu)[x := Eval(env, e, StoreUnder(c, nu))];
    OneMoreStep(env, g, StartStore(vars, c.cycle, nu), c.vertexLabel, StoreUnder(c, nu), d.vertexLabel,
          StoreUnder(d, nu));
  }

  lemma {:induction false} AssignmentExecuted(env: Env, g: Graph, oracle: Oracle, W: World, vars: set<string>,
        cycle: nat, c: Context, x: string, e: Expr)
    requires WellShaped(g) && Sound(env, oracle) && WorldOk(env, W, vars, cycle)
            && LiveContext(env, g, W, vars, cycle, c)
    requires g.vertices[c.vertexLabel] == Regular([Assign(x, e)]) && x in vars && Encodable(e, vars)
    requires InstructionTyped(env.boolean, Assign(x, e))
    ensures var U, d := AssignedWorld(oracle, W, c, x, e), Assigned(oracle, c, x, e, W.global[x] + 1,
            Follow(g.edges, c.vertexLabel, Intraprocedural));
            WorldOk(env, U, vars, cycle) && Extends(W, U) && LiveContext(env, g, U, vars, cycle, d)
                  && Replaces(env, W, U, multiset{c}, multiset{d})
  {
    var next := Follow(g.edges, c.vertexLabel, Intraprocedural);
    var U, d := AssignedWorld(oracle, W, c, x, e), Assigned(oracle, c, x, e, W.global[x] + 1, next);
    AssignmentOk(env, oracle, W, vars, cycle, c, x, e, next);
    Followed(g, c.vertexLabel, Intraprocedural);
    AssignmentDescribes(env, g, oracle, W, vars, cycle, c, x, e, W.global[x] + 1);
    OneReplaces(env, W, U, c, d);
  }

  lemma {:induction false} AssignmentDescribes(env: Env, g: Graph, oracle: Oracle, W: World, vars: set<string>,
        cycle: nat, c: Context, x: string, e: Expr, v: nat)
    requires Sound(env, oracle) && LiveContext(env, g, W, vars, cycle, c)
    requires g.vertices[c.vertexLabel] == Regular([Assign(x, e)]) && x in vars && Encodable(e, vars)
    requires InstructionTyped(env.boolean, Assign(x, e))
    requires Versioned(x, v, cycle) !in W.defs
    ensures Describes(env, g, vars, Assigned(oracle, c, x, e, v, Follow(g.edges, c.vertexLabel, Intraprocedural)))
  {
    var d := Assigned(oracle, c, x, e, v, Follow(g.edges, c.vertexLabel, Intraprocedural));
    assert Versioned(x, v, cycle) !in c.store;
    assert Within(c.store, d.store);
    forall nu | Satisfies(env, nu, d.store) && Active(env, nu, d)
      ensures Reaches(env, g, StartStore(vars, d.cycle, nu), d.vertexLabel, StoreUnder(d, nu))
    {
      SatisfiesLess(env, nu, d.store, c.store);
      assert Active(env, nu, c);
      AssignmentMeans(env, g, oracle, vars, c, x, e, v, nu);
    }
  }

  // ---------- branches ----------

  lemma {:induction false} BranchedActive(env: Env, c: Context, e: SExpr, next: int, nu: Valuation)
    ensures Active(env, nu, Branched(c, e, next)) <==> Active(env, nu, c) && Truth(Value(env, e, nu))
  {
    var pc := c.pathConstraint + [e];
    assert pc[|pc| - 1] == e;
    assert forall i | 0 <= i < |c.pathConstraint| :: pc[i] == c.pathConstraint[i];
  }

  lemma {:induction false} BranchLive(env: Env, g: Graph, oracle: Oracle, W: World, vars: set<string>, cycle: nat,
        c: Context, e: Expr, t: int, f: int, taken: bool)
    requires WellShaped(g) && Sound(env, oracle) && LiveContext(env, g, W, vars, cycle, c)
    requires g.vertices[c.vertexLabel] == Regular([IfGoto(e, t, f)]) && Encodable(e, vars)
    requires InstructionTyped(env.boolean, IfGoto(e, t, f))
    ensures var s := Encode(oracle, e, c);
            LiveContext(env, g, W, vars, cycle, Branched(c, if taken then s else Negate(s),
                  Follow(g.edges, c.vertexLabel, if taken then TrueBranch else FalseBranch)))
  {
    var s, kind := Encode(oracle, e, c), if taken then TrueBranch else FalseBranch;
    var condition := if taken then s else Negate(s);
    var d := Branched(c, condition, Follow(g.edges, c.vertexLabel, kind));
    Followed(g, c.vertexLabel, kind);
    EncodeSymbols(env, oracle, e, c);
    assert Symbols(condition) == Symbols(s);
    forall v | v in Symbols(s) ensures v in c.store { assert Newest(c, v.name) in c.store; }
    forall nu | Satisfies(env, nu, d.store) && Active(env, nu, d)
      ensures Reaches(env, g, StartStore(vars, d.cycle, nu), d.vertexLabel, StoreUnder(d, nu))
    {
      BranchedActive(env, c, condition, d.vertexLabel, nu);
      EncodeMeans(env, oracle, e, c, nu);
      NegateMeans(env, s, nu);
      var st := State(StoreUnder(c, nu), 0);
      SingleRuns(env, IfGoto(e, t, f), st);
      assert StoreUnder(d, nu) == StoreUnder(c, nu);
      OneMoreStep(env, g, StartStore(vars, c.cycle, nu), c.vertexLabel, StoreUnder(c, nu), d.vertexLabel,
            StoreUnder(d, nu));
    }
  }

  lemma {:induction false} NegateMeans(env: Env, e: SExpr, nu: Valuation)
    ensures Truth(Value(env, Negate(e), nu)) <==> !Truth(Value(env, e, nu))
  {
  }

  function ForkSet(succeeding: Context, forked: Option<Context>): multiset<Context> {
    if forked.None? then multiset{succeeding} else multiset{succeeding, forked.value}
  }

  lemma {:induction false} IfExecuted(env: Env, g: Graph, oracle: Oracle, W: World, vars: set<string>, cycle: nat,
        c: Context, e: Expr, t: int, f: int, succeeding: Context, forked: Option<Context>)
    requires WellShaped(g) && Sound(env, oracle) && WorldOk(env, W, vars, cycle)
            && LiveContext(env, g, W, vars, cycle, c)
    requires g.vertices[c.vertexLabel] == Regular([IfGoto(e, t, f)]) && Encodable(e, vars)
    requires InstructionTyped(env.boolean, IfGoto(e, t, f))
    requires Forks(g, oracle, c, e, succeeding, forked)
    ensures forall d | d in ForkSet(succeeding, forked) :: LiveContext(env, g, W, vars, cycle, d)
    ensures Replaces(env, W, W, multiset{c}, ForkSet(succeeding, forked))
  {
    var s := Encode(oracle, e, c);
    var positive := Branched(c, s, Follow(g.edges, c.vertexLabel, TrueBranch));
    var negative := Branched(c, Negate(s), Follow(g.edges, c.vertexLabel, FalseBranch));
    BranchLive(env, g, oracle, W, vars, cycle, c, e, t, f, true);
    BranchLive(env, g, oracle, W, vars, cycle, c, e, t, f, false);
    forall nu
      ensures Active(env, nu, positive) <==> Active(env, nu, c) && Truth(Value(env, s, nu))
      ensures Active(env, nu, negative) <==> Active(env, nu, c) && !Truth(Value(env, s, nu))
    {
      BranchedActive(env, c, s, positive.vertexLabel, nu);
      BranchedActive(env, c, Negate(s), negative.vertexLabel, nu);
      NegateMeans(env, s, nu);
    }
    if forked.Some? {
      TwoReplace(env, W, c, positive, negative, s);
      assert ForkSet(succeeding, forked) == multiset{positive, negative};
    } else {
      if oracle.takesTrue(c, s) {
        assert NoModel(env, c, Negate(s));
        OneBranch(env, W, c, positive, Negate(s));
      } else {
        assert NoModel(env, c, s);
        OneBranch(env, W, c, negative, s);
      }
    }
  }

  // A branch that has no model need not be followed.
  lemma {:induction false} OneBranch(env: Env, W: World, c: Context, d: Context, e: SExpr)
    requires NoModel(env, c, e) && d.store == c.store && Within(c.store, W.defs)
    requires forall nu | Satisfies(env, nu, c.store) && !Truth(Value(env, e, nu)) :: Active(env, nu, d) <==>
            Active(env, nu, c)
    requires forall nu | Satisfies(env, nu, c.store) && Active(env, nu, d) :: Active(env, nu, c)
    ensures Replaces(env, W, W, multiset{c}, multiset{d})
  {
    forall nu | Satisfies(env, nu, d.store) ensures Active(env, nu, d) <==> Active(env, nu, c) {
      if Active(env, nu, c) { assert !Truth(Value(env, e, nu)); }
    }
    OneReplaces(env, W, W, c, d);
  }
}
