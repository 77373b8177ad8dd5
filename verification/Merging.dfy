// Merging of execution contexts that reached the same label (ahorn/src/se/ahorn/merger.cpp).

module Merging {
  import opened Ir
  import opened Cfg
  import opened Symbolic
  import opened Execution

  // ---------- what a context has to do with all definitions ----------

  ghost predicate NameOk(W: World, vars: set<string>, cycle: nat, n: Versioned) {
    n.name in vars && n.cycle <= cycle && (n.cycle == cycle && n.name in W.global ==> n.version <= W.global[n.name])
  }

  // The global version bounds every version of the cycle.
  ghost predicate WorldOk(env: Env, W: World, vars: set<string>, cycle: nat) {
    && Ordered(env, W) && W.global.Keys == vars
    && forall n {:trigger NameOk(W, vars, cycle, n)} | n in W.defs :: NameOk(W, vars, cycle, n)
  }

  ghost predicate Within(small: SymbolicStore, big: SymbolicStore) {
    forall n | n in small :: n in big && big[n] == small[n]
  }

  ghost predicate ContextOk(W: World, vars: set<string>, cycle: nat, c: Context) {
    && c.cycle == cycle && c.version.Keys == vars && Within(c.store, W.defs) && Current(c)
    && forall i | 0 <= i < |c.pathConstraint| :: Symbols(c.pathConstraint[i]) <= c.store.Keys
  }

  // Definitions are only added.
  ghost predicate Extends(W: World, U: World) {
    && W.order <= U.order && W.global.Keys == U.global.Keys
    && Within(W.defs, U.defs)
    && forall x | x in W.global :: W.global[x] <= U.global[x]
  }

  // Contexts agree on every definition that they share.
  lemma {:induction false} ContextsAgree(W: World, vars: set<string>, cycle: nat, c: Context, d: Context, n: Versioned)
    requires ContextOk(W, vars, cycle, c) && ContextOk(W, vars, cycle, d) && n in c.store && n in d.store
    ensures c.store[n] == d.store[n]
  {
    assert c.store[n] == W.defs[n];
  }

  lemma {:induction false} ContextExtended(W: World, U: World, vars: set<string>, cycle: nat, c: Context)
    requires ContextOk(W, vars, cycle, c) && Extends(W, U)
    ensures ContextOk(U, vars, cycle, c)
  {
    forall n | n in c.store ensures n in U.defs && U.defs[n] == c.store[n] {
      assert c.store[n] == W.defs[n];
    }
  }

  // Two path constraints never hold together.
  ghost predicate Exclusive(env: Env, c: Context, d: Context) {
    forall nu | Satisfies(env, nu, c.store) && Satisfies(env, nu, d.store) ::
            !(Active(env, nu, c) && Active(env, nu, d))
  }

  lemma {:induction false} SatisfiesLess(env: Env, nu: Valuation, big: SymbolicStore, small: SymbolicStore)
    requires Satisfies(env, nu, big) && Within(small, big)
    ensures Satisfies(env, nu, small)
  {
    forall n | n in small ensures nu(n) == Value(env, small[n], nu) {
      assert big[n] == small[n];
    }
  }

  // ---------- merging two contexts ----------

  // The version v of x stands for the newest version of x in whichever context is active.
  ghost predicate StandsFor(env: Env, c: Context, d: Context, x: string, v: nat, store: SymbolicStore)
    requires x in c.version && x in d.version
  {
    && Versioned(x, v, c.cycle) in store
    && forall nu | Satisfies(env, nu, store) ::
         && (Active(env, nu, c) ==> nu(Versioned(x, v, c.cycle)) == nu(Newest(c, x)))
         && (Active(env, nu, d) && !Active(env, nu, c) ==> nu(Versioned(x, v, c.cycle)) == nu(Newest(d, x)))
  }

  ghost predicate AllStand(env: Env, c: Context, d: Context, xs: seq<string>, version: map<string, nat>,
        store: SymbolicStore) {
    && (forall x :: x in version <==> x in xs)
    && forall x | x in version :: x in c.version && x in d.version && StandsFor(env, c, d, x, version[x], store)
  }

  lemma {:induction false} OneMoreStands(env: Env, c: Context, d: Context, xs: seq<string>,
        version: map<string, nat>, store: SymbolicStore, x: string, v: nat)
    requires AllStand(env, c, d, xs, version, store) && x !in xs
    requires x in c.version && x in d.version && StandsFor(env, c, d, x, v, store)
    ensures AllStand(env, c, d, xs + [x], version[x := v], store)
  {
  }

  // After the variables in xs: the store, the versions, and all definitions with the fresh ones.
  ghost predicate MergedUpTo(env: Env, c: Context, d: Context, xs: seq<string>, W0: World, W: World,
        vars: set<string>, store: SymbolicStore, version: map<string, nat>) {
    && WorldOk(env, W, vars, c.cycle) && Extends(W0, W) && Within(store, W.defs)
    && Within(c.store, store) && Within(d.store, store)
    && (forall n | n in W.defs && n !in W0.defs :: n in store)
    && AllStand(env, c, d, xs, version, store)
  }

  function Union(a: SymbolicStore, b: SymbolicStore): SymbolicStore {
    b + a
  }

  lemma {:induction false} MergeStarts(env: Env, c: Context, d: Context, W: World, vars: set<string>)
    requires WorldOk(env, W, vars, c.cycle) && ContextOk(W, vars, c.cycle, c) && ContextOk(W, vars, c.cycle, d)
    ensures MergedUpTo(env, c, d, [], W, W, vars, Union(c.store, d.store), map[])
  {
    var store := Union(c.store, d.store);
    forall n | n in store ensures n in W.defs && W.defs[n] == store[n] {
      if n in c.store { assert c.store[n] == W.defs[n]; } else { assert d.store[n] == W.defs[n]; }
    }
    forall n | n in d.store ensures n in store && store[n] == d.store[n] {
      if n in c.store { ContextsAgree(W, vars, c.cycle, c, d, n); }
    }
  }

  // A variable with the same version in both contexts keeps it.
  lemma {:induction false} SameVersionMerged(env: Env, c: Context, d: Context, xs: seq<string>, W0: World, W: World,
        vars: set<string>, store: SymbolicStore, version: map<string, nat>, x: string)
    requires MergedUpTo(env, c, d, xs, W0, W, vars, store, version) && x !in xs
    requires ContextOk(W0, vars, c.cycle, c) && ContextOk(W0, vars, c.cycle, d) && x in vars
            && c.version[x] == d.version[x]
    ensures MergedUpTo(env, c, d, xs + [x], W0, W, vars, store, version[x := c.version[x]])
  {
    assert Newest(c, x) in c.store && store[Newest(c, x)] == c.store[Newest(c, x)];
    assert StandsFor(env, c, d, x, c.version[x], store);
    OneMoreStands(env, c, d, xs, version, store, x, c.version[x]);
  }

  function MergedExpression(oracle: Oracle, c: Context, d: Context, x: string): SExpr
    requires x in c.version && x in d.version && Newest(c, x) in c.store && Newest(d, x) in d.store
  {
    if c.store[Newest(c, x)] == d.store[Newest(d, x)] then c.store[Newest(c, x)]
    else oracle.simplify(Ite(MkAnd(c.pathConstraint), Symbol(Newest(c, x)), Symbol(Newest(d, x))))
  }

  lemma {:induction false} DefinitionSymbols(env: Env, W: World, n: Versioned)
    requires Ordered(env, W) && n in W.defs
    ensures forall v | v in Symbols(W.defs[n]) :: v in W.defs
  {
    assert n in W.order;
    var i :| 0 <= i < |W.order| && W.order[i] == n;
    assert RefersBack(W, i);
    forall v | v in Symbols(W.defs[n]) ensures v in W.order {
      if W.defs[n] != Symbol(n) { assert v in W.order[..i]; }
    }
  }

  lemma {:induction false} MergedSymbols(env: Env, oracle: Oracle, c: Context, d: Context, W: World,
        vars: set<string>, x: string)
    requires Sound(env, oracle) && Ordered(env, W) && ContextOk(W, vars, c.cycle, c)
            && ContextOk(W, vars, c.cycle, d) && x in vars
    ensures forall v | v in Symbols(MergedExpression(oracle, c, d, x)) :: v in W.defs
    ensures env.boolean(x) ==> IsBoolean(env.boolean, MergedExpression(oracle, c, d, x))
  {
    var m, n := Newest(c, x), Newest(d, x);
    assert c.store[m] == W.defs[m] && d.store[n] == W.defs[n];
    if c.store[m] == d.store[n] {
      assert SortOk(env, m, W.defs[m]);
      DefinitionSymbols(env, W, m);
    } else {
      var e := Ite(MkAnd(c.pathConstraint), Symbol(m), Symbol(n));
      assert SimplifiesAt(env, oracle, e) && IsBoolean(env.boolean, e) == env.boolean(x);
      assert MergedExpression(oracle, c, d, x) == oracle.simplify(e);
      MkAndSymbols(c.pathConstraint, c.store.Keys);
      assert Symbols(e) == Symbols(MkAnd(c.pathConstraint)) + {m} + {n};
      forall v | v in c.store.Keys ensures v in W.defs { assert c.store[v] == W.defs[v]; }
    }
  }

  // The fresh version means the newest version of the active context.
  lemma {:induction false} MergedStandsFor(env: Env, oracle: Oracle, c: Context, d: Context, x: string, v: nat,
        store: SymbolicStore)
    requires Sound(env, oracle) && x in c.version && x in d.version && c.cycle == d.cycle
    requires Newest(c, x) in c.store && Newest(d, x) in d.store
    requires Within(c.store, store) && Within(d.store, store)
    requires Versioned(x, v, c.cycle) in store && store[Versioned(x, v, c.cycle)] == MergedExpression(oracle, c, d, x)
    ensures StandsFor(env, c, d, x, v, store)
  {
    var m, n, k := Newest(c, x), Newest(d, x), Versioned(x, v, c.cycle);
    assert store[m] == c.store[m] && store[n] == d.store[n];
    var e := Ite(MkAnd(c.pathConstraint), Symbol(m), Symbol(n));
    assert SimplifiesAt(env, oracle, e);
    forall nu | Satisfies(env, nu, store)
      ensures (Active(env, nu, c) ==> nu(k) == nu(m)) && (Active(env, nu, d) && !Active(env, nu, c) ==> nu(k) == nu(n))
    {
      MkAndMeans(env, c.pathConstraint, nu);
      assert nu(k) == Value(env, store[k], nu);
      if c.store[m] == d.store[n] {
        assert store[k] == store[m] == store[n];
        assert nu(m) == Value(env, store[m], nu) && nu(n) == Value(env, store[n], nu);
      } else {
        assert Value(env, Symbol(m), nu) == nu(m) && Value(env, Symbol(n), nu) == nu(n);
        assert Value(env, store[k], nu) == Value(env, e, nu);
      }
    }
  }

  function WithFresh(oracle: Oracle, c: Context, d: Context, W: World, x: string): World
    requires x in c.version && x in d.version && Newest(c, x) in c.store && Newest(d, x) in d.store && x in W.global
  {
    var v := W.global[x] + 1;
    Define(W, Versioned(x, v, c.cycle), MergedExpression(oracle, c, d, x)).(global := W.global[x := v])
  }

  lemma {:induction false} FreshWorld(env: Env, W: World, vars: set<string>, cycle: nat, x: string, e: SExpr)
    requires WorldOk(env, W, vars, cycle) && x in vars && forall v | v in Symbols(e) :: v in W.defs
    requires env.boolean(x) ==> IsBoolean(env.boolean, e)
    ensures var n := Versioned(x, W.global[x] + 1, cycle);
            var U := Define(W, n, e).(global := W.global[x := W.global[x] + 1]);
            n !in W.defs && WorldOk(env, U, vars, cycle) && Extends(W, U)
  {
    var n := Versioned(x, W.global[x] + 1, cycle);
    var U := Define(W, n, e).(global := W.global[x := W.global[x] + 1]);
    assert NameOk(W, vars, cycle, n) ==> false;
    DefineOrdered(env, W, n, e);
    assert U.defs == Define(W, n, e).defs && U.order == Define(W, n, e).order;
    forall i | 0 <= i < |U.order| ensures U.order[i] in U.defs && RefersBack(U, i) {
      assert U.order[i] in U.order && RefersBack(Define(W, n, e), i);
    }
    forall m | m in U.defs ensures NameOk(U, vars, cycle, m) {
      if m != n { assert NameOk(W, vars, cycle, m); }
    }
  }

  lemma {:induction false} FreshWithin(W0: World, W: World, U: World, store: SymbolicStore, n: Versioned, e: SExpr)
    requires Extends(W0, W) && Extends(W, U) && Within(store, W.defs) && U.defs == W.defs[n := e] && n !in W.defs
    requires forall m | m in W.defs && m !in W0.defs :: m in store
    ensures n !in store && Extends(W0, U) && Within(store[n := e], U.defs) && Within(store, store[n := e])
    ensures forall m | m in U.defs && m !in W0.defs :: m in store[n := e]
  {
    ExtendsTransitive(W0, W, U);
    NewInStore(W0, W, U, store, n, e);
  }

  lemma {:induction false} FreshExtends(env: Env, oracle: Oracle, c: Context, d: Context, W: World,
        vars: set<string>, x: string)
    requires Sound(env, oracle) && WorldOk(env, W, vars, c.cycle) && x in vars
    requires ContextOk(W, vars, c.cycle, c) && ContextOk(W, vars, c.cycle, d)
    ensures var U := WithFresh(oracle, c, d, W, x);
            Versioned(x, W.global[x] + 1, c.cycle) !in W.defs && WorldOk(env, U, vars, c.cycle) && Extends(W, U)
  {
    MergedSymbols(env, oracle, c, d, W, vars, x);
    FreshWorld(env, W, vars, c.cycle, x, MergedExpression(oracle, c, d, x));
  }

  lemma {:induction false} FreshVersionMerged(env: Env, oracle: Oracle, c: Context, d: Context, xs: seq<string>,
        W0: World, W: World, vars: set<string>, store: SymbolicStore, version: map<string, nat>, x: string)
    requires Sound(env, oracle) && MergedUpTo(env, c, d, xs, W0, W, vars, store, version) && x !in xs
    requires ContextOk(W0, vars, c.cycle, c) && ContextOk(W0, vars, c.cycle, d) && x in vars
    ensures var v := W.global[x] + 1;
            MergedUpTo(env, c, d, xs + [x], W0, WithFresh(oracle, c, d, W, x), vars,
                       store[Versioned(x, v, c.cycle) := MergedExpression(oracle, c, d, x)], version[x := v])
  {
    var e, v := MergedExpression(oracle, c, d, x), W.global[x] + 1;
    var n := Versioned(x, v, c.cycle);
    ContextExtended(W0, W, vars, c.cycle, c);
    ContextExtended(W0, W, vars, c.cycle, d);
    FreshExtends(env, oracle, c, d, W, vars, x);
    FreshWithin(W0, W, WithFresh(oracle, c, d, W, x), store, n, e);
    StoreGrown(env, c, d, xs, store, version, n, e);
    FreshStands(env, oracle, c, d, xs, W0, store, version, x, v, vars);
  }

  // The fresh version stands for the variable in the larger store.
  lemma {:induction false} FreshStands(env: Env, oracle: Oracle, c: Context, d: Context, xs: seq<string>, W0: World,
        store: SymbolicStore, version: map<string, nat>, x: string, v: nat, vars: set<string>)
    requires Sound(env, oracle) && ContextOk(W0, vars, c.cycle, c) && ContextOk(W0, vars, c.cycle, d) && x in vars
            && x !in xs
    requires Within(c.store, store) && Within(d.store, store) && Versioned(x, v, c.cycle) !in store
    requires AllStand(env, c, d, xs, version, store[Versioned(x, v, c.cycle) := MergedExpression(oracle, c, d, x)])
    ensures AllStand(env, c, d, xs + [x], version[x := v], store[Versioned(x, v, c.cycle) := MergedExpression(oracle,
            c, d, x)])
    ensures var store' := store[Versioned(x, v, c.cycle) := MergedExpression(oracle, c, d, x)];
            Within(c.store, store') && Within(d.store, store')
  {
    var store' := store[Versioned(x, v, c.cycle) := MergedExpression(oracle, c, d, x)];
    MergedStandsFor(env, oracle, c, d, x, v, store');
    OneMoreStands(env, c, d, xs, version, store', x, v);
  }

  lemma {:induction false} NewInStore(W0: World, W: World, U: World, store: SymbolicStore, n: Versioned, e: SExpr)
    requires (forall m | m in W.defs && m !in W0.defs :: m in store) && Within(store, W.defs)
    requires U.defs == W.defs[n := e] && n !in W.defs
    ensures (forall m | m in U.defs && m !in W0.defs :: m in store[n := e]) && Within(store[n := e], U.defs)
    ensures n !in store && Within(store, store[n := e])
  {
  }

  lemma {:induction false} ExtendsTransitive(A: World, B: World, C: World)
    requires Extends(A, B) && Extends(B, C)
    ensures Extends(A, C)
  {
    forall n | n in A.defs ensures n in C.defs && C.defs[n] == A.defs[n] {
      assert B.defs[n] == A.defs[n];
    }
  }

  // A larger store has fewer models.
  lemma {:induction false} StoreGrown(env: Env, c: Context, d: Context, xs: seq<string>, store: SymbolicStore,
        version: map<string, nat>, n: Versioned, e: SExpr)
    requires n !in store && AllStand(env, c, d, xs, version, store)
    ensures AllStand(env, c, d, xs, version, store[n := e])
  {
    forall nu | Satisfies(env, nu, store[n := e]) ensures Satisfies(env, nu, store) {
      SatisfiesLess(env, nu, store[n := e], store);
    }
  }

  // ---------- what a merge means ----------

  // The context m stands for all contexts in cs: under every model of its definitions, it is active
  // exactly if one of them is, and then has the same program store.
  ghost predicate Represents(env: Env, cs: seq<Context>, m: Context) {
    && (forall i | 0 <= i < |cs| :: Within(cs[i].store, m.store) && cs[i].cycle == m.cycle && cs[i].frame == m.frame
          && cs[i].vertexLabel == m.vertexLabel)
    && forall nu | Satisfies(env, nu, m.store) ::
         && (Active(env, nu, m) <==> exists i :: 0 <= i < |cs| && Active(env, nu, cs[i]))
         && forall i | 0 <= i < |cs| && Active(env, nu, cs[i]) :: StoreUnder(m, nu) == StoreUnder(cs[i], nu)
  }

  // New definitions of the world are definitions of the context.
  ghost predicate Gains(W: World, U: World, m: Context) {
    Extends(W, U) && forall n | n in U.defs && n !in W.defs :: n in m.store
  }

  function MergedConstraint(oracle: Oracle, c: Context, d: Context): SExpr {
    oracle.simplify(Binary(BooleanOr, MkAnd(c.pathConstraint), MkAnd(d.pathConstraint)))
  }

  lemma {:induction false} MergedActive(env: Env, oracle: Oracle, c: Context, d: Context, m: Context, nu: Valuation)
    requires Sound(env, oracle) && Typed(env, nu) && m.pathConstraint == [MergedConstraint(oracle, c, d)]
    ensures Active(env, nu, m) <==> Active(env, nu, c) || Active(env, nu, d)
  {
    MkAndMeans(env, c.pathConstraint, nu);
    MkAndMeans(env, d.pathConstraint, nu);
    var e := Binary(BooleanOr, MkAnd(c.pathConstraint), MkAnd(d.pathConstraint));
    assert SimplifiesAt(env, oracle, e);
    assert Truth(Value(env, e, nu)) <==> Active(env, nu, c) || Active(env, nu, d);
    assert Active(env, nu, m) <==> Truth(Value(env, m.pathConstraint[0], nu));
  }

  // Two exclusive contexts are represented by their merge.
  lemma {:induction false} MergeRepresents(env: Env, oracle: Oracle, c: Context, d: Context, xs: seq<string>,
        W0: World, W: World, vars: set<string>, m: Context)
    requires Sound(env, oracle) && MergedUpTo(env, c, d, xs, W0, W, vars, m.store, m.version) && Exclusive(env, c, d)
    requires ContextOk(W0, vars, c.cycle, c) && ContextOk(W0, vars, c.cycle, d) && vars == (set x | x in xs)
    requires m.cycle == c.cycle && m.frame == c.frame == d.frame && m.vertexLabel == c.vertexLabel == d.vertexLabel
    requires m.pathConstraint == [MergedConstraint(oracle, c, d)]
    ensures Represents(env, [c, d], m)
  {
    forall nu | Satisfies(env, nu, m.store)
      ensures Active(env, nu, m) <==> exists i :: 0 <= i < 2 && Active(env, nu, [c, d][i])
      ensures forall i | 0 <= i < 2 && Active(env, nu, [c, d][i]) :: StoreUnder(m, nu) == StoreUnder([c, d][i], nu)
    {
      MergedActive(env, oracle, c, d, m, nu);
      assert [c, d][0] == c && [c, d][1] == d;
      MergedStore(env, c, d, xs, vars, m, nu);
    }
  }

  // Under a model of the merged store, whichever context is active has the store of the merge.
  lemma {:induction false} MergedStore(env: Env, c: Context, d: Context, xs: seq<string>, vars: set<string>,
        m: Context, nu: Valuation)
    requires AllStand(env, c, d, xs, m.version, m.store) && Exclusive(env, c, d) && Within(c.store, m.store)
            && Within(d.store, m.store)
    requires c.version.Keys == d.version.Keys == vars == (set x | x in xs) && m.cycle == c.cycle == d.cycle
    requires Satisfies(env, nu, m.store)
    ensures Active(env, nu, c) ==> StoreUnder(m, nu) == StoreUnder(c, nu)
    ensures Active(env, nu, d) ==> StoreUnder(m, nu) == StoreUnder(d, nu)
  {
    SatisfiesLess(env, nu, m.store, c.store);
    SatisfiesLess(env, nu, m.store, d.store);
    forall x | x in vars
      ensures Active(env, nu, c) ==> nu(Newest(m, x)) == nu(Newest(c, x))
      ensures Active(env, nu, d) ==> nu(Newest(m, x)) == nu(Newest(d, x))
    {
      assert StandsFor(env, c, d, x, m.version[x], m.store);
    }
  }

  lemma {:induction false} MergedContextOk(env: Env, oracle: Oracle, c: Context, d: Context, xs: seq<string>,
        W0: World, W: World, vars: set<string>, m: Context)
    requires Sound(env, oracle) && MergedUpTo(env, c, d, xs, W0, W, vars, m.store, m.version)
    requires ContextOk(W0, vars, c.cycle, c) && ContextOk(W0, vars, c.cycle, d) && vars == (set x | x in xs)
    requires m.cycle == c.cycle && m.pathConstraint == [MergedConstraint(oracle, c, d)]
    ensures ContextOk(W, vars, c.cycle, m)
  {
    var e := Binary(BooleanOr, MkAnd(c.pathConstraint), MkAnd(d.pathConstraint));
    assert SimplifiesAt(env, oracle, e);
    MkAndSymbols(c.pathConstraint, c.store.Keys);
    MkAndSymbols(d.pathConstraint, d.store.Keys);
    assert Symbols(e) <= c.store.Keys + d.store.Keys;
    forall v | v in c.store.Keys + d.store.Keys ensures v in m.store { assert v in c.store || v in d.store; }
    forall x | x in vars ensures Newest(m, x) in m.store {
      assert StandsFor(env, c, d, x, m.version[x], m.store);
    }
  }
}
