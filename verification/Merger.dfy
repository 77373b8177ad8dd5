// The merger: contexts wait at merge points, and are folded into one
// (ahorn/src/se/ahorn/merger.cpp).

module Merger {
  import opened Ir
  import opened Cfg
  import opened Symbolic
  import opened Execution
  import opened Merging

  datatype MergePoint = MergePoint(scope: string, depth: nat, vertexLabel: int, returnLabel: int)

  type Queues = map<MergePoint, seq<Context>>

  function PointOf(c: Context): MergePoint {
    MergePoint(c.frame.scope, c.frame.depth, c.vertexLabel, c.frame.returnLabel)
  }

  // Deeper frames come first, then lower return labels, then lower labels.
  predicate Before(a: MergePoint, b: MergePoint) {
    || a.depth > b.depth
    || (a.depth == b.depth && a.returnLabel < b.returnLabel)
    || (a.depth == b.depth && a.returnLabel == b.returnLabel && a.vertexLabel < b.vertexLabel)
  }

  function Elements(xs: seq<string>): set<string> {
    set x | x in xs
  }

  ghost predicate PairwiseExclusive(env: Env, cs: seq<Context>) {
    forall j, i | 0 <= j < i < |cs| :: Exclusive(env, cs[j], cs[i])
  }

  ghost predicate ContextsOk(W: World, vars: set<string>, cycle: nat, cs: seq<Context>) {
    forall i | 0 <= i < |cs| :: ContextOk(W, vars, cycle, cs[i])
  }

  // The contexts that wait at a merge point.
  ghost predicate QueueOk(env: Env, W: World, vars: set<string>, cycle: nat, mp: MergePoint, cs: seq<Context>) {
    && ContextsOk(W, vars, cycle, cs) && PairwiseExclusive(env, cs)
    && forall i | 0 <= i < |cs| :: PointOf(cs[i]) == mp
  }

  // ---------- folding ----------

  lemma {:induction false} SingleRepresents(env: Env, c: Context)
    ensures Represents(env, [c], c)
  {
    forall nu | Satisfies(env, nu, c.store)
      ensures Active(env, nu, c) <==> exists i :: 0 <= i < 1 && Active(env, nu, [c][i])
    {
      assert [c][0] == c;
    }
  }

  // The fold so far and the next context are exclusive.
  lemma {:induction false} FoldExclusive(env: Env, cs: seq<Context>, i: nat, m: Context)
    requires i < |cs| && PairwiseExclusive(env, cs) && Represents(env, cs[..i], m)
    ensures Exclusive(env, m, cs[i])
  {
    forall nu | Satisfies(env, nu, m.store) && Satisfies(env, nu, cs[i].store) ensures !(Active(env, nu, m)
            && Active(env, nu, cs[i])) {
      if Active(env, nu, m) {
        var j :| 0 <= j < i && Active(env, nu, cs[..i][j]);
        assert cs[..i][j] == cs[j] && Exclusive(env, cs[j], cs[i]);
        SatisfiesLess(env, nu, m.store, cs[..i][j].store);
      }
    }
  }

  lemma {:induction false} FoldRepresents(env: Env, cs: seq<Context>, i: nat, m: Context, m': Context)
    requires i < |cs| && Represents(env, cs[..i], m) && Represents(env, [m, cs[i]], m')
    requires cs[i].cycle == m.cycle && cs[i].frame == m.frame && cs[i].vertexLabel == m.vertexLabel
    ensures Represents(env, cs[..i + 1], m')
  {
    var next := cs[..i + 1];
    assert [m, cs[i]][0] == m && [m, cs[i]][1] == cs[i];
    assert Within(m.store, m'.store) && Within(cs[i].store, m'.store);
    forall j | 0 <= j < i + 1 ensures Within(next[j].store, m'.store) && next[j].cycle == m'.cycle
            && next[j].frame == m'.frame && next[j].vertexLabel == m'.vertexLabel {
      if j < i { assert next[j] == cs[..i][j]; }
    }
    forall nu | Satisfies(env, nu, m'.store)
      ensures Active(env, nu, m') <==> exists j :: 0 <= j < i + 1 && Active(env, nu, next[j])
      ensures forall j | 0 <= j < i + 1 && Active(env, nu, next[j]) :: StoreUnder(m', nu) == StoreUnder(next[j], nu)
    {
      FoldUnder(env, cs, i, m, m', next, nu);
    }
  }

  lemma {:induction false} FoldUnder(env: Env, cs: seq<Context>, i: nat, m: Context, m': Context, next: seq<Context>,
        nu: Valuation)
    requires i < |cs| && next == cs[..i + 1] && Represents(env, cs[..i], m) && Represents(env, [m, cs[i]], m')
            && Satisfies(env, nu, m'.store)
    ensures Active(env, nu, m') <==> exists j :: 0 <= j < i + 1 && Active(env, nu, next[j])
    ensures forall j | 0 <= j < i + 1 && Active(env, nu, next[j]) :: StoreUnder(m', nu) == StoreUnder(next[j], nu)
  {
    assert [m, cs[i]][0] == m && [m, cs[i]][1] == cs[i] && next[i] == cs[i];
    assert Within(m.store, m'.store);
    SatisfiesLess(env, nu, m'.store, m.store);
    forall j | 0 <= j < i ensures next[j] == cs[..i][j] {}
    assert Active(env, nu, m') <==> Active(env, nu, m) || Active(env, nu, cs[i]);
    if Active(env, nu, m) {
      var j :| 0 <= j < i && Active(env, nu, cs[..i][j]);
      assert Active(env, nu, next[j]);
    }
    forall j | 0 <= j < i + 1 && Active(env, nu, next[j]) ensures Active(env, nu, m')
            && StoreUnder(m', nu) == StoreUnder(next[j], nu) {
      if j < i {
        assert Active(env, nu, cs[..i][j]) && StoreUnder(m, nu) == StoreUnder(cs[..i][j], nu);
        assert StoreUnder(m', nu) == StoreUnder([m, cs[i]][0], nu);
      } else {
        assert StoreUnder(m', nu) == StoreUnder([m, cs[i]][1], nu);
      }
    }
  }

  // ---------- merge points ----------

  predicate PlainEdge(e: Edge) {
    !e.kind.CallToReturn? && !e.kind.InterproceduralCall? && !e.kind.InterproceduralReturn?
  }

  // Labels at which several paths of the program meet, and the exit.
  ghost predicate Joins(g: Graph, l: int) {
    l in g.vertices &&
    match g.vertices[l]
    case EntryVertex => false
    case Regular(_) => |Incoming(g.edges, l)| > 1 && forall e | e in Incoming(g.edges, l) :: PlainEdge(e)
    case ExitVertex => true
  }

  // These labels are the exit, and the vertices into which two edges lead, none of them from or to a
  // callee or around a call.
  lemma {:induction false} JoinsExactly(g: Graph, l: int)
    ensures Joins(g, l) <==>
            && l in g.vertices
            && (g.vertices[l].ExitVertex?
                || (&& g.vertices[l].Regular?
                    && (exists i, j :: 0 <= i < j < |g.edges| && g.edges[i].target == l && g.edges[j].target == l)
                    && forall e | e in g.edges && e.target == l ::
                         e.kind.Intraprocedural? || e.kind.TrueBranch? || e.kind.FalseBranch?))
  {
    IncomingCounts(g.edges, l);
    PlainInto(g.edges, l);
  }

  lemma {:induction false} PlainInto(edges: seq<Edge>, l: int)
    ensures (forall e | e in Incoming(edges, l) :: PlainEdge(e)) <==>
            forall e | e in edges && e.target == l ::
              e.kind.Intraprocedural? || e.kind.TrueBranch? || e.kind.FalseBranch?
  {
    var into := Incoming(edges, l);
    forall e ensures e in into <==> e in edges && e.target == l {
      if e in edges && e.target == l { IncomingComplete(edges, e); }
    }
  }

  class Merger {
    const executor: Executor
    var mergePoints: set<MergePoint>
    var mergePointToContexts: Queues
    ghost var merged: seq<int>   // the labels of the merge points that were merged so far, in order

    constructor (executor: Executor)
      ensures this.executor == executor && mergePoints == {} && mergePointToContexts == map[]
    {
      this.executor := executor;
      mergePoints, mergePointToContexts, merged := {}, map[], [];
    }

    method Initialize(g: Graph, frame: CallFrame)
      requires mergePoints == {} && mergePointToContexts == map[]
      modifies `mergePoints, `mergePointToContexts
      ensures forall mp :: mp in mergePoints <==>
              Joins(g, mp.vertexLabel)
              && mp == MergePoint(frame.scope, frame.depth, mp.vertexLabel, frame.returnLabel)
      ensures mergePointToContexts.Keys == mergePoints && forall mp | mp in mergePoints ::
              mergePointToContexts[mp] == []
    {
      InitializeMergePoints(g, frame);
      mergePointToContexts := map mp | mp in mergePoints :: [];
    }

    method InitializeMergePoints(g: Graph, frame: CallFrame)
      requires mergePoints == {}
      modifies `mergePoints
      ensures forall mp :: mp in mergePoints <==>
              Joins(g, mp.vertexLabel)
              && mp == MergePoint(frame.scope, frame.depth, mp.vertexLabel, frame.returnLabel)
    {
      var labels := g.vertices.Keys;
      ghost var seen: set<int> := {};
      while exists l :: l in labels
        invariant labels + seen == g.vertices.Keys && labels !! seen
        invariant forall mp :: mp in mergePoints <==>
                mp.vertexLabel in seen && Joins(g, mp.vertexLabel)
                && mp == MergePoint(frame.scope, frame.depth, mp.vertexLabel, frame.returnLabel)
        decreases labels
      {
        var l :| l in labels;
        var mp := MergePoint(frame.scope, frame.depth, l, frame.returnLabel);
        var joins := IsJoin(g, l);
        if joins {
          mergePoints := mergePoints + {mp};
        }
        labels, seen := labels - {l}, seen + {l};
      }
    }

    method IsJoin(g: Graph, l: int) returns (joins: bool)
      requires l in g.vertices
      ensures joins <==> Joins(g, l)
    {
      match g.vertices[l]
      case EntryVertex => joins := false;
      case ExitVertex => joins := true;
      case Regular(_) =>
        var incomingEdges := Incoming(g.edges, l);
        joins := |incomingEdges| > 1;
        var i := 0;
        while i < |incomingEdges|
          invariant 0 <= i <= |incomingEdges|
          invariant joins <==> |incomingEdges| > 1 && forall k | 0 <= k < i :: PlainEdge(incomingEdges[k])
        {
          if !PlainEdge(incomingEdges[i]) {
            joins := false;
          }
          i := i + 1;
        }
    }

    predicate ReachedMergePoint(c: Context)
      reads this
    {
      PointOf(c) in mergePoints
    }

    predicate IsEmpty()
      reads this
    {
      forall mp | mp in mergePointToContexts :: mergePointToContexts[mp] == []
    }

    method Push(c: Context)
      requires PointOf(c) in mergePointToContexts
      modifies `mergePointToContexts
      ensures mergePointToContexts ==
              old(mergePointToContexts)[PointOf(c) := old(mergePointToContexts)[PointOf(c)] + [c]]
    {
      mergePointToContexts := mergePointToContexts[PointOf(c) := mergePointToContexts[PointOf(c)] + [c]];
    }

    // The non-empty merge point that no other one comes before.
    method Select() returns (eligible: MergePoint)
      requires !IsEmpty()
      ensures eligible in mergePointToContexts && mergePointToContexts[eligible] != []
      ensures forall mp | mp in mergePointToContexts && mergePointToContexts[mp] != [] ::
                && mp.depth <= eligible.depth
                && (mp.depth == eligible.depth ==> eligible.returnLabel <= mp.returnLabel)
                && (mp.depth == eligible.depth && mp.returnLabel == eligible.returnLabel ==>
                      eligible.vertexLabel <= mp.vertexLabel)
      ensures forall mp | mp in mergePointToContexts && mergePointToContexts[mp] != [] :: !Before(mp, eligible)
    {
      eligible :| eligible in mergePointToContexts && mergePointToContexts[eligible] != [];
      var todo := mergePointToContexts.Keys;
      while exists mp :: mp in todo
        invariant todo <= mergePointToContexts.Keys
        invariant eligible in mergePointToContexts && mergePointToContexts[eligible] != []
        invariant forall mp | mp in mergePointToContexts && mp !in todo && mergePointToContexts[mp] != [] ::
                !Before(mp, eligible)
        decreases todo
      {
        var mp :| mp in todo;
        todo := todo - {mp};
        if mergePointToContexts[mp] == [] {
          // only non-empty merge points count
        } else if eligible.depth < mp.depth {
          eligible := mp;
        } else if eligible.depth == mp.depth && eligible.returnLabel > mp.returnLabel {
          eligible := mp;
        } else if eligible.depth == mp.depth && eligible.returnLabel == mp.returnLabel
              && eligible.vertexLabel > mp.vertexLabel {
          eligible := mp;
        }
      }
    }

    // All contexts of the selected merge point become one.
    method Merge(ghost env: Env, ghost W0: World, ghost cycle: nat)
          returns (m: Context, ghost mp: MergePoint, ghost cs: seq<Context>, ghost W: World)
      requires !IsEmpty() && Sound(env, executor.oracle)
      requires executor.version == W0.global && WorldOk(env, W0, Elements(executor.vars), cycle)
              && Distinct(executor.vars)
      requires forall p | p in mergePointToContexts :: QueueOk(env, W0, Elements(executor.vars), cycle, p,
              mergePointToContexts[p])
      modifies `mergePointToContexts, `merged, executor`version
      ensures merged == old(merged) + [mp.vertexLabel]
      ensures mp in old(mergePointToContexts) && cs == old(mergePointToContexts)[mp] && cs != []
      ensures forall p | p in old(mergePointToContexts) && old(mergePointToContexts)[p] != [] :: !Before(p, mp)
      ensures mergePointToContexts == old(mergePointToContexts)[mp := []]
      ensures executor.version == W.global && WorldOk(env, W, Elements(executor.vars), cycle)
      ensures Gains(W0, W, m) && ContextOk(W, Elements(executor.vars), cycle, m) && Represents(env, cs, m)
    {
      var eligible := Select();
      mp := eligible;
      var contexts := mergePointToContexts[eligible];
      cs := contexts;
      assert QueueOk(env, W0, Elements(executor.vars), cycle, mp, cs);
      mergePointToContexts := mergePointToContexts[eligible := []];
      merged := merged + [eligible.vertexLabel];
      m := contexts[0];
      W := W0;
      SingleRepresents(env, m);
      assert cs[..1] == [m];
      var i := 1;
      while i < |contexts|
        invariant 1 <= i <= |contexts| && mergePointToContexts == old(mergePointToContexts)[mp := []]
        invariant merged == old(merged) + [mp.vertexLabel]
        invariant executor.version == W.global && WorldOk(env, W, Elements(executor.vars), cycle)
        invariant Gains(W0, W, m) && ContextOk(W, Elements(executor.vars), cycle, m) && Represents(env, cs[..i], m)
        invariant m.frame == cs[0].frame && m.vertexLabel == cs[0].vertexLabel
      {
        m, W := MergeNext(env, W0, W, cycle, mp, contexts, i, m);
        i := i + 1;
      }
      assert cs[..|cs|] == cs;
    }

    // One round of the fold.
    method MergeNext(ghost env: Env, ghost W0: World, ghost W1: World, ghost cycle: nat, ghost mp: MergePoint,
          cs: seq<Context>, i: nat, m: Context) returns (r: Context, ghost W: World)
      requires 1 <= i < |cs| && Sound(env, executor.oracle) && Distinct(executor.vars)
              && QueueOk(env, W0, Elements(executor.vars), cycle, mp, cs)
      requires executor.version == W1.global && WorldOk(env, W1, Elements(executor.vars), cycle)
      requires Gains(W0, W1, m) && ContextOk(W1, Elements(executor.vars), cycle, m) && Represents(env, cs[..i], m)
      requires m.frame == cs[0].frame && m.vertexLabel == cs[0].vertexLabel
      modifies executor`version
      ensures executor.version == W.global && WorldOk(env, W, Elements(executor.vars), cycle)
      ensures Gains(W0, W, r) && ContextOk(W, Elements(executor.vars), cycle, r) && Represents(env, cs[..i + 1], r)
      ensures r.frame == m.frame && r.vertexLabel == m.vertexLabel
    {
      FoldExclusive(env, cs, i, m);
      assert PointOf(cs[i]) == mp && PointOf(cs[0]) == mp;
      assert ContextOk(W0, Elements(executor.vars), cycle, cs[i]);
      ContextExtended(W0, W1, Elements(executor.vars), cycle, cs[i]);
      r, W := MergePair(env, W1, m, cs[i]);
      FoldRepresents(env, cs, i, m, r);
      GainsTransitive(env, W0, W1, W, m, cs[i], r);
    }

    method MergePair(ghost env: Env, ghost W0: World, c: Context, d: Context) returns (m: Context, ghost W: World)
      requires Sound(env, executor.oracle) && Distinct(executor.vars)
      requires executor.version == W0.global && WorldOk(env, W0, Elements(executor.vars), c.cycle)
      requires ContextOk(W0, Elements(executor.vars), c.cycle, c) && ContextOk(W0, Elements(executor.vars), c.cycle, d)
      requires Exclusive(env, c, d) && c.frame == d.frame && c.vertexLabel == d.vertexLabel
      modifies executor`version
      ensures executor.version == W.global && WorldOk(env, W, Elements(executor.vars), c.cycle)
      ensures Gains(W0, W, m) && ContextOk(W, Elements(executor.vars), c.cycle, m) && Represents(env, [c, d], m)
      ensures m.frame == c.frame && m.vertexLabel == c.vertexLabel
    {
      var vars := executor.vars;
      var pathConstraint := [MergedConstraint(executor.oracle, c, d)];
      var store := UnionStores(c, d, W0, Elements(vars));
      var version: map<string, nat> := map[];
      W := W0;
      MergeStarts(env, c, d, W0, Elements(vars));
      var i := 0;
      while i < |vars|
        invariant 0 <= i <= |vars|
        invariant executor.version == W.global
        invariant MergedUpTo(env, c, d, vars[..i], W0, W, Elements(vars), store, version)
      {
        store, version, W := MergeVariable(env, c, d, i, W0, W, store, version);
        i := i + 1;
      }
      assert vars[..|vars|] == vars;
      m := Context(c.cycle, c.frame, c.vertexLabel, pathConstraint, store, version);
      MergeRepresents(env, executor.oracle, c, d, vars, W0, W, Elements(vars), m);
      MergedContextOk(env, executor.oracle, c, d, vars, W0, W, Elements(vars), m);
    }

    // The shared definitions are the same in both contexts.
    method UnionStores(c: Context, d: Context, ghost W: World, ghost vars: set<string>) returns (store: SymbolicStore)
      requires ContextOk(W, vars, c.cycle, c) && ContextOk(W, vars, c.cycle, d)
      ensures store == Union(c.store, d.store)
    {
      store := c.store;
      var todo := d.store.Keys;
      while exists n :: n in todo
        invariant todo <= d.store.Keys
        invariant forall n :: n in store <==> n in c.store || (n in d.store && n !in todo)
        invariant forall n | n in store :: store[n] == if n in c.store then c.store[n] else d.store[n]
        decreases todo
      {
        var n :| n in todo;
        todo := todo - {n};
        if n in store {
          ContextsAgree(W, vars, c.cycle, c, d, n);
          assert c.store[n] == d.store[n];
        } else {
          store := store[n := d.store[n]];
        }
      }
    }

    // Merging on one variable of the interface.
    method MergeVariable(ghost env: Env, c: Context, d: Context, i: nat, ghost W0: World, ghost W1: World,
          store: SymbolicStore, version: map<string, nat>)
      returns (store': SymbolicStore, version': map<string, nat>, ghost W: World)
      requires i < |executor.vars| && Sound(env, executor.oracle) && Distinct(executor.vars)
              && executor.version == W1.global
      requires ContextOk(W0, Elements(executor.vars), c.cycle, c) && ContextOk(W0, Elements(executor.vars), c.cycle, d)
      requires MergedUpTo(env, c, d, executor.vars[..i], W0, W1, Elements(executor.vars), store, version)
      modifies executor`version
      ensures executor.version == W.global
      ensures MergedUpTo(env, c, d, executor.vars[..i + 1], W0, W, Elements(executor.vars), store', version')
    {
      var x := executor.vars[i];
      MergedVariable(c, d, executor.vars, i, W0, W1);
      OneMoreVariable(executor.vars, i);
      if c.version[x] != d.version[x] {
        W := WithFresh(executor.oracle, c, d, W1, x);
        store' := AddFreshVersion(c, d, x, store);
        version' := version[x := executor.version[x]];
        MergedFresh(env, executor.oracle, c, d, executor.vars[..i], x, executor.vars[..i + 1],
              Elements(executor.vars), W0, W1, store, version, W, store', version');
      } else {
        SameVersionMerged(env, c, d, executor.vars[..i], W0, W1, Elements(executor.vars), store, version, x);
        store', version', W := store, version[x := c.version[x]], W1;
      }
    }

    // The version after the highest of all, which need not be one of the two contexts.
    method AddFreshVersion(c: Context, d: Context, x: string, store: SymbolicStore) returns (store': SymbolicStore)
      requires x in executor.version && x in c.version && x in d.version && Newest(c, x) in c.store
              && Newest(d, x) in d.store
      modifies executor`version
      ensures executor.version == old(executor.version)[x := old(executor.version)[x] + 1]
      ensures store' == store[Versioned(x, old(executor.version)[x] + 1,
              c.cycle) := MergedExpression(executor.oracle, c, d, x)]
    {
      var v := executor.version[x] + 1;
      executor.version := executor.version[x := v];
      var contextualizedName := Versioned(x, v, c.cycle);
      var e1, e2 := c.store[Newest(c, x)], d.store[Newest(d, x)];
      if e1 == e2 {
        store' := store[contextualizedName := e1];
      } else {
        store' := store[contextualizedName := executor.oracle.simplify(Ite(MkAnd(c.pathConstraint),
              Symbol(Newest(c, x)), Symbol(Newest(d, x))))];
      }
    }
  }

  ghost predicate Distinct(xs: seq<string>) {
    forall i, j | 0 <= i < j < |xs| :: xs[i] != xs[j]
  }

  lemma {:induction false} MergedVariable(c: Context, d: Context, xs: seq<string>, i: nat, W0: World, W: World)
    requires i < |xs| && ContextOk(W0, Elements(xs), c.cycle, c) && ContextOk(W0, Elements(xs), c.cycle, d)
    ensures var x := xs[i];
            x in c.version && x in d.version && Newest(c, x) in c.store && Newest(d, x) in d.store && x in Elements(xs)
  {
  }

  lemma {:induction false} OneMoreVariable(xs: seq<string>, i: nat)
    requires i < |xs| && Distinct(xs)
    ensures xs[..i + 1] == xs[..i] + [xs[i]] && xs[i] !in xs[..i] && xs[i] in Elements(xs)
  {
  }

  lemma {:induction false} MergedFresh(env: Env, oracle: Oracle, c: Context, d: Context, xs: seq<string>, x: string,
        ys: seq<string>, vars: set<string>, W0: World, W: World, store: SymbolicStore, version: map<string, nat>,
                    W': World, store': SymbolicStore, version': map<string, nat>)
    requires Sound(env, oracle) && ys == xs + [x] && x !in xs && x in vars
    requires ContextOk(W0, vars, c.cycle, c) && ContextOk(W0, vars, c.cycle, d)
    requires MergedUpTo(env, c, d, xs, W0, W, vars, store, version)
    requires W' == WithFresh(oracle, c, d, W, x)
    requires store' == store[Versioned(x, W.global[x] + 1, c.cycle) := MergedExpression(oracle, c, d, x)]
            && version' == version[x := W.global[x] + 1]
    ensures MergedUpTo(env, c, d, ys, W0, W', vars, store', version')
  {
    FreshVersionMerged(env, oracle, c, d, xs, W0, W, vars, store, version, x);
  }

  lemma {:induction false} GainsTransitive(env: Env, A: World, B: World, C: World, m: Context, d: Context, r: Context)
    requires Gains(A, B, m) && Gains(B, C, r) && Represents(env, [m, d], r)
    ensures Gains(A, C, r)
  {
    ExtendsTransitive(A, B, C);
    assert [m, d][0] == m;
    assert Within(m.store, r.store);
  }
}
