// The graph in SSA form computes what the original graph computes.

module SsaMeaning {
  import opened Ir
  import opened Machines
  import opened Cfg
  import opened Tac
  import opened SsaTable
  import opened SsaNames
  import opened SsaLog
  import opened SsaBlocks

  // ---------- running a graph in SSA form ----------

  ghost predicate DistinctNames(T: Table) {
    forall v, w | v in T.variables && w in T.variables && T.variables[v] == T.variables[w] :: v == w
  }

  function NameOf(T: Table, v: int): string {
    if v in T.variables then T.variables[v] else ""
  }

  // Entering block l from block q, its phis take the values of the operands for that edge, all at once.
  ghost function EnterBlock(g: Graph, T: Table, q: int, l: int, vars: Store): Store
    requires DistinctNames(T) && T.phis.Keys <= T.variables.Keys
  {
    vars + PhiStore(g, T, q, l, vars)
  }

  ghost function PhiStore(g: Graph, T: Table, q: int, l: int, vars: Store): Store
    requires DistinctNames(T) && T.phis.Keys <= T.variables.Keys
  {
    map w | w in T.phis && T.phis[w].block == l :: T.variables[w] := Lookup(vars,
          NameOf(T, OperandFrom(g, T.phis[w], q)))
  }

  ghost function SsaStepAt(env: Env, T: Table, r: Graph, c: Config): Config
    requires DistinctNames(T) && T.phis.Keys <= T.variables.Keys
  {
    if c.pc !in r.vertices || r.vertices[c.pc].ExitVertex? then c
    else
      var d := StepAt(env, r, c);
      Config(d.pc, d.st.(vars := EnterBlock(r, T, c.pc, d.pc, d.st.vars)))
  }

  ghost function SsaStep(env: Env, T: Table, r: Graph): Config -> Config
    requires DistinctNames(T) && T.phis.Keys <= T.variables.Keys
  {
    c => SsaStepAt(env, T, r, c)
  }

  // ---------- what the tables say about values ----------

  ghost predicate OwnNamed(T: Table, own: Own, x: string, l: int) {
    (x, l) in own ==>
            own[(x, l)] in T.variables && own[(x, l)] in T.origin && T.origin[own[(x, l)]] == l
            && own[(x, l)] !in T.phis
  }

  ghost predicate Resolvable(g: Graph, rank: int -> nat, own: Own, T: Table) {
    && Ranked(g, rank)
    && (forall w {:trigger PhiNamed(T, rank, w)} | w in T.phis :: PhiNamed(T, rank, w) && T.phis[w].value == w
          && |T.phis[w].operands| == |Preds(g, T.phis[w].block)|)
    && (forall v | v in T.variables :: v in T.origin && NamesValue(T.variables[v], v))
    && (forall x, l {:trigger OwnNamed(T, own, x, l)} :: OwnNamed(T, own, x, l))
  }

  lemma {:induction false} FillResolvable(S: Fill)
    requires FillOk(S)
    ensures Resolvable(S.F.g, S.F.rank, S.F.own, S.T)
  {
    forall w | w in S.T.phis
      ensures S.T.phis[w].value == w
    {
      assert PhiOk(S.F.g, S.F.rank, S.T.phis, S.F.open, S.T.next, w);
    }
    forall x, l ensures OwnNamed(S.T, S.F.own, x, l) {
      if (x, l) in S.F.own {
        assert OwnAt(S.T, S.F.own, x, l);
        assert Recorded(S.T.defs, x, l);
        assert NamedAt(S.T, S.F.rank, S.T.defs[x][l], S.F.rank(l));
      }
    }
  }

  lemma {:induction false} NamesDistinct(g: Graph, rank: int -> nat, own: Own, T: Table)
    requires Resolvable(g, rank, own, T)
    ensures DistinctNames(T) && T.phis.Keys <= T.variables.Keys
  {
    forall v, w | v in T.variables && w in T.variables && T.variables[v] == T.variables[w] ensures v == w {
      NamesInjective(T.variables[v], v, w);
    }
    forall w | w in T.phis ensures w in T.variables { assert PhiNamed(T, rank, w); }
  }

  lemma {:induction false} PathRanked(g: Graph, rank: int -> nat, p: seq<int>, l: int, k: int)
    requires Ranked(g, rank) && PathTo(g, p, l) && k in p
    ensures rank(k) <= rank(l)
    decreases |p|
  {
    if k != l {
      PathFront(g, p, l);
      var i :| 0 <= i < |p| && p[i] == k;
      assert k in p[..|p| - 1];
      PathRanked(g, rank, p[..|p| - 1], p[|p| - 2], k);
      var j :| 0 <= j < |Preds(g, l)| && Preds(g, l)[j] == p[|p| - 2];
      PredsRanked(g, rank, l, j);
    }
  }

  // The operand for an edge into the block of a phi has a variable, and an origin before the block.
  lemma {:induction false} OperandNamed(g: Graph, rank: int -> nat, own: Own, T: Table, w: int, q: int)
    requires Resolvable(g, rank, own, T) && w in T.phis && q in Preds(g, T.phis[w].block)
    ensures var op := OperandFrom(g, T.phis[w], q);
            op in T.variables && op in T.origin && rank(T.origin[op]) < rank(T.phis[w].block)
  {
    assert PhiNamed(T, rank, w);
    assert NamedAt(T, rank, T.phis[w].operands[IndexOf(Preds(g, T.phis[w].block), q)], rank(T.phis[w].block) - 1);
  }

  // Resolving a value leads to itself, or from a phi on the path to a value from before that phi.
  lemma {:induction false} ResolveMoves(g: Graph, rank: int -> nat, own: Own, T: Table, v: int, p: seq<int>, l: int)
    requires Resolvable(g, rank, own, T) && PathTo(g, p, l) && v in T.variables
    ensures var u := Resolve(g, T.phis, v, p);
            && u in T.variables && u in T.origin
            && (u == v || (v in T.phis && T.phis[v].block in p && rank(T.origin[u]) < rank(T.phis[v].block)))
    decreases |p|
  {
    if |p| > 1 {
      var q, front := p[|p| - 2], p[..|p| - 1];
      PathFront(g, p, l);
      if v in T.phis && T.phis[v].block == l {
        OperandNamed(g, rank, own, T, v, q);
        var op := OperandFrom(g, T.phis[v], q);
        ResolveMoves(g, rank, own, T, op, front, q);
        if Resolve(g, T.phis, op, front) != op { assert PhiNamed(T, rank, op); }
      } else {
        ResolveMoves(g, rank, own, T, v, front, q);
      }
    }
  }

  lemma {:induction false} LastDefinitionNamed(g: Graph, rank: int -> nat, own: Own, T: Table, x: string, p: seq<int>)
    requires Resolvable(g, rank, own, T) && LastDefinition(own, x, p) != -1
    ensures var u := LastDefinition(own, x, p); u in T.variables && u in T.origin && T.origin[u] in p && u !in T.phis
    decreases |p|
  {
    var l := p[|p| - 1];
    if (x, l) in own {
      assert OwnNamed(T, own, x, l);
    } else {
      LastDefinitionNamed(g, rank, own, T, x, p[..|p| - 1]);
    }
  }

  // ---------- stores of the two graphs on a path ----------

  // Every value has the value that it resolves to on the path.
  ghost predicate Follows(g: Graph, T: Table, p: seq<int>, ss: Store) {
    forall v {:trigger T.variables[v]} | v in T.variables ::
      Lookup(ss, T.variables[v]) == Lookup(ss, NameOf(T, Resolve(g, T.phis, v, p)))
  }

  // Every variable that was defined on the path has the value of its last definition.
  ghost predicate Agrees(T: Table, own: Own, p: seq<int>, vars: Store, ss: Store) {
    forall x {:trigger LastDefinition(own, x, p)} | !IsConstantName(x) && LastDefinition(own, x, p) != -1 ::
      Lookup(vars, x) == Lookup(ss, NameOf(T, LastDefinition(own, x, p)))
  }

  lemma {:induction false} EnterBlockAt(g: Graph, T: Table, q: int, l: int, vars: Store, v: int)
    requires DistinctNames(T) && T.phis.Keys <= T.variables.Keys && v in T.variables
    ensures Lookup(EnterBlock(g, T, q, l, vars), T.variables[v])
         == if v in T.phis && T.phis[v].block == l then Lookup(vars, NameOf(T, OperandFrom(g, T.phis[v], q)))
               else Lookup(vars, T.variables[v])
  {
    var phis := PhiStore(g, T, q, l, vars);
    if v in T.phis && T.phis[v].block == l {
      assert T.variables[v] in phis;
    } else {
      assert T.variables[v] !in phis;
    }
  }

  // Entering a block keeps what is known about the path so far, and adds its phis.
  lemma {:induction false} EnterFollows(g: Graph, rank: int -> nat, own: Own, T: Table, p: seq<int>, l: int, ss: Store)
    requires Resolvable(g, rank, own, T) && DistinctNames(T) && T.phis.Keys <= T.variables.Keys
    requires |p| > 1 && PathTo(g, p, l) && Follows(g, T, p[..|p| - 1], ss)
    ensures Follows(g, T, p, EnterBlock(g, T, p[|p| - 2], l, ss))
  {
    var q, front, after := p[|p| - 2], p[..|p| - 1], EnterBlock(g, T, p[|p| - 2], l, ss);
    PathFront(g, p, l);
    var j :| 0 <= j < |Preds(g, l)| && Preds(g, l)[j] == q;
    PredsRanked(g, rank, l, j);
    forall v | v in T.variables
      ensures Lookup(after, T.variables[v]) == Lookup(after, NameOf(T, Resolve(g, T.phis, v, p)))
    {
      EnterBlockAt(g, T, q, l, ss, v);
      var w := if v in T.phis && T.phis[v].block == l then OperandFrom(g, T.phis[v], q) else v;
      if w != v { OperandNamed(g, rank, own, T, v, q); } else if v in T.phis
            && T.phis[v].block == l { OperandNamed(g, rank, own, T, v, q); }
      ResolveMoves(g, rank, own, T, w, front, q);
      var u := Resolve(g, T.phis, w, front);
      assert Lookup(ss, T.variables[w]) == Lookup(ss, T.variables[u]);
      EnterBlockAt(g, T, q, l, ss, u);
      if u != v && u in T.phis {
        assert PhiNamed(T, rank, u);
        if u != w { PathRanked(g, rank, front, q, T.phis[w].block); }
      }
    }
  }

  lemma {:induction false} EnterAgrees(g: Graph, rank: int -> nat, own: Own, T: Table, p: seq<int>, q: int, l: int,
        vars: Store, ss: Store)
    requires Resolvable(g, rank, own, T) && DistinctNames(T) && T.phis.Keys <= T.variables.Keys
    requires Agrees(T, own, p, vars, ss)
    ensures Agrees(T, own, p, vars, EnterBlock(g, T, q, l, ss))
  {
    forall x | !IsConstantName(x) && LastDefinition(own, x, p) != -1
      ensures Lookup(vars, x) == Lookup(EnterBlock(g, T, q, l, ss), NameOf(T, LastDefinition(own, x, p)))
    {
      LastDefinitionNamed(g, rank, own, T, x, p);
      EnterBlockAt(g, T, q, l, ss, LastDefinition(own, x, p));
    }
  }

  // ---------- running a block ----------

  // Only values that instructions of block l define have changed.
  ghost predicate Changed(T: Table, l: int, ss: Store, ss': Store) {
    forall v {:trigger T.variables[v]} | v in T.variables && v in T.origin && (T.origin[v] != l || v in T.phis) ::
      Lookup(ss', T.variables[v]) == Lookup(ss, T.variables[v])
  }

  lemma {:induction false} LastNotIn(g: Graph, rank: int -> nat, p: seq<int>, l: int)
    requires Ranked(g, rank) && PathTo(g, p, l) && |p| > 1
    ensures l !in p[..|p| - 1]
  {
    PathFront(g, p, l);
    var q := p[|p| - 2];
    var j :| 0 <= j < |Preds(g, l)| && Preds(g, l)[j] == q;
    PredsRanked(g, rank, l, j);
    forall k | k in p[..|p| - 1] ensures rank(k) < rank(l) {
      PathRanked(g, rank, p[..|p| - 1], q, k);
    }
  }

  lemma {:induction false} FollowsKept(g: Graph, rank: int -> nat, own: Own, T: Table, p: seq<int>, l: int,
        ss: Store, ss': Store)
    requires Resolvable(g, rank, own, T) && PathTo(g, p, l) && Follows(g, T, p, ss) && Changed(T, l, ss, ss')
    ensures Follows(g, T, p, ss')
  {
    forall v | v in T.variables
      ensures Lookup(ss', T.variables[v]) == Lookup(ss', NameOf(T, Resolve(g, T.phis, v, p)))
    {
      ResolveMoves(g, rank, own, T, v, p, l);
      var u := Resolve(g, T.phis, v, p);
      if u != v {
        PathRanked(g, rank, p, l, T.phis[v].block);
        assert T.origin[u] != l;
        assert Lookup(ss, T.variables[v]) == Lookup(ss, T.variables[u]);
        assert Lookup(ss', T.variables[u]) == Lookup(ss, T.variables[u]);
      }
    }
  }

  // Inside block l, at the end of path p: x has the value of its definition in the block if there
  // is one in `before`, and of the last definition in front of the block otherwise.
  ghost predicate HoldsFor(T: Table, own: Own, p: seq<int>, before: map<string, int>, x: string, vars: Store, ss: Store)
    requires p != []
  {
    var u := if x in before then before[x] else LastDefinition(own, x, p[..|p| - 1]);
    u != -1 && !IsConstantName(x) ==> Lookup(vars, x) == Lookup(ss, NameOf(T, u))
  }

  ghost predicate Inside(g: Graph, T: Table, own: Own, p: seq<int>, l: int, before: map<string, int>, vars: Store,
        ss: Store) {
    && PathTo(g, p, l) && |p| > 1 && Follows(g, T, p, ss)
    && (forall x {:trigger HoldsFor(T, own, p, before, x, vars, ss)} :: HoldsFor(T, own, p, before, x, vars, ss))
    && (forall x | x in before :: before[x] >= 0 && DefinedAt(T, before[x], l, SsaName(x, before[x])))
  }

  ghost predicate FixedName(cs: seq<Fixed>, n: string) {
    exists k :: 0 <= k < |cs| && n == ConstantName(cs[k].value)
  }

  function Literal(e: Expr): int {
    if e.IntegerConstant? then e.n else if e.BooleanConstant? then OfBool(e.b) else 0
  }

  lemma {:induction false} ConstantNamesDiffer(T: Table, cs: seq<Fixed>, l: int, j: int, k: int)
    requires ConstantsOk(T, cs, l) && 0 <= j < k < |cs|
    ensures ConstantName(cs[j].value) != ConstantName(cs[k].value)
  {
    var a, b := ConstantName(cs[j].value), ConstantName(cs[k].value);
    assert Digits(cs[j].value) == a[5..] && Digits(cs[k].value) == b[5..];
    if a == b { DigitsInjective(cs[j].value, cs[k].value); }
  }

  // The variables of the constants have their values, all others those that they had in `start`.
  ghost predicate ConstantsHold(cs: seq<Fixed>, start: Store, vars: Store) {
    && (forall k | 0 <= k < |cs| :: Lookup(vars, ConstantName(cs[k].value)) == Literal(cs[k].literal))
    && (forall n | !FixedName(cs, n) :: Lookup(vars, n) == Lookup(start, n))
  }

  // The assignments of constants set their variables, and nothing else.
  lemma {:induction false} ConstantsRun(env: Env, T: Table, cs: seq<Fixed>, l: int, st: State)
    requires ConstantsOk(T, cs, l)
    ensures RunBlock(env, ConstantAssigns(cs), st).consumed == st.consumed
    ensures ConstantsHold(cs, st.vars, RunBlock(env, ConstantAssigns(cs), st).vars)
    decreases |cs|
  {
    if cs != [] {
      var m := |cs| - 1;
      var front := cs[..m];
      FrontConstants(T, cs, front, l);
      ConstantsRun(env, T, front, l, st);
      LastInstr(env, ConstantAssigns(front), Assign(ConstantName(cs[m].value), cs[m].literal), st);
      ConstantAdded(cs, front, st.vars, RunBlock(env, ConstantAssigns(front), st).vars,
            RunBlock(env, ConstantAssigns(cs), st).vars);
    }
  }

  lemma {:induction false} FrontConstants(T: Table, cs: seq<Fixed>, front: seq<Fixed>, l: int)
    requires ConstantsOk(T, cs, l) && cs != [] && front == cs[..|cs| - 1]
    ensures ConstantsOk(T, front, l)
    ensures forall k | 0 <= k < |front| :: ConstantName(cs[k].value) != ConstantName(cs[|front|].value)
  {
    forall k | 0 <= k < |front| ensures front[k] == cs[k] {}
    forall k | 0 <= k < |front| ensures ConstantName(cs[k].value) != ConstantName(cs[|front|].value) {
      ConstantNamesDiffer(T, cs, l, k, |front|);
    }
  }

  // `vars` after the assignments in front of the last one, `vars'` after it.
  lemma {:induction false} ConstantAdded(cs: seq<Fixed>, front: seq<Fixed>, start: Store, vars: Store, vars': Store)
    requires cs != [] && front == cs[..|cs| - 1]
    requires forall k | 0 <= k < |front| :: ConstantName(cs[k].value) != ConstantName(cs[|front|].value)
    requires ConstantsHold(front, start, vars)
    requires vars' == vars[ConstantName(cs[|front|].value) := Literal(cs[|front|].literal)]
    ensures ConstantsHold(cs, start, vars')
  {
    forall k | 0 <= k < |cs| ensures Lookup(vars', ConstantName(cs[k].value)) == Literal(cs[k].literal) {
      if k < |front| { assert front[k] == cs[k]; }
    }
    forall n | !FixedName(cs, n) ensures Lookup(vars', n) == Lookup(start, n) {
      forall k | 0 <= k < |front| ensures n != ConstantName(front[k].value) {
        assert front[k] == cs[k];
      }
      assert !FixedName(front, n) && n != ConstantName(cs[|front|].value);
    }
  }

  // The value that stands for x in block l has the value of x, and is none of the block's constants.
  lemma {:induction false} UseMeans(F: Frame, T: Table, p: seq<int>, l: int, x: string, v: int,
        before: map<string, int>, cs: seq<Fixed>, vars: Store, ss: Store)
    requires Resolvable(F.g, F.rank, F.own, T) && Inside(F.g, T, F.own, p, l, before, vars, ss)
    requires UseOk(F, T, x, l, v, before) && !IsConstantName(x) && ConstantsOk(T, cs, l)
    ensures Lookup(vars, x) == Lookup(ss, T.variables[v]) && !FixedName(cs, T.variables[v])
  {
    assert HoldsFor(T, F.own, p, before, x, vars, ss);
    if x in before {
      forall k | 0 <= k < |cs| ensures SsaName(x, v) != ConstantName(cs[k].value) { ConstantPlain(cs[k].value, x, v); }
    } else {
      var u := Resolve(F.g, T.phis, v, p);
      ResolveMoves(F.g, F.rank, F.own, T, v, p, l);
      LastDefinitionNamed(F.g, F.rank, F.own, T, x, p[..|p| - 1]);
      LastNotIn(F.g, F.rank, p, l);
      NamesDistinct(F.g, F.rank, F.own, T);
      assert Lookup(ss, T.variables[v]) == Lookup(ss, T.variables[u]);
      forall k | 0 <= k < |cs| ensures T.variables[v] != ConstantName(cs[k].value) {
        assert DefinedAt(T, cs[k].value, l, ConstantName(cs[k].value));
      }
    }
  }

  lemma {:induction false} EncodedMeans(env: Env, F: Frame, T: Table, p: seq<int>, l: int, e: Expr, r: Expr,
        before: map<string, int>, cs: seq<Fixed>, names: seq<string>, vars: Store, ss: Store, ss': Store)
    requires Resolvable(F.g, F.rank, F.own, T) && Inside(F.g, T, F.own, p, l, before, vars, ss)
    requires Encoded(F, T, e, r, cs, l, before) && Readable(e, names, before) && ConstantsOk(T, cs, l)
    requires forall k | 0 <= k < |cs| :: Lookup(ss', ConstantName(cs[k].value)) == Literal(cs[k].literal)
    requires forall n | !FixedName(cs, n) :: Lookup(ss', n) == Lookup(ss, n)
    ensures Eval(env, e, vars) == Eval(env, r, ss')
    decreases e
  {
    match e
    case VariableAccess(x) =>
      var v :| UseOk(F, T, x, l, v, before) && r == VariableAccess(T.variables[v]);
      UseMeans(F, T, p, l, x, v, before, cs, vars, ss);
    case UnaryExpression(_, a) => EncodedMeans(env, F, T, p, l, a, r.operand, before, cs, names, vars, ss, ss');
    case BinaryExpression(_, a, b) =>
      EncodedMeans(env, F, T, p, l, a, r.left, before, cs, names, vars, ss, ss');
      EncodedMeans(env, F, T, p, l, b, r.right, before, cs, names, vars, ss, ss');
    case IntegerConstant(_) =>
    case BooleanConstant(_) =>
  }

  // ---------- one instruction ----------

  lemma {:induction false} ConstantsChange(T: Table, cs: seq<Fixed>, l: int, ss: Store, ss': Store)
    requires ConstantsOk(T, cs, l) && DistinctNames(T) && forall n | !FixedName(cs, n) ::
            Lookup(ss', n) == Lookup(ss, n)
    ensures Changed(T, l, ss, ss')
  {
    forall v | v in T.variables && v in T.origin && (T.origin[v] != l || v in T.phis)
      ensures !FixedName(cs, T.variables[v])
    {
      forall k | 0 <= k < |cs| ensures T.variables[v] != ConstantName(cs[k].value) {
        assert DefinedAt(T, cs[k].value, l, ConstantName(cs[k].value));
      }
    }
  }

  // The assignments of constants keep what holds inside the block.
  lemma {:induction false} ConstantsInside(g: Graph, rank: int -> nat, own: Own, T: Table, p: seq<int>, l: int,
        before: map<string, int>, cs: seq<Fixed>, vars: Store, ss: Store, ss': Store)
    requires Resolvable(g, rank, own, T) && DistinctNames(T) && Inside(g, T, own, p, l, before, vars, ss)
            && ConstantsOk(T, cs, l)
    requires forall n | !FixedName(cs, n) :: Lookup(ss', n) == Lookup(ss, n)
    ensures Inside(g, T, own, p, l, before, vars, ss')
  {
    ConstantsChange(T, cs, l, ss, ss');
    FollowsKept(g, rank, own, T, p, l, ss, ss');
    LastNotIn(g, rank, p, l);
    forall x ensures HoldsFor(T, own, p, before, x, vars, ss') {
      assert HoldsFor(T, own, p, before, x, vars, ss);
      if x in before {
        forall k | 0 <= k < |cs|
          ensures SsaName(x, before[x]) != ConstantName(cs[k].value)
        {
          ConstantPlain(cs[k].value, x, before[x]);
        }
        assert !FixedName(cs, T.variables[before[x]]);
      } else if LastDefinition(own, x, p[..|p| - 1]) != -1 {
        LastDefinitionNamed(g, rank, own, T, x, p[..|p| - 1]);
      }
    }
  }

  // So does the definition of x by a fresh value.
  lemma {:induction false} DefinitionInside(g: Graph, rank: int -> nat, own: Own, T: Table, p: seq<int>, l: int,
        before: map<string, int>, x: string, v: nat, val: int, vars: Store, ss: Store)
    requires Resolvable(g, rank, own, T) && DistinctNames(T) && Inside(g, T, own, p, l, before, vars, ss)
    requires DefinedAt(T, v, l, SsaName(x, v))
    ensures Inside(g, T, own, p, l, before[x := v], vars[x := val], ss[SsaName(x, v) := val])
  {
    var ss', vars', before' := ss[SsaName(x, v) := val], vars[x := val], before[x := v];
    FollowsKept(g, rank, own, T, p, l, ss, ss') by {
      assert Changed(T, l, ss, ss');
    }
    LastNotIn(g, rank, p, l);
    forall y ensures HoldsFor(T, own, p, before', y, vars', ss') {
      assert HoldsFor(T, own, p, before, y, vars, ss);
      if y != x {
        OtherHolds(g, rank, own, T, p, l, before, x, v, val, vars, ss, y);
      }
    }
  }

  // The definition of x does not change where the value of another variable is held.
  lemma {:induction false} OtherHolds(g: Graph, rank: int -> nat, own: Own, T: Table, p: seq<int>, l: int,
        before: map<string, int>, x: string, v: nat, val: int, vars: Store, ss: Store, y: string)
    requires Resolvable(g, rank, own, T) && DistinctNames(T) && Inside(g, T, own, p, l, before, vars, ss)
    requires DefinedAt(T, v, l, SsaName(x, v)) && y != x && HoldsFor(T, own, p, before, y, vars, ss)
            && l !in p[..|p| - 1]
    ensures HoldsFor(T, own, p, before[x := v], y, vars[x := val], ss[SsaName(x, v) := val])
  {
    if y in before {
      DigitsPlain(v);
      DigitsPlain(before[y]);
      if SsaName(y, before[y]) == SsaName(x, v) { SplitUnique(y, Digits(before[y]), x, Digits(v)); }
    } else if LastDefinition(own, y, p[..|p| - 1]) != -1 {
      LastDefinitionNamed(g, rank, own, T, y, p[..|p| - 1]);
    }
  }

  // What an instruction does in the original block, its renaming does in the block in SSA form, and
  // they leave the block in the same way.
  ghost predicate SameEffect(env: Env, F: Frame, T: Table, p: seq<int>, l: int, s: Renaming, a: State, b: State) {
    var a', b' := Effect(env, s.source, a), RunBlock(env, Emitted(s), b);
    && a'.consumed == b'.consumed && Inside(F.g, T, F.own, p, l, After(s), a'.vars, b'.vars)
    && BlockBranch(env, Emitted(s), b) == Branch(env, s.source, a)
  }

  lemma {:induction false} RenamingMeans(env: Env, F: Frame, T: Table, p: seq<int>, l: int, s: Renaming,
        names: seq<string>, a: State, b: State)
    requires Resolvable(F.g, F.rank, F.own, T) && DistinctNames(T) && RenamingOk(F, T, l, s)
    requires Inside(F.g, T, F.own, p, l, s.before, a.vars, b.vars) && a.consumed == b.consumed
    requires Renamable(s.source, names, s.before)
    ensures SameEffect(env, F, T, p, l, s, a, b)
  {
    var c := RunBlock(env, ConstantAssigns(s.constants), b);
    ConstantsRun(env, T, s.constants, l, b);
    LastInstr(env, ConstantAssigns(s.constants), s.target, b);
    ConstantsInside(F.g, F.rank, F.own, T, p, l, s.before, s.constants, a.vars, b.vars, c.vars);
    match s.source
    case Assign(x, e) =>
      EncodedMeans(env, F, T, p, l, e, s.target.e, s.before, s.constants, names, a.vars, b.vars, c.vars);
      DefinitionInside(F.g, F.rank, F.own, T, p, l, s.before, x, s.value, Eval(env, e, a.vars), a.vars, c.vars);
    case Havoc(x) =>
      DefinitionInside(F.g, F.rank, F.own, T, p, l, s.before, x, s.value, env.inputs(a.consumed), a.vars, c.vars);
    case IfGoto(e, _, _) =>
      EncodedMeans(env, F, T, p, l, e, s.target.ifCond, s.before, s.constants, names, a.vars, b.vars, c.vars);
  }

  // ---------- a whole block ----------

  lemma {:induction false} RenamableAt(F: Frame, T: Table, l: int, log: seq<Renaming>, instrs: seq<Instr>,
        names: seq<string>, i: nat)
    requires LogOk(F, T, l, log) && Renames(log, instrs) && BlockRenamable(instrs, names) && i < |log|
    ensures Renamable(log[i].source, names, log[i].before)
  {
    ChainedFront(log, i);
    DefinedKeys(log[..i], instrs[..i]);
    assert log[i].before == Defined(log[..i]);
    match instrs[i]
    case Assign(_, e) => ReadableKeys(e, names, DefinedBy(instrs[..i]), log[i].before);
    case IfGoto(e, _, _) => ReadableKeys(e, names, DefinedBy(instrs[..i]), log[i].before);
    case Havoc(_) =>
  }

  // After the first i instructions.
  ghost predicate SameSoFar(env: Env, F: Frame, T: Table, p: seq<int>, l: int, log: seq<Renaming>,
        instrs: seq<Instr>, i: nat, a: State, b: State)
    requires i <= |log| && i <= |instrs|
  {
    var a', b' := RunBlock(env, instrs[..i], a), RunBlock(env, EmittedAll(log[..i]), b);
    && a'.consumed == b'.consumed && Inside(F.g, T, F.own, p, l, Defined(log[..i]), a'.vars, b'.vars)
    && (i > 0 ==> EmittedAll(log[..i]) != [] && BlockBranch(env, EmittedAll(log[..i]), b) == BlockBranch(env,
          instrs[..i], a))
  }

  lemma {:induction false} BlockMeans(env: Env, F: Frame, T: Table, p: seq<int>, l: int, log: seq<Renaming>,
        instrs: seq<Instr>, names: seq<string>, i: nat, a: State, b: State)
    requires Resolvable(F.g, F.rank, F.own, T) && DistinctNames(T) && LogOk(F, T, l, log)
    requires Renames(log, instrs) && BlockRenamable(instrs, names) && i <= |log|
    requires Inside(F.g, T, F.own, p, l, map[], a.vars, b.vars) && a.consumed == b.consumed
    ensures SameSoFar(env, F, T, p, l, log, instrs, i, a, b)
    decreases i
  {
    if i == 0 {
      assert log[..0] == [] && instrs[..0] == [];
    } else {
      var n := i - 1;
      BlockMeans(env, F, T, p, l, log, instrs, names, n, a, b);
      BlockMeansStep(env, F, T, p, l, log, instrs, names, n, a, b);
    }
  }

  lemma {:induction false} StepRuns(env: Env, log: seq<Renaming>, instrs: seq<Instr>, n: nat, a: State, b: State)
    requires n < |log| == |instrs|
    ensures Defined(log[..n + 1]) == After(log[n]) && EmittedAll(log[..n + 1]) != []
    ensures RunBlock(env, instrs[..n + 1], a) == Effect(env, instrs[n], RunBlock(env, instrs[..n], a))
    ensures BlockBranch(env, instrs[..n + 1], a) == Branch(env, instrs[n], RunBlock(env, instrs[..n], a))
    ensures RunBlock(env, EmittedAll(log[..n + 1]), b) == RunBlock(env, Emitted(log[n]),
            RunBlock(env, EmittedAll(log[..n]), b))
    ensures BlockBranch(env, EmittedAll(log[..n + 1]), b) == BlockBranch(env, Emitted(log[n]),
            RunBlock(env, EmittedAll(log[..n]), b))
  {
    var i := n + 1;
    assert instrs[..i] == instrs[..n] + [instrs[n]];
    LastInstr(env, instrs[..n], instrs[n], a);
    assert log[..i][..n] == log[..n] && log[..i][n] == log[n];
    assert EmittedAll(log[..i]) == EmittedAll(log[..n]) + Emitted(log[n]);
    RunBlockAppend(env, EmittedAll(log[..n]), Emitted(log[n]), b);
    BlockBranchAppend(env, EmittedAll(log[..n]), Emitted(log[n]), b);
  }

  lemma {:induction false} BlockMeansStep(env: Env, F: Frame, T: Table, p: seq<int>, l: int, log: seq<Renaming>,
        instrs: seq<Instr>, names: seq<string>, n: nat, a: State, b: State)
    requires Resolvable(F.g, F.rank, F.own, T) && DistinctNames(T) && LogOk(F, T, l, log)
    requires Renames(log, instrs) && BlockRenamable(instrs, names) && n < |log|
    requires SameSoFar(env, F, T, p, l, log, instrs, n, a, b)
    ensures SameSoFar(env, F, T, p, l, log, instrs, n + 1, a, b)
  {
    var s := log[n];
    StepRuns(env, log, instrs, n, a, b);
    assert s.before == Defined(log[..n]) && RenamingOk(F, T, l, s);
    RenamableAt(F, T, l, log, instrs, names, n);
    RenamingMeans(env, F, T, p, l, s, names, RunBlock(env, instrs[..n], a), RunBlock(env, EmittedAll(log[..n]), b));
  }

  // ---------- the whole graph ----------

  // At the end of a block, its own definitions are the last ones.
  lemma {:induction false} BlockLeft(F: Frame, T: Table, p: seq<int>, l: int, log: seq<Renaming>, vars: Store,
        ss: Store)
    requires Inside(F.g, T, F.own, p, l, Defined(log), vars, ss) && OwnMatches(F, l, log)
    ensures Agrees(T, F.own, p, vars, ss)
  {
    forall x | !IsConstantName(x) && LastDefinition(F.own, x, p) != -1
      ensures Lookup(vars, x) == Lookup(ss, NameOf(T, LastDefinition(F.own, x, p)))
    {
      assert HoldsFor(T, F.own, p, Defined(log), x, vars, ss);
      assert (x, l) in F.own <==> x in Defined(log);
    }
  }

  lemma {:induction false} BlockEntered(F: Frame, T: Table, p: seq<int>, q: int, l: int, vars: Store, ss: Store)
    requires Resolvable(F.g, F.rank, F.own, T) && DistinctNames(T) && T.phis.Keys <= T.variables.Keys
    requires PathTo(F.g, p, q) && q in Preds(F.g, l) && Follows(F.g, T, p, ss) && Agrees(T, F.own, p, vars, ss)
    ensures Inside(F.g, T, F.own, p + [l], l, map[], vars, EnterBlock(F.g, T, q, l, ss))
  {
    var p', ss' := p + [l], EnterBlock(F.g, T, q, l, ss);
    assert p'[..|p'| - 1] == p;
    assert PathTo(F.g, p', l);
    EnterFollows(F.g, F.rank, F.own, T, p', l, ss);
    EnterAgrees(F.g, F.rank, F.own, T, p, q, l, vars, ss);
    forall x ensures HoldsFor(T, F.own, p', map[], x, vars, ss') {
      if LastDefinition(F.own, x, p) != -1 && !IsConstantName(x) { }
    }
  }

  // Both machines are about to run the block at the end of path p.
  ghost predicate Related(S: Fill, p: seq<int>, c: Config, d: Config) {
    var g, T := S.F.g, S.T;
    && c.pc in g.vertices && PathTo(g, p, c.pc) && d.pc == c.pc && c.st.consumed == d.st.consumed
    && if c.pc == g.entry then Agrees(T, S.F.own, p, c.st.vars, d.st.vars) && Follows(g, T, p, d.st.vars)
       else Inside(g, T, S.F.own, p, c.pc, map[], c.st.vars, d.st.vars)
  }

  lemma {:induction false} FollowEdge(edges: seq<Edge>, l: int, kind: EdgeKind)
    ensures Follow(edges, l, kind) == -1 || exists e ::
            e in edges && e.source == l && e.target == Follow(edges, l, kind)
  {
    if edges != [] {
      FollowEdge(edges[1..], l, kind);
      if edges[0].source == l && edges[0].kind == kind {
        assert edges[0] in edges;
      } else if Follow(edges, l, kind) != -1 {
        var e :| e in edges[1..] && e.source == l && e.target == Follow(edges[1..], l, kind);
        assert e in edges;
      }
    }
  }

  lemma {:induction false} FollowedPred(g: Graph, l: int, kind: EdgeKind)
    requires Follow(g.edges, l, kind) != -1
    ensures l in Preds(g, Follow(g.edges, l, kind))
  {
    FollowEdge(g.edges, l, kind);
    var k := Follow(g.edges, l, kind);
    var e :| e in g.edges && e.source == l && e.target == k;
    IncomingComplete(g.edges, e);
    var i :| 0 <= i < |Incoming(g.edges, k)| && Incoming(g.edges, k)[i] == e;
    assert Preds(g, k)[i] == l;
  }

  // Labels are unsigned.
  ghost predicate Unsigned(g: Graph) {
    forall l | l in g.vertices :: l >= 0
  }

  // What one block does, from the start of the block to where its branch leads.
  lemma {:induction false} BlockRuns(env: Env, names: seq<string>, S: Fill, r: Graph, p: seq<int>, l: int, a: State,
        b: State)
    requires IsSsaOf(S.F.g, names, S, r) && l in S.F.g.vertices && l != S.F.g.entry && l != S.F.g.exit
    requires S.F.g.vertices[l].Regular? && BlockRenamable(S.F.g.vertices[l].instrs, names)
    requires Inside(S.F.g, S.T, S.F.own, p, l, map[], a.vars, b.vars) && a.consumed == b.consumed
    ensures r.vertices[l].Regular? && r.vertices[l].instrs != []
    ensures var a', b' := RunBlock(env, S.F.g.vertices[l].instrs, a), RunBlock(env, r.vertices[l].instrs, b);
            && a'.consumed == b'.consumed && Agrees(S.T, S.F.own, p, a'.vars, b'.vars)
                  && Follows(S.F.g, S.T, p, b'.vars)
            && BlockBranch(env, r.vertices[l].instrs, b) == BlockBranch(env, S.F.g.vertices[l].instrs, a)
  {
    var instrs, log := S.F.g.vertices[l].instrs, S.logs[l];
    FillResolvable(S);
    NamesDistinct(S.F.g, S.F.rank, S.F.own, S.T);
    assert BlockLogOk(S.F, S.T, l, log);
    BlockMeans(env, S.F, S.T, p, l, log, instrs, names, |log|, a, b);
    assert log[..|log|] == log && instrs[..|instrs|] == instrs;
    BlockLeft(S.F, S.T, p, l, log, RunBlock(env, instrs, a).vars, RunBlock(env, EmittedAll(log), b).vars);
  }

  // One step of both machines.
  lemma {:induction false} StepRelated(env: Env, rank: int -> nat, names: seq<string>, S: Fill, r: Graph,
        p: seq<int>, c: Config, d: Config)
    requires Constructible(S.F.g, rank, names) && Unsigned(S.F.g) && IsSsaOf(S.F.g, names, S, r)
    requires DistinctNames(S.T) && S.T.phis.Keys <= S.T.variables.Keys
    requires Related(S, p, c, d) && c.pc != S.F.g.exit
    ensures var c', d' := StepAt(env, S.F.g, c), SsaStepAt(env, S.T, r, d);
            d'.pc == c'.pc && (c'.pc in S.F.g.vertices ==> Related(S, p + [c'.pc], c', d'))
  {
    var g, l := S.F.g, c.pc;
    FillResolvable(S);
    var c', e := StepAt(env, g, c), StepAt(env, r, d);
    if l != g.entry { BlockRuns(env, names, S, r, p, l, c.st, d.st); }
    assert e.pc == c'.pc && e.st.consumed == c'.st.consumed;
    assert Agrees(S.T, S.F.own, p, c'.st.vars, e.st.vars) && Follows(g, S.T, p, e.st.vars);
    if c'.pc in g.vertices {
      var kind := if l == g.entry then Intraprocedural else BlockBranch(env, g.vertices[l].instrs, c.st);
      assert c'.pc == Follow(g.edges, l, kind);
      FollowedPred(g, l, kind);
      BlockEntered(S.F, S.T, p, l, c'.pc, c'.st.vars, e.st.vars);
      SameEntering(g, r, S.T, l, c'.pc, e.st.vars);
      assert (p + [c'.pc])[|p|] == c'.pc;
    }
  }

  lemma {:induction false} SameOperand(g: Graph, r: Graph, phi: Phi, q: int)
    requires r.edges == g.edges
    ensures OperandFrom(r, phi, q) == OperandFrom(g, phi, q)
  {
    assert Preds(r, phi.block) == Preds(g, phi.block);
  }

  lemma {:induction false} PhiStoreWithin(g: Graph, r: Graph, T: Table, q: int, l: int, vars: Store)
    requires DistinctNames(T) && T.phis.Keys <= T.variables.Keys && r.edges == g.edges
    ensures forall n | n in PhiStore(r, T, q, l, vars) ::
            n in PhiStore(g, T, q, l, vars) && PhiStore(g, T, q, l, vars)[n] == PhiStore(r, T, q, l, vars)[n]
  {
    forall n | n in PhiStore(r, T, q, l, vars)
      ensures n in PhiStore(g, T, q, l, vars) && PhiStore(g, T, q, l, vars)[n] == PhiStore(r, T, q, l, vars)[n]
    {
      var w :| w in T.phis && T.phis[w].block == l && n == T.variables[w];
      SameOperand(g, r, T.phis[w], q);
    }
  }

  lemma {:induction false} SameEntering(g: Graph, r: Graph, T: Table, q: int, l: int, vars: Store)
    requires DistinctNames(T) && T.phis.Keys <= T.variables.Keys && r.edges == g.edges
    ensures EnterBlock(r, T, q, l, vars) == EnterBlock(g, T, q, l, vars)
  {
    PhiStoreWithin(g, r, T, q, l, vars);
    PhiStoreWithin(r, g, T, q, l, vars);
    assert PhiStore(r, T, q, l, vars) == PhiStore(g, T, q, l, vars);
  }

  // The final variables of the SSA form hold what the variables of the original program hold.
  ghost predicate SameAtExit(S: Fill, names: seq<string>, a: State, b: State) {
    && a.consumed == b.consumed
    && forall x | x in names :: Recorded(S.T.defs, x, S.F.g.exit)
          && Lookup(a.vars, x) == Lookup(b.vars, NameOf(S.T, S.T.defs[x][S.F.g.exit]))
  }

  lemma {:induction false} DefinedAtEntry(own: Own, x: string, p: seq<int>)
    requires p != [] && (x, p[0]) in own
    requires forall y, k {:trigger (y, k) in own} | (y, k) in own :: own[(y, k)] >= 0
    ensures LastDefinition(own, x, p) != -1
    decreases |p|
  {
    var l := p[|p| - 1];
    assert (x, l) in own ==> own[(x, l)] >= 0;
    if |p| > 1 {
      DefinedAtEntry(own, x, p[..|p| - 1]);
    }
  }

  lemma {:induction false} ExitMeans(rank: int -> nat, names: seq<string>, S: Fill, r: Graph, p: seq<int>, c: Config,
        d: Config)
    requires Constructible(S.F.g, rank, names) && IsSsaOf(S.F.g, names, S, r) && Related(S, p, c, d)
            && c.pc == S.F.g.exit
    ensures SameAtExit(S, names, c.st, d.st)
  {
    var g, T, own := S.F.g, S.T, S.F.own;
    FillResolvable(S);
    assert BlockLogOk(S.F, T, g.exit, S.logs[g.exit]);
    forall x | x in names ensures Recorded(T.defs, x, g.exit)
            && Lookup(c.st.vars, x) == Lookup(d.st.vars, NameOf(T, T.defs[x][g.exit])) {
      var i :| 0 <= i < |names| && names[i] == x;
      assert Recorded(T.defs, names[i], g.exit);
      var v := T.defs[x][g.exit];
      assert EntryOk(g, S.F.rank, S.F.ready, own, S.F.open, T.phis, T.next, x, g.exit, v);
      assert NamedAt(T, S.F.rank, v, S.F.rank(g.exit));
      assert (x, g.exit) !in own;
      DefinedAtEntry(own, x, p);
      assert HoldsFor(T, own, p, map[], x, c.st.vars, d.st.vars);
      assert Lookup(d.st.vars, T.variables[v]) == Lookup(d.st.vars, NameOf(T, Resolve(g, T.phis, v, p)));
    }
  }

  ghost predicate SameRun(S: Fill, names: seq<string>, c: Config, d: Config) {
    c.pc == d.pc && (c.pc == S.F.g.exit ==> SameAtExit(S, names, c.st, d.st))
  }

  // Either both machines have halted, or they are about to run the next block.
  ghost predicate StillRelated(S: Fill, names: seq<string>, r: Graph, c: Config, d: Config) {
    if c.pc in S.F.g.vertices && c.pc != S.F.g.exit then exists p :: Related(S, p, c, d)
    else SameRun(S, names, c, d) && (c.pc in S.F.g.vertices ==>
            S.F.g.vertices[c.pc].ExitVertex? && c.pc in r.vertices && r.vertices[c.pc].ExitVertex?)
  }

  lemma {:induction false} RelatedStill(rank: int -> nat, names: seq<string>, S: Fill, r: Graph, p: seq<int>,
        c: Config, d: Config)
    requires Constructible(S.F.g, rank, names) && IsSsaOf(S.F.g, names, S, r) && Related(S, p, c, d)
    ensures StillRelated(S, names, r, c, d)
  {
    if c.pc == S.F.g.exit { ExitMeans(rank, names, S, r, p, c, d); }
  }

  // c' and d' are the next configurations.
  lemma {:induction false} StepStillRelated(env: Env, rank: int -> nat, names: seq<string>, S: Fill, r: Graph,
        c: Config, d: Config, c': Config, d': Config)
    requires Constructible(S.F.g, rank, names) && Unsigned(S.F.g) && IsSsaOf(S.F.g, names, S, r)
    requires DistinctNames(S.T) && S.T.phis.Keys <= S.T.variables.Keys
    requires StillRelated(S, names, r, c, d) && c.pc in S.F.g.vertices && c.pc != S.F.g.exit
    requires c' == StepAt(env, S.F.g, c) && d' == SsaStepAt(env, S.T, r, d)
    ensures StillRelated(S, names, r, c', d')
  {
    var p :| Related(S, p, c, d);
    StepRelated(env, rank, names, S, r, p, c, d);
    if c'.pc in S.F.g.vertices { RelatedStill(rank, names, S, r, p + [c'.pc], c', d'); }
  }

  lemma {:induction false} StepKeepsRelated(env: Env, rank: int -> nat, names: seq<string>, S: Fill, r: Graph,
        c: Config, d: Config, c': Config, d': Config)
    requires Constructible(S.F.g, rank, names) && Unsigned(S.F.g) && IsSsaOf(S.F.g, names, S, r)
    requires DistinctNames(S.T) && S.T.phis.Keys <= S.T.variables.Keys
    requires StillRelated(S, names, r, c, d)
    requires c' == StepAt(env, S.F.g, c) && d' == SsaStepAt(env, S.T, r, d)
    ensures StillRelated(S, names, r, c', d')
  {
    if c.pc in S.F.g.vertices && c.pc != S.F.g.exit {
      StepStillRelated(env, rank, names, S, r, c, d, c', d');
    } else {
      assert c' == c && d' == d;
    }
  }

  // After any number of steps, both machines have halted or are at the same block.
  lemma {:induction false} Lockstep(env: Env, rank: int -> nat, names: seq<string>, S: Fill, r: Graph, c: Config,
        d: Config, n: nat)
    requires Constructible(S.F.g, rank, names) && Unsigned(S.F.g) && IsSsaOf(S.F.g, names, S, r)
    requires DistinctNames(S.T) && S.T.phis.Keys <= S.T.variables.Keys && StillRelated(S, names, r, c, d)
    ensures StillRelated(S, names, r, Iterate(GraphStep(env, S.F.g), c, n), Iterate(SsaStep(env, S.T, r), d, n))
  {
    var f, h := GraphStep(env, S.F.g), SsaStep(env, S.T, r);
    var kept := (a: Config, b: Config) => StillRelated(S, names, r, a, b);
    forall a, b | kept(a, b) ensures kept(f(a), h(b)) {
      StepKeepsRelated(env, rank, names, S, r, a, b, f(a), h(b));
    }
    TogetherKept(f, h, kept, c, d, n);
  }

  lemma {:induction false} RelatedSameRun(S: Fill, names: seq<string>, r: Graph, c: Config, d: Config)
    requires StillRelated(S, names, r, c, d)
    ensures SameRun(S, names, c, d)
  {
  }

  // The initial variables of the SSA form hold what the variables of the original program hold.
  ghost predicate StartsAs(S: Fill, a: State, b: State) {
    && a.consumed == b.consumed
    && forall x | (x, S.F.g.entry) in S.F.own && !IsConstantName(x) ::
          Lookup(a.vars, x) == Lookup(b.vars, NameOf(S.T, S.F.own[(x, S.F.g.entry)]))
  }

  ghost predicate SsaComputes(env: Env, S: Fill, r: Graph, b: State, b': State)
    requires DistinctNames(S.T) && S.T.phis.Keys <= S.T.variables.Keys
  {
    Arrives(SsaStep(env, S.T, r), Config(r.entry, b), Config(r.exit, b'))
  }

  // The SSA form computes the same results, and no others.
  lemma {:induction false} SsaPreservesRuns(env: Env, rank: int -> nat, names: seq<string>, S: Fill, r: Graph,
        a: State, b: State)
    requires Constructible(S.F.g, rank, names) && Unsigned(S.F.g) && IsSsaOf(S.F.g, names, S, r) && StartsAs(S, a, b)
    ensures DistinctNames(S.T) && S.T.phis.Keys <= S.T.variables.Keys
    ensures forall a' | Computes(env, S.F.g, a, a') :: exists b' ::
            SsaComputes(env, S, r, b, b') && SameAtExit(S, names, a', b')
    ensures forall b' | SsaComputes(env, S, r, b, b') :: exists a' ::
            Computes(env, S.F.g, a, a') && SameAtExit(S, names, a', b')
  {
    var g := S.F.g;
    FillResolvable(S);
    NamesDistinct(g, S.F.rank, S.F.own, S.T);
    var c, d := Config(g.entry, a), Config(g.entry, b);
    StartRelated(S, c, d);
    RelatedStill(rank, names, S, r, [g.entry], c, d);
    forall a' | Computes(env, g, a, a')
      ensures exists b' :: SsaComputes(env, S, r, b, b') && SameAtExit(S, names, a', b')
    {
      var n: nat :| Iterate(GraphStep(env, g), c, n) == Config(g.exit, a');
      var e := Iterate(SsaStep(env, S.T, r), d, n);
      Lockstep(env, rank, names, S, r, c, d, n);
      RelatedSameRun(S, names, r, Config(g.exit, a'), e);
      assert SsaComputes(env, S, r, b, e.st);
    }
    forall b' | SsaComputes(env, S, r, b, b')
      ensures exists a' :: Computes(env, g, a, a') && SameAtExit(S, names, a', b')
    {
      var n: nat :| Iterate(SsaStep(env, S.T, r), d, n) == Config(g.exit, b');
      var e := Iterate(GraphStep(env, g), c, n);
      Lockstep(env, rank, names, S, r, c, d, n);
      RelatedSameRun(S, names, r, e, Config(g.exit, b'));
      assert Computes(env, g, a, e.st);
    }
  }

  lemma {:induction false} StartRelated(S: Fill, c: Config, d: Config)
    requires c.pc == d.pc == S.F.g.entry && S.F.g.entry in S.F.g.vertices && StartsAs(S, c.st, d.st)
    ensures Related(S, [S.F.g.entry], c, d)
  {
    var g, T, own, p := S.F.g, S.T, S.F.own, [S.F.g.entry];
    forall x | !IsConstantName(x) && LastDefinition(own, x, p) != -1
      ensures Lookup(c.st.vars, x) == Lookup(d.st.vars, NameOf(T, LastDefinition(own, x, p)))
    {
      assert p[..|p| - 1] == [];
      assert LastDefinition(own, x, []) == -1;
    }
  }

  // Every phi that is left has one operand for each edge into its block, with a variable, at least two
  // of them differ, and none is the phi itself; no entry of the table refers to a dropped phi, whose
  // variable is gone; and no two values share a variable.
  lemma {:induction false} PhiHygiene(S: Fill)
    requires FillOk(S)
    ensures forall w | w in S.T.phis ::
              var ops := S.T.phis[w].operands;
              && |ops| == |Preds(S.F.g, S.T.phis[w].block)| && w !in ops
                    && (forall op | op in ops :: op in S.T.variables)
              && exists i, j | 0 <= i < j < |ops| :: ops[i] != ops[j]
    ensures forall x, l {:trigger Recorded(S.T.defs, x, l)} | Recorded(S.T.defs, x, l) ::
            S.T.defs[x][l] in S.T.variables
    ensures DistinctNames(S.T) && S.T.phis.Keys <= S.T.variables.Keys
  {
    FillResolvable(S);
    NamesDistinct(S.F.g, S.F.rank, S.F.own, S.T);
    forall w | w in S.T.phis
      ensures w !in S.T.phis[w].operands && forall op | op in S.T.phis[w].operands :: op in S.T.variables
    {
      assert PhiNamed(S.T, S.F.rank, w);
      forall k | 0 <= k < |S.T.phis[w].operands| ensures S.T.phis[w].operands[k] != w
              && S.T.phis[w].operands[k] in S.T.variables {
        assert NamedAt(S.T, S.F.rank, S.T.phis[w].operands[k], S.F.rank(S.T.phis[w].block) - 1);
      }
    }
    forall x, l | Recorded(S.T.defs, x, l) ensures S.T.defs[x][l] in S.T.variables {
      assert NamedAt(S.T, S.F.rank, S.T.defs[x][l], S.F.rank(l));
    }
  }
}
