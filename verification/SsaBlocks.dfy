// The order in which the SSA construction fills blocks (ahorn/src/pass/ssa/ssa_pass.cpp:82-157).

module SsaBlocks {
  import opened Ir
  import opened Cfg
  import opened SsaTable
  import opened SsaNames
  import opened SsaLog

  // The graphs the pass works on: no instruction at the entry and the exit, every block reachable
  // in an order (so there is no loop), and only instructions that it can rename.
  ghost predicate Constructible(g: Graph, rank: int -> nat, names: seq<string>) {
    && Ranked(g, rank) && g.entry != g.exit
    && g.entry in g.vertices && g.vertices[g.entry] == EntryVertex
    && g.exit in g.vertices && g.vertices[g.exit] == ExitVertex
    && (forall e | e in g.edges :: e.source in g.vertices && e.target in g.vertices)
    && Preds(g, g.entry) == [] && |Outgoing(g.edges, g.entry)| == 1 && Outgoing(g.edges, g.exit) == []
    && (forall l | l in g.vertices && l != g.entry :: Preds(g, l) != [])
    && (forall l | l in g.vertices && l != g.entry && l != g.exit ::
          g.vertices[l].Regular? && BlockRenamable(g.vertices[l].instrs, names))
    && (forall x | x in names :: !IsConstantName(x))
  }

  // ---------- completing an instruction ----------

  function CompletedFill(S: Fill, x: string, s: Renaming): Fill
    requires S.T.next >= 0 && S.l in S.logs
  {
    S.(F := S.F.(own := S.F.own[(x, S.l) := S.T.next]), T := Define(S.T, x, S.l, SsaName(x, S.T.next)),
       logs := S.logs[S.l := S.logs[S.l] + [s]], constants := [], code := S.code[S.l := At(S.code, S.l) + [s.target]])
  }

  lemma {:induction false} DefinitionFilled(S: Fill, x: string, s: Renaming)
    requires FillOk(S) && !IsConstantName(x)
    requires s.constants == S.constants && s.value == S.T.next && s.before == Defined(S.logs[S.l])
    requires Completes(S.F, S.T, S.l, x, s)
    ensures FillOk(CompletedFill(S, x, s))
  {
    FillingDefined(S.F, S.T, S.l, S.logs, S.constants, x, s);
    CodeInstruction(S.code, S.logs, S.l, s);
  }

  function ConditionFill(S: Fill, s: Renaming): Fill
    requires S.l in S.logs
  {
    S.(logs := S.logs[S.l := S.logs[S.l] + [s]], constants := [], code := S.code[S.l := At(S.code, S.l) + [s.target]])
  }

  lemma {:induction false} ConditionFilled(S: Fill, s: Renaming)
    requires FillOk(S) && s.source.IfGoto? && s.constants == S.constants && s.before == Defined(S.logs[S.l])
    requires s.target.IfGoto? && s.target.thenLabel == s.source.thenLabel && s.target.elseLabel == s.source.elseLabel
    requires Encoded(S.F, S.T, s.source.ifCond, s.target.ifCond, S.constants, S.l, s.before)
    ensures FillOk(ConditionFill(S, s))
  {
    assert RenamingOk(S.F, S.T, S.l, s);
    FillingCondition(S.F, S.T, S.l, S.logs, S.constants, s);
    CodeInstruction(S.code, S.logs, S.l, s);
  }

  // Block l has been filled with the renamings of the first n of its instructions.
  ghost predicate Extended(S0: Fill, S: Fill, instrs: seq<Instr>, n: nat)
    requires n <= |instrs|
  {
    && S.l == S0.l && S.names == S0.names && S.sealed == S0.sealed && S.l in S0.logs && S.l in S.logs
    && S.F.g == S0.F.g && S.F.rank == S0.F.rank && S.F.ready == S0.F.ready
    && S.logs == S0.logs[S.l := S.logs[S.l]] && S.constants == [] && Renames(S.logs[S.l], instrs[..n])
  }

  // One more instruction of block l has been renamed.
  ghost predicate Renamed(S0: Fill, S: Fill, s: Renaming) {
    && S.l == S0.l && S.names == S0.names && S.sealed == S0.sealed && S.constants == [] && S.l in S0.logs
    && S.F.g == S0.F.g && S.F.rank == S0.F.rank && S.F.ready == S0.F.ready
    && S.logs == S0.logs[S.l := S0.logs[S.l] + [s]]
  }

  lemma {:induction false} ExtendedBy(S0: Fill, S1: Fill, S2: Fill, instrs: seq<Instr>, n: nat, s: Renaming)
    requires n < |instrs| && Extended(S0, S1, instrs, n) && Renamed(S1, S2, s) && s.source == instrs[n]
    ensures Extended(S0, S2, instrs, n + 1)
  {
  }

  // Each renaming starts from the definitions of those before it.
  ghost predicate Chained(log: seq<Renaming>) {
    forall i {:trigger log[i]} | 0 <= i < |log| :: log[i].before == Defined(log[..i])
  }

  lemma {:induction false} ChainedFront(log: seq<Renaming>, n: nat)
    requires Chained(log) && n <= |log|
    ensures Chained(log[..n])
  {
    forall i | 0 <= i < n ensures log[..n][i].before == Defined(log[..n][..i]) {
      assert log[..n][i] == log[i] && log[..n][..i] == log[..i];
    }
  }

  lemma {:induction false} DefinedKeys(log: seq<Renaming>, instrs: seq<Instr>)
    requires Renames(log, instrs) && Chained(log)
    ensures Defined(log).Keys == DefinedBy(instrs).Keys
    decreases |log|
  {
    if log != [] {
      var n := |log| - 1;
      assert log[n].before == Defined(log[..n]);
      ChainedFront(log, n);
      DefinedKeys(log[..n], instrs[..n]);
    }
  }

  lemma {:induction false} NextRenamable(S: Fill, instrs: seq<Instr>, n: nat)
    requires FillOk(S) && n < |instrs| && Renames(S.logs[S.l], instrs[..n]) && BlockRenamable(instrs, S.names)
    ensures Renamable(instrs[n], S.names, Defined(S.logs[S.l]))
  {
    var log := S.logs[S.l];
    assert BlockLogOk(S.F, S.T, S.l, log);
    DefinedKeys(log, instrs[..n]);
    match instrs[n]
    case Assign(_, e) => ReadableKeys(e, S.names, DefinedBy(instrs[..n]), Defined(log));
    case IfGoto(e, _, _) => ReadableKeys(e, S.names, DefinedBy(instrs[..n]), Defined(log));
    case Havoc(_) =>
  }

  // ---------- between blocks ----------

  ghost predicate IdleOk(S: Fill) {
    && Ranked(S.F.g, S.F.rank) && S.F.ready <= S.sealed && Initialised(S.F.g, S.F.own, S.names)
    && TableOk(S.F, S.T) && S.F.open == {} && Behind(S.F, S.F.g.exit)
    && LogsOk(S.F, S.T, S.logs) && CodeOk(S.code, S.logs, S.F.g.exit, []) && S.logs.Keys <= S.F.ready
  }

  function OpenedFill(S: Fill, l: int): Fill {
    S.(l := l, F := S.F.(ready := S.F.ready + {l}), logs := S.logs[l := []], constants := [], sealed := S.sealed + {l})
  }

  lemma {:induction false} ReadyMore(F: Frame, T: Table, l: int)
    requires TableOk(F, T)
    ensures TableOk(F.(ready := F.ready + {l}), T)
  {
    forall x, k | Recorded(T.defs, x, k) && T.defs[x][k] !in F.open
      ensures EntryOk(F.g, F.rank, F.ready + {l}, F.own, F.open, T.phis, T.next, x, k, T.defs[x][k])
    {
      assert EntryOk(F.g, F.rank, F.ready, F.own, F.open, T.phis, T.next, x, k, T.defs[x][k]);
    }
  }

  lemma {:induction false} EncodedReady(F: Frame, T: Table, e: Expr, r: Expr, cs: seq<Fixed>, k: int,
        before: map<string, int>, l: int)
    requires Encoded(F, T, e, r, cs, k, before)
    ensures Encoded(F.(ready := F.ready + {l}), T, e, r, cs, k, before)
    decreases e
  {
    match e
    case VariableAccess(x) =>
      var v :| UseOk(F, T, x, k, v, before) && r == VariableAccess(T.variables[v]);
      assert UseOk(F.(ready := F.ready + {l}), T, x, k, v, before);
    case UnaryExpression(_, a) => EncodedReady(F, T, a, r.operand, cs, k, before, l);
    case BinaryExpression(_, a, b) =>
      EncodedReady(F, T, a, r.left, cs, k, before, l);
      EncodedReady(F, T, b, r.right, cs, k, before, l);
    case IntegerConstant(_) =>
    case BooleanConstant(_) =>
  }

  lemma {:induction false} LogsReady(F: Frame, T: Table, logs: map<int, seq<Renaming>>, l: int)
    requires LogsOk(F, T, logs)
    ensures LogsOk(F.(ready := F.ready + {l}), T, logs)
  {
    var G := F.(ready := F.ready + {l});
    forall k | k in logs ensures BlockLogOk(G, T, k, logs[k]) {
      assert BlockLogOk(F, T, k, logs[k]);
      forall i | 0 <= i < |logs[k]| ensures RenamingOk(G, T, k, logs[k][i]) {
        var s := logs[k][i];
        assert RenamingOk(F, T, k, s);
        match s.source
        case Assign(_, e) => EncodedReady(F, T, e, s.target.e, s.constants, k, s.before, l);
        case Havoc(_) =>
        case IfGoto(e, _, _) => EncodedReady(F, T, e, s.target.ifCond, s.constants, k, s.before, l);
      }
      assert OwnMatches(G, k, logs[k]);
    }
  }

  // A block whose preceding blocks are all filled can be filled next.
  lemma {:induction false} BlockOpened(S: Fill, l: int)
    requires IdleOk(S) && l !in S.F.ready && l != S.F.g.entry
    requires Preds(S.F.g, l) != [] && forall q | q in Preds(S.F.g, l) :: q in S.F.ready
    requires l !in S.logs
    ensures FillOk(OpenedFill(S, l))
  {
    var U := OpenedFill(S, l);
    ReadyMore(S.F, S.T, l);
    LogsReady(S.F, S.T, S.logs, l);
    forall x ensures (x, l) !in S.F.own {
      assert Recorded(S.T.defs, x, l) ==> l in S.F.ready;
    }
    assert OwnMatches(U.F, l, []);
    forall k | k in U.logs ensures BlockLogOk(U.F, U.T, k, U.logs[k]) {
      if k != l { assert BlockLogOk(U.F, S.T, k, S.logs[k]); }
    }
    Irreflexive(S.F.g, S.F.rank, l);
    forall k | k in U.logs ensures At(U.code, k) == EmittedAll(U.logs[k]) + if k == l then ConstantAssigns([]) else [] {
      if k != l { assert S.logs[k] == U.logs[k]; }
    }
  }

  lemma {:induction false} Irreflexive(g: Graph, rank: int -> nat, l: int)
    requires Ranked(g, rank)
    ensures l !in Preds(g, l)
  {
    forall i | 0 <= i < |Preds(g, l)| ensures Preds(g, l)[i] != l {
      PredsRanked(g, rank, l, i);
    }
  }

  lemma {:induction false} BlockClosed(S: Fill)
    requires FillOk(S) && S.constants == [] && S.logs.Keys <= S.F.ready && forall k | k in S.F.ready ::
            S.F.g.exit !in Preds(S.F.g, k)
    ensures IdleOk(S)
  {
    forall k | k in S.logs ensures At(S.code, k) == EmittedAll(S.logs[k]) + if k == S.F.g.exit
            then ConstantAssigns([]) else [] {
      assert S.logs[k] == S.logs[k];
    }
  }

  lemma {:induction false} BlockFilled(S: Fill, U: Fill, l: int, instrs: seq<Instr>)
    requires IdleOk(S) && FillOk(U) && Extended(OpenedFill(S, l), U, instrs, |instrs|) && S.F.g.exit !in Preds(S.F.g, l)
    ensures IdleOk(U) && U.constants == [] && U.F.ready == S.F.ready + {l}
    ensures l in U.logs && U.logs == S.logs[l := U.logs[l]] && Renames(U.logs[l], instrs)
  {
    assert instrs[..|instrs|] == instrs;
    LogsTwice(S.logs, l, U.logs[l]);
    BlockClosed(U);
  }

  lemma {:induction false} LogsTwice(logs: map<int, seq<Renaming>>, l: int, log: seq<Renaming>)
    ensures logs[l := []][l := log] == logs[l := log]
  {
  }

  // ---------- the worklist ----------

  // The next visit of the label makes progress: it fills a block or drops the label.
  predicate Movable(g: Graph, done: set<int>, l: int) {
    l == g.exit || l == g.entry || l in done || forall q | q in Preds(g, l) :: q in done
  }

  function FirstMovable(g: Graph, done: set<int>, q: seq<int>): nat {
    if q == [] || Movable(g, done, q[0]) then 0 else 1 + FirstMovable(g, done, q[1..])
  }

  lemma {:induction false} FirstMovableFound(g: Graph, done: set<int>, q: seq<int>, x: int, r: seq<int>)
    requires x in q && Movable(g, done, x)
    ensures FirstMovable(g, done, q + r) == FirstMovable(g, done, q) < |q|
  {
    assert (q + r)[0] == q[0];
    if !Movable(g, done, q[0]) {
      assert (q + r)[1..] == q[1..] + r;
      FirstMovableFound(g, done, q[1..], x, r);
    }
  }

  // Pushing an immovable label back brings the first movable one forward.
  lemma {:induction false} RotationProgress(g: Graph, done: set<int>, q: seq<int>, x: int)
    requires q != [] && !Movable(g, done, q[0]) && x in q && Movable(g, done, x)
    ensures FirstMovable(g, done, q[1..] + [q[0]]) < FirstMovable(g, done, q)
  {
    assert x in q[1..];
    FirstMovableFound(g, done, q[1..], x, [q[0]]);
  }

  // A block behind filled blocks only is filled, or queued, or is the sealed exit.
  ghost predicate Frontier(g: Graph, done: set<int>, sealed: set<int>, q: seq<int>) {
    forall l {:trigger l in g.vertices} | l in g.vertices && l !in done && l != g.entry
            && (forall p | p in Preds(g, l) :: p in done) ::
      l in q || (l == g.exit && l in sealed)
  }

  lemma {:induction false} PredOf(g: Graph, l: int, p: int) returns (e: Edge)
    requires p in Preds(g, l)
    ensures e in g.edges && e.source == p && e.target == l
  {
    var i :| 0 <= i < |Preds(g, l)| && Preds(g, l)[i] == p;
    e := Incoming(g.edges, l)[i];
    assert e in Incoming(g.edges, l);
  }

  // As long as a block is not filled, some queued label is movable.
  lemma {:induction false} MovableExists(g: Graph, rank: int -> nat, names: seq<string>, done: set<int>,
        sealed: set<int>, q: seq<int>, l: int) returns (x: int)
    requires Constructible(g, rank, names) && Frontier(g, done, sealed, q) && g.entry in done
    requires l in g.vertices && l !in done && l != g.exit
    ensures x in q && Movable(g, done, x)
    decreases rank(l)
  {
    if p :| p in Preds(g, l) && p !in done {
      var e := PredOf(g, l, p);
      if p == g.exit {
        OutgoingComplete(g.edges, e);
        assert false;
      }
      x := MovableExists(g, rank, names, done, sealed, q, p);
    } else {
      x := l;
    }
  }

  function Targets(edges: seq<Edge>): (r: seq<int>)
    ensures |r| == |edges| && forall i | 0 <= i < |edges| :: r[i] == edges[i].target
  {
    if edges == [] then [] else [edges[0].target] + Targets(edges[1..])
  }

  lemma {:induction false} SuccessorListed(g: Graph, l: int, k: int)
    requires l in Preds(g, k)
    ensures k in Targets(Outgoing(g.edges, l))
  {
    var e := PredOf(g, k, l);
    OutgoingComplete(g.edges, e);
    var i :| 0 <= i < |Outgoing(g.edges, l)| && Outgoing(g.edges, l)[i] == e;
    assert Targets(Outgoing(g.edges, l))[i] == k;
  }

  // Filling a block queues the blocks behind it.
  lemma {:induction false} FrontierFilled(g: Graph, done: set<int>, sealed: set<int>, q: seq<int>, sealed': set<int>)
    requires q != [] && Frontier(g, done, sealed, q) && sealed <= sealed'
    ensures Frontier(g, done + {q[0]}, sealed', q[1..] + Targets(Outgoing(g.edges, q[0])))
  {
    var l, q' := q[0], q[1..] + Targets(Outgoing(g.edges, q[0]));
    forall k | k in g.vertices && k !in done + {l} && k != g.entry && (forall p | p in Preds(g, k) :: p in done + {l})
      ensures k in q' || (k == g.exit && k in sealed')
    {
      if l in Preds(g, k) {
        SuccessorListed(g, l, k);
      } else {
        assert forall p | p in Preds(g, k) :: p in done;
      }
    }
  }

  // A label that is filled already, or the exit, can be dropped.
  lemma {:induction false} FrontierDropped(g: Graph, done: set<int>, sealed: set<int>, q: seq<int>, sealed': set<int>)
    requires q != [] && Frontier(g, done, sealed, q) && sealed <= sealed'
    requires q[0] in done || (q[0] == g.exit && ((forall p | p in Preds(g, g.exit) :: p in done) ==> g.exit in sealed'))
    ensures Frontier(g, done, sealed', q[1..])
  {
  }

  // The blocks in done are filled with renamings of all their instructions.
  ghost predicate Written(g: Graph, S: Fill, done: set<int>) {
    && S.logs.Keys == done - {g.entry}
    && forall l {:trigger S.logs[l]} | l in done && l != g.entry :: l in g.vertices && g.vertices[l].Regular?
          && Renames(S.logs[l], g.vertices[l].instrs)
  }

  lemma {:induction false} BlockWritten(g: Graph, S0: Fill, S: Fill, done: set<int>, l: int)
    requires Written(g, S0, done) && l in g.vertices && g.vertices[l].Regular? && l != g.entry
    requires l in S.logs && S.logs == S0.logs[l := S.logs[l]] && Renames(S.logs[l], g.vertices[l].instrs)
    ensures Written(g, S, done + {l})
  {
    forall k | k in done + {l} && k != g.entry ensures k in g.vertices && g.vertices[k].Regular?
            && Renames(S.logs[k], g.vertices[k].instrs) {
      if k != l { assert S0.logs[k] == S.logs[k]; }
    }
  }

  // What the worklist keeps: done are the labels that were processed.
  ghost predicate Working(g: Graph, S: Fill, filled: set<int>, done: set<int>, q: seq<int>) {
    && IdleOk(S) && S.F.g == g && S.constants == []
    && S.F.ready == done + {g.entry} && filled == done + {g.entry, g.exit}
    && g.exit !in done && done <= g.vertices.Keys && (forall x | x in q :: x in g.vertices)
    && (if g.entry in done then g.entry !in q else done == {} && q == [g.entry])
    && (forall l | l in S.sealed && l != g.entry :: forall p | p in Preds(g, l) :: p in done)
    && Frontier(g, done, S.sealed, q) && Written(g, S, done)
  }

  lemma {:induction false} StartsWorking(g: Graph, rank: int -> nat, S: Fill)
    requires Constructible(g, rank, S.names) && IdleOk(S) && S.F.g == g && S.constants == []
    requires S.F.ready == {g.entry} && S.logs == map[] && S.sealed == {g.entry}
    ensures Working(g, S, {g.entry, g.exit}, {}, [g.entry])
  {
    forall l | l in g.vertices && l != g.entry ensures Preds(g, l)[0] in Preds(g, l) {
    }
  }

  lemma {:induction false} EntryProcessed(g: Graph, rank: int -> nat, S: Fill, filled: set<int>, done: set<int>,
        q: seq<int>)
    requires Constructible(g, rank, S.names) && Working(g, S, filled, done, q) && q != [] && q[0] == g.entry
    ensures Working(g, S, filled + {g.entry}, done + {g.entry}, q[1..] + [Targets(Outgoing(g.edges, g.entry))[0]])
  {
    var next := Targets(Outgoing(g.edges, g.entry));
    FrontierFilled(g, done, S.sealed, q, S.sealed);
    TargetsKnown(g, rank, S.names, g.entry);
    assert next == [next[0]];
  }

  // Edges lead to labels of the graph other than the entry.
  lemma {:induction false} TargetsKnown(g: Graph, rank: int -> nat, names: seq<string>, l: int)
    requires Constructible(g, rank, names)
    ensures forall k | k in Targets(Outgoing(g.edges, l)) :: k in g.vertices && k != g.entry
  {
    var out := Outgoing(g.edges, l);
    assert |Incoming(g.edges, g.entry)| == |Preds(g, g.entry)|;
    forall i | 0 <= i < |out| ensures Targets(out)[i] in g.vertices && Targets(out)[i] != g.entry {
      assert out[i] in out && out[i] in g.edges;
      IncomingComplete(g.edges, out[i]);
    }
  }

  lemma {:induction false} LabelSealed(g: Graph, S: Fill, filled: set<int>, done: set<int>, q: seq<int>, l: int)
    requires Working(g, S, filled, done, q) && forall p | p in Preds(g, l) :: p in done
    ensures Working(g, S.(sealed := S.sealed + {l}), filled, done, q)
  {
    var U := S.(sealed := S.sealed + {l});
    forall k | k in done && k != g.entry ensures Renames(U.logs[k], g.vertices[k].instrs) {
      assert Renames(S.logs[k], g.vertices[k].instrs);
    }
  }

  lemma {:induction false} LabelDropped(g: Graph, S: Fill, filled: set<int>, done: set<int>, q: seq<int>)
    requires Working(g, S, filled, done, q) && q != [] && q[0] != g.entry
    requires q[0] in done || (q[0] == g.exit && ((forall p | p in Preds(g, g.exit) :: p in done) ==>
            g.exit in S.sealed))
    ensures Working(g, S, filled, done, q[1..]) && Working(g, S, filled + {g.exit}, done, q[1..])
  {
    FrontierDropped(g, done, S.sealed, q, S.sealed);
    assert filled + {g.exit} == filled;
  }

  lemma {:induction false} LabelPushedBack(g: Graph, S: Fill, filled: set<int>, done: set<int>, q: seq<int>)
    requires Working(g, S, filled, done, q) && q != [] && q[0] != g.entry
    ensures Working(g, S, filled, done, q[1..] + [q[0]])
  {
    assert forall x | x in q :: x in q[1..] + [q[0]];
  }

  lemma {:induction false} LabelFilled(g: Graph, rank: int -> nat, S: Fill, U: Fill, filled: set<int>,
        done: set<int>, q: seq<int>)
    requires Constructible(g, rank, S.names) && Working(g, S, filled, done, q) && q != [] && q[0] != g.entry
            && q[0] != g.exit
    requires g.entry in done && q[0] in S.sealed
    requires IdleOk(U) && U.F.g == g && U.constants == [] && U.sealed == S.sealed && U.F.ready == S.F.ready + {q[0]}
    requires q[0] in U.logs && U.logs == S.logs[q[0] := U.logs[q[0]]]
    requires g.vertices[q[0]].Regular? && Renames(U.logs[q[0]], g.vertices[q[0]].instrs)
    ensures Working(g, U, filled + {q[0]}, done + {q[0]}, q[1..] + Targets(Outgoing(g.edges, q[0])))
  {
    FrontierFilled(g, done, S.sealed, q, S.sealed);
    TargetsKnown(g, rank, S.names, q[0]);
    BlockWritten(g, S, U, done, q[0]);
  }

  // A sealed block can be filled.
  lemma {:induction false} SealedFillable(g: Graph, rank: int -> nat, S: Fill, filled: set<int>, done: set<int>,
        q: seq<int>, l: int)
    requires Constructible(g, rank, S.names) && Working(g, S, filled, done, q) && l in g.vertices && l !in filled
            && l in S.sealed
    ensures l !in S.F.ready && l !in S.logs && l != g.entry && l != g.exit
    ensures Preds(g, l) != [] && (forall p | p in Preds(g, l) :: p in S.F.ready) && g.exit !in Preds(g, l)
    ensures g.vertices[l].Regular? && BlockRenamable(g.vertices[l].instrs, S.names)
  {
  }

  // All preceding blocks are filled exactly if they are processed.
  lemma {:induction false} SealableBlocks(g: Graph, rank: int -> nat, S: Fill, filled: set<int>, done: set<int>,
        q: seq<int>, l: int)
    requires Constructible(g, rank, S.names) && Working(g, S, filled, done, q) && g.entry in done
    ensures (forall p | p in Preds(g, l) :: p in filled) <==> (forall p | p in Preds(g, l) :: p in done)
  {
    if g.exit in Preds(g, l) {
      var e := PredOf(g, l, g.exit);
      OutgoingComplete(g.edges, e);
      assert false;
    }
  }

  lemma {:induction false} RotationDecreases(g: Graph, rank: int -> nat, S: Fill, filled: set<int>, done: set<int>,
        q: seq<int>)
    requires Constructible(g, rank, S.names) && Working(g, S, filled, done, q) && g.entry in done
    requires q != [] && q[0] != g.exit && q[0] !in done && !(forall p | p in Preds(g, q[0]) :: p in done)
    ensures FirstMovable(g, done, q[1..] + [q[0]]) < FirstMovable(g, done, q)
  {
    var x := MovableExists(g, rank, S.names, done, S.sealed, q, q[0]);
    RotationProgress(g, done, q, x);
  }

  // In the end all blocks are filled, and the exit is sealed.
  lemma {:induction false} AllFilled(g: Graph, rank: int -> nat, S: Fill, filled: set<int>, done: set<int>)
    requires Constructible(g, rank, S.names) && Working(g, S, filled, done, [])
    ensures done == g.vertices.Keys - {g.exit} && g.exit in S.sealed && forall p | p in Preds(g, g.exit) ::
            p in S.F.ready
  {
    forall l | l in g.vertices && l != g.exit ensures l in done {
      if l !in done {
        var x := MovableExists(g, rank, S.names, done, S.sealed, [], l);
        assert false;
      }
    }
    forall p | p in Preds(g, g.exit) ensures p in done {
      var e := PredOf(g, g.exit, p);
      if p == g.exit {
        OutgoingComplete(g.edges, e);
        assert false;
      }
    }
  }

  // The result of the pass: the final tables, and the graph with the renamed blocks.
  ghost predicate IsSsaOf(g: Graph, names: seq<string>, S: Fill, r: Graph) {
    && FillOk(S) && S.names == names && Closing(g, S)
    && RecordedUpTo(S.T.defs, names, |names|, g.exit)
    && r.edges == g.edges && r.entry == g.entry && r.exit == g.exit && r.vertices.Keys == g.vertices.Keys
    && (forall l | l in g.vertices ::
          if l == g.entry || l == g.exit then r.vertices[l] == g.vertices[l]
          else g.vertices[l].Regular? && l in S.logs && Renames(S.logs[l], g.vertices[l].instrs)
                && r.vertices[l] == Regular(EmittedAll(S.logs[l])))
  }

  // A variable of the interface gets its value at the entry.
  lemma {:induction false} InitialDefined(S: Fill, x: string)
    requires IdleOk(S) && S.F.ready == {S.F.g.entry} && S.logs == map[]
    ensures var l := S.F.g.entry;
            IdleOk(S.(F := S.F.(own := S.F.own[(x, l) := S.T.next]), T := Define(S.T, x, l, SsaName(x, S.T.next)),
                  names := S.names + [x]))
  {
    var l := S.F.g.entry;
    assert NamesValue(SsaName(x, S.T.next), S.T.next);
    DefineOk(S.F, S.T, x, l, SsaName(x, S.T.next));
  }

  // ---------- the end ----------

  // The exit is opened like a block, to be read.
  lemma {:induction false} ExitOpened(g: Graph, rank: int -> nat, S: Fill, filled: set<int>, done: set<int>)
    requires Constructible(g, rank, S.names) && Working(g, S, filled, done, [])
    ensures done == g.vertices.Keys - {g.exit} && g.exit in S.sealed
    ensures var U := OpenedFill(S, g.exit); FillOk(U) && Closing(g, U)
  {
    AllFilled(g, rank, S, filled, done);
    BlockOpened(S, g.exit);
    forall l | l in g.vertices && l != g.entry && l != g.exit ensures l in S.logs
            && Renames(S.logs[l], g.vertices[l].instrs) {
      assert l in done;
    }
  }

  // All blocks are filled, and the exit is open.
  ghost predicate Closing(g: Graph, S: Fill) {
    && S.F.g == g && S.l == g.exit && S.constants == [] && S.F.ready == g.vertices.Keys && g.exit in S.logs
          && S.logs[g.exit] == []
    && forall l | l in g.vertices && l != g.entry && l != g.exit :: g.vertices[l].Regular? && l in S.logs
          && Renames(S.logs[l], g.vertices[l].instrs)
  }

  lemma {:induction false} ClosingCode(g: Graph, S: Fill, l: int)
    requires FillOk(S) && Closing(g, S) && l in g.vertices && l != g.entry && l != g.exit
    ensures At(S.code, l) == EmittedAll(S.logs[l])
  {
    assert S.logs[l] == S.logs[l];
    assert EmittedAll(S.logs[l]) + [] == EmittedAll(S.logs[l]);
  }

  // The first n variables have been read at the exit.
  predicate RecordedUpTo(defs: Definitions, names: seq<string>, n: nat, l: int)
    requires n <= |names|
  {
    forall j | 0 <= j < n :: Recorded(defs, names[j], l)
  }

  // Reading the next variable at the exit keeps everything that was read there.
  lemma {:induction false} ExitRead(g: Graph, S: Fill, T': Table, i: nat, v: int)
    requires FillOk(S) && Closing(g, S) && i < |S.names| && !IsConstantName(S.names[i])
            && RecordedUpTo(S.T.defs, S.names, i, g.exit)
    requires TableOk(S.F, T') && ReadOk(S.F, S.names[i], g.exit, v, S.T, T')
    ensures FillOk(S.(T := T')) && Closing(g, S.(T := T')) && RecordedUpTo(T'.defs, S.names, i + 1, g.exit)
  {
    VariablePushed(S, T', [], S.names[i], v);
    RecordedMore(S.F, S.T, T', S.names, i, g.exit, v);
  }

  lemma {:induction false} RecordedMore(F: Frame, a: Table, b: Table, names: seq<string>, i: nat, l: int, v: int)
    requires i < |names| && RecordedUpTo(a.defs, names, i, l) && ReadOk(F, names[i], l, v, a, b)
    ensures RecordedUpTo(b.defs, names, i + 1, l)
  {
  }
}
