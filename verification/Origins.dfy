// What the stages behind the compiler need of its output: every instruction stems from a statement of
// the source, jumps of code without loops lead forward, and calls are resolved.

module Origins {
  import opened Ir
  import opened StructuredText
  import opened Plan
  import opened Simulation
  import opened Faithful
  import opened GotoCode
  import opened PouCompiler
  import opened Cfg
  import opened Builder
  import opened BasicBlocks
  import opened Symbolic
  import opened Execution

  // ---------- instructions of a plan ----------

  // Whatever labels they get, the instructions of the plan are ok.
  ghost predicate Made(ok: Instr -> bool, c: Core)
    decreases c, 0
  {
    match c
    case CAssign(v, e) => ok(OfAssignment(v, e))
    case CCall(f, pou, entry) => CallOk(ok, f, pou, entry)
    case CSkip => true
    case CIf(cond, thn, els) => BranchOk(ok, cond) && MadeList(ok, thn) && MadeList(ok, els)
    case CUnless(cond, body) => BranchOk(ok, cond) && MadeList(ok, body)
    case CCopy(cond, thn, other) => BranchOk(ok, cond) && BranchOk(ok, other) && MadeList(ok, thn)
    case CWhile(cond, body) => LoopOk(ok, cond) && MadeList(ok, body)
  }

  ghost predicate MadeList(ok: Instr -> bool, cs: seq<Core>)
    decreases cs, 1
  {
    forall i | 0 <= i < |cs| :: Made(ok, cs[i])
  }

  ghost predicate CallOk(ok: Instr -> bool, f: string, pou: string, entry: int) {
    forall t :: ok(Call(f, pou, t, entry))
  }

  ghost predicate BranchOk(ok: Instr -> bool, cond: Expr) {
    forall t, f :: ok(IfGoto(cond, t, f))
  }

  ghost predicate LoopOk(ok: Instr -> bool, cond: Expr) {
    forall t, f :: ok(WhileGoto(cond, t, f))
  }

  ghost predicate GotosOk(ok: Instr -> bool) {
    forall t :: ok(Goto(t))
  }

  ghost predicate AllOk(ok: Instr -> bool, code: Code, lo: int, hi: int) {
    forall l | lo <= l < hi :: l in code && ok(code[l])
  }

  lemma {:induction false} MadeCoded(ok: Instr -> bool, code: Code, c: Core, lo: int, next: int)
    requires GotosOk(ok) && Made(ok, c) && Coded(code, c, lo, next)
    ensures AllOk(ok, code, lo, lo + Size(c))
    decreases c, 0
  {
    match c
    case CIf(_, thn, els) =>
      MadeCodedList(ok, code, thn, lo + 1, next);
      if els != [] { MadeCodedList(ok, code, els, lo + 1 + SizeList(thn), next); }
    case CUnless(_, body) => MadeCodedList(ok, code, body, lo + 1, next);
    case CCopy(_, thn, _) => MadeCodedList(ok, code, thn, lo + 1, next);
    case CWhile(_, body) => MadeCodedList(ok, code, body, lo + 1, lo);
    case CAssign(_, _) =>
    case CCall(_, _, _) =>
    case CSkip =>
  }

  lemma {:induction false} MadeCodedList(ok: Instr -> bool, code: Code, cs: seq<Core>, lo: int, next: int)
    requires GotosOk(ok) && MadeList(ok, cs) && CodedList(code, cs, lo, next)
    ensures AllOk(ok, code, lo, lo + SizeList(cs))
    decreases cs, 1
  {
    if cs != [] {
      MadeCoded(ok, code, cs[0], lo, if |cs| == 1 then next else lo + Size(cs[0]));
      if |cs| > 1 {
        MadeCodedList(ok, code, cs[1..], lo + Size(cs[0]), next);
      } else {
        SizeOne(cs[0]);
        assert cs == [cs[0]];
      }
    }
  }

  // ---------- statements ----------

  // The instructions that the statement may be compiled to are ok.
  ghost predicate Uses(ok: Instr -> bool, entries: map<string, int>, s: Stmt)
    decreases s, 0
  {
    match s
    case Assignment(v, e) => ok(OfAssignment(v, e))
    case Invocation(f, pou, pre, post) =>
      && CallOk(ok, f, pou, if pou in entries then entries[pou] else -1)
      && BindingsOk(ok, pre) && BindingsOk(ok, post)
    case If(c, thn, elifs, els) =>
      && BranchOk(ok, c) && UsesList(ok, entries, thn) && UsesList(ok, entries, els)
      && forall i | 0 <= i < |elifs| :: BranchOk(ok, elifs[i].cond) && UsesList(ok, entries, elifs[i].body)
    case While(c, body) => LoopOk(ok, c) && UsesList(ok, entries, body)
    case Case(sel, arms, els) =>
      && UsesList(ok, entries, els)
      && forall i | 0 <= i < |arms| ::
           BranchOk(ok, CaseCondition(sel, arms[i].values)) && UsesList(ok, entries, arms[i].body)
  }

  ghost predicate UsesList(ok: Instr -> bool, entries: map<string, int>, ss: seq<Stmt>)
    decreases ss, 1
  {
    forall i | 0 <= i < |ss| :: Uses(ok, entries, ss[i])
  }

  ghost predicate BindingsOk(ok: Instr -> bool, bs: seq<Binding>) {
    forall i | 0 <= i < |bs| :: ok(OfAssignment(bs[i].v, bs[i].e))
  }

  ghost predicate ArmsMade(ok: Instr -> bool, arms: seq<CoreArm>) {
    forall i | 0 <= i < |arms| :: BranchOk(ok, arms[i].cond) && MadeList(ok, arms[i].body)
  }

  lemma {:induction false} NestMade(ok: Instr -> bool, arms: seq<CoreArm>, els: seq<Core>)
    requires ArmsMade(ok, arms) && MadeList(ok, els)
    ensures MadeList(ok, Nest(arms, els))
  {
    if arms != [] {
      NestMade(ok, arms[1..], els);
    }
  }

  lemma {:induction false} SelectionMade(ok: Instr -> bool, cond: Expr, thn: seq<Core>, arms: seq<CoreArm>,
        els: seq<Core>)
    requires BranchOk(ok, cond) && MadeList(ok, thn) && ArmsMade(ok, arms) && MadeList(ok, els)
    ensures MadeList(ok, PlanSelection(cond, thn, arms, els))
  {
    var coded := ArmsWithCode(cond, thn, arms);
    assert forall i | 0 <= i < |coded| :: coded[i] == CoreArm(cond, thn) || coded[i] in arms;
    NestMade(ok, coded, els);
  }

  lemma {:induction false} BindingsMade(ok: Instr -> bool, bs: seq<Binding>)
    requires BindingsOk(ok, bs)
    ensures MadeList(ok, PlanBindings(bs))
  {
    var plan := PlanBindings(bs);
    forall i | 0 <= i < |plan| ensures Made(ok, plan[i]) {
      assert plan[i] == CAssign(bs[i].v, bs[i].e);
    }
  }

  lemma {:induction false} UsesMade(ok: Instr -> bool, entries: map<string, int>, s: Stmt)
    requires Uses(ok, entries, s)
    ensures MadeList(ok, PlanOf(entries, s))
    decreases s, 0
  {
    match s
    case If(c, thn, elifs, els) =>
      UsesMadeList(ok, entries, thn);
      UsesMadeList(ok, entries, els);
      var arms := PlanArms(entries, elifs);
      forall i | 0 <= i < |arms| ensures BranchOk(ok, arms[i].cond)
              && MadeList(ok, arms[i].body) { UsesMadeList(ok, entries, elifs[i].body); }
      SelectionMade(ok, c, PlanList(entries, thn), arms, PlanList(entries, els));
    case While(_, body) => UsesMadeList(ok, entries, body);
    case Case(sel, arms, els) =>
      if arms != [] {
        UsesMadeList(ok, entries, arms[0].body);
        UsesMadeList(ok, entries, els);
        var rest := PlanCaseArms(entries, sel, arms[1..]);
        forall i | 0 <= i < |rest| ensures BranchOk(ok, rest[i].cond)
                && MadeList(ok, rest[i].body) { UsesMadeList(ok, entries, arms[1..][i].body); }
        SelectionMade(ok, CaseCondition(sel, arms[0].values), PlanList(entries, arms[0].body), rest,
              PlanList(entries, els));
      }
    case Invocation(f, pou, pre, post) =>
      BindingsMade(ok, pre);
      BindingsMade(ok, post);
    case Assignment(_, _) =>
  }

  lemma {:induction false} UsesMadeList(ok: Instr -> bool, entries: map<string, int>, ss: seq<Stmt>)
    requires UsesList(ok, entries, ss)
    ensures MadeList(ok, PlanList(entries, ss))
    decreases ss, 1
  {
    if ss != [] {
      UsesMade(ok, entries, ss[0]);
      UsesMadeList(ok, entries, ss[1..]);
    }
  }

  // Every instruction of a compiled body is ok if those of its statements are.
  lemma {:induction false} ModuleInstructions(ok: Instr -> bool, entries: map<string, int>, body: seq<Stmt>, m: Module)
    requires GotosOk(ok) && UsesList(ok, entries, body) && ModuleOk(entries, body, m)
    ensures AllOk(ok, m.code, m.entry + 1, m.exit)
  {
    UsesMadeList(ok, entries, body);
    MadeCodedList(ok, m.code, PlanList(entries, body), m.entry + 1, m.exit);
  }

  // ---------- calls ----------

  function CallsOnly(names: set<string>): Instr -> bool {
    (i: Instr) => i.Call? ==> i.pou in names
  }

  lemma {:induction false} SupportedCalls(callees: map<string, int>, entries: map<string, int>, ss: seq<Stmt>)
    requires SupportedList(callees, ss)
    ensures UsesList(CallsOnly(callees.Keys), entries, ss)
    decreases ss, 1
  {
    forall i | 0 <= i < |ss| ensures Uses(CallsOnly(callees.Keys), entries, ss[i]) {
      assert Supported(callees, ss[i]);
      SupportedCallsOne(callees, entries, ss[i]);
    }
  }

  lemma {:induction false} SupportedCallsOne(callees: map<string, int>, entries: map<string, int>, s: Stmt)
    requires Supported(callees, s)
    ensures Uses(CallsOnly(callees.Keys), entries, s)
    decreases s, 0
  {
    match s
    case If(_, thn, elifs, els) =>
      SupportedCalls(callees, entries, thn);
      SupportedCalls(callees, entries, els);
      forall i | 0 <= i < |elifs|
        ensures UsesList(CallsOnly(callees.Keys), entries, elifs[i].body)
      {
        SupportedCalls(callees, entries, elifs[i].body);
      }
    case While(_, body) => SupportedCalls(callees, entries, body);
    case Case(_, arms, els) =>
      SupportedCalls(callees, entries, els);
      forall i | 0 <= i < |arms|
        ensures UsesList(CallsOnly(callees.Keys), entries, arms[i].body)
      {
        SupportedCalls(callees, entries, arms[i].body);
      }
    case _ =>
  }

  function ExitsOf(modules: map<string, Module>): map<string, int> {
    map m | m in modules :: modules[m].exit
  }

  // A compiled module can be turned into a graph: its callees were compiled before it.
  lemma {:induction false} ModuleIsLinked(project: map<string, Pou>, rank: map<string, nat>,
        modules: map<string, Module>, freeLabel: int, n: string)
    requires Acyclic(project, rank) && ModulesOk(project, modules, freeLabel) && n in modules
    ensures Linked(modules[n], ExitsOf(modules))
  {
    var m := modules[n];
    assert ModuleAt(project, modules, EntriesOf(modules), n);
    var callees := CalleeEntries(project[n].callees);
    SupportedCalls(callees, EntriesOf(modules), project[n].body);
    ModuleInstructions(CallsOnly(callees.Keys), EntriesOf(modules), project[n].body, m);
    forall l | l in m.code && m.code[l].Call? ensures m.code[l].pou in ExitsOf(modules)
            && ExitsOf(modules)[m.code[l].pou] < m.entry {
      assert m.code[l].pou in project[n].callees;
      var k :| 0 <= k < |project[n].callees| && project[n].callees[k] == m.code[l].pou;
      assert CalleesBelow(project[n].callees, modules, m.entry);
    }
  }

  // ---------- the edges of a built graph ----------

  lemma {:induction false} EdgeStems(code: Code, name: string, exits: map<string, int>, lo: int, hi: int, e: Edge)
        returns (k: int)
    requires CalleesKnown(code, exits, lo - 1) && e in EdgesUpTo(code, name, exits, lo, hi)
    ensures lo <= k < hi && k in code && e in EdgesAt(code[k], name, exits, k)
    decreases hi - lo
  {
    if e in EdgesUpTo(code, name, exits, lo, hi - 1) {
      k := EdgeStems(code, name, exits, lo, hi - 1, e);
    } else {
      k := hi - 1;
    }
  }

  lemma {:induction false} EdgeKept(code: Code, name: string, exits: map<string, int>, lo: int, hi: int, k: int,
        e: Edge)
    requires CalleesKnown(code, exits, lo - 1) && lo <= k < hi && k in code && e in EdgesAt(code[k], name, exits, k)
    ensures e in EdgesUpTo(code, name, exits, lo, hi)
    decreases hi - lo
  {
    if k < hi - 1 {
      EdgeKept(code, name, exits, lo, hi - 1, k, e);
    }
  }

  lemma {:induction false} ReturnEdgeFound(edges: seq<Edge>, site: int)
    requires exists e :: e in edges && e.kind.InterproceduralReturn? && e.target == site
    ensures ReturnEdge(edges, site).Some? && ReturnEdge(edges, site).value in edges
    ensures ReturnEdge(edges, site).value.kind.InterproceduralReturn?
  {
    if !(edges[0].kind.InterproceduralReturn? && edges[0].target == site) {
      ReturnEdgeFound(edges[1..], site);
    }
  }

  // In a built graph every call returns: basic blocks can be formed.
  lemma {:induction false} GraphCallsReturn(m: Module, name: string, exits: map<string, int>, g: Graph)
    requires Linked(m, exits) && IsGraphOf(m, name, exits, g) && WellShaped(g)
    ensures CallsReturn(g)
  {
    forall l | l in g.vertices && InstrAt(g, l).Some? && InstrAt(g, l).value.Call? ensures ReturnsAt(g, l) {
      CallReturns(m, name, exits, g, l);
    }
  }

  lemma {:induction false} CallReturns(m: Module, name: string, exits: map<string, int>, g: Graph, l: int)
    requires Linked(m, exits) && IsGraphOf(m, name, exits, g) && WellShaped(g)
    requires l in m.code && m.code[l].Call? && l in g.vertices && g.vertices[l] == Regular([m.code[l]])
    ensures ReturnsAt(g, l)
  {
    var i := m.code[l];
    var back := Edge(exits[i.pou], i.intraprocedural, InterproceduralReturn(name, l));
    EdgeKept(m.code, name, exits, m.entry + 1, m.exit, l, back);
    CallSite(g, l, i);
    assert back in g.edges;
    ReturnEdgeFound(g.edges, i.intraprocedural);
    ReturnsFromOutside(m, name, exits, g, ReturnEdge(g.edges, i.intraprocedural).value);
  }

  lemma {:induction false} ReturnsFromOutside(m: Module, name: string, exits: map<string, int>, g: Graph, e: Edge)
    requires Linked(m, exits) && IsGraphOf(m, name, exits, g) && e in g.edges && e.kind.InterproceduralReturn?
    ensures e.source !in g.vertices
  {
    var k := EdgeStems(m.code, name, exits, m.entry + 1, m.exit, e);
    assert m.code[k].Call?;
  }

  // The return site of a call is where its CallToReturn edge leads.
  lemma {:induction false} CallSite(g: Graph, l: int, i: Instr)
    requires WellShaped(g) && l in g.vertices && g.vertices[l] == Regular([i]) && i.Call?
    ensures Follow(g.edges, l, CallToReturn) == i.intraprocedural
  {
    assert VertexFits(g, l);
    FollowOutgoing(g.edges, l, CallToReturn);
    var out := Outgoing(g.edges, l);
    assert out[0] in out && out[1] in out && out[1..][0] == out[1];
  }

  // ---------- graphs that the engine can run ----------

  function RunsIn(vars: set<string>, boolean: string -> bool): Instr -> bool {
    (i: Instr) => i.Goto? || (InstructionsOk([i], vars) && InstructionTyped(boolean, i))
  }

  // Without loops, jumps lead forward.
  predicate Ahead(i: Instr, l: int) {
    match i
    case Goto(t) => l < t
    case IfGoto(_, t, f) => l < t && l < f
    case _ => true
  }

  ghost predicate AllAhead(code: Code, lo: int, hi: int) {
    forall l | lo <= l < hi && l in code :: Ahead(code[l], l)
  }

  ghost predicate NoLoops(code: Code, lo: int, hi: int) {
    forall l | lo <= l < hi && l in code :: !code[l].WhileGoto?
  }

  // No condition leads back to itself.
  ghost predicate NoWaits(code: Code, lo: int, hi: int) {
    forall l | lo <= l < hi && l in code && code[l].IfGoto? :: code[l].elseLabel != l
  }

  // No last condition copies the jump of the list before its own, so none can lead back to itself.
  predicate NoCopies(c: Core)
    decreases c, 0
  {
    match c
    case CIf(_, thn, els) => NoCopiesList(thn) && NoCopiesList(els)
    case CUnless(_, body) => NoCopiesList(body)
    case CWhile(_, body) => NoCopiesList(body)
    case CCopy(_, _, _) => false
    case _ => true
  }

  predicate NoCopiesList(cs: seq<Core>)
    decreases cs, 1
  {
    forall i | 0 <= i < |cs| :: NoCopies(cs[i])
  }

  lemma {:induction false} NestNoCopies(arms: seq<CoreArm>, els: seq<Core>)
    requires !Copies(arms, els) && NoCopiesList(els) && forall i | 0 <= i < |arms| :: NoCopiesList(arms[i].body)
    ensures NoCopiesList(Nest(arms, els))
  {
    if arms != [] {
      NestNoCopies(arms[1..], els);
    }
  }

  lemma {:induction false} SelectionNoCopies(cond: Expr, thn: seq<Core>, arms: seq<CoreArm>, els: seq<Core>)
    requires forall i | 0 <= i < |arms| && arms[i].body != [] :: EndingOfList(arms[i].body) != Nothing
    requires NoCode(arms) || forall i | 0 <= i < |arms| :: arms[i].body != []
    requires NoCopiesList(thn) && NoCopiesList(els) && forall i | 0 <= i < |arms| :: NoCopiesList(arms[i].body)
    ensures NoCopiesList(PlanSelection(cond, thn, arms, els))
  {
    var coded := ArmsWithCode(cond, thn, arms);
    AllEndedCopiesNot(cond, thn, arms, els);
    forall i | 0 <= i < |coded| ensures NoCopiesList(coded[i].body) {
      assert coded[i] == CoreArm(cond, thn) || coded[i] in arms;
    }
    NestNoCopies(coded, els);
  }

  // Well-formed bodies have none.
  lemma {:induction false} WellFormedNoCopies(entries: map<string, int>, ss: seq<Stmt>)
    requires WellFormedList(ss)
    ensures NoCopiesList(PlanList(entries, ss))
    decreases ss, 1
  {
    if ss != [] {
      StatementNoCopies(entries, ss[0]);
      WellFormedNoCopies(entries, ss[1..]);
    }
  }

  lemma {:induction false} StatementNoCopies(entries: map<string, int>, s: Stmt)
    requires WellFormed(s)
    ensures NoCopiesList(PlanOf(entries, s))
    decreases s, 0
  {
    match s
    case If(c, thn, elifs, els) =>
      WellFormedNoCopies(entries, thn);
      WellFormedNoCopies(entries, els);
      forall i | 0 <= i < |elifs| ensures NoCopiesList(PlanList(entries, elifs[i].body)) {
        WellFormedNoCopies(entries, elifs[i].body);
      }
      IfNoCopies(entries, c, thn, elifs, els);
    case While(_, body) => WellFormedNoCopies(entries, body);
    case Case(_, arms, els) =>
      var low, rest := Lowered(s), arms[1..];
      LoweredPlan(entries, s);
      WellFormedNoCopies(entries, arms[0].body);
      WellFormedNoCopies(entries, els);
      forall i | 0 <= i < |rest| ensures NoCopiesList(PlanList(entries, low.elifs[i].body)) {
        assert low.elifs[i].body == rest[i].body == arms[i + 1].body;
        WellFormedNoCopies(entries, arms[i + 1].body);
      }
      IfNoCopies(entries, low.cond, arms[0].body, low.elifs, els);
    case _ =>
  }

  lemma {:induction false} IfNoCopies(entries: map<string, int>, c: Expr, thn: seq<Stmt>, elifs: seq<Arm>,
        els: seq<Stmt>)
    requires AllSolid(ArmBodies(elifs)) && (AllEmpty(ArmBodies(elifs)) || NoneEmpty(ArmBodies(elifs)))
    requires NoCopiesList(PlanList(entries, thn)) && NoCopiesList(PlanList(entries, els))
    requires forall i | 0 <= i < |elifs| :: NoCopiesList(PlanList(entries, elifs[i].body))
    ensures NoCopiesList(PlanOf(entries, If(c, thn, elifs, els)))
  {
    ArmsEnd(entries, elifs);
    SelectionNoCopies(c, PlanList(entries, thn), PlanArms(entries, elifs), PlanList(entries, els));
  }

  lemma {:induction false} Forward(code: Code, c: Core, lo: int, next: int)
    requires Coded(code, c, lo, next) && lo + Size(c) <= next && NoLoops(code, lo, lo + Size(c))
    requires NoWaits(code, lo, lo + Size(c)) || NoCopies(c)
    ensures AllAhead(code, lo, lo + Size(c)) && lo <= LastTarget(c, lo, next)
    decreases c, 1
  {
    match c
    case CIf(_, thn, els) =>
      ForwardList(code, thn, lo + 1, next);
      if els != [] { ForwardList(code, els, lo + 1 + SizeList(thn), next); }
    case CUnless(_, body) => ForwardList(code, body, lo + 1, next);
    case CCopy(_, _, _) => ForwardCopy(code, c, lo, next);
    case CWhile(_, _) => assert false;
    case CAssign(_, _) =>
    case CCall(_, _, _) =>
    case CSkip =>
  }

  lemma {:induction false} ForwardCopy(code: Code, c: Core, lo: int, next: int)
    requires c.CCopy? && Coded(code, c, lo, next) && lo + Size(c) <= next && NoLoops(code, lo, lo + Size(c))
    requires NoWaits(code, lo, lo + Size(c))
    ensures AllAhead(code, lo, lo + Size(c))
    decreases c, 0
  {
    var thn := c.thn;
    var mid := lo + 1 + SizeList(thn);
    ForwardList(code, thn, lo + 1, next);
    LastJumpList(code, thn, lo + 1, next);
    assert Ahead(code[mid - 1], mid - 1) && code[mid].elseLabel != mid;
  }

  lemma {:induction false} ForwardList(code: Code, cs: seq<Core>, lo: int, next: int)
    requires CodedList(code, cs, lo, next) && lo + SizeList(cs) <= next && NoLoops(code, lo, lo + SizeList(cs))
    requires NoWaits(code, lo, lo + SizeList(cs)) || NoCopiesList(cs)
    ensures AllAhead(code, lo, lo + SizeList(cs)) && lo <= LastTargetList(cs, lo, next)
    decreases cs, 2
  {
    if |cs| == 1 {
      SizeOne(cs[0]);
      assert cs == [cs[0]];
      Forward(code, cs[0], lo, next);
    } else if |cs| > 1 {
      Forward(code, cs[0], lo, lo + Size(cs[0]));
      ForwardList(code, cs[1..], lo + Size(cs[0]), next);
    }
  }

  // The edges of the graph lead between its vertices, to higher labels.
  lemma {:induction false} EdgesIncrease(m: Module, name: string, exits: map<string, int>, g: Graph, e: Edge)
    requires Linked(m, exits) && IsGraphOf(m, name, exits, g) && e in g.edges
    requires Closed(m.code, Window(m.entry + 1, m.exit, m.exit), m.entry + 1, m.exit)
    requires AllAhead(m.code, m.entry + 1, m.exit) && forall l | l in m.code ::
            !m.code[l].Call? && !m.code[l].WhileGoto?
    ensures e.source in g.vertices && e.target in g.vertices && e.source < e.target
  {
    var w := Window(m.entry + 1, m.exit, m.exit);
    if e == Edge(m.entry, m.entry + 1, Intraprocedural) {
      assert m.entry + 1 < m.exit ==> ClosedAt(m.code, w, m.entry + 1, m.exit, m.entry + 1);
    } else {
      var k := EdgeStems(m.code, name, exits, m.entry + 1, m.exit, e);
      assert ClosedAt(m.code, w, m.entry + 1, m.exit, k) && Ahead(m.code[k], k);
      VertexTargets(m, name, exits, g, e.target);
    }
  }

  // The graph of a body of assignments and selections over the variables is one that the engine runs.
  lemma {:induction false} GraphIsExecutable(entries: map<string, int>, body: seq<Stmt>, m: Module, name: string,
        exits: map<string, int>, g: Graph,
                                             vars: set<string>, boolean: string -> bool)
    requires ModuleOk(entries, body, m) && Linked(m, exits) && IsGraphOf(m, name, exits, g) && WellShaped(g)
    requires Closed(m.code, Window(m.entry + 1, m.exit, m.exit), m.entry + 1, m.exit)
    requires UsesList(RunsIn(vars, boolean), entries, body)
    requires NoWaits(m.code, m.entry + 1, m.exit) || NoCopiesList(PlanList(entries, body))
    ensures Executable(g, vars) && WellTyped(boolean, g)
  {
    ModuleInstructions(RunsIn(vars, boolean), entries, body, m);
    forall l | l in m.code ensures !m.code[l].Call? && !m.code[l].WhileGoto? && RunsIn(vars, boolean)(m.code[l]) {
      assert m.entry + 1 <= l < m.exit;
    }
    ForwardList(m.code, PlanList(entries, body), m.entry + 1, m.exit);
    forall e | e in g.edges ensures e.source in g.vertices && e.target in g.vertices && e.source < e.target {
      EdgesIncrease(m, name, exits, g, e);
    }
    forall l | l in g.vertices && g.vertices[l].Regular?
      ensures InstructionsOk(g.vertices[l].instrs, vars) && InstructionTyped(boolean, g.vertices[l].instrs[0])
    {
      assert g.vertices[l] == Regular([m.code[l]]);
    }
  }

  // A graph that the engine runs has no condition that leads back to itself.
  lemma {:induction false} ExecutableNeverWaits(m: Module, name: string, exits: map<string, int>, g: Graph,
        vars: set<string>)
    requires Linked(m, exits) && IsGraphOf(m, name, exits, g) && Executable(g, vars)
    ensures NoWaits(m.code, m.entry + 1, m.exit)
  {
    forall l | m.entry + 1 <= l < m.exit && l in m.code && m.code[l].IfGoto? ensures m.code[l].elseLabel != l {
      var e := Edge(l, m.code[l].elseLabel, FalseBranch);
      EdgeKept(m.code, name, exits, m.entry + 1, m.exit, l, e);
      assert e in g.edges;
    }
  }
}
