// From labelled code to a control-flow graph (ahorn/src/cfg/builder.cpp).

module Builder {
  import opened Ir
  import opened Machines
  import opened GotoCode
  import opened Simulation
  import opened Cfg
  import opened PouCompiler

  // What the builder needs of a module: instructions between entry and exit, and callees whose
  // graphs were built before and lie in front of it.
  ghost predicate Linked(m: Module, exits: map<string, int>) {
    && m.entry < m.exit
    && (forall l | l in m.code :: m.entry < l < m.exit)
    && CalleesKnown(m.code, exits, m.entry)
  }

  predicate CalleesKnown(code: Code, exits: map<string, int>, entry: int) {
    forall l | l in code && code[l].Call? :: code[l].pou in exits && exits[code[l].pou] < entry
  }

  // The edges that instruction i at label l adds.
  function EdgesAt(i: Instr, name: string, exits: map<string, int>, l: int): seq<Edge>
    requires i.Call? ==> i.pou in exits
  {
    match i
    case Goto(t) => [Edge(l - 1, t, Intraprocedural)]
    case IfGoto(_, t, f) => [Edge(l, t, TrueBranch), Edge(l, f, FalseBranch)]
    case WhileGoto(_, t, f) => [Edge(l, t, TrueBranch), Edge(l, f, FalseBranch)]
    case Call(_, pou, intra, inter) =>
      [Edge(l, inter, InterproceduralCall), Edge(l, intra, CallToReturn),
       Edge(exits[pou], intra, InterproceduralReturn(name, l))]
    case _ => []
  }

  function EdgesUpTo(code: Code, name: string, exits: map<string, int>, lo: int, hi: int): seq<Edge>
    requires CalleesKnown(code, exits, lo - 1)
    decreases hi - lo
  {
    if hi <= lo then []
    else EdgesUpTo(code, name, exits, lo, hi - 1) + if hi - 1 in code then EdgesAt(code[hi - 1], name, exits, hi - 1)
          else []
  }

  function VerticesUpTo(m: Module, hi: int): map<int, Vertex> {
    (map l | l in m.code && l < hi && !m.code[l].Goto? ::
          Regular([m.code[l]]))[m.entry := EntryVertex][m.exit := ExitVertex]
  }

  function GraphEdges(m: Module, name: string, exits: map<string, int>, hi: int): seq<Edge>
    requires CalleesKnown(m.code, exits, m.entry)
  {
    [Edge(m.entry, m.entry + 1, Intraprocedural)] + EdgesUpTo(m.code, name, exits, m.entry + 1, hi)
  }

  lemma {:induction false} BuiltStart(m: Module, name: string, exits: map<string, int>)
    requires Linked(m, exits)
    ensures VerticesUpTo(m, m.entry + 1) == map[m.entry := EntryVertex][m.exit := ExitVertex]
    ensures GraphEdges(m, name, exits, m.entry + 1) == [Edge(m.entry, m.entry + 1, Intraprocedural)]
  {
  }

  lemma {:induction false} BuiltStep(m: Module, name: string, exits: map<string, int>, l: int)
    requires Linked(m, exits) && m.entry < l < m.exit
    ensures VerticesUpTo(m, l + 1) == if l !in m.code || m.code[l].Goto? then VerticesUpTo(m, l)
                                      else VerticesUpTo(m, l)[l := Regular([m.code[l]])]
    ensures GraphEdges(m, name, exits, l + 1) ==
            GraphEdges(m, name, exits, l) + if l in m.code then EdgesAt(m.code[l], name, exits, l) else []
  {
  }

  class Builder {
    var labelToVertex: map<int, Vertex>
    var edges: seq<Edge>
    var currentLabel: int
    var fullyQualifiedName: string
    var exits: map<string, int>   // exit labels of the graphs built before

    constructor (exits: map<string, int>)
      ensures this.exits == exits && edges == [] && labelToVertex == map[]
    {
      this.exits := exits;
      labelToVertex, edges, currentLabel, fullyQualifiedName := map[], [], 0, "";
    }

    method Build(m: Module, name: string) returns (g: Graph)
      requires Linked(m, exits) && edges == [] && labelToVertex == map[]
      modifies this
      ensures IsGraphOf(m, name, old(exits), g)
      ensures edges == [] && labelToVertex == map[] && exits == old(exits)[name := m.exit]
    {
      labelToVertex := map[m.entry := EntryVertex][m.exit := ExitVertex];
      edges := [Edge(m.entry, m.entry + 1, Intraprocedural)];
      fullyQualifiedName := name;
      BuiltStart(m, name, exits);
      for l := m.entry + 1 to m.exit
        invariant exits == old(exits) && fullyQualifiedName == name
        invariant labelToVertex == VerticesUpTo(m, l) && edges == GraphEdges(m, name, exits, l)
      {
        BuiltStep(m, name, exits, l);
        if l in m.code {
          currentLabel := l;
          Visit(m.code[l]);
        }
      }
      g := Graph(labelToVertex, edges, m.entry, m.exit);
      labelToVertex, edges, exits := map[], [], exits[name := m.exit];
    }

    method Visit(i: Instr)
      requires i.Call? ==> i.pou in exits
      modifies `labelToVertex, `edges
      ensures labelToVertex == if i.Goto? then old(labelToVertex) else old(labelToVertex)[currentLabel := Regular([i])]
      ensures edges == old(edges) + EdgesAt(i, fullyQualifiedName, exits, currentLabel)
    {
      match i
      case Assign(_, _) =>
        labelToVertex := labelToVertex[currentLabel := Regular([i])];
      case Havoc(_) =>
        labelToVertex := labelToVertex[currentLabel := Regular([i])];
      case Call(_, pou, intra, inter) =>
        labelToVertex := labelToVertex[currentLabel := Regular([i])];
        edges := edges + [Edge(currentLabel, inter, InterproceduralCall)];
        edges := edges + [Edge(currentLabel, intra, CallToReturn)];
        edges := edges + [Edge(exits[pou], intra, InterproceduralReturn(fullyQualifiedName, currentLabel))];
      case IfGoto(_, t, f) =>
        labelToVertex := labelToVertex[currentLabel := Regular([i])];
        edges := edges + [Edge(currentLabel, t, TrueBranch)];
        edges := edges + [Edge(currentLabel, f, FalseBranch)];
      case WhileGoto(_, t, f) =>
        labelToVertex := labelToVertex[currentLabel := Regular([i])];
        edges := edges + [Edge(currentLabel, t, TrueBranch)];
        edges := edges + [Edge(currentLabel, f, FalseBranch)];
      case Goto(t) =>
        // an explicit jump after the preceding instruction
        edges := edges + [Edge(currentLabel - 1, t, Intraprocedural)];
    }
  }

  // ---------- the shape of the graph ----------

  ghost predicate IsGraphOf(m: Module, name: string, exits: map<string, int>, g: Graph)
    requires CalleesKnown(m.code, exits, m.entry)
  {
    g == Graph(VerticesUpTo(m, m.exit), GraphEdges(m, name, exits, m.exit), m.entry, m.exit)
  }

  // What the instruction at label k contributes to the edges out of label l.
  function Share(i: Instr, k: int, l: int): seq<Edge> {
    match i
    case Goto(t) => if l == k - 1 then [Edge(l, t, Intraprocedural)] else []
    case IfGoto(_, t, f) => if l == k then [Edge(l, t, TrueBranch), Edge(l, f, FalseBranch)] else []
    case WhileGoto(_, t, f) => if l == k then [Edge(l, t, TrueBranch), Edge(l, f, FalseBranch)] else []
    case Call(_, _, intra, inter) => if l == k then [Edge(l, inter, InterproceduralCall),
          Edge(l, intra, CallToReturn)] else []
    case _ => []
  }

  // The edges out of label l: its own, and the jump that follows it.
  function EdgesFrom(code: Code, l: int, hi: int): seq<Edge> {
    (if l in code && l < hi then Share(code[l], l, l) else [])
    + (if l + 1 in code && l + 1 < hi then Share(code[l + 1], l + 1, l) else [])
  }

  lemma {:induction false} OutgoingUpTo(m: Module, name: string, exits: map<string, int>, hi: int, l: int)
    requires Linked(m, exits) && m.entry < hi <= m.exit && m.entry <= l
    ensures Outgoing(EdgesUpTo(m.code, name, exits, m.entry + 1, hi), l) == EdgesFrom(m.code, l, hi)
    decreases hi - m.entry
  {
    var lo, k := m.entry + 1, hi - 1;
    if lo < hi {
      var front := EdgesUpTo(m.code, name, exits, lo, k);
      OutgoingUpTo(m, name, exits, k, l);
      ShareElsewhere(m.code, l, k);
      if k in m.code {
        var last := EdgesAt(m.code[k], name, exits, k);
        assert EdgesUpTo(m.code, name, exits, lo, hi) == front + last;
        OutgoingAppend(front, last, l);
        OutgoingAt(m.code[k], name, exits, m.entry, k, l);
      } else {
        assert EdgesUpTo(m.code, name, exits, lo, hi) == front;
      }
    }
  }

  lemma {:induction false} ShareElsewhere(code: Code, l: int, k: int)
    ensures EdgesFrom(code, l, k + 1) == EdgesFrom(code, l, k) + if k in code then Share(code[k], k, l) else []
  {
  }

  lemma {:induction false} OutgoingAt(i: Instr, name: string, exits: map<string, int>, entry: int, k: int, l: int)
    requires entry <= l && (i.Call? ==> i.pou in exits && exits[i.pou] < entry)
    ensures Outgoing(EdgesAt(i, name, exits, k), l) == Share(i, k, l)
  {
    var e := EdgesAt(i, name, exits, k);
    match i
    case Goto(_) => OutgoingOne(e[0], l);
    case IfGoto(_, _, _) => OutgoingTwo(e[0], e[1], l);
    case WhileGoto(_, _, _) => OutgoingTwo(e[0], e[1], l);
    case Call(_, _, _, _) =>
      assert e == [e[0], e[1]] + [e[2]];
      OutgoingAppend([e[0], e[1]], [e[2]], l);
      OutgoingTwo(e[0], e[1], l);
      OutgoingOne(e[2], l);
    case _ =>
  }

  lemma {:induction false} OutgoingOne(e: Edge, l: int)
    ensures Outgoing([e], l) == if e.source == l then [e] else []
  {
    assert [e][1..] == [];
  }

  lemma {:induction false} OutgoingTwo(d: Edge, e: Edge, l: int)
    ensures Outgoing([d, e], l) == Outgoing([d], l) + Outgoing([e], l)
    ensures d.source == e.source ==> Outgoing([d, e], l) == if e.source == l then [d, e] else []
  {
    assert [d, e] == [d] + [e];
    OutgoingAppend([d], [e], l);
    OutgoingOne(d, l);
    OutgoingOne(e, l);
  }

  // The edges out of a label of the built graph.
  lemma {:induction false} OutgoingOfGraph(m: Module, name: string, exits: map<string, int>, g: Graph, l: int)
    requires Linked(m, exits) && IsGraphOf(m, name, exits, g) && m.entry <= l
    ensures Outgoing(g.edges, l) ==
            if l == m.entry then [Edge(m.entry, m.entry + 1, Intraprocedural)] + EdgesFrom(m.code, l, m.exit)
            else EdgesFrom(m.code, l, m.exit)
  {
    var first := Edge(m.entry, m.entry + 1, Intraprocedural);
    OutgoingAppend([first], EdgesUpTo(m.code, name, exits, m.entry + 1, m.exit), l);
    OutgoingOne(first, l);
    OutgoingUpTo(m, name, exits, m.exit, l);
  }

  // Every assignment has one successor, every IF and WHILE one true and one false edge to its goto
  // targets, every call its return site, and all of them lead to vertices of the graph.
  lemma {:induction false} GraphIsWellShaped(m: Module, name: string, exits: map<string, int>, g: Graph)
    requires Linked(m, exits) && IsGraphOf(m, name, exits, g)
    requires Closed(m.code, Window(m.entry + 1, m.exit, m.exit), m.entry + 1, m.exit)
    ensures WellShaped(g)
  {
    forall l | l in g.vertices ensures VertexFits(g, l) {
      GraphVertexFits(m, name, exits, g, l);
    }
  }

  lemma {:induction false} GraphVertexFits(m: Module, name: string, exits: map<string, int>, g: Graph, l: int)
    requires Linked(m, exits) && IsGraphOf(m, name, exits, g) && l in g.vertices
    requires Closed(m.code, Window(m.entry + 1, m.exit, m.exit), m.entry + 1, m.exit)
    ensures VertexFits(g, l)
  {
    var w := Window(m.entry + 1, m.exit, m.exit);
    OutgoingOfGraph(m, name, exits, g, l);
    forall k | m.entry < k < m.exit ensures k in m.code { assert ClosedAt(m.code, w, m.entry + 1, m.exit, k); }
    forall t | Lands(m.code, w, t) ensures t in g.vertices { VertexTargets(m, name, exits, g, t); }
    if l == m.entry {
      assert m.entry + 1 < m.exit ==> ClosedAt(m.code, w, m.entry + 1, m.exit, m.entry + 1);
    } else if l != m.exit {
      assert ClosedAt(m.code, w, m.entry + 1, m.exit, l);
      if l + 1 < m.exit { assert ClosedAt(m.code, w, m.entry + 1, m.exit, l + 1); }
    }
  }

  // ---------- the graph runs like the code ----------

  // One step of the graph is one instruction of the code, and the jump behind it if it is an assignment.
  function Stride(code: Code, entry: int): Config -> nat {
    (c: Config) => if c.pc in code && IsSimple(code[c.pc]) then 2 else 1
  }

  // Code configurations at the labels that are vertices of the graph.
  function AtVertex(g: Graph): Config -> bool {
    (c: Config) => c.pc in g.vertices && c.pc != g.entry
  }

  lemma {:induction false} GraphFollowsCode(env: Env, m: Module, name: string, exits: map<string, int>, g: Graph)
    requires Linked(m, exits) && IsGraphOf(m, name, exits, g)
    requires Closed(m.code, Window(m.entry + 1, m.exit, m.exit), m.entry + 1, m.exit)
    ensures Accelerates(CodeStep(env, m.code), GraphStep(env, g), AtVertex(g), Stride(m.code, m.entry))
  {
    forall c: Config | AtVertex(g)(c)
      ensures AcceleratesAt(CodeStep(env, m.code), GraphStep(env, g), AtVertex(g), Stride(m.code, m.entry), c)
    {
      GraphFollowsCodeAt(env, m, name, exits, g, c);
    }
  }

  lemma {:induction false} GraphFollowsCodeAt(env: Env, m: Module, name: string, exits: map<string, int>, g: Graph,
        c: Config)
    requires Linked(m, exits) && IsGraphOf(m, name, exits, g) && AtVertex(g)(c)
    requires Closed(m.code, Window(m.entry + 1, m.exit, m.exit), m.entry + 1, m.exit)
    ensures AcceleratesAt(CodeStep(env, m.code), GraphStep(env, g), AtVertex(g), Stride(m.code, m.entry), c)
  {
    var f := CodeStep(env, m.code);
    assert Iterate(f, c, 1) == Iterate(f, f(c), 0) == f(c);
    if c.pc != m.exit {
      GraphTakes(env, m, name, exits, g, c);
      if IsSimple(m.code[c.pc]) {
        assert Iterate(f, c, 2) == Iterate(f, f(c), 1) == Iterate(f, f(f(c)), 0) == f(f(c));
      }
    }
  }

  // The next vertex of the graph, as a label of the code.
  function NextVertex(env: Env, code: Code, c: Config): Config
    requires c.pc in code && (IsSimple(code[c.pc]) ==> c.pc + 1 in code && code[c.pc + 1].Goto?)
  {
    if IsSimple(code[c.pc]) then Config(code[c.pc + 1].target, Effect(env, code[c.pc], c.st)) else Step(env, code, c)
  }

  lemma {:induction false} GraphTakes(env: Env, m: Module, name: string, exits: map<string, int>, g: Graph, c: Config)
    requires Linked(m, exits) && IsGraphOf(m, name, exits, g) && AtVertex(g)(c) && c.pc != m.exit
    requires Closed(m.code, Window(m.entry + 1, m.exit, m.exit), m.entry + 1, m.exit)
    ensures c.pc in m.code && (IsSimple(m.code[c.pc]) ==> c.pc + 1 in m.code && m.code[c.pc + 1].Goto?)
    ensures StepAt(env, g, c) == NextVertex(env, m.code, c) && AtVertex(g)(StepAt(env, g, c))
  {
    var l, i := c.pc, m.code[c.pc];
    InstrFacts(m, l);
    OutgoingOfGraph(m, name, exits, g, l);
    FollowOutgoing(g.edges, l, Branch(env, i, c.st));
    OutgoingTargets(m.code, env, i, l, m.exit, c.st);
    OneInstr(env, i, c.st);
    VertexTargets(m, name, exits, g, NextVertex(env, m.code, c).pc);
  }

  lemma {:induction false} OneInstr(env: Env, i: Instr, st: State)
    ensures RunBlock(env, [i], st) == Effect(env, i, st) && BlockBranch(env, [i], st) == Branch(env, i, st)
  {
    assert [i][1..] == [];
  }

  lemma {:induction false} VertexTargets(m: Module, name: string, exits: map<string, int>, g: Graph, t: int)
    requires Linked(m, exits) && IsGraphOf(m, name, exits, g)
    ensures Lands(m.code, Window(m.entry + 1, m.exit, m.exit), t) ==> t in g.vertices && t != g.entry
  {
  }

  lemma {:induction false} InstrFacts(m: Module, l: int)
    requires Closed(m.code, Window(m.entry + 1, m.exit, m.exit), m.entry + 1, m.exit)
    requires (forall k | k in m.code :: m.entry < k < m.exit) && m.entry < l < m.exit && l in m.code && !m.code[l].Goto?
    ensures JumpsLand(m.code, Window(m.entry + 1, m.exit, m.exit), m.code[l])
    ensures if IsSimple(m.code[l])
            then l + 1 in m.code && m.code[l + 1].Goto? && Lands(m.code, Window(m.entry + 1, m.exit, m.exit),
                  m.code[l + 1].target)
            else !(l + 1 in m.code && m.code[l + 1].Goto?)
  {
    var w := Window(m.entry + 1, m.exit, m.exit);
    assert ClosedAt(m.code, w, m.entry + 1, m.exit, l);
    if l + 1 < m.exit { assert ClosedAt(m.code, w, m.entry + 1, m.exit, l + 1); }
  }

  lemma {:induction false} OutgoingTargets(code: Code, env: Env, i: Instr, l: int, hi: int, st: State)
    requires l in code && code[l] == i && l < hi && !i.Goto?
    requires if IsSimple(i) then l + 1 in code && l + 1 < hi && code[l + 1].Goto?
            else !(l + 1 in code && code[l + 1].Goto?)
    ensures Follow(EdgesFrom(code, l, hi), l, Branch(env, i, st)) ==
            if IsSimple(i) then code[l + 1].target else Step(env, code, Config(l, st)).pc
  {
    var e := EdgesFrom(code, l, hi);
    if |e| == 2 { assert e[1..] == [e[1]]; }
  }

  // The graph of closed code computes what the code computes.
  lemma {:induction false} GraphComputesCode(env: Env, m: Module, name: string, exits: map<string, int>, g: Graph,
        st: State, t: State)
    requires Linked(m, exits) && IsGraphOf(m, name, exits, g)
    requires Closed(m.code, Window(m.entry + 1, m.exit, m.exit), m.entry + 1, m.exit)
    ensures Computes(env, g, st, t) <==> Reaches(env, m.code, m.entry + 1, st, m.exit, t)
  {
    var start, end := Config(m.entry + 1, st), Config(m.exit, t);
    GraphFollowsCode(env, m, name, exits, g);
    if m.entry + 1 < m.exit {
      assert ClosedAt(m.code, Window(m.entry + 1, m.exit, m.exit), m.entry + 1, m.exit, m.entry + 1);
    }
    SameResults(CodeStep(env, m.code), GraphStep(env, g), AtVertex(g), Stride(m.code, m.entry), start, end);
    ReachesArrives(env, m.code, m.entry + 1, st, m.exit, t);
    OutgoingOfGraph(m, name, exits, g, m.entry);
    FollowOutgoing(g.edges, m.entry, Intraprocedural);
    FirstStep(GraphStep(env, g), Config(m.entry, st), end);
  }

  lemma {:induction false} FirstStep(f: Config -> Config, c: Config, x: Config)
    requires c != x
    ensures Arrives(f, c, x) <==> Arrives(f, f(c), x)
  {
    if Arrives(f, c, x) {
      var n: nat :| Iterate(f, c, n) == x;
      assert Iterate(f, f(c), n - 1) == x;
    }
    if Arrives(f, f(c), x) {
      var n: nat :| Iterate(f, f(c), n) == x;
      assert Iterate(f, c, n + 1) == x;
    }
  }
}
