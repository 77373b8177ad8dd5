// Control-flow graphs with typed edges (ahorn/src/cfg/cfg.cpp), and how they run.

module Cfg {
  import opened Ir
  import opened Machines

  datatype EdgeKind =
    | Intraprocedural | CallToReturn | InterproceduralCall
    | InterproceduralReturn(caller: string, callLabel: int)
    | TrueBranch | FalseBranch

  datatype Edge = Edge(source: int, target: int, kind: EdgeKind)

  // A regular vertex holds one instruction, or the sequence of a basic block, or nothing.
  datatype Vertex = EntryVertex | ExitVertex | Regular(instrs: seq<Instr>)

  datatype Graph = Graph(vertices: map<int, Vertex>, edges: seq<Edge>, entry: int, exit: int)

  function Outgoing(edges: seq<Edge>, l: int): (r: seq<Edge>)
    ensures forall e | e in r :: e in edges && e.source == l
  {
    if edges == [] then []
    else (if edges[0].source == l then [edges[0]] else []) + Outgoing(edges[1..], l)
  }

  function Incoming(edges: seq<Edge>, l: int): (r: seq<Edge>)
    ensures forall e | e in r :: e in edges && e.target == l
  {
    if edges == [] then []
    else (if edges[0].target == l then [edges[0]] else []) + Incoming(edges[1..], l)
  }

  // The target of the first edge of that kind, -1 if there is none.
  function Follow(edges: seq<Edge>, l: int, kind: EdgeKind): int {
    if edges == [] then -1
    else if edges[0].source == l && edges[0].kind == kind then edges[0].target
    else Follow(edges[1..], l, kind)
  }

  lemma {:induction false} FollowOutgoing(edges: seq<Edge>, l: int, kind: EdgeKind)
    ensures Follow(edges, l, kind) == Follow(Outgoing(edges, l), l, kind)
  {
    if edges != [] {
      FollowOutgoing(edges[1..], l, kind);
      if edges[0].source == l {
        assert Outgoing(edges, l)[1..] == Outgoing(edges[1..], l);
      } else {
        assert Outgoing(edges, l) == Outgoing(edges[1..], l);
      }
    }
  }

  lemma {:induction false} OutgoingAppend(a: seq<Edge>, b: seq<Edge>, l: int)
    ensures Outgoing(a + b, l) == Outgoing(a, l) + Outgoing(b, l)
  {
    if a == [] {
      assert a + b == b;
    } else {
      assert (a + b)[1..] == a[1..] + b;
      OutgoingAppend(a[1..], b, l);
    }
  }

  lemma {:induction false} IncomingAppend(a: seq<Edge>, b: seq<Edge>, l: int)
    ensures Incoming(a + b, l) == Incoming(a, l) + Incoming(b, l)
  {
    if a == [] {
      assert a + b == b;
    } else {
      assert (a + b)[1..] == a[1..] + b;
      IncomingAppend(a[1..], b, l);
    }
  }

  lemma {:induction false} OutgoingComplete(edges: seq<Edge>, e: Edge)
    requires e in edges
    ensures e in Outgoing(edges, e.source)
  {
    if e != edges[0] {
      OutgoingComplete(edges[1..], e);
    }
  }

  lemma {:induction false} IncomingComplete(edges: seq<Edge>, e: Edge)
    requires e in edges
    ensures e in Incoming(edges, e.target)
  {
    if e != edges[0] {
      IncomingComplete(edges[1..], e);
    }
  }

  // Two positions of the edges lead to l.
  predicate SeveralInto(edges: seq<Edge>, l: int) {
    exists i, j :: 0 <= i < j < |edges| && edges[i].target == l && edges[j].target == l
  }

  predicate OneInto(edges: seq<Edge>, l: int) {
    exists i :: 0 <= i < |edges| && edges[i].target == l
  }

  lemma {:induction false} IncomingCounts(edges: seq<Edge>, l: int)
    ensures Incoming(edges, l) != [] <==> OneInto(edges, l)
    ensures |Incoming(edges, l)| > 1 <==> SeveralInto(edges, l)
  {
    if edges != [] {
      var rest := edges[1..];
      IncomingCounts(rest, l);
      if OneInto(rest, l) {
        var i :| 0 <= i < |rest| && rest[i].target == l;
        assert edges[i + 1].target == l;
        if edges[0].target == l { assert SeveralInto(edges, l); }
      }
      if SeveralInto(rest, l) {
        var i, j :| 0 <= i < j < |rest| && rest[i].target == l && rest[j].target == l;
        assert edges[i + 1].target == l && edges[j + 1].target == l;
      }
      if OneInto(edges, l) && edges[0].target != l {
        var i :| 0 <= i < |edges| && edges[i].target == l;
        assert rest[i - 1].target == l;
      }
      if SeveralInto(edges, l) {
        var i, j :| 0 <= i < j < |edges| && edges[i].target == l && edges[j].target == l;
        assert rest[j - 1].target == l;
        if i > 0 { assert rest[i - 1].target == l; }
      }
    }
  }

  // ---------- running a graph; a call is one opaque step to its return site ----------

  function Effect(env: Env, i: Instr, st: State): State {
    match i
    case Assign(v, e) => AssignUpdate(env, v, e, st)
    case Havoc(v) => HavocUpdate(env, v, st)
    case Call(f, _, _, _) => env.callee(f, st)
    case _ => st
  }

  function Branch(env: Env, i: Instr, st: State): EdgeKind {
    match i
    case IfGoto(e, _, _) => if Holds(env, e, st) then TrueBranch else FalseBranch
    case WhileGoto(e, _, _) => if Holds(env, e, st) then TrueBranch else FalseBranch
    case Call(_, _, _, _) => CallToReturn
    case _ => Intraprocedural
  }

  function RunBlock(env: Env, instrs: seq<Instr>, st: State): State {
    if instrs == [] then st else RunBlock(env, instrs[1..], Effect(env, instrs[0], st))
  }

  // The edge taken at the end of a block; the last instruction's condition reads the state before it.
  function BlockBranch(env: Env, instrs: seq<Instr>, st: State): EdgeKind
    requires instrs != []
  {
    if |instrs| == 1 then Branch(env, instrs[0], st) else BlockBranch(env, instrs[1..], Effect(env, instrs[0], st))
  }

  function GraphStep(env: Env, g: Graph): Config -> Config {
    c => StepAt(env, g, c)
  }

  function StepAt(env: Env, g: Graph, c: Config): Config {
    if c.pc !in g.vertices then c
    else
      match g.vertices[c.pc]
      case ExitVertex => c
      case EntryVertex => Config(Follow(g.edges, c.pc, Intraprocedural), c.st)
      case Regular(instrs) =>
        if instrs == [] then Config(Follow(g.edges, c.pc, Intraprocedural), c.st)
        else Config(Follow(g.edges, c.pc, BlockBranch(env, instrs, c.st)), RunBlock(env, instrs, c.st))
  }

  // The graph takes st at its entry to t at its exit.
  ghost predicate Computes(env: Env, g: Graph, st: State, t: State) {
    Arrives(GraphStep(env, g), Config(g.entry, st), Config(g.exit, t))
  }

  // ---------- well-formed graphs of single instructions ----------

  predicate IsSimple(i: Instr) {
    i.Assign? || i.Havoc?
  }

  // The edges out of a vertex with instruction i.
  predicate EdgesFit(i: Instr, out: seq<Edge>, vertices: map<int, Vertex>) {
    match i
    case Assign(_, _) => |out| == 1 && out[0].kind == Intraprocedural && out[0].target in vertices
    case Havoc(_) => |out| == 1 && out[0].kind == Intraprocedural && out[0].target in vertices
    case IfGoto(_, t, f) => BranchesFit(out, t, f, vertices)
    case WhileGoto(_, t, f) => BranchesFit(out, t, f, vertices)
    case Call(_, _, intra, _) =>
      && |out| == 2 && out[0].kind == InterproceduralCall && out[1].kind == CallToReturn
      && out[1].target == intra && intra in vertices
    case Goto(_) => false
  }

  predicate BranchesFit(out: seq<Edge>, t: int, f: int, vertices: map<int, Vertex>) {
    && |out| == 2 && out[0].kind == TrueBranch && out[1].kind == FalseBranch
    && out[0].target == t && out[1].target == f && t in vertices && f in vertices
  }

  predicate VertexFits(g: Graph, l: int) {
    var out := Outgoing(g.edges, l);
    l in g.vertices &&
    match g.vertices[l]
    case EntryVertex => l == g.entry && |out| == 1 && out[0].kind == Intraprocedural && out[0].target in g.vertices
    case ExitVertex => l == g.exit && out == []
    case Regular(instrs) => l != g.entry && l != g.exit && |instrs| == 1 && EdgesFit(instrs[0], out, g.vertices)
  }

  predicate WellShaped(g: Graph) {
    && g.entry in g.vertices && g.vertices[g.entry] == EntryVertex
    && g.exit in g.vertices && g.vertices[g.exit] == ExitVertex
    && forall l {:trigger VertexFits(g, l)} | l in g.vertices :: VertexFits(g, l)
  }
}
