// Basic-block formation (ahorn/src/pass/basic_block_pass.cpp).

module BasicBlocks {
  import opened Ir
  import opened Machines
  import opened Cfg

  // ---------- leaders ----------

  function InstrAt(g: Graph, l: int): Option<Instr> {
    if l in g.vertices && g.vertices[l].Regular? && |g.vertices[l].instrs| == 1 then Some(g.vertices[l].instrs[0])
          else None
  }

  predicate SimpleAt(g: Graph, l: int) {
    InstrAt(g, l).Some? && IsSimple(InstrAt(g, l).value)
  }

  // The vertices that start a block because of the vertex p in front of them.
  function LeadersAfter(g: Graph, p: int): set<int>
    requires WellShaped(g) && p in g.vertices
  {
    assert VertexFits(g, p);
    var out := Outgoing(g.edges, p);
    match g.vertices[p]
    case EntryVertex => {out[0].target}
    case ExitVertex => {}
    case Regular(instrs) =>
      match instrs[0]
      case IfGoto(_, _, _) => {out[0].target, out[1].target}
      case WhileGoto(_, _, _) => {out[0].target, out[1].target}
      case Call(_, _, _, _) => {out[1].target}
      case _ => {}
  }

  // The vertex starts a block by itself: a merge point, the entry, the exit, or the header of a loop.
  predicate LeadsItself(g: Graph, l: int)
    requires WellShaped(g) && l in g.vertices
  {
    assert VertexFits(g, l);
    || |Incoming(g.edges, l)| > 1
    || !g.vertices[l].Regular?
    || g.vertices[l].instrs[0].WhileGoto?
  }

  ghost predicate IsLeader(g: Graph, l: int)
    requires WellShaped(g)
  {
    l in g.vertices && (LeadsItself(g, l) || exists p | p in g.vertices :: l in LeadersAfter(g, p))
  }

  ghost predicate AreLeaders(g: Graph, leaders: set<int>)
    requires WellShaped(g)
  {
    forall l :: l in leaders <==> IsLeader(g, l)
  }

  method FindLeaders(g: Graph) returns (leaders: set<int>)
    requires WellShaped(g)
    ensures AreLeaders(g, leaders)
  {
    leaders := {};
    var todo := g.vertices.Keys;
    while exists l :: l in todo
      invariant todo <= g.vertices.Keys
      invariant forall l | l in leaders :: IsLeader(g, l)
      invariant forall l | l in g.vertices && l !in todo && LeadsItself(g, l) :: l in leaders
      invariant forall p, l | p in g.vertices && p !in todo && l in LeadersAfter(g, p) :: l in leaders
      decreases todo
    {
      var l :| l in todo;
      todo := todo - {l};
      TargetsExist(g, l);
      var out := Outgoing(g.edges, l);
      // a vertex is always leading in case it is a merge point
      if |Incoming(g.edges, l)| > 1 {
        leaders := leaders + {l};
      }
      match g.vertices[l]
      case EntryVertex =>
        leaders := leaders + {l, out[0].target};
      case ExitVertex =>
        leaders := leaders + {l};
      case Regular(instrs) =>
        match instrs[0] {
          case IfGoto(_, _, _) => leaders := leaders + {out[0].target, out[1].target};
          case WhileGoto(_, _, _) => leaders := leaders + {l, out[0].target, out[1].target};
          case Call(_, _, _, _) => leaders := leaders + {out[1].target};
          case _ =>
        }
    }
  }

  lemma {:induction false} TargetsExist(g: Graph, p: int)
    requires WellShaped(g) && p in g.vertices
    ensures forall l | l in LeadersAfter(g, p) :: l in g.vertices
    ensures VertexFits(g, p)
  {
    assert VertexFits(g, p);
  }

  // ---------- blocks ----------

  // The vertex after an assignment.
  function Next(g: Graph, l: int): int {
    Follow(g.edges, l, Intraprocedural)
  }

  // A maximal run of vertices that is only entered at its first and only left at its last vertex.
  predicate IsBlock(g: Graph, leaders: set<int>, labels: seq<int>) {
    && labels != [] && labels[0] in leaders
    && (forall i | 0 <= i < |labels| :: labels[i] in g.vertices)
    && (forall i | 0 < i < |labels| :: labels[i] !in leaders)
    && (forall i | 0 <= i < |labels| - 1 :: SimpleAt(g, labels[i]) && Next(g, labels[i]) == labels[i + 1])
    && (SimpleAt(g, labels[|labels| - 1]) ==> Next(g, labels[|labels| - 1]) in leaders)
  }

  lemma {:induction false} SimpleNext(g: Graph, l: int)
    requires WellShaped(g) && SimpleAt(g, l)
    ensures Outgoing(g.edges, l) == [Edge(l, Next(g, l), Intraprocedural)]
    ensures Next(g, l) in g.vertices && Edge(l, Next(g, l), Intraprocedural) in g.edges
  {
    assert VertexFits(g, l);
    FollowOutgoing(g.edges, l, Intraprocedural);
    var out := Outgoing(g.edges, l);
    assert out == [out[0]] && out[0] in out;
  }

  // A vertex that is not a leader has one edge into it.
  lemma {:induction false} OneWayIn(g: Graph, leaders: set<int>, d: Edge, e: Edge)
    requires WellShaped(g) && AreLeaders(g, leaders) && d.target in g.vertices && d.target !in leaders
    requires d in g.edges && e in g.edges && d.target == e.target
    ensures d == e
  {
    IncomingComplete(g.edges, d);
    IncomingComplete(g.edges, e);
    assert !LeadsItself(g, d.target);
  }

  // The vertices passed so far on the way from a leader; all of them are assignments.
  predicate IsWalk(g: Graph, leaders: set<int>, labels: seq<int>) {
    && labels != [] && labels[0] in leaders
    && (forall i | 0 <= i < |labels| :: labels[i] in g.vertices && SimpleAt(g, labels[i]))
    && (forall i | 0 < i < |labels| :: labels[i] !in leaders)
    && (forall i | 0 <= i < |labels| - 1 :: Next(g, labels[i]) == labels[i + 1])
    && (forall i, j | 0 <= i < j < |labels| :: labels[i] != labels[j])
  }

  // The walk from a leader never comes back to a vertex it has passed.
  method WalkBlock(g: Graph, leaders: set<int>, leader: int) returns (labels: seq<int>)
    requires WellShaped(g) && AreLeaders(g, leaders) && leader in leaders && SimpleAt(g, leader)
    ensures IsBlock(g, leaders, labels) && labels[0] == leader
  {
    labels := [leader];
    var l := leader;
    while true
      invariant IsWalk(g, leaders, labels) && labels[0] == leader && l == labels[|labels| - 1]
      decreases |g.vertices.Keys - Passed(labels)|
    {
      var succeeding := Outgoing(g.edges, l);
      SimpleNext(g, l);
      var next := succeeding[0].target;
      if next in leaders {
        WalkEnds(g, leaders, labels);
        return;
      }
      WalkStep(g, leaders, labels, next);
      var instruction := g.vertices[next].instrs[0];
      labels := labels + [next];
      if instruction.IfGoto? || instruction.Call? {
        return;
      }
      l := next;
    }
  }

  lemma {:induction false} WalkEnds(g: Graph, leaders: set<int>, labels: seq<int>)
    requires IsWalk(g, leaders, labels) && Next(g, labels[|labels| - 1]) in leaders
    ensures IsBlock(g, leaders, labels)
  {
  }

  lemma {:induction false} WalkStep(g: Graph, leaders: set<int>, labels: seq<int>, next: int)
    requires WellShaped(g) && AreLeaders(g, leaders) && IsWalk(g, leaders, labels)
    requires Next(g, labels[|labels| - 1]) == next && next !in leaders
    ensures next in g.vertices && g.vertices[next].Regular? && |g.vertices[next].instrs| == 1
    ensures |g.vertices.Keys - Passed(labels + [next])| < |g.vertices.Keys - Passed(labels)|
    ensures var i := g.vertices[next].instrs[0];
            if i.IfGoto? || i.Call? then IsBlock(g, leaders, labels + [next])
            else IsSimple(i) && IsWalk(g, leaders, labels + [next])
  {
    SimpleNext(g, labels[|labels| - 1]);
    NotPassed(g, leaders, labels, next);
    PassedGrows(g, labels, next);
    NotLeading(g, leaders, next);
    assert VertexFits(g, next);
    WalkGrows(g, leaders, labels, next);
  }

  lemma {:induction false} WalkGrows(g: Graph, leaders: set<int>, labels: seq<int>, next: int)
    requires IsWalk(g, leaders, labels) && Next(g, labels[|labels| - 1]) == next
    requires next in g.vertices && next !in leaders && next !in labels
    ensures if SimpleAt(g, next) then IsWalk(g, leaders, labels + [next]) else IsBlock(g, leaders, labels + [next])
  {
    var grown := labels + [next];
    assert forall i | 0 <= i < |labels| :: grown[i] == labels[i];
    assert grown[|labels|] == next;
  }

  function Passed(labels: seq<int>): set<int> {
    set l | l in labels
  }

  lemma {:induction false} PassedGrows(g: Graph, labels: seq<int>, next: int)
    requires next in g.vertices && next !in labels
    ensures |g.vertices.Keys - Passed(labels + [next])| < |g.vertices.Keys - Passed(labels)|
  {
    assert g.vertices.Keys - Passed(labels + [next]) == (g.vertices.Keys - Passed(labels)) - {next};
  }

  lemma {:induction false} NotLeading(g: Graph, leaders: set<int>, l: int)
    requires WellShaped(g) && AreLeaders(g, leaders) && l in g.vertices && l !in leaders
    ensures g.vertices[l].Regular? && |g.vertices[l].instrs| == 1 && InstrAt(g, l) == Some(g.vertices[l].instrs[0])
    ensures !g.vertices[l].instrs[0].WhileGoto?
  {
    assert VertexFits(g, l);
    assert !LeadsItself(g, l);
  }

  lemma {:induction false} NotPassed(g: Graph, leaders: set<int>, labels: seq<int>, next: int)
    requires WellShaped(g) && AreLeaders(g, leaders) && IsWalk(g, leaders, labels)
    requires Next(g, labels[|labels| - 1]) == next && next !in leaders
    ensures next !in labels
  {
    var last := |labels| - 1;
    SimpleNext(g, labels[last]);
    forall i | 0 <= i < |labels| ensures labels[i] != next {
      if labels[i] == next {
        SimpleNext(g, labels[i - 1]);
        OneWayIn(g, leaders, Edge(labels[i - 1], next, Intraprocedural), Edge(labels[last], next, Intraprocedural));
      }
    }
  }

  // ---------- the block graph ----------

  // The edge back from the callee to a return site.
  function ReturnEdge(edges: seq<Edge>, site: int): Option<Edge> {
    if edges == [] then None
    else if edges[0].kind.InterproceduralReturn? && edges[0].target == site then Some(edges[0])
    else ReturnEdge(edges[1..], site)
  }

  predicate ReturnsAt(g: Graph, l: int) {
    InstrAt(g, l).Some? && InstrAt(g, l).value.Call? ==>
      var site := Follow(g.edges, l, CallToReturn);
      ReturnEdge(g.edges, site).Some? && ReturnEdge(g.edges, site).value.source !in g.vertices
  }

  // Every return site has an edge from a callee, whose vertices are not part of this graph.
  predicate CallsReturn(g: Graph) {
    forall l {:trigger ReturnsAt(g, l)} | l in g.vertices :: ReturnsAt(g, l)
  }

  function From(out: seq<Edge>, leader: int): (r: seq<Edge>)
    ensures |r| == |out|
    ensures forall i | 0 <= i < |out| :: r[i] == Edge(leader, out[i].target, out[i].kind)
  {
    seq(|out|, i requires 0 <= i < |out| => Edge(leader, out[i].target, out[i].kind))
  }

  function BlockInstrs(g: Graph, labels: seq<int>): (r: seq<Instr>)
    requires forall i | 0 <= i < |labels| :: InstrAt(g, labels[i]).Some?
    ensures |r| == |labels| && forall i | 0 <= i < |labels| :: r[i] == InstrAt(g, labels[i]).value
  {
    seq(|labels|, i requires 0 <= i < |labels| => InstrAt(g, labels[i]).value)
  }

  // The vertex and the edges of the block of `labels`.
  predicate IsBlockVertex(g: Graph, labels: seq<int>, v: Vertex) {
    labels != [] && labels[0] in g.vertices &&
    if g.vertices[labels[0]].Regular?
    then && (forall i | 0 <= i < |labels| :: InstrAt(g, labels[i]).Some?)
         && v == Regular(BlockInstrs(g, labels))
    else |labels| == 1 && v == g.vertices[labels[0]]
  }

  // The return edge of a block that ends in a call: a block of several instructions is called from
  // its leader.
  function Returns(g: Graph, labels: seq<int>): seq<Edge>
    requires labels != []
  {
    var last := labels[|labels| - 1];
    if InstrAt(g, last).None? || !InstrAt(g, last).value.Call? then []
    else
      var e := ReturnEdge(g.edges, Follow(g.edges, last, CallToReturn));
      if e.None? || !e.value.kind.InterproceduralReturn? then []
      else [Rebuilt(e.value, labels)]
  }

  function Rebuilt(e: Edge, labels: seq<int>): Edge
    requires e.kind.InterproceduralReturn? && labels != []
  {
    Edge(e.source, e.target, InterproceduralReturn(e.kind.caller, if |labels| == 1 then e.kind.callLabel
          else labels[0]))
  }

  // The edges a block adds: those of its last vertex, leaving from the leader; and for a call the
  // return edge, whose source lies outside of the graph.
  predicate AreBlockEdges(g: Graph, labels: seq<int>, added: seq<Edge>)
    requires labels != []
  {
    && added == From(Outgoing(g.edges, labels[|labels| - 1]), labels[0]) + Returns(g, labels)
    && forall e | e in Returns(g, labels) :: e.source !in g.vertices
  }

  method EmitBlock(g: Graph, leaders: set<int>, leader: int) returns (labels: seq<int>, v: Vertex, added: seq<Edge>)
    requires WellShaped(g) && CallsReturn(g) && AreLeaders(g, leaders) && leader in leaders
    ensures IsBlock(g, leaders, labels) && labels[0] == leader
    ensures IsBlockVertex(g, labels, v) && AreBlockEdges(g, labels, added)
  {
    assert VertexFits(g, leader);
    labels := [leader];
    match g.vertices[leader] {
      case EntryVertex =>
        var outgoing := Outgoing(g.edges, leader);
        v, added := EntryVertex, [Edge(outgoing[0].source, outgoing[0].target, outgoing[0].kind)];
        assert added == From(outgoing, leader);
      case ExitVertex =>
        v, added := ExitVertex, [];
        assert added == From(Outgoing(g.edges, leader), leader);
      case Regular(instrs) =>
        if IsSimple(instrs[0]) {
          labels := WalkBlock(g, leaders, leader);
        }
        BlockIsRegular(g, leaders, labels);
        v := Regular(BlockInstrs(g, labels));
        added := BlockEdges(g, labels);
    }
  }

  lemma {:induction false} BlockIsRegular(g: Graph, leaders: set<int>, labels: seq<int>)
    requires WellShaped(g) && AreLeaders(g, leaders) && IsBlock(g, leaders, labels) && g.vertices[labels[0]].Regular?
    ensures forall i | 0 <= i < |labels| :: InstrAt(g, labels[i]).Some?
  {
    forall i | 0 <= i < |labels| ensures InstrAt(g, labels[i]).Some? {
      assert VertexFits(g, labels[i]);
      if i > 0 { NotLeading(g, leaders, labels[i]); }
    }
  }

  method BlockEdges(g: Graph, labels: seq<int>) returns (added: seq<Edge>)
    requires WellShaped(g) && CallsReturn(g) && labels != []
    requires forall i | 0 <= i < |labels| :: InstrAt(g, labels[i]).Some?
    ensures AreBlockEdges(g, labels, added)
  {
    var leader, last := labels[0], labels[|labels| - 1];
    assert VertexFits(g, last);
    var outgoing := Outgoing(g.edges, last);
    added := [];
    for i := 0 to |outgoing|
      invariant added == From(outgoing, leader)[..i]
    {
      added := added + [Edge(leader, outgoing[i].target, outgoing[i].kind)];
    }
    if InstrAt(g, last).value.Call? {
      assert ReturnsAt(g, last) && added == From(outgoing, leader);
      var e := ReturnEdge(g.edges, Follow(g.edges, last, CallToReturn)).value;
      ReturnEdgeKind(g.edges, Follow(g.edges, last, CallToReturn));
      var callLabel := if |labels| == 1 then e.kind.callLabel else leader;
      added := added + [Edge(e.source, e.target, InterproceduralReturn(e.kind.caller, callLabel))];
    }
  }

  lemma {:induction false} ReturnEdgeKind(edges: seq<Edge>, site: int)
    requires ReturnEdge(edges, site).Some?
    ensures ReturnEdge(edges, site).value.kind.InterproceduralReturn? && ReturnEdge(edges, site).value.target == site
  {
    if !(edges[0].kind.InterproceduralReturn? && edges[0].target == site) {
      ReturnEdgeKind(edges[1..], site);
    }
  }

  // The block graph: one vertex a leader, and the edges of its block.
  ghost predicate IsBlockGraph(g: Graph, leaders: set<int>, blocks: map<int, seq<int>>, r: Graph) {
    && r.entry == g.entry && r.exit == g.exit
    && blocks.Keys == leaders && r.vertices.Keys == leaders && ReturnsOnly(g, blocks, r.edges)
    && forall l {:trigger BlockAt(g, leaders, blocks, r, l)} | l in leaders :: BlockAt(g, leaders, blocks, r, l)
  }

  ghost predicate BlockAt(g: Graph, leaders: set<int>, blocks: map<int, seq<int>>, r: Graph, l: int) {
    && l in blocks && l in r.vertices
    && IsBlock(g, leaders, blocks[l]) && blocks[l][0] == l
    && IsBlockVertex(g, blocks[l], r.vertices[l])
    && Outgoing(r.edges, l) == From(Outgoing(g.edges, blocks[l][|blocks[l]| - 1]), l)
    && forall e | e in Returns(g, blocks[l]) :: e in r.edges
  }

  // Edges that do not leave from a block are the return edges of blocks that end in a call.
  ghost predicate ReturnsOnly(g: Graph, blocks: map<int, seq<int>>, edges: seq<Edge>) {
    forall e {:trigger e in edges} | e in edges && e.source !in blocks :: exists l ::
            l in blocks && blocks[l] != [] && e in Returns(g, blocks[l])
  }

  ghost predicate BlockGraphOf(g: Graph, r: Graph)
    requires WellShaped(g)
  {
    exists leaders, blocks :: AreLeaders(g, leaders) && IsBlockGraph(g, leaders, blocks, r)
  }

  method Apply(g: Graph) returns (r: Graph, ghost leaders: set<int>, ghost blocks: map<int, seq<int>>)
    requires WellShaped(g) && CallsReturn(g)
    ensures AreLeaders(g, leaders) && IsBlockGraph(g, leaders, blocks, r)
    ensures BlockGraphOf(g, r)
  {
    var found := FindLeaders(g);
    leaders, blocks := found, map[];
    var labelToVertex: map<int, Vertex>, edges: seq<Edge> := map[], [];
    var todo := found;
    while exists l :: l in todo
      invariant todo <= leaders && blocks.Keys == labelToVertex.Keys == leaders - todo
      invariant forall l {:trigger BlockAt(g, leaders, blocks, Graph(labelToVertex, edges, g.entry, g.exit),
              l)} | l in leaders - todo ::
                  BlockAt(g, leaders, blocks, Graph(labelToVertex, edges, g.entry, g.exit), l)
      invariant forall l | l in todo :: Outgoing(edges, l) == []
      invariant ReturnsOnly(g, blocks, edges)
      decreases todo
    {
      var leader :| leader in todo;
      var labels, v, added := EmitBlock(g, found, leader);
      BlockAdded(g, leaders, blocks, labelToVertex, edges, todo, leader, labels, v, added);
      ReturnsAdded(g, blocks, edges, leader, labels, added);
      labelToVertex := labelToVertex[leader := v];
      edges := edges + added;
      blocks := blocks[leader := labels];
      todo := todo - {leader};
    }
    r := Graph(labelToVertex, edges, g.entry, g.exit);
    assert todo == {};
  }

  lemma {:induction false} BlockAdded(g: Graph, leaders: set<int>, blocks: map<int, seq<int>>,
        labelToVertex: map<int, Vertex>, edges: seq<Edge>, todo: set<int>, leader: int, labels: seq<int>, v: Vertex,
        added: seq<Edge>)
    requires WellShaped(g) && AreLeaders(g, leaders) && leader in todo && todo <= leaders
    requires blocks.Keys == labelToVertex.Keys == leaders - todo
    requires forall l {:trigger BlockAt(g, leaders, blocks, Graph(labelToVertex, edges, g.entry, g.exit),
            l)} | l in leaders - todo ::
               BlockAt(g, leaders, blocks, Graph(labelToVertex, edges, g.entry, g.exit), l)
    requires forall l | l in todo :: Outgoing(edges, l) == []
    requires IsBlock(g, leaders, labels) && labels[0] == leader
    requires IsBlockVertex(g, labels, v) && AreBlockEdges(g, labels, added)
    ensures var r := Graph(labelToVertex[leader := v], edges + added, g.entry, g.exit);
            forall l {:trigger BlockAt(g, leaders, blocks[leader := labels], r, l)} | l in leaders - todo
                    || l == leader ::
              BlockAt(g, leaders, blocks[leader := labels], r, l)
    ensures forall l | l in todo && l != leader :: Outgoing(edges + added, l) == []
  {
    var r := Graph(labelToVertex[leader := v], edges + added, g.entry, g.exit);
    var before := Graph(labelToVertex, edges, g.entry, g.exit);
    forall l | l in leaders - todo || l == leader ensures BlockAt(g, leaders, blocks[leader := labels], r, l) {
      AddedEdges(g, labels, edges, added, l);
      if l != leader {
        assert BlockAt(g, leaders, blocks, before, l);
        BlockKept(g, leaders, blocks, before, blocks[leader := labels], r, l);
      } else {
        assert [] + From(Outgoing(g.edges, labels[|labels| - 1]), l) == From(Outgoing(g.edges, labels[|labels| - 1]),
                l);
      }
    }
    forall l | l in todo && l != leader ensures Outgoing(edges + added, l) == [] {
      AddedEdges(g, labels, edges, added, l);
    }
  }

  lemma {:induction false} BlockKept(g: Graph, leaders: set<int>, blocks: map<int, seq<int>>, r: Graph,
        blocks': map<int, seq<int>>, r': Graph, l: int)
    requires BlockAt(g, leaders, blocks, r, l)
    requires l in blocks' && blocks'[l] == blocks[l] && l in r'.vertices && r'.vertices[l] == r.vertices[l]
    requires Outgoing(r'.edges, l) == Outgoing(r.edges, l) && forall e | e in r.edges :: e in r'.edges
    ensures BlockAt(g, leaders, blocks', r', l)
  {
  }

  lemma {:induction false} ReturnsAdded(g: Graph, blocks: map<int, seq<int>>, edges: seq<Edge>, leader: int,
        labels: seq<int>, added: seq<Edge>)
    requires labels != [] && labels[0] == leader && leader in g.vertices && leader !in blocks
    requires ReturnsOnly(g, blocks, edges) && AreBlockEdges(g, labels, added)
    ensures ReturnsOnly(g, blocks[leader := labels], edges + added)
  {
    var after := blocks[leader := labels];
    forall e | e in edges + added && e.source !in after
      ensures exists l :: l in after && after[l] != [] && e in Returns(g, after[l])
    {
      if e in edges {
        var l :| l in blocks && blocks[l] != [] && e in Returns(g, blocks[l]);
        assert after[l] == blocks[l];
      } else {
        assert e in Returns(g, after[leader]);
      }
    }
  }

  lemma {:induction false} AddedEdges(g: Graph, labels: seq<int>, edges: seq<Edge>, added: seq<Edge>, l: int)
    requires labels != [] && AreBlockEdges(g, labels, added) && l in g.vertices
    ensures Outgoing(edges + added, l) ==
            if l == labels[0] then Outgoing(edges, l) + From(Outgoing(g.edges, labels[|labels| - 1]), l)
                  else Outgoing(edges, l)
  {
    OutgoingAppend(edges, added, l);
    NewEdges(g, labels, added, l);
  }

  lemma {:induction false} NewEdges(g: Graph, labels: seq<int>, added: seq<Edge>, l: int)
    requires labels != [] && AreBlockEdges(g, labels, added) && l in g.vertices
    ensures Outgoing(added, l) == if l == labels[0] then From(Outgoing(g.edges, labels[|labels| - 1]), l) else []
  {
    var own, back := From(Outgoing(g.edges, labels[|labels| - 1]), labels[0]), Returns(g, labels);
    OutgoingSame(own, labels[0], l);
    OutgoingAppend(own, back, l);
    OutgoingElsewhere(back, l);
  }

  lemma {:induction false} OutgoingElsewhere(edges: seq<Edge>, l: int)
    requires forall e | e in edges :: e.source != l
    ensures Outgoing(edges, l) == []
  {
    if edges != [] {
      OutgoingElsewhere(edges[1..], l);
    }
  }

  lemma {:induction false} OutgoingSame(edges: seq<Edge>, source: int, l: int)
    requires forall i | 0 <= i < |edges| :: edges[i].source == source
    ensures Outgoing(edges, l) == if l == source then edges else []
  {
    if edges != [] {
      OutgoingSame(edges[1..], source, l);
    }
  }

  // ---------- the block graph runs like the graph ----------

  function Leading(leaders: set<int>): Config -> bool {
    (c: Config) => c.pc in leaders
  }

  function BlockLength(blocks: map<int, seq<int>>): Config -> nat {
    (c: Config) => if c.pc in blocks then |blocks[c.pc]| else 1
  }

  // Stepping through the vertices of a block executes its instructions and leaves by the branch of
  // the last one.
  lemma {:induction false} WalkRuns(env: Env, g: Graph, labels: seq<int>, st: State)
    requires WellShaped(g) && labels != []
    requires forall i | 0 <= i < |labels| :: InstrAt(g, labels[i]).Some?
    requires forall i | 0 <= i < |labels| - 1 :: SimpleAt(g, labels[i]) && Next(g, labels[i]) == labels[i + 1]
    ensures var instrs := BlockInstrs(g, labels);
            Iterate(GraphStep(env, g), Config(labels[0], st), |labels|) ==
            Config(Follow(g.edges, labels[|labels| - 1], BlockBranch(env, instrs, st)), RunBlock(env, instrs, st))
    decreases labels
  {
    var f, instrs := GraphStep(env, g), BlockInstrs(g, labels);
    var st' := Effect(env, instrs[0], st);
    var c := Config(labels[0], st);
    StepAlone(env, g, labels[0], st);
    if |labels| == 1 {
      assert Iterate(f, c, 1) == Iterate(f, f(c), 0);
      assert instrs == [instrs[0]];
    } else {
      assert BlockInstrs(g, labels[1..]) == instrs[1..];
      assert f(c) == Config(labels[1], st');
      WalkRuns(env, g, labels[1..], st');
      assert Iterate(f, c, |labels|) == Iterate(f, f(c), |labels| - 1);
    }
  }

  lemma {:induction false} StepAlone(env: Env, g: Graph, l: int, st: State)
    requires InstrAt(g, l).Some?
    ensures var i := InstrAt(g, l).value;
            && GraphStep(env, g)(Config(l, st)) == Config(Follow(g.edges, l, Branch(env, i, st)), Effect(env, i, st))
            && RunBlock(env, [i], st) == Effect(env, i, st) && BlockBranch(env, [i], st) == Branch(env, i, st)
  {
    var i := InstrAt(g, l).value;
    assert g.vertices[l].instrs == [i];
    assert [i][1..] == [];
    assert RunBlock(env, [], Effect(env, i, st)) == Effect(env, i, st);
  }

  lemma {:induction false} FollowFrom(out: seq<Edge>, l: int, leader: int, kind: EdgeKind)
    requires forall i | 0 <= i < |out| :: out[i].source == l
    ensures Follow(From(out, leader), leader, kind) == Follow(out, l, kind)
  {
    if out != [] {
      assert From(out, leader)[1..] == From(out[1..], leader);
      FollowFrom(out[1..], l, leader, kind);
    }
  }

  // A block is left towards a leader.
  lemma {:induction false} BlockLeadsOn(env: Env, g: Graph, leaders: set<int>, labels: seq<int>, st: State)
    requires WellShaped(g) && AreLeaders(g, leaders) && IsBlock(g, leaders, labels)
    requires forall i | 0 <= i < |labels| :: InstrAt(g, labels[i]).Some?
    ensures Follow(g.edges, labels[|labels| - 1], BlockBranch(env, BlockInstrs(g, labels), st)) in leaders
  {
    var last := labels[|labels| - 1];
    var i := InstrAt(g, last).value;
    BranchOfLast(env, BlockInstrs(g, labels), st);
    assert VertexFits(g, last);
    var t := RunBlock(env, BlockInstrs(g, labels)[..|labels| - 1], st);
    FollowOutgoing(g.edges, last, Branch(env, i, t));
    var out := Outgoing(g.edges, last);
    if |out| == 2 {
      assert out == [out[0], out[1]] && out[1..] == [out[1]] && out[0] in out && out[1] in out;
    }
    TargetsExist(g, last);
    if !IsSimple(i) {
      assert Follow(g.edges, last, Branch(env, i, t)) in LeadersAfter(g, last);
    }
  }

  lemma {:induction false} BranchOfLast(env: Env, instrs: seq<Instr>, st: State)
    requires instrs != []
    ensures BlockBranch(env, instrs, st) == Branch(env, instrs[|instrs| - 1], RunBlock(env, instrs[..|instrs| - 1], st))
  {
    if |instrs| > 1 {
      BranchOfLast(env, instrs[1..], Effect(env, instrs[0], st));
      assert instrs[..|instrs| - 1][1..] == instrs[1..][..|instrs| - 2];
    }
  }

  lemma {:induction false} BlocksAccelerateAt(env: Env, g: Graph, leaders: set<int>, blocks: map<int, seq<int>>,
        r: Graph, c: Config)
    requires WellShaped(g) && AreLeaders(g, leaders) && IsBlockGraph(g, leaders, blocks, r) && c.pc in leaders
    ensures AcceleratesAt(GraphStep(env, g), GraphStep(env, r), Leading(leaders), BlockLength(blocks), c)
  {
    assert BlockAt(g, leaders, blocks, r, c.pc) && VertexFits(g, c.pc);
    if g.vertices[c.pc].Regular? {
      RegularAccelerates(env, g, leaders, blocks, r, c);
    } else if g.vertices[c.pc].EntryVertex? {
      EntryAccelerates(env, g, leaders, blocks, r, c);
    } else {
      assert Iterate(GraphStep(env, g), c, 1) == Iterate(GraphStep(env, g), GraphStep(env, g)(c), 0);
    }
  }

  lemma {:induction false} EntryAccelerates(env: Env, g: Graph, leaders: set<int>, blocks: map<int, seq<int>>,
        r: Graph, c: Config)
    requires WellShaped(g) && AreLeaders(g, leaders) && BlockAt(g, leaders, blocks, r, c.pc) && c.pc in leaders
            && c.pc in g.vertices
    requires g.vertices[c.pc].EntryVertex?
    ensures AcceleratesAt(GraphStep(env, g), GraphStep(env, r), Leading(leaders), BlockLength(blocks), c)
  {
    var l, f := c.pc, GraphStep(env, g);
    assert VertexFits(g, l);
    assert Iterate(f, c, 1) == Iterate(f, f(c), 0);
    FollowOutgoing(g.edges, l, Intraprocedural);
    FollowOutgoing(r.edges, l, Intraprocedural);
    FollowFrom(Outgoing(g.edges, l), l, l, Intraprocedural);
    TargetsExist(g, l);
    assert Outgoing(g.edges, l)[0].target in LeadersAfter(g, l);
  }

  lemma {:induction false} RegularAccelerates(env: Env, g: Graph, leaders: set<int>, blocks: map<int, seq<int>>,
        r: Graph, c: Config)
    requires WellShaped(g) && AreLeaders(g, leaders) && BlockAt(g, leaders, blocks, r, c.pc) && c.pc in leaders
            && c.pc in g.vertices
    requires g.vertices[c.pc].Regular?
    ensures AcceleratesAt(GraphStep(env, g), GraphStep(env, r), Leading(leaders), BlockLength(blocks), c)
  {
    var l, labels := c.pc, blocks[c.pc];
    var last := labels[|labels| - 1];
    assert VertexFits(g, l);
    var branch := BlockBranch(env, BlockInstrs(g, labels), c.st);
    WalkRuns(env, g, labels, c.st);
    BlockLeadsOn(env, g, leaders, labels, c.st);
    FollowOutgoing(g.edges, last, branch);
    FollowOutgoing(r.edges, l, branch);
    FollowFrom(Outgoing(g.edges, last), last, l, branch);
    assert c == Config(l, c.st);
  }

  // From the same state at the entry, the block graph reaches the exit with the same states.
  lemma {:induction false} BlocksPreserveRuns(env: Env, g: Graph, leaders: set<int>, blocks: map<int, seq<int>>,
        r: Graph, st: State, t: State)
    requires WellShaped(g) && AreLeaders(g, leaders) && IsBlockGraph(g, leaders, blocks, r)
    ensures Computes(env, r, st, t) <==> Computes(env, g, st, t)
  {
    forall c: Config | Leading(leaders)(c)
      ensures AcceleratesAt(GraphStep(env, g), GraphStep(env, r), Leading(leaders), BlockLength(blocks), c)
    {
      BlocksAccelerateAt(env, g, leaders, blocks, r, c);
    }
    assert LeadsItself(g, g.entry);
    SameResults(GraphStep(env, g), GraphStep(env, r), Leading(leaders), BlockLength(blocks), Config(g.entry, st),
          Config(g.exit, t));
  }

  // ---------- blocks partition the reachable vertices ----------

  // A path along the edges that stay in the graph.
  predicate IsPath(g: Graph, path: seq<int>) {
    && path != [] && path[0] == g.entry
    && forall i | 0 < i < |path| :: IsStep(g, path[i - 1], path[i])
  }

  predicate IsStep(g: Graph, a: int, b: int) {
    exists e | e in g.edges :: e.source == a && e.target == b && !e.kind.InterproceduralCall?
          && !e.kind.InterproceduralReturn?
  }

  lemma {:induction false} BlocksCover(g: Graph, leaders: set<int>, blocks: map<int, seq<int>>, r: Graph,
        path: seq<int>)
    requires WellShaped(g) && AreLeaders(g, leaders) && IsBlockGraph(g, leaders, blocks, r) && IsPath(g, path)
    ensures exists l :: l in leaders && path[|path| - 1] in blocks[l]
    decreases |path|
  {
    var v := path[|path| - 1];
    assert LeadsItself(g, g.entry);
    if v in leaders {
      assert BlockAt(g, leaders, blocks, r, v);
      assert v in blocks[v];
    } else if |path| > 1 {
      var front := path[..|path| - 1];
      var p := front[|front| - 1];
      forall i | 0 < i < |front| ensures IsStep(g, front[i - 1], front[i]) {
        assert IsStep(g, path[i - 1], path[i]);
      }
      BlocksCover(g, leaders, blocks, r, front);
      var l :| l in leaders && p in blocks[l];
      assert IsStep(g, path[|path| - 1 - 1], path[|path| - 1]);
      var e :| e in g.edges && e.source == p && e.target == v && !e.kind.InterproceduralCall?
            && !e.kind.InterproceduralReturn?;
      BlockGoesOn(g, leaders, blocks, r, l, e);
    }
  }

  // The successor of a vertex of a block is in the same block, unless it is a leader.
  lemma {:induction false} BlockGoesOn(g: Graph, leaders: set<int>, blocks: map<int, seq<int>>, r: Graph, l: int,
        e: Edge)
    requires WellShaped(g) && AreLeaders(g, leaders) && IsBlockGraph(g, leaders, blocks, r)
    requires l in leaders && e.source in blocks[l] && e in g.edges && e.target !in leaders
    requires !e.kind.InterproceduralCall? && !e.kind.InterproceduralReturn?
    ensures e.target in blocks[l]
  {
    assert BlockAt(g, leaders, blocks, r, l);
    BlockContinues(g, leaders, blocks[l], e);
  }

  lemma {:induction false} BlockContinues(g: Graph, leaders: set<int>, labels: seq<int>, e: Edge)
    requires WellShaped(g) && AreLeaders(g, leaders) && IsBlock(g, leaders, labels)
    requires e.source in labels && e in g.edges && e.target !in leaders
    requires !e.kind.InterproceduralCall? && !e.kind.InterproceduralReturn?
    ensures e.target in labels
  {
    var i :| 0 <= i < |labels| && labels[i] == e.source;
    if SimpleAt(g, e.source) {
      SimpleTarget(g, e);
      if i < |labels| - 1 {
        assert labels[i + 1] == e.target;
      }
    } else {
      BranchTarget(g, e);
    }
  }

  lemma {:induction false} SimpleTarget(g: Graph, e: Edge)
    requires WellShaped(g) && e in g.edges && SimpleAt(g, e.source)
    ensures e.target == Next(g, e.source)
  {
    SimpleNext(g, e.source);
    OutgoingComplete(g.edges, e);
  }

  lemma {:induction false} BranchTarget(g: Graph, e: Edge)
    requires WellShaped(g) && e in g.edges && e.source in g.vertices && !SimpleAt(g, e.source)
    requires !e.kind.InterproceduralCall? && !e.kind.InterproceduralReturn?
    ensures IsLeader(g, e.target)
  {
    assert VertexFits(g, e.source);
    OutgoingComplete(g.edges, e);
    TargetsExist(g, e.source);
    var out := Outgoing(g.edges, e.source);
    if |out| == 2 { assert out == [out[0], out[1]]; } else { assert |out| == 1 && out == [out[0]]; }
    assert e.target in LeadersAfter(g, e.source);
  }

  // No vertex is in two blocks, or twice in one.
  lemma {:induction false} BlocksDisjoint(g: Graph, leaders: set<int>, a: seq<int>, b: seq<int>, i: nat, j: nat)
    requires WellShaped(g) && AreLeaders(g, leaders) && IsBlock(g, leaders, a) && IsBlock(g, leaders, b)
    requires i < |a| && j < |b| && a[i] == b[j]
    ensures i == j && a[0] == b[0]
    decreases i
  {
    if i > 0 && j > 0 {
      var d := BlockEdge(g, leaders, a, i);
      var e := BlockEdge(g, leaders, b, j);
      OneWayIn(g, leaders, d, e);
      BlocksDisjoint(g, leaders, a, b, i - 1, j - 1);
    }
  }

  // The edge inside a block to its i-th vertex, which is no leader.
  lemma {:induction false} BlockEdge(g: Graph, leaders: set<int>, labels: seq<int>, i: nat) returns (e: Edge)
    requires WellShaped(g) && IsBlock(g, leaders, labels) && 0 < i < |labels|
    ensures e == Edge(labels[i - 1], labels[i], Intraprocedural) && e in g.edges && labels[i] in g.vertices
            && labels[i] !in leaders
  {
    e := Edge(labels[i - 1], labels[i], Intraprocedural);
    SimpleNext(g, labels[i - 1]);
    assert labels[i - 1 + 1] == labels[i];
  }
}
