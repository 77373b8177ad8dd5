// Intermediate vertices on the branches of decisions
// (ahorn/src/pass/decision_transformation_pass.cpp).

module DecisionSplitting {
  import opened Ir
  import opened Machines
  import opened Cfg

  // The labels of the intermediate vertices on the true and on the false branch of a decision.
  datatype Middle = Middle(positive: int, negative: int)

  type Middles = map<int, Middle>

  predicate IsBranch(e: Edge) {
    e.kind.TrueBranch? || e.kind.FalseBranch?
  }

  predicate IsDecision(g: Graph, l: int) {
    l in g.vertices && g.vertices[l].Regular? && |g.vertices[l].instrs| == 1 && g.vertices[l].instrs[0].IfGoto?
  }

  // A loop header, or a sequence.
  predicate IsRejected(v: Vertex) {
    v.Regular? && (|v.instrs| != 1 || v.instrs[0].WhileGoto?)
  }

  predicate Rejected(g: Graph) {
    exists l :: l in g.vertices && IsRejected(g.vertices[l])
  }

  // Branches leave from decisions, and all labels lie below those of the pass.
  predicate Splittable(g: Graph, bound: int) {
    && (forall l | l in g.vertices :: l < bound)
    && (forall e | e in g.edges :: e.source < bound && e.target < bound)
    && (forall e | e in g.edges && IsBranch(e) && !Rejected(g) :: IsDecision(g, e.source))
  }

  function MiddleOf(mid: Middles, e: Edge): int
    requires e.source in mid
  {
    if e.kind.TrueBranch? then mid[e.source].positive else mid[e.source].negative
  }

  predicate Known(mid: Middles, edges: seq<Edge>) {
    forall e | e in edges && IsBranch(e) :: e.source in mid
  }

  function SplitEdge(mid: Middles, e: Edge): seq<Edge>
    requires IsBranch(e) ==> e.source in mid
  {
    if IsBranch(e) then [Edge(e.source, MiddleOf(mid, e), e.kind), Edge(MiddleOf(mid, e), e.target, Intraprocedural)]
    else [e]
  }

  function Split(mid: Middles, edges: seq<Edge>): seq<Edge>
    requires Known(mid, edges)
  {
    if edges == [] then [] else SplitEdge(mid, edges[0]) + Split(mid, edges[1..])
  }

  lemma {:induction false} SplitSnoc(mid: Middles, edges: seq<Edge>, e: Edge)
    requires Known(mid, edges + [e])
    ensures Known(mid, edges) && Known(mid, [e])
    ensures Split(mid, edges + [e]) == Split(mid, edges) + SplitEdge(mid, e)
  {
    forall d | d in edges && IsBranch(d) ensures d.source in mid { assert d in edges + [e]; }
    assert e in edges + [e];
    if edges == [] {
      assert edges + [e] == [e] && [e][1..] == [];
      assert Split(mid, [e]) == SplitEdge(mid, e) + Split(mid, []);
    } else {
      assert (edges + [e])[1..] == edges[1..] + [e];
      SplitSnoc(mid, edges[1..], e);
    }
  }

  // Each decision has two labels of its own in [lo, hi).
  predicate MiddleFits(mid: Middles, lo: int, hi: int, l: int) {
    l in mid && lo <= mid[l].positive < hi && lo <= mid[l].negative < hi && mid[l].positive != mid[l].negative
  }

  predicate MiddlesApart(mid: Middles, k: int, l: int)
    requires k in mid && l in mid
  {
    && mid[k].positive != mid[l].positive && mid[k].positive != mid[l].negative
    && mid[k].negative != mid[l].positive && mid[k].negative != mid[l].negative
  }

  ghost predicate Numbered(mid: Middles, decisions: set<int>, lo: int, hi: int) {
    && (forall l {:trigger MiddleFits(mid, lo, hi, l)} | l in decisions :: MiddleFits(mid, lo, hi, l))
    && (forall k, l {:trigger MiddlesApart(mid, k, l)} | k in decisions && l in decisions && k != l :: k in mid
          && l in mid && MiddlesApart(mid, k, l))
  }

  function Decisions(g: Graph): set<int> {
    set l | l in g.vertices && IsDecision(g, l)
  }

  // The label of an intermediate vertex of one of these decisions.
  ghost predicate IsMiddle(mid: Middles, decisions: set<int>, m: int) {
    exists l :: l in decisions && l in mid && (m == mid[l].positive || m == mid[l].negative)
  }

  ghost predicate Kept(before: Middles, after: Middles) {
    forall l | l in before :: l in after && after[l] == before[l]
  }

  // The vertices in `done` are copied, and their branches have intermediate vertices.
  ghost predicate Copied(g: Graph, mid: Middles, vertices: map<int, Vertex>, done: set<int>, lo: int, hi: int) {
    && Numbered(mid, Decisions(g) * done, lo, hi)
    && (forall l :: l in vertices <==> l in done || IsMiddle(mid, Decisions(g) * done, l))
    && (forall l | l in vertices :: vertices[l] == if l in g.vertices then g.vertices[l] else Regular([]))
  }

  ghost predicate IsSplit(g: Graph, mid: Middles, lo: int, hi: int, r: Graph) {
    && Copied(g, mid, r.vertices, g.vertices.Keys, lo, hi)
    && Known(mid, g.edges) && r.edges == Split(mid, g.edges) && r.entry == g.entry && r.exit == g.exit
  }

  // ---------- the pass ----------

  class DecisionTransformationPass {
    var freeLabel: int
    var intermediateSuccessors: Middles

    constructor ()
      ensures freeLabel == 9000 && intermediateSuccessors == map[]
    {
      freeLabel, intermediateSuccessors := 9000, map[];
    }

    // None if a vertex is rejected. The graphs of callees come first; their labels are others.
    method Apply(g: Graph) returns (r: Option<Graph>)
      requires Splittable(g, freeLabel) && intermediateSuccessors.Keys !! g.vertices.Keys
      modifies this
      ensures r.None? <==> Rejected(g)
      ensures r.None? <==> exists l :: l in g.vertices && g.vertices[l].Regular?
                             && (|g.vertices[l].instrs| != 1 || g.vertices[l].instrs[0].WhileGoto?)
      ensures r.Some? ==> old(freeLabel) <= freeLabel && IsSplit(g, intermediateSuccessors, old(freeLabel),
              freeLabel, r.value)
      ensures r.Some? ==> intermediateSuccessors.Keys == old(intermediateSuccessors).Keys + Decisions(g)
      ensures Kept(old(intermediateSuccessors), intermediateSuccessors)
    {
      var labelToVertex, accepted := SplitVertices(g);
      if !accepted {
        return None;
      }
      var edges := SplitEdges(g);
      r := Some(Graph(labelToVertex, edges, g.entry, g.exit));
    }

    method CopyVertex(g: Graph, labelToVertex: map<int, Vertex>, l: int, ghost done: set<int>, ghost lo: int)
          returns (r: map<int, Vertex>)
      requires l in g.vertices && l !in done && (IsDecision(g, l) ==> l !in intermediateSuccessors)
      requires lo <= freeLabel && Copied(g, intermediateSuccessors, labelToVertex, done, lo, freeLabel)
      requires forall k | k in g.vertices :: k < lo
      modifies this
      ensures old(freeLabel) <= freeLabel && Copied(g, intermediateSuccessors, r, done + {l}, lo, freeLabel)
      ensures intermediateSuccessors.Keys == old(intermediateSuccessors).Keys + if IsDecision(g, l) then {l} else {}
      ensures Kept(old(intermediateSuccessors), intermediateSuccessors)
    {
      if IsDecision(g, l) {
        r := CopyDecision(g, labelToVertex, l);
        DecisionCopied(g, old(intermediateSuccessors), labelToVertex, done, l, lo, old(freeLabel),
              intermediateSuccessors, r);
      } else {
        PlainCopied(g, intermediateSuccessors, labelToVertex, done, l, lo, freeLabel);
        r := labelToVertex[l := g.vertices[l]];
      }
    }

    method CopyDecision(g: Graph, labelToVertex: map<int, Vertex>, l: int) returns (r: map<int, Vertex>)
      requires l in g.vertices
      modifies this
      ensures freeLabel == old(freeLabel) + 2
      ensures intermediateSuccessors == old(intermediateSuccessors)[l := Middle(old(freeLabel), old(freeLabel) + 1)]
      ensures r == labelToVertex[l := g.vertices[l]][old(freeLabel) := Regular([])][old(freeLabel) + 1 := Regular([])]
    {
      var positive := freeLabel;
      freeLabel := freeLabel + 1;
      var negative := freeLabel;
      freeLabel := freeLabel + 1;
      intermediateSuccessors := intermediateSuccessors[l := Middle(positive, negative)];
      r := labelToVertex[l := g.vertices[l]][positive := Regular([])][negative := Regular([])];
    }

    method SplitVertices(g: Graph) returns (labelToVertex: map<int, Vertex>, accepted: bool)
      requires Splittable(g, freeLabel) && intermediateSuccessors.Keys !! g.vertices.Keys
      modifies this
      ensures accepted <==> !Rejected(g)
      ensures old(freeLabel) <= freeLabel
      ensures accepted ==> Copied(g, intermediateSuccessors, labelToVertex, g.vertices.Keys, old(freeLabel), freeLabel)
      ensures accepted ==> intermediateSuccessors.Keys == old(intermediateSuccessors).Keys + Decisions(g)
      ensures Kept(old(intermediateSuccessors), intermediateSuccessors)
    {
      labelToVertex, accepted := map[], true;
      var todo := g.vertices.Keys;
      ghost var done: set<int> := {};
      while exists l :: l in todo
        invariant todo !! done && todo + done == g.vertices.Keys
        invariant old(freeLabel) <= freeLabel && Copied(g, intermediateSuccessors, labelToVertex, done,
                old(freeLabel), freeLabel)
        invariant forall l | l in done :: !IsRejected(g.vertices[l])
        invariant intermediateSuccessors.Keys == old(intermediateSuccessors).Keys + Decisions(g) * done
        invariant Kept(old(intermediateSuccessors), intermediateSuccessors)
        decreases todo
      {
        var l :| l in todo;
        if g.vertices[l].Regular? && (|g.vertices[l].instrs| != 1 || g.vertices[l].instrs[0].WhileGoto?) {
          accepted := false;
          return;
        }
        labelToVertex := CopyVertex(g, labelToVertex, l, done, old(freeLabel));
        todo, done := todo - {l}, done + {l};
      }
      assert done == g.vertices.Keys;
    }

    method SplitEdges(g: Graph) returns (edges: seq<Edge>)
      requires Known(intermediateSuccessors, g.edges)
      ensures edges == Split(intermediateSuccessors, g.edges)
    {
      edges := [];
      for i := 0 to |g.edges|
        invariant Known(intermediateSuccessors, g.edges[..i])
        invariant edges == Split(intermediateSuccessors, g.edges[..i])
      {
        var e := g.edges[i];
        assert g.edges[..i + 1] == g.edges[..i] + [e] && e in g.edges;
        forall d | d in g.edges[..i + 1]
                && IsBranch(d) ensures d.source in intermediateSuccessors { assert d in g.edges; }
        SplitSnoc(intermediateSuccessors, g.edges[..i], e);
        match e.kind
        case TrueBranch =>
          var intermediate := intermediateSuccessors[e.source].positive;
          edges := edges + [Edge(e.source, intermediate, TrueBranch)];
          edges := edges + [Edge(intermediate, e.target, Intraprocedural)];
        case FalseBranch =>
          var intermediate := intermediateSuccessors[e.source].negative;
          edges := edges + [Edge(e.source, intermediate, FalseBranch)];
          edges := edges + [Edge(intermediate, e.target, Intraprocedural)];
        case _ =>
          edges := edges + [e];
      }
      assert g.edges[..|g.edges|] == g.edges;
    }
  }

  // A vertex that is no decision is copied.
  lemma {:induction false} PlainCopied(g: Graph, mid: Middles, vertices: map<int, Vertex>, done: set<int>, l: int,
        lo: int, hi: int)
    requires Copied(g, mid, vertices, done, lo, hi) && l in g.vertices && !IsDecision(g, l)
    requires forall k | k in g.vertices :: k < lo
    ensures Copied(g, mid, vertices[l := g.vertices[l]], done + {l}, lo, hi)
  {
    assert Decisions(g) * (done + {l}) == Decisions(g) * done;
  }

  // A decision gets the next two labels.
  lemma {:induction false} DecisionCopied(g: Graph, mid: Middles, vertices: map<int, Vertex>, done: set<int>, l: int,
        lo: int, hi: int,
                                        more: Middles, r: map<int, Vertex>)
    requires Copied(g, mid, vertices, done, lo, hi) && l in g.vertices && IsDecision(g, l) && l !in done && l !in mid
    requires lo <= hi && forall k | k in g.vertices :: k < lo
    requires more == mid[l := Middle(hi, hi + 1)]
            && r == vertices[l := g.vertices[l]][hi := Regular([])][hi + 1 := Regular([])]
    ensures Copied(g, more, r, done + {l}, lo, hi + 2)
  {
    var before, after := Decisions(g) * done, Decisions(g) * (done + {l});
    assert after == before + {l};
    forall k | k in after ensures MiddleFits(more, lo, hi + 2, k) {
      if k != l { assert MiddleFits(mid, lo, hi, k); }
    }
    forall k, m | k in after && m in after && k != m ensures k in more && m in more && MiddlesApart(more, k, m) {
      if k != l { assert MiddleFits(mid, lo, hi, k); }
      if m != l { assert MiddleFits(mid, lo, hi, m); }
      if k != l && m != l { assert MiddlesApart(mid, k, m); }
    }
    MiddlesGrow(mid, before, l, hi);
  }

  lemma {:induction false} MiddlesGrow(mid: Middles, decisions: set<int>, l: int, hi: int)
    requires l !in decisions
    ensures forall m :: IsMiddle(mid[l := Middle(hi, hi + 1)], decisions + {l}, m) <==>
            IsMiddle(mid, decisions, m) || m == hi || m == hi + 1
  {
    var more := mid[l := Middle(hi, hi + 1)];
    forall m ensures IsMiddle(more, decisions + {l}, m) <==> IsMiddle(mid, decisions, m) || m == hi || m == hi + 1 {
      if IsMiddle(mid, decisions, m) {
        var k :| k in decisions && k in mid && (m == mid[k].positive || m == mid[k].negative);
        assert k in decisions + {l} && more[k] == mid[k];
      }
      if m == hi || m == hi + 1 {
        assert l in decisions + {l} && l in more;
      }
    }
  }

  // ---------- the edges of the new graph ----------

  // Every edge stems from one of the old edges.
  lemma {:induction false} SplitStems(mid: Middles, edges: seq<Edge>, d: Edge) returns (e: Edge)
    requires Known(mid, edges) && d in Split(mid, edges)
    ensures e in edges && (IsBranch(e) ==> e.source in mid) && d in SplitEdge(mid, e)
  {
    if d in SplitEdge(mid, edges[0]) {
      e := edges[0];
    } else {
      e := SplitStems(mid, edges[1..], d);
    }
  }

  lemma {:induction false} SplitKeeps(mid: Middles, edges: seq<Edge>, e: Edge, d: Edge)
    requires Known(mid, edges) && e in edges && d in SplitEdge(mid, e)
    ensures d in Split(mid, edges)
  {
    if e != edges[0] {
      SplitKeeps(mid, edges[1..], e, d);
    }
  }

  // The first half of a branch, or an edge that is no branch.
  function Front(mid: Middles, e: Edge): Edge
    requires IsBranch(e) ==> e.source in mid
  {
    SplitEdge(mid, e)[0]
  }

  function Fronts(mid: Middles, edges: seq<Edge>): (r: seq<Edge>)
    requires Known(mid, edges)
    ensures |r| == |edges| && forall i | 0 <= i < |edges| ::
            (IsBranch(edges[i]) ==> edges[i].source in mid) && r[i] == Front(mid, edges[i])
  {
    if edges == [] then [] else [Front(mid, edges[0])] + Fronts(mid, edges[1..])
  }

  // The second halves of the branches over the intermediate vertex m.
  function Backs(mid: Middles, edges: seq<Edge>, m: int): seq<Edge>
    requires Known(mid, edges)
  {
    if edges == [] then []
    else (if IsBranch(edges[0]) && MiddleOf(mid, edges[0]) == m then [Edge(m, edges[0].target, Intraprocedural)]
          else []) + Backs(mid, edges[1..], m)
  }

  function Ins(mid: Middles, edges: seq<Edge>, m: int): seq<Edge>
    requires Known(mid, edges)
  {
    if edges == [] then []
    else (if IsBranch(edges[0]) && MiddleOf(mid, edges[0]) == m then [Edge(edges[0].source, m, edges[0].kind)]
          else []) + Ins(mid, edges[1..], m)
  }

  // Intermediate vertices lie at lo and above, the ends of old edges below.
  predicate MiddlesAbove(mid: Middles, edges: seq<Edge>, lo: int) {
    && (forall e | e in edges :: e.source < lo && e.target < lo)
    && (forall e | e in edges && IsBranch(e) :: e.source in mid && lo <= MiddleOf(mid, e))
  }

  lemma {:induction false} OneEdge(e: Edge, l: int)
    ensures Outgoing([e], l) == (if e.source == l then [e] else []) && Incoming([e], l) == if e.target == l then [e]
            else []
  {
    assert [e][1..] == [];
  }

  lemma {:induction false} TwoEdges(d: Edge, e: Edge, l: int)
    ensures Outgoing([d, e], l) == (if d.source == l then [d] else []) + (if e.source == l then [e] else [])
    ensures Incoming([d, e], l) == (if d.target == l then [d] else []) + (if e.target == l then [e] else [])
  {
    assert [d, e] == [d] + [e];
    OutgoingAppend([d], [e], l);
    IncomingAppend([d], [e], l);
    OneEdge(d, l);
    OneEdge(e, l);
  }

  // Old vertices keep their outgoing edges, up to the first half of a branch.
  lemma {:induction false} OldOutgoing(mid: Middles, edges: seq<Edge>, lo: int, l: int)
    requires Known(mid, edges) && MiddlesAbove(mid, edges, lo) && l < lo
    ensures Known(mid, Outgoing(edges, l)) && Outgoing(Split(mid, edges), l) == Fronts(mid, Outgoing(edges, l))
  {
    if edges != [] {
      OldOutgoing(mid, edges[1..], lo, l);
      OutgoingAppend(SplitEdge(mid, edges[0]), Split(mid, edges[1..]), l);
      FrontOutgoing(mid, edges, lo, l);
      if edges[0].source == l {
        assert Outgoing(edges, l)[1..] == Outgoing(edges[1..], l);
      } else {
        assert Outgoing(edges, l) == Outgoing(edges[1..], l);
      }
    }
  }

  lemma {:induction false} FrontOutgoing(mid: Middles, edges: seq<Edge>, lo: int, l: int)
    requires edges != [] && Known(mid, edges) && MiddlesAbove(mid, edges, lo) && l < lo
    ensures Outgoing(SplitEdge(mid, edges[0]), l) == if edges[0].source == l then [Front(mid, edges[0])] else []
  {
    var e := edges[0];
    OneEdge(e, l);
    if IsBranch(e) { TwoEdges(SplitEdge(mid, e)[0], SplitEdge(mid, e)[1], l); }
  }

  // An intermediate vertex has the halves of its branches.
  lemma {:induction false} MiddleOutgoing(mid: Middles, edges: seq<Edge>, lo: int, m: int)
    requires Known(mid, edges) && MiddlesAbove(mid, edges, lo) && lo <= m
    ensures Outgoing(Split(mid, edges), m) == Backs(mid, edges, m)
  {
    if edges != [] {
      MiddleOutgoing(mid, edges[1..], lo, m);
      OutgoingAppend(SplitEdge(mid, edges[0]), Split(mid, edges[1..]), m);
      HalfOutgoing(mid, edges, lo, m);
    }
  }

  lemma {:induction false} HalfOutgoing(mid: Middles, edges: seq<Edge>, lo: int, m: int)
    requires edges != [] && Known(mid, edges) && MiddlesAbove(mid, edges, lo) && lo <= m
    ensures Outgoing(SplitEdge(mid, edges[0]), m) ==
            if IsBranch(edges[0]) && MiddleOf(mid, edges[0]) == m then [Edge(m, edges[0].target, Intraprocedural)]
                  else []
  {
    var e := edges[0];
    OneEdge(e, m);
    if IsBranch(e) { TwoEdges(SplitEdge(mid, e)[0], SplitEdge(mid, e)[1], m); }
  }

  lemma {:induction false} MiddleIncoming(mid: Middles, edges: seq<Edge>, lo: int, m: int)
    requires Known(mid, edges) && MiddlesAbove(mid, edges, lo) && lo <= m
    ensures Incoming(Split(mid, edges), m) == Ins(mid, edges, m)
  {
    if edges != [] {
      MiddleIncoming(mid, edges[1..], lo, m);
      IncomingAppend(SplitEdge(mid, edges[0]), Split(mid, edges[1..]), m);
      HalfIncoming(mid, edges, lo, m);
    }
  }

  lemma {:induction false} HalfIncoming(mid: Middles, edges: seq<Edge>, lo: int, m: int)
    requires edges != [] && Known(mid, edges) && MiddlesAbove(mid, edges, lo) && lo <= m
    ensures Incoming(SplitEdge(mid, edges[0]), m) ==
            if IsBranch(edges[0]) && MiddleOf(mid, edges[0]) == m then [Edge(edges[0].source, m, edges[0].kind)] else []
  {
    var e := edges[0];
    OneEdge(e, m);
    if IsBranch(e) { TwoEdges(SplitEdge(mid, e)[0], SplitEdge(mid, e)[1], m); }
  }

  // No branches but those of this kind out of s lead over m.
  ghost predicate OnlyOver(mid: Middles, edges: seq<Edge>, m: int, s: int, kind: EdgeKind) {
    && Known(mid, edges)
    && forall d | d in edges && IsBranch(d) :: MiddleOf(mid, d) == m <==> d.source == s && d.kind == kind
  }

  lemma {:induction false} OnlyBranches(mid: Middles, edges: seq<Edge>, m: int, s: int, kind: EdgeKind)
    requires OnlyOver(mid, edges, m, s, kind) && (kind == TrueBranch || kind == FalseBranch)
    ensures Backs(mid, edges, m) == Halves(m, Of(edges, s, kind)) && Ins(mid, edges, m) == Firsts(m, Of(edges, s, kind))
  {
    if edges != [] {
      OnlyBranches(mid, edges[1..], m, s, kind);
      var e := edges[0];
      if e.source == s && e.kind == kind {
        assert IsBranch(e) && MiddleOf(mid, e) == m;
        assert Of(edges, s, kind) == [e] + Of(edges[1..], s, kind);
      } else {
        assert Of(edges, s, kind) == Of(edges[1..], s, kind);
      }
    }
  }

  // The edges of one kind out of a label.
  function Of(edges: seq<Edge>, l: int, kind: EdgeKind): seq<Edge> {
    if edges == [] then []
    else (if edges[0].source == l && edges[0].kind == kind then [edges[0]] else []) + Of(edges[1..], l, kind)
  }

  function Halves(m: int, edges: seq<Edge>): (r: seq<Edge>) {
    if edges == [] then [] else [Edge(m, edges[0].target, Intraprocedural)] + Halves(m, edges[1..])
  }

  function Firsts(m: int, edges: seq<Edge>): (r: seq<Edge>) {
    if edges == [] then [] else [Edge(edges[0].source, m, edges[0].kind)] + Firsts(m, edges[1..])
  }

  lemma {:induction false} OfOutgoing(edges: seq<Edge>, l: int, kind: EdgeKind)
    ensures Of(edges, l, kind) == Of(Outgoing(edges, l), l, kind)
  {
    if edges != [] {
      OfOutgoing(edges[1..], l, kind);
      if edges[0].source == l {
        assert Outgoing(edges, l)[1..] == Outgoing(edges[1..], l);
      } else {
        assert Outgoing(edges, l) == Outgoing(edges[1..], l);
      }
    }
  }

  // ---------- what the pass promises ----------

  // A graph and its split graph.
  ghost predicate SplitOf(g: Graph, mid: Middles, lo: int, hi: int, r: Graph) {
    && WellShaped(g) && Splittable(g, lo) && !Rejected(g) && IsSplit(g, mid, lo, hi, r)
  }

  // The old vertices stay as they are, and the new ones are empty.
  lemma {:induction false} VerticesExactly(g: Graph, mid: Middles, lo: int, hi: int, r: Graph, l: int)
    requires SplitOf(g, mid, lo, hi, r)
    ensures r.entry == g.entry && r.exit == g.exit
    ensures l in g.vertices ==> l in r.vertices && r.vertices[l] == g.vertices[l]
    ensures l in r.vertices && l !in g.vertices ==>
              && r.vertices[l] == Regular([])
              && exists d :: d in g.vertices && d in mid && (l == mid[d].positive || l == mid[d].negative)
                   && g.vertices[d].Regular? && |g.vertices[d].instrs| == 1 && g.vertices[d].instrs[0].IfGoto?
    ensures l in g.vertices && g.vertices[l].Regular? && g.vertices[l].instrs[0].IfGoto? ==>
              && l in mid && mid[l].positive != mid[l].negative
              && mid[l].positive in r.vertices && mid[l].negative in r.vertices
  {
    if l in r.vertices && l !in g.vertices {
      assert IsMiddle(mid, Decisions(g) * g.vertices.Keys, l);
      var d :| d in Decisions(g) * g.vertices.Keys && d in mid && (l == mid[d].positive || l == mid[d].negative);
      assert IsDecision(g, d);
    }
    if l in g.vertices {
      assert VertexFits(g, l);
      if IsDecision(g, l) {
        assert l in Decisions(g) * g.vertices.Keys && MiddleFits(mid, lo, hi, l);
        assert IsMiddle(mid, Decisions(g) * g.vertices.Keys, mid[l].positive);
        assert IsMiddle(mid, Decisions(g) * g.vertices.Keys, mid[l].negative);
      }
    }
  }

  // The edges are the old ones that are no branches, and two for each branch: to the intermediate vertex
  // of its kind, and from there to the old target.
  lemma {:induction false} EdgesExactly(g: Graph, mid: Middles, lo: int, hi: int, r: Graph, e: Edge)
    requires SplitOf(g, mid, lo, hi, r)
    ensures e in r.edges <==>
            || (e in g.edges && !e.kind.TrueBranch? && !e.kind.FalseBranch?)
            || exists b :: b in g.edges && (b.kind.TrueBranch? || b.kind.FalseBranch?) && b.source in mid
                 && var m := if b.kind.TrueBranch? then mid[b.source].positive else mid[b.source].negative;
                 e == Edge(b.source, m, b.kind) || e == Edge(m, b.target, Intraprocedural)
  {
    if e in r.edges {
      var b := SplitStems(mid, g.edges, e);
      assert IsBranch(b) ==> e == SplitEdge(mid, b)[0] || e == SplitEdge(mid, b)[1];
    } else {
      forall b | b in g.edges ensures e !in SplitEdge(mid, b) {
        if e in SplitEdge(mid, b) { SplitKeeps(mid, g.edges, b, e); }
      }
      forall b | b in g.edges && IsBranch(b) ensures e != SplitEdge(mid, b)[0] && e != SplitEdge(mid, b)[1] {
      }
    }
  }

  // The two branches of a decision.
  lemma {:induction false} DecisionEdges(g: Graph, l: int) returns (t: int, f: int)
    requires WellShaped(g) && l in Decisions(g)
    ensures Outgoing(g.edges, l) == [Edge(l, t, TrueBranch), Edge(l, f, FalseBranch)] && t in g.vertices
            && f in g.vertices
  {
    assert VertexFits(g, l);
    var out := Outgoing(g.edges, l);
    t, f := out[0].target, out[1].target;
    assert out[0] in out && out[1] in out;
  }

  lemma {:induction false} MiddlesLieAbove(g: Graph, mid: Middles, lo: int, hi: int, r: Graph)
    requires SplitOf(g, mid, lo, hi, r)
    ensures MiddlesAbove(mid, g.edges, lo)
  {
    forall e | e in g.edges && IsBranch(e) ensures e.source in mid && lo <= MiddleOf(mid, e) {
      assert IsDecision(g, e.source) && e.source in Decisions(g);
      assert e.source in Decisions(g) * g.vertices.Keys && MiddleFits(mid, lo, hi, e.source);
    }
  }

  // Each intermediate vertex has one edge in, from its decision, and one edge out, to the target of
  // the branch; so true and false branch have different targets.
  lemma {:induction false} MiddleBetween(g: Graph, mid: Middles, lo: int, hi: int, r: Graph, l: int)
        returns (t: int, f: int)
    requires SplitOf(g, mid, lo, hi, r) && l in Decisions(g)
    ensures l in mid && mid[l].positive != mid[l].negative && lo <= mid[l].positive && lo <= mid[l].negative
    ensures Outgoing(g.edges, l) == [Edge(l, t, TrueBranch), Edge(l, f, FalseBranch)]
    ensures Outgoing(r.edges, l) == [Edge(l, mid[l].positive, TrueBranch), Edge(l, mid[l].negative, FalseBranch)]
    ensures Incoming(r.edges, mid[l].positive) == [Edge(l, mid[l].positive, TrueBranch)]
    ensures Outgoing(r.edges, mid[l].positive) == [Edge(mid[l].positive, t, Intraprocedural)]
    ensures Incoming(r.edges, mid[l].negative) == [Edge(l, mid[l].negative, FalseBranch)]
    ensures Outgoing(r.edges, mid[l].negative) == [Edge(mid[l].negative, f, Intraprocedural)]
  {
    t, f := DecisionEdges(g, l);
    TwoOf(Edge(l, t, TrueBranch), Edge(l, f, FalseBranch), l);
    MiddleOn(g, mid, lo, hi, r, l, Edge(l, t, TrueBranch));
    MiddleOn(g, mid, lo, hi, r, l, Edge(l, f, FalseBranch));
    DecisionOutgoing(g, mid, lo, hi, r, l, t, f);
  }

  // The vertex on one branch.
  lemma {:induction false} MiddleOn(g: Graph, mid: Middles, lo: int, hi: int, r: Graph, l: int, e: Edge)
    requires SplitOf(g, mid, lo, hi, r) && l in Decisions(g) && IsBranch(e) && e.source == l
    requires Of(Outgoing(g.edges, l), l, e.kind) == [e]
    ensures l in mid && lo <= MiddleOf(mid, e)
    ensures Incoming(r.edges, MiddleOf(mid, e)) == [Edge(l, MiddleOf(mid, e), e.kind)]
    ensures Outgoing(r.edges, MiddleOf(mid, e)) == [Edge(MiddleOf(mid, e), e.target, Intraprocedural)]
  {
    assert l in Decisions(g) * g.vertices.Keys && MiddleFits(mid, lo, hi, l);
    var m := MiddleOf(mid, e);
    MiddlesLieAbove(g, mid, lo, hi, r);
    OwnMiddle(g, mid, lo, hi, r, l, e.kind);
    OfOutgoing(g.edges, l, e.kind);
    OnlyBranches(mid, g.edges, m, l, e.kind);
    HalvesOne(m, e);
    MiddleOutgoing(mid, g.edges, lo, m);
    MiddleIncoming(mid, g.edges, lo, m);
  }

  lemma {:induction false} DecisionOutgoing(g: Graph, mid: Middles, lo: int, hi: int, r: Graph, l: int, t: int, f: int)
    requires SplitOf(g, mid, lo, hi, r) && l in Decisions(g) && l in mid
    requires Outgoing(g.edges, l) == [Edge(l, t, TrueBranch), Edge(l, f, FalseBranch)]
    ensures Outgoing(r.edges, l) == [Edge(l, mid[l].positive, TrueBranch), Edge(l, mid[l].negative, FalseBranch)]
    ensures mid[l].positive != mid[l].negative
  {
    assert l in Decisions(g) * g.vertices.Keys && MiddleFits(mid, lo, hi, l);
    MiddlesLieAbove(g, mid, lo, hi, r);
    OldOutgoing(mid, g.edges, lo, l);
  }

  lemma {:induction false} TwoOf(t: Edge, f: Edge, l: int)
    requires t.source == f.source == l && t.kind == TrueBranch && f.kind == FalseBranch
    ensures Of([t, f], l, TrueBranch) == [t] && Of([t, f], l, FalseBranch) == [f]
  {
    assert [t, f][1..] == [f] && [f][1..] == [];
    assert Of([f], l, TrueBranch) == [] + Of([], l, TrueBranch) == [];
    assert Of([f], l, FalseBranch) == [f] + Of([], l, FalseBranch) == [f];
  }

  lemma {:induction false} HalvesOne(m: int, e: Edge)
    ensures Halves(m, [e]) == [Edge(m, e.target, Intraprocedural)] && Firsts(m, [e]) == [Edge(e.source, m, e.kind)]
  {
    assert [e][1..] == [];
  }

  // No two branches share an intermediate vertex.
  lemma {:induction false} OwnMiddle(g: Graph, mid: Middles, lo: int, hi: int, r: Graph, l: int, kind: EdgeKind)
    requires SplitOf(g, mid, lo, hi, r) && l in Decisions(g) && l in mid && (kind == TrueBranch || kind == FalseBranch)
    ensures OnlyOver(mid, g.edges, if kind == TrueBranch then mid[l].positive else mid[l].negative, l, kind)
  {
    var all := Decisions(g) * g.vertices.Keys;
    assert l in all && MiddleFits(mid, lo, hi, l);
    forall d | d in g.edges && IsBranch(d)
      ensures MiddleOf(mid, d) == (if kind == TrueBranch then mid[l].positive else mid[l].negative) <==>
              d.source == l && d.kind == kind
    {
      assert IsDecision(g, d.source) && d.source in all && MiddleFits(mid, lo, hi, d.source);
      if d.source != l { assert MiddlesApart(mid, d.source, l); }
    }
  }

  // ---------- runs ----------

  function OnOld(g: Graph): Config -> bool {
    (c: Config) => c.pc in g.vertices
  }

  // A decision takes a second step, over the intermediate vertex.
  function Stride(g: Graph): Config -> nat {
    (c: Config) => if IsDecision(g, c.pc) then 2 else 1
  }

  lemma {:induction false} StaysInside(env: Env, g: Graph, c: Config)
    requires WellShaped(g) && c.pc in g.vertices
    ensures StepAt(env, g, c).pc in g.vertices
  {
    assert VertexFits(g, c.pc);
    var out := Outgoing(g.edges, c.pc);
    match g.vertices[c.pc]
    case ExitVertex =>
    case EntryVertex =>
      FollowOutgoing(g.edges, c.pc, Intraprocedural);
      assert out[0] in out;
    case Regular(instrs) =>
      FollowOutgoing(g.edges, c.pc, BlockBranch(env, instrs, c.st));
      assert out[0] in out;
      if |out| == 2 {
        assert out[1] in out && out[1..][0] == out[1];
      }
  }

  lemma {:induction false} PlainStep(env: Env, g: Graph, mid: Middles, lo: int, hi: int, r: Graph, c: Config)
    requires SplitOf(g, mid, lo, hi, r) && c.pc in g.vertices && !IsDecision(g, c.pc)
    ensures StepAt(env, r, c) == StepAt(env, g, c)
  {
    MiddlesLieAbove(g, mid, lo, hi, r);
    OldOutgoing(mid, g.edges, lo, c.pc);
    var out := Outgoing(g.edges, c.pc);
    forall e | e in out ensures !IsBranch(e) { assert e in g.edges; }
    assert Fronts(mid, out) == out;
    assert r.vertices[c.pc] == g.vertices[c.pc];
    match g.vertices[c.pc]
    case ExitVertex =>
    case EntryVertex =>
      FollowOutgoing(g.edges, c.pc, Intraprocedural);
      FollowOutgoing(r.edges, c.pc, Intraprocedural);
    case Regular(instrs) =>
      FollowOutgoing(g.edges, c.pc, BlockBranch(env, instrs, c.st));
      FollowOutgoing(r.edges, c.pc, BlockBranch(env, instrs, c.st));
  }

  lemma {:induction false} FollowTwo(l: int, t: int, f: int)
    ensures Follow([Edge(l, t, TrueBranch), Edge(l, f, FalseBranch)], l, TrueBranch) == t
    ensures Follow([Edge(l, t, TrueBranch), Edge(l, f, FalseBranch)], l, FalseBranch) == f
    ensures Follow([Edge(l, t, Intraprocedural)], l, Intraprocedural) == t
  {
    var both := [Edge(l, t, TrueBranch), Edge(l, f, FalseBranch)];
    assert both[1..] == [both[1]];
  }

  lemma {:induction false} DecisionStep(env: Env, g: Graph, mid: Middles, lo: int, hi: int, r: Graph, c: Config)
    requires SplitOf(g, mid, lo, hi, r) && c.pc in g.vertices && IsDecision(g, c.pc)
    ensures StepAt(env, r, StepAt(env, r, c)) == StepAt(env, g, c)
  {
    var l, i := c.pc, g.vertices[c.pc].instrs[0];
    var m, t := BranchTaken(g, mid, lo, hi, r, l, Branch(env, i, c.st));
    BranchStep(env, g, l, i, c.st);
    BranchStep(env, r, l, i, c.st);
    MiddleStep(env, g, mid, lo, hi, r, l, m, t, c.st);
  }

  // Where a branch leads in both graphs.
  lemma {:induction false} BranchTaken(g: Graph, mid: Middles, lo: int, hi: int, r: Graph, l: int, kind: EdgeKind)
        returns (m: int, t: int)
    requires SplitOf(g, mid, lo, hi, r) && l in Decisions(g) && (kind == TrueBranch || kind == FalseBranch)
    ensures l in mid && lo <= m && (m == mid[l].positive || m == mid[l].negative)
    ensures Follow(g.edges, l, kind) == t && Follow(r.edges, l, kind) == m
    ensures Outgoing(r.edges, m) == [Edge(m, t, Intraprocedural)]
  {
    var positive, negative := MiddleBetween(g, mid, lo, hi, r, l);
    FollowOutgoing(g.edges, l, kind);
    FollowOutgoing(r.edges, l, kind);
    FollowTwo(l, positive, negative);
    FollowTwo(l, mid[l].positive, mid[l].negative);
    m, t := if kind == TrueBranch then mid[l].positive else mid[l].negative, if kind == TrueBranch then positive
          else negative;
  }

  // A decision leaves the state as it is.
  lemma {:induction false} BranchStep(env: Env, g: Graph, l: int, i: Instr, st: State)
    requires l in g.vertices && g.vertices[l] == Regular([i]) && i.IfGoto?
    ensures StepAt(env, g, Config(l, st)) == Config(Follow(g.edges, l, Branch(env, i, st)), st)
  {
    assert [i][1..] == [];
    assert RunBlock(env, [i], st) == RunBlock(env, [], Effect(env, i, st)) == st;
  }

  lemma {:induction false} MiddleStep(env: Env, g: Graph, mid: Middles, lo: int, hi: int, r: Graph, l: int, m: int,
        t: int, st: State)
    requires SplitOf(g, mid, lo, hi, r) && l in Decisions(g) && l in mid
            && (m == mid[l].positive || m == mid[l].negative)
    requires Outgoing(r.edges, m) == [Edge(m, t, Intraprocedural)] && lo <= m
    ensures StepAt(env, r, Config(m, st)) == Config(t, st)
  {
    assert l in Decisions(g) * g.vertices.Keys;
    assert IsMiddle(mid, Decisions(g) * g.vertices.Keys, m);
    assert m !in g.vertices && m in r.vertices && r.vertices[m] == Regular([]);
    assert RunBlock(env, [], st) == st;
    FollowOutgoing(r.edges, m, Intraprocedural);
    FollowTwo(m, t, 0);
    assert Follow(r.edges, m, Intraprocedural) == t;
    assert StepAt(env, r, Config(m, st)) == Config(Follow(r.edges, m, Intraprocedural), st);
  }

  // The split graph computes what the graph computes.
  lemma {:induction false} SplitPreservesRuns(env: Env, g: Graph, mid: Middles, lo: int, hi: int, r: Graph,
        st: State, t: State)
    requires SplitOf(g, mid, lo, hi, r)
    ensures Computes(env, r, st, t) <==> Computes(env, g, st, t)
  {
    var slow, fast := GraphStep(env, r), GraphStep(env, g);
    forall c: Config | OnOld(g)(c) ensures AcceleratesAt(slow, fast, OnOld(g), Stride(g), c) {
      StaysInside(env, g, c);
      assert Iterate(slow, c, 1) == Iterate(slow, slow(c), 0) == slow(c);
      if IsDecision(g, c.pc) {
        DecisionStep(env, g, mid, lo, hi, r, c);
        assert Iterate(slow, c, 2) == Iterate(slow, slow(c), 1) == Iterate(slow, slow(slow(c)), 0);
      } else {
        PlainStep(env, g, mid, lo, hi, r, c);
      }
    }
    SameResults(slow, fast, OnOld(g), Stride(g), Config(g.entry, st), Config(g.exit, t));
  }

  // ---------- paths ----------

  // Consecutive edges from one label to another.
  predicate IsPath(edges: seq<Edge>, p: seq<Edge>, from: int, to: int) {
    if p == [] then from == to
    else p[0] in edges && p[0].source == from && IsPath(edges, p[1..], p[0].target, to)
  }

  // The path over the intermediate vertices.
  function Expand(mid: Middles, p: seq<Edge>): seq<Edge>
    requires Known(mid, p)
  {
    Split(mid, p)
  }

  // The path without them: an edge to an intermediate vertex and the one behind it are one branch.
  function Erase(lo: int, q: seq<Edge>): seq<Edge> {
    if q == [] then []
    else if q[0].target >= lo && |q| > 1 then [Edge(q[0].source, q[1].target, q[0].kind)] + Erase(lo, q[2..])
    else [q[0]] + Erase(lo, q[1..])
  }

  lemma {:induction false} PathKnown(mid: Middles, edges: seq<Edge>, p: seq<Edge>, from: int, to: int)
    requires Known(mid, edges) && IsPath(edges, p, from, to)
    ensures Known(mid, p)
  {
    if p != [] {
      PathKnown(mid, edges, p[1..], p[0].target, to);
      forall e | e in p && IsBranch(e) ensures e.source in mid {
        assert e == p[0] || e in p[1..];
      }
    }
  }

  // A path of the graph becomes a path of the split graph, from which it can be read back.
  lemma {:induction false} PathExpanded(g: Graph, mid: Middles, lo: int, hi: int, r: Graph, p: seq<Edge>, from: int,
        to: int)
    requires SplitOf(g, mid, lo, hi, r) && IsPath(g.edges, p, from, to)
    ensures Known(mid, p) && IsPath(r.edges, Expand(mid, p), from, to) && Erase(lo, Expand(mid, p)) == p
  {
    PathKnown(mid, g.edges, p, from, to);
    MiddlesLieAbove(g, mid, lo, hi, r);
    if p != [] {
      PathExpanded(g, mid, lo, hi, r, p[1..], p[0].target, to);
      SplitKeeps(mid, g.edges, p[0], SplitEdge(mid, p[0])[0]);
      if IsBranch(p[0]) {
        SplitKeeps(mid, g.edges, p[0], SplitEdge(mid, p[0])[1]);
      }
      StepExpanded(mid, r.edges, lo, p, to);
    }
  }

  lemma {:induction false} StepExpanded(mid: Middles, edges: seq<Edge>, lo: int, p: seq<Edge>, to: int)
    requires p != [] && Known(mid, p) && Known(mid, p[1..]) && p[0].target < lo
            && (IsBranch(p[0]) ==> lo <= MiddleOf(mid, p[0]))
    requires forall d | d in SplitEdge(mid, p[0]) :: d in edges
    requires IsPath(edges, Expand(mid, p[1..]), p[0].target, to) && Erase(lo, Expand(mid, p[1..])) == p[1..]
    ensures IsPath(edges, Expand(mid, p), p[0].source, to) && Erase(lo, Expand(mid, p)) == p
  {
    var q, tail, halves := Expand(mid, p), Expand(mid, p[1..]), SplitEdge(mid, p[0]);
    if IsBranch(p[0]) {
      assert q[0] == halves[0] && q[1..] == [halves[1]] + tail && q[1..][1..] == tail && q[2..] == tail;
    } else {
      assert q[0] == p[0] && q[1..] == tail;
    }
  }

  // An edge of the split graph out of an old vertex is an old edge or the first half of a branch.
  lemma {:induction false} EdgeFromOld(g: Graph, mid: Middles, lo: int, hi: int, r: Graph, d: Edge) returns (e: Edge)
    requires SplitOf(g, mid, lo, hi, r) && d in r.edges && d.source < lo
    ensures e in g.edges && (IsBranch(e) ==> e.source in mid) && d == SplitEdge(mid, e)[0]
    ensures d.target >= lo <==> IsBranch(e)
  {
    MiddlesLieAbove(g, mid, lo, hi, r);
    e := SplitStems(mid, g.edges, d);
  }

  // Behind the first half of a branch comes its second half.
  lemma {:induction false} SecondHalf(g: Graph, mid: Middles, lo: int, hi: int, r: Graph, e: Edge, d: Edge)
    requires SplitOf(g, mid, lo, hi, r) && e in g.edges && IsBranch(e) && e.source in mid
    requires d in r.edges && d.source == MiddleOf(mid, e)
    ensures d == SplitEdge(mid, e)[1]
  {
    assert IsDecision(g, e.source) && e.source in Decisions(g);
    var t, f := MiddleBetween(g, mid, lo, hi, r, e.source);
    OutgoingComplete(g.edges, e);
    OutgoingComplete(r.edges, d);
  }

  // A path of the split graph between old vertices is the expansion of exactly one path of the graph.
  lemma {:induction false} PathErased(g: Graph, mid: Middles, lo: int, hi: int, r: Graph, q: seq<Edge>, from: int,
        to: int)
    requires SplitOf(g, mid, lo, hi, r) && IsPath(r.edges, q, from, to) && from < lo && to < lo
    ensures IsPath(g.edges, Erase(lo, q), from, to)
    ensures Known(mid, Erase(lo, q)) && Expand(mid, Erase(lo, q)) == q
    decreases |q|
  {
    if q != [] {
      MiddlesLieAbove(g, mid, lo, hi, r);
      var e := EdgeFromOld(g, mid, lo, hi, r, q[0]);
      assert e.target < lo;
      if IsBranch(e) {
        assert |q| > 1;
        SecondHalf(g, mid, lo, hi, r, e, q[1]);
        assert q[1..][1..] == q[2..] && q[1..][0] == q[1];
        PathErased(g, mid, lo, hi, r, q[2..], e.target, to);
        BranchErased(mid, g.edges, lo, e, q, from, to);
      } else {
        PathErased(g, mid, lo, hi, r, q[1..], e.target, to);
        EdgeErased(mid, g.edges, lo, e, q, from, to);
      }
    }
  }

  lemma {:induction false} BranchErased(mid: Middles, edges: seq<Edge>, lo: int, e: Edge, q: seq<Edge>, from: int,
        to: int)
    requires e in edges && IsBranch(e) && e.source in mid && e.source == from && |q| > 1
    requires q[0] == SplitEdge(mid, e)[0] && q[1] == SplitEdge(mid, e)[1] && q[0].target >= lo
    requires var rest := Erase(lo, q[2..]);
            IsPath(edges, rest, e.target, to) && Known(mid, rest) && Expand(mid, rest) == q[2..]
    ensures IsPath(edges, Erase(lo, q), from, to) && Known(mid, Erase(lo, q)) && Expand(mid, Erase(lo, q)) == q
  {
    var p, rest := Erase(lo, q), Erase(lo, q[2..]);
    assert p == [e] + rest && p[1..] == rest && p[0] == e;
    assert SplitEdge(mid, e) == [q[0], q[1]] && q == SplitEdge(mid, e) + q[2..];
  }

  lemma {:induction false} EdgeErased(mid: Middles, edges: seq<Edge>, lo: int, e: Edge, q: seq<Edge>, from: int,
        to: int)
    requires e in edges && !IsBranch(e) && e.source == from && q != [] && q[0] == e && e.target < lo
    requires var rest := Erase(lo, q[1..]);
            IsPath(edges, rest, e.target, to) && Known(mid, rest) && Expand(mid, rest) == q[1..]
    ensures IsPath(edges, Erase(lo, q), from, to) && Known(mid, Erase(lo, q)) && Expand(mid, Erase(lo, q)) == q
  {
    var p, rest := Erase(lo, q), Erase(lo, q[1..]);
    assert p == [e] + rest && p[1..] == rest && p[0] == e;
    assert q == SplitEdge(mid, e) + q[1..];
  }

  // Erasing the intermediate vertices is a bijection between the paths from entry to exit.
  lemma {:induction false} PathsCorrespond(g: Graph, mid: Middles, lo: int, hi: int, r: Graph)
    requires SplitOf(g, mid, lo, hi, r)
    ensures forall p | IsPath(g.edges, p, g.entry, g.exit) ::
              Known(mid, p) && IsPath(r.edges, Expand(mid, p), r.entry, r.exit) && Erase(lo, Expand(mid, p)) == p
    ensures forall q | IsPath(r.edges, q, r.entry, r.exit) ::
              IsPath(g.edges, Erase(lo, q), g.entry, g.exit) && Known(mid, Erase(lo, q))
                    && Expand(mid, Erase(lo, q)) == q
  {
    forall p | IsPath(g.edges, p, g.entry, g.exit)
      ensures Known(mid, p) && IsPath(r.edges, Expand(mid, p), r.entry, r.exit) && Erase(lo, Expand(mid, p)) == p
    {
      PathExpanded(g, mid, lo, hi, r, p, g.entry, g.exit);
    }
    forall q | IsPath(r.edges, q, r.entry, r.exit)
      ensures IsPath(g.edges, Erase(lo, q), g.entry, g.exit) && Known(mid, Erase(lo, q))
              && Expand(mid, Erase(lo, q)) == q
    {
      PathErased(g, mid, lo, hi, r, q, r.entry, r.exit);
    }
  }
}
