// What basic-block formation builds, in terms of edges and instructions alone
// (ahorn/src/pass/basic_block_pass.cpp).

module BlockShape {
  import opened Ir
  import opened Cfg
  import opened BasicBlocks

  // ---------- leaders ----------

  // An edge of the graph into l that always starts a block: from the entry, of a branch, or behind a call.
  predicate StartsBlock(g: Graph, e: Edge, l: int) {
    && e in g.edges && e.target == l && e.source in g.vertices
    && (e.source == g.entry || e.kind == TrueBranch || e.kind == FalseBranch || e.kind == CallToReturn)
  }

  predicate HoldsWhile(g: Graph, l: int) {
    l in g.vertices && g.vertices[l].Regular? && |g.vertices[l].instrs| == 1 && g.vertices[l].instrs[0].WhileGoto?
  }

  // The leaders are the entry, the exit, the loop headers, the labels that several edges lead to, and
  // those behind the entry, a branch or a call; nothing else is one.
  lemma {:induction false} LeadersExactly(g: Graph, leaders: set<int>, l: int)
    requires WellShaped(g) && AreLeaders(g, leaders)
    ensures l in leaders <==>
            && l in g.vertices
            && (|| l == g.entry || l == g.exit
                || (g.vertices[l].Regular? && |g.vertices[l].instrs| == 1 && g.vertices[l].instrs[0].WhileGoto?)
                || (exists i, j :: 0 <= i < j < |g.edges| && g.edges[i].target == l && g.edges[j].target == l)
                || (exists e :: e in g.edges && e.target == l && e.source in g.vertices
                      && (e.source == g.entry || e.kind.TrueBranch? || e.kind.FalseBranch? || e.kind.CallToReturn?)))
  {
    LeadersAre(g, leaders, l);
  }

  lemma {:induction false} LeadersAre(g: Graph, leaders: set<int>, l: int)
    requires WellShaped(g) && AreLeaders(g, leaders)
    ensures l in leaders <==>
            && l in g.vertices
            && (l == g.entry || l == g.exit || HoldsWhile(g, l) || SeveralInto(g.edges, l)
                || exists e {:trigger StartsBlock(g, e, l)} {:trigger e in g.edges} :: StartsBlock(g, e, l))
  {
    if l in g.vertices {
      assert VertexFits(g, l);
      IncomingCounts(g.edges, l);
      LedExactly(g, l);
    }
  }

  lemma {:induction false} LedExactly(g: Graph, l: int)
    requires WellShaped(g)
    ensures (exists p | p in g.vertices :: l in LeadersAfter(g, p)) <==> exists e :: StartsBlock(g, e, l)
  {
    if exists p | p in g.vertices :: l in LeadersAfter(g, p) {
      var p :| p in g.vertices && l in LeadersAfter(g, p);
      var e := LeadsThere(g, p, l);
    }
    if exists e :: StartsBlock(g, e, l) {
      var e :| StartsBlock(g, e, l);
      StartLeads(g, e, l);
    }
  }

  lemma {:induction false} LeadsThere(g: Graph, p: int, l: int) returns (e: Edge)
    requires WellShaped(g) && p in g.vertices && l in LeadersAfter(g, p)
    ensures StartsBlock(g, e, l)
  {
    assert VertexFits(g, p);
    var out := Outgoing(g.edges, p);
    e := if out[0].target == l && !out[0].kind.InterproceduralCall? then out[0] else out[1];
    assert e in out;
  }

  lemma {:induction false} StartLeads(g: Graph, e: Edge, l: int)
    requires WellShaped(g) && StartsBlock(g, e, l)
    ensures l in LeadersAfter(g, e.source)
  {
    assert VertexFits(g, e.source);
    OutgoingComplete(g.edges, e);
    var out := Outgoing(g.edges, e.source);
    assert e == out[0] || e == out[1];
  }

  // An instruction whose only edge in comes from an assignment or a havoc lies in the block of that
  // vertex, right behind it.
  lemma {:induction false} StaysInBlock(g: Graph, leaders: set<int>, blocks: map<int, seq<int>>, r: Graph, p: int,
        l: int, k: int, i: int)
    requires WellShaped(g) && AreLeaders(g, leaders) && IsBlockGraph(g, leaders, blocks, r)
    requires p in g.vertices && g.vertices[p].Regular? && |g.vertices[p].instrs| == 1
            && (g.vertices[p].instrs[0].Assign? || g.vertices[p].instrs[0].Havoc?)
    requires Edge(p, l, Intraprocedural) in g.edges
    requires forall i, j | 0 <= i < j < |g.edges| :: g.edges[i].target != l || g.edges[j].target != l
    requires l in g.vertices && g.vertices[l].Regular?
            && !(|g.vertices[l].instrs| == 1 && g.vertices[l].instrs[0].WhileGoto?)
    requires k in blocks && 0 <= i < |blocks[k]| && blocks[k][i] == p
    ensures i + 1 < |blocks[k]| && blocks[k][i + 1] == l
  {
    assert VertexFits(g, p) && VertexFits(g, l);
    var e := Edge(p, l, Intraprocedural);
    OutgoingComplete(g.edges, e);
    SimpleNext(g, p);
    assert Next(g, p) == l;
    LeadersAre(g, leaders, l);
    forall d ensures !StartsBlock(g, d, l) {
      if StartsBlock(g, d, l) { OnlyEdge(g.edges, d, e, l); }
    }
    assert BlockAt(g, leaders, blocks, r, k);
  }

  lemma {:induction false} OnlyEdge(edges: seq<Edge>, d: Edge, e: Edge, l: int)
    requires !SeveralInto(edges, l) && d in edges && e in edges && d.target == e.target == l
    ensures d == e
  {
    var i :| 0 <= i < |edges| && edges[i] == e;
    var j :| 0 <= j < |edges| && edges[j] == d;
    assert i < j || j < i ==> SeveralInto(edges, l);
  }

  // ---------- vertices and edges ----------

  // The vertex of a block holds the instructions of the vertices in it, one by one; entry and exit stay.
  lemma {:induction false} BlockVerticesExactly(g: Graph, leaders: set<int>, blocks: map<int, seq<int>>, r: Graph,
        k: int)
    requires WellShaped(g) && AreLeaders(g, leaders) && IsBlockGraph(g, leaders, blocks, r)
    ensures k in r.vertices <==> k in leaders
    ensures k in r.vertices ==> k in g.vertices && k in blocks
    ensures k in r.vertices && !g.vertices[k].Regular? ==> r.vertices[k] == g.vertices[k]
    ensures k in r.vertices && g.vertices[k].Regular? ==>
              && r.vertices[k].Regular? && |r.vertices[k].instrs| == |blocks[k]|
              && forall i | 0 <= i < |blocks[k]| ::
                   blocks[k][i] in g.vertices && g.vertices[blocks[k][i]] == Regular([r.vertices[k].instrs[i]])
  {
    if k in leaders {
      assert BlockAt(g, leaders, blocks, r, k) && IsLeader(g, k);
      if g.vertices[k].Regular? {
        forall i | 0 <= i < |blocks[k]|
          ensures blocks[k][i] in g.vertices && g.vertices[blocks[k][i]] == Regular([r.vertices[k].instrs[i]])
        {
          assert VertexFits(g, blocks[k][i]) && InstrAt(g, blocks[k][i]).Some?;
        }
      }
    }
  }

  // The edges from vertices of the graph are those of the last vertices of the blocks, leaving from the
  // first ones.
  lemma {:induction false} BlockEdgesExactly(g: Graph, leaders: set<int>, blocks: map<int, seq<int>>, r: Graph,
        e: Edge)
    requires WellShaped(g) && CallsReturn(g) && AreLeaders(g, leaders) && IsBlockGraph(g, leaders, blocks, r)
    requires e.source in g.vertices
    ensures e in r.edges <==>
            && e.source in blocks && blocks[e.source] != []
            && Edge(blocks[e.source][|blocks[e.source]| - 1], e.target, e.kind) in g.edges
  {
    var k := e.source;
    if k in blocks {
      assert BlockAt(g, leaders, blocks, r, k);
      LastEdge(g, blocks[k], Outgoing(r.edges, k), e);
      if e in r.edges { OutgoingComplete(r.edges, e); }
    } else if e in r.edges {
      var l :| l in blocks && blocks[l] != [] && e in Returns(g, blocks[l]);
      assert BlockAt(g, leaders, blocks, r, l);
      ReturnsOutside(g, blocks[l], e);
    }
  }

  lemma {:induction false} LastEdge(g: Graph, labels: seq<int>, out: seq<Edge>, e: Edge)
    requires labels != [] && out == From(Outgoing(g.edges, labels[|labels| - 1]), labels[0]) && e.source == labels[0]
    ensures e in out <==> Edge(labels[|labels| - 1], e.target, e.kind) in g.edges
  {
    var last := labels[|labels| - 1];
    var inner, d := Outgoing(g.edges, last), Edge(last, e.target, e.kind);
    if d in g.edges {
      OutgoingComplete(g.edges, d);
      var i :| 0 <= i < |inner| && inner[i] == d;
      assert out[i] == e;
    }
    if e in out {
      var i :| 0 <= i < |out| && out[i] == e;
      assert inner[i] == d && inner[i] in inner;
    }
  }

  lemma {:induction false} ReturnsOutside(g: Graph, labels: seq<int>, e: Edge)
    requires CallsReturn(g) && labels != [] && e in Returns(g, labels)
    ensures e.source !in g.vertices
  {
    var last := labels[|labels| - 1];
    assert ReturnsAt(g, last);
  }

  // d is the first edge of the graph that returns to `site`.
  predicate FirstReturn(g: Graph, site: int, d: Edge) {
    exists i :: 0 <= i < |g.edges| && g.edges[i] == d && IsReturn(d, site) && NoReturn(g.edges, site, i)
  }

  predicate IsReturn(e: Edge, site: int) {
    e.kind.InterproceduralReturn? && e.target == site
  }

  predicate NoReturn(edges: seq<Edge>, site: int, n: int)
    requires 0 <= n <= |edges|
  {
    forall j | 0 <= j < n :: !IsReturn(edges[j], site)
  }

  lemma {:induction false} ReturnEdgeIsFirst(edges: seq<Edge>, site: int) returns (i: nat)
    requires ReturnEdge(edges, site).Some?
    ensures i < |edges| && edges[i] == ReturnEdge(edges, site).value && IsReturn(edges[i], site)
    ensures NoReturn(edges, site, i)
  {
    if IsReturn(edges[0], site) {
      i := 0;
    } else {
      var k := ReturnEdgeIsFirst(edges[1..], site);
      i := k + 1;
      forall j | 0 <= j < i ensures !IsReturn(edges[j], site) {
        if j > 0 { assert edges[1..][j - 1] == edges[j]; }
      }
    }
  }

  // The edges from outside are those of the blocks that end in a call: the first edge that returns to
  // the call's return site, which names the call for a block of one instruction and the block's leader
  // for a longer one.
  lemma {:induction false} ReturnEdgesExactly(g: Graph, leaders: set<int>, blocks: map<int, seq<int>>, r: Graph,
        e: Edge)
    requires WellShaped(g) && CallsReturn(g) && AreLeaders(g, leaders) && IsBlockGraph(g, leaders, blocks, r)
    requires e.source !in g.vertices
    ensures e in r.edges <==>
            exists k, j ::
              && k in blocks && blocks[k] != [] && 0 <= j < |g.edges|
              && blocks[k][|blocks[k]| - 1] in g.vertices
              && var v, d := g.vertices[blocks[k][|blocks[k]| - 1]], g.edges[j];
              && v.Regular? && |v.instrs| == 1 && v.instrs[0].Call?
              && d.kind.InterproceduralReturn? && d.target == v.instrs[0].intraprocedural
              && (forall i | 0 <= i < j :: !(g.edges[i].kind.InterproceduralReturn? && g.edges[i].target == d.target))
              && e == Edge(d.source, d.target,
                           InterproceduralReturn(d.kind.caller, if |blocks[k]| == 1 then d.kind.callLabel else k))
  {
    ReturnEdgesAre(g, leaders, blocks, r, e);
    if exists k, d :: ReturnsFor(g, blocks, k, d, e) {
      var k, d :| ReturnsFor(g, blocks, k, d, e);
      var site := g.vertices[blocks[k][|blocks[k]| - 1]].instrs[0].intraprocedural;
      var j :| 0 <= j < |g.edges| && g.edges[j] == d && IsReturn(d, site) && NoReturn(g.edges, site, j);
      assert g.edges[j] == d && k in blocks;
    }
    forall k, j | k in blocks && blocks[k] != [] && 0 <= j < |g.edges|
      ensures NamedFirst(g, blocks, k, j, e) ==> ReturnsFor(g, blocks, k, g.edges[j], e)
    {
      if NamedFirst(g, blocks, k, j, e) {
        assert NoReturn(g.edges, g.edges[j].target, j);
        assert FirstReturn(g, g.edges[j].target, g.edges[j]);
      }
    }
  }

  // The edge at position j is the first one that returns to the call at the end of block k, and e is
  // what the block makes of it.
  predicate NamedFirst(g: Graph, blocks: map<int, seq<int>>, k: int, j: int, e: Edge) {
    && k in blocks && blocks[k] != [] && 0 <= j < |g.edges|
    && blocks[k][|blocks[k]| - 1] in g.vertices
    && var v, d := g.vertices[blocks[k][|blocks[k]| - 1]], g.edges[j];
    && v.Regular? && |v.instrs| == 1 && v.instrs[0].Call?
    && d.kind.InterproceduralReturn? && d.target == v.instrs[0].intraprocedural
    && (forall i | 0 <= i < j :: !(g.edges[i].kind.InterproceduralReturn? && g.edges[i].target == d.target))
    && e == Edge(d.source, d.target,
                 InterproceduralReturn(d.kind.caller, if |blocks[k]| == 1 then d.kind.callLabel else k))
  }

  lemma {:induction false} ReturnEdgesAre(g: Graph, leaders: set<int>, blocks: map<int, seq<int>>, r: Graph,
        e: Edge)
    requires WellShaped(g) && CallsReturn(g) && AreLeaders(g, leaders) && IsBlockGraph(g, leaders, blocks, r)
    requires e.source !in g.vertices
    ensures e in r.edges <==> exists k, d :: ReturnsFor(g, blocks, k, d, e)
  {
    if e in r.edges {
      assert blocks.Keys <= g.vertices.Keys by {
        forall k | k in blocks ensures k in g.vertices { assert IsLeader(g, k); }
      }
      var k :| k in blocks && blocks[k] != [] && e in Returns(g, blocks[k]);
      var d := ReturnsFirst(g, leaders, blocks, r, k, e);
    }
    if exists k, d :: ReturnsFor(g, blocks, k, d, e) {
      var k, d :| ReturnsFor(g, blocks, k, d, e);
      FirstReturns(g, leaders, blocks, r, k, d, e);
    }
  }

  ghost predicate ReturnsFor(g: Graph, blocks: map<int, seq<int>>, k: int, d: Edge, e: Edge) {
    && k in blocks && blocks[k] != []
    && var last := blocks[k][|blocks[k]| - 1];
    && last in g.vertices && g.vertices[last].Regular? && |g.vertices[last].instrs| == 1
    && var i := g.vertices[last].instrs[0];
    && i.Call? && FirstReturn(g, i.intraprocedural, d)
    && e.source == d.source && e.target == i.intraprocedural && e.kind.InterproceduralReturn?
    && e.kind.caller == d.kind.caller && e.kind.callLabel == if |blocks[k]| == 1 then d.kind.callLabel else k
  }

  lemma {:induction false} ReturnsFirst(g: Graph, leaders: set<int>, blocks: map<int, seq<int>>, r: Graph, k: int,
        e: Edge)
      returns (d: Edge)
    requires WellShaped(g) && IsBlockGraph(g, leaders, blocks, r)
    requires k in blocks && blocks[k] != [] && e in Returns(g, blocks[k])
    ensures ReturnsFor(g, blocks, k, d, e)
  {
    assert BlockAt(g, leaders, blocks, r, k);
    var last := blocks[k][|blocks[k]| - 1];
    var site := Follow(g.edges, last, CallToReturn);
    CallSiteIs(g, last);
    d := ReturnEdge(g.edges, site).value;
    var i := ReturnEdgeIsFirst(g.edges, site);
  }

  lemma {:induction false} FirstReturns(g: Graph, leaders: set<int>, blocks: map<int, seq<int>>, r: Graph, k: int,
        d: Edge, e: Edge)
    requires WellShaped(g) && CallsReturn(g) && IsBlockGraph(g, leaders, blocks, r) && ReturnsFor(g, blocks, k, d, e)
    ensures e in r.edges
  {
    assert k in leaders && BlockAt(g, leaders, blocks, r, k);
    var last := blocks[k][|blocks[k]| - 1];
    var site := g.vertices[last].instrs[0].intraprocedural;
    CallSiteIs(g, last);
    assert ReturnsAt(g, last);
    var i := ReturnEdgeIsFirst(g.edges, site);
    var j :| 0 <= j < |g.edges| && g.edges[j] == d && IsReturn(d, site) && NoReturn(g.edges, site, j);
    assert i == j;
    assert e in Returns(g, blocks[k]);
  }

  // The call-to-return edge leads to the label that the call names.
  lemma {:induction false} CallSiteIs(g: Graph, l: int)
    requires WellShaped(g) && InstrAt(g, l).Some? && InstrAt(g, l).value.Call?
    ensures Follow(g.edges, l, CallToReturn) == g.vertices[l].instrs[0].intraprocedural
  {
    assert VertexFits(g, l);
    FollowOutgoing(g.edges, l, CallToReturn);
    var out := Outgoing(g.edges, l);
    assert out[1..] == [out[1]];
    assert Follow(out, l, CallToReturn) == Follow([out[1]], l, CallToReturn);
    assert out[1] in out;
  }
}
