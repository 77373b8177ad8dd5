// In which order labels are executed and merged in one cycle: labels increase along every edge, so
// every label is executed at most once and every merge point is merged at most once
// (ahorn/src/se/ahorn/engine.cpp:176-245, ahorn/src/se/ahorn/merger.cpp:80-120).

module Scheduling {
  import opened Ir
  import opened Cfg
  import opened Symbolic
  import opened Execution
  import opened Merging
  import opened Merger
  import opened Exploration

  ghost predicate PredsDone(g: Graph, executed: set<int>, l: int) {
    forall e | e in g.edges && e.target == l :: e.source in executed
  }

  // A label in the explorer was not executed yet; it was just merged, or all edges into it were taken.
  ghost predicate Ready(g: Graph, executed: set<int>, floor: int, l: int) {
    && l in g.vertices && l !in executed && floor <= l
    && (Joins(g, l) ==> l == floor)
    && (!Joins(g, l) && l != g.entry ==> PredsDone(g, executed, l))
  }

  ghost predicate Executed(g: Graph, executed: set<int>, floor: int, l: int) {
    && l in g.vertices && (Joins(g, l) ==> l <= floor)
    && (!Joins(g, l) && l != g.entry ==> PredsDone(g, executed, l))
  }

  ghost predicate DistinctLabels(contexts: seq<Context>) {
    forall i, j | 0 <= i < j < |contexts| :: contexts[i].vertexLabel != contexts[j].vertexLabel
  }

  // floor is the label that was merged last; all waiting contexts are behind it.
  ghost predicate Scheduled(g: Graph, contexts: seq<Context>, queues: Queues, executed: set<int>, floor: int) {
    && g.entry <= floor && DistinctLabels(contexts)
    && (forall i | 0 <= i < |contexts| :: Ready(g, executed, floor, contexts[i].vertexLabel))
    && (forall mp | mp in queues && queues[mp] != [] :: floor < mp.vertexLabel)
    && (forall l {:trigger Executed(g, executed, floor, l)} | l in executed :: Executed(g, executed, floor, l))
  }

  // The queues are those of the merge points, and contexts wait at their own label.
  ghost predicate QueuesFit(g: Graph, frame: CallFrame, queues: Queues) {
    && (forall mp :: mp in queues <==>
            Joins(g, mp.vertexLabel) && mp == MergePoint(frame.scope, frame.depth, mp.vertexLabel, frame.returnLabel))
    && forall mp, i | mp in queues && 0 <= i < |queues[mp]| :: PointOf(queues[mp][i]) == mp
          && queues[mp][i].frame == frame
  }

  ghost predicate Framed(contexts: seq<Context>, frame: CallFrame) {
    forall i | 0 <= i < |contexts| :: contexts[i].frame == frame
  }

  // ---------- the live contexts ----------

  ghost function Waiting(queues: Queues, c: Context): nat {
    if PointOf(c) in queues then multiset(queues[PointOf(c)])[c] else 0
  }

  ghost predicate LiveIs(live: multiset<Context>, contexts: seq<Context>, queues: Queues) {
    forall c :: live[c] == multiset(contexts)[c] + Waiting(queues, c)
  }

  function Without(contexts: seq<Context>, i: nat): seq<Context>
    requires i < |contexts|
  {
    contexts[..i] + contexts[i + 1..]
  }

  lemma {:induction false} PopLive(live: multiset<Context>, contexts: seq<Context>, queues: Queues, i: nat)
    requires LiveIs(live, contexts, queues) && i < |contexts|
    ensures contexts[i] in live && LiveIs(live - multiset{contexts[i]}, Without(contexts, i), queues)
    ensures live == live - multiset{contexts[i]} + multiset{contexts[i]}
  {
    var c := contexts[i];
    assert contexts == contexts[..i] + [c] + contexts[i + 1..];
    assert multiset(contexts) == multiset(Without(contexts, i)) + multiset{c};
    assert multiset(contexts)[c] >= 1;
    assert live[c] >= 1;
  }

  lemma {:induction false} PushExplorer(live: multiset<Context>, contexts: seq<Context>, queues: Queues, d: Context)
    requires LiveIs(live, contexts, queues)
    ensures LiveIs(live + multiset{d}, contexts + [d], queues)
  {
  }

  lemma {:induction false} PushQueue(live: multiset<Context>, contexts: seq<Context>, queues: Queues, d: Context)
    requires LiveIs(live, contexts, queues) && PointOf(d) in queues
    ensures LiveIs(live + multiset{d}, contexts, queues[PointOf(d) := queues[PointOf(d)] + [d]])
  {
    var queues' := queues[PointOf(d) := queues[PointOf(d)] + [d]];
    forall c ensures (live + multiset{d})[c] == multiset(contexts)[c] + Waiting(queues', c) {
      assert live[c] == multiset(contexts)[c] + Waiting(queues, c);
    }
  }

  lemma {:induction false} DrainQueue(g: Graph, frame: CallFrame, live: multiset<Context>, queues: Queues,
        mp: MergePoint, m: Context)
    requires LiveIs(live, [], queues) && QueuesFit(g, frame, queues) && mp in queues
    ensures multiset(queues[mp]) <= live
    ensures live == live - multiset(queues[mp]) + multiset(queues[mp])
    ensures LiveIs(live - multiset(queues[mp]) + multiset{m}, [m], queues[mp := []])
  {
    var cs := queues[mp];
    forall c ensures multiset(cs)[c] <= live[c] && (c in cs ==> PointOf(c) == mp) {
      assert live[c] == multiset([])[c] + Waiting(queues, c);
      if c in cs {
        var i :| 0 <= i < |cs| && cs[i] == c;
      } else {
        assert multiset(cs)[c] == 0;
      }
    }
    forall c ensures (live - multiset(cs) + multiset{m})[c] == multiset([m])[c] + Waiting(queues[mp := []], c) {
      assert live[c] == multiset([])[c] + Waiting(queues, c);
      if c !in cs { assert multiset(cs)[c] == 0; }
    }
  }

  // ---------- executing a label ----------

  // Every edge is one of a branch or of an assignment.
  lemma {:induction false} EdgesPlain(g: Graph, vars: set<string>, e: Edge)
    requires Executable(g, vars) && e in g.edges
    ensures PlainEdge(e)
  {
    OutgoingComplete(g.edges, e);
    assert VertexFits(g, e.source);
    var out := Outgoing(g.edges, e.source);
    var i :| 0 <= i < |out| && out[i] == e;
    match g.vertices[e.source]
    case EntryVertex =>
    case Regular(instrs) => assert InstructionsOk(g.vertices[e.source].instrs, vars);
  }

  lemma {:induction false} TwoIncoming(edges: seq<Edge>, a: Edge, b: Edge)
    requires a in edges && b in edges && a != b && a.target == b.target
    ensures |Incoming(edges, a.target)| > 1
  {
    var incoming := Incoming(edges, a.target);
    IncomingComplete(edges, a);
    IncomingComplete(edges, b);
    var i :| 0 <= i < |incoming| && incoming[i] == a;
    var j :| 0 <= j < |incoming| && incoming[j] == b;
  }

  lemma {:induction false} TwoEdgesJoin(g: Graph, vars: set<string>, a: Edge, b: Edge)
    requires Executable(g, vars) && a in g.edges && b in g.edges && a != b && a.target == b.target
            && a.target != g.entry
    ensures Joins(g, a.target)
  {
    TwoIncoming(g.edges, a, b);
    forall e | e in Incoming(g.edges, a.target) ensures PlainEdge(e) { EdgesPlain(g, vars, e); }
    assert VertexFits(g, a.target);
  }

  // Taking a label out of the explorer to execute it.
  lemma {:induction false} PopScheduled(g: Graph, contexts: seq<Context>, queues: Queues, executed: set<int>,
        floor: int, i: nat)
    requires Scheduled(g, contexts, queues, executed, floor) && i < |contexts|
    ensures Scheduled(g, Without(contexts, i), queues, executed + {contexts[i].vertexLabel}, floor)
  {
    var l, rest := contexts[i].vertexLabel, Without(contexts, i);
    var executed' := executed + {l};
    forall j | 0 <= j < |rest| ensures Ready(g, executed', floor, rest[j].vertexLabel) {
      var k := if j < i then j else j + 1;
      assert rest[j] == contexts[k] && Ready(g, executed, floor, contexts[k].vertexLabel);
      assert contexts[k].vertexLabel != l;
    }
    forall j, k | 0 <= j < k < |rest| ensures rest[j].vertexLabel != rest[k].vertexLabel {
      var j', k' := if j < i then j else j + 1, if k < i then k else k + 1;
      assert rest[j] == contexts[j'] && rest[k] == contexts[k'];
    }
    forall k | k in executed' ensures Executed(g, executed', floor, k) {
      if k != l { assert Executed(g, executed, floor, k); }
            else { assert Ready(g, executed, floor, contexts[i].vertexLabel); }
    }
  }

  // A label that is not a merge point has one edge into it, so it is reached only once.
  lemma {:induction false} SuccessorFresh(g: Graph, vars: set<string>, contexts: seq<Context>, queues: Queues,
        executed: set<int>, floor: int, e: Edge)
    requires Executable(g, vars) && Scheduled(g, contexts, queues, executed, floor)
    requires e in g.edges && e.source !in executed && floor <= e.source && !Joins(g, e.target)
    ensures e.target !in executed + {e.source} && e.target != g.entry
    ensures forall j | 0 <= j < |contexts| :: contexts[j].vertexLabel != e.target
    ensures PredsDone(g, executed + {e.source}, e.target)
  {
    var l := e.target;
    assert l in executed ==> Executed(g, executed, floor, l);
    forall j | 0 <= j < |contexts| ensures contexts[j].vertexLabel != l {
      assert Ready(g, executed, floor, contexts[j].vertexLabel);
    }
    forall a | a in g.edges && a.target == l ensures a.source in executed + {e.source} {
      if a != e { TwoEdgesJoin(g, vars, a, e); }
    }
  }

  // Where a context goes that the executor returns.
  function PushedContexts(contexts: seq<Context>, queues: Queues, d: Context): seq<Context> {
    if PointOf(d) in queues then contexts else contexts + [d]
  }

  function PushedQueues(queues: Queues, d: Context): Queues {
    if PointOf(d) in queues then queues[PointOf(d) := queues[PointOf(d)] + [d]] else queues
  }

  lemma {:induction false} PushedLive(live: multiset<Context>, contexts: seq<Context>, queues: Queues, d: Context)
    requires LiveIs(live, contexts, queues)
    ensures LiveIs(live + multiset{d}, PushedContexts(contexts, queues, d), PushedQueues(queues, d))
  {
    if PointOf(d) in queues {
      PushQueue(live, contexts, queues, d);
    } else {
      PushExplorer(live, contexts, queues, d);
    }
  }

  lemma {:induction false} PushedFit(g: Graph, frame: CallFrame, contexts: seq<Context>, queues: Queues, d: Context)
    requires QueuesFit(g, frame, queues) && Framed(contexts, frame) && d.frame == frame
    ensures QueuesFit(g, frame, PushedQueues(queues, d)) && Framed(PushedContexts(contexts, queues, d), frame)
    ensures PointOf(d) in queues <==> Joins(g, d.vertexLabel)
  {
    assert PointOf(d) in queues <==> Joins(g, d.vertexLabel);
    if PointOf(d) in queues {
      var q := queues[PointOf(d)] + [d];
      forall i | 0 <= i < |q| ensures PointOf(q[i]) == PointOf(d) && q[i].frame == frame {
        if i < |queues[PointOf(d)]| { assert q[i] == queues[PointOf(d)][i]; }
      }
    }
  }

  // executed includes the label that d comes from.
  lemma {:induction false} PushedScheduled(g: Graph, frame: CallFrame, contexts: seq<Context>, queues: Queues,
        executed: set<int>, floor: int, d: Context)
    requires Scheduled(g, contexts, queues, executed, floor) && QueuesFit(g, frame, queues) && d.frame == frame
    requires d.vertexLabel in g.vertices && floor < d.vertexLabel
    requires !Joins(g, d.vertexLabel) ==>
               && d.vertexLabel !in executed && PredsDone(g, executed, d.vertexLabel)
               && forall j | 0 <= j < |contexts| :: contexts[j].vertexLabel != d.vertexLabel
    ensures Scheduled(g, PushedContexts(contexts, queues, d), PushedQueues(queues, d), executed, floor)
  {
    assert PointOf(d) in queues <==> Joins(g, d.vertexLabel);
    if PointOf(d) !in queues {
      var pushed := contexts + [d];
      forall j | 0 <= j < |pushed| ensures Ready(g, executed, floor, pushed[j].vertexLabel) {
        if j < |contexts| { assert Ready(g, executed, floor, contexts[j].vertexLabel); }
      }
    }
  }

  // ---------- merging ----------

  // The merge point with the lowest label comes first, and it comes after those merged before.
  lemma {:induction false} MergeScheduled(g: Graph, frame: CallFrame, queues: Queues, executed: set<int>, floor: int,
        mp: MergePoint, m: Context)
    requires Scheduled(g, [], queues, executed, floor) && QueuesFit(g, frame, queues)
    requires mp in queues && queues[mp] != [] && m.vertexLabel == mp.vertexLabel
    requires forall p | p in queues && queues[p] != [] :: !Before(p, mp)
    ensures floor < mp.vertexLabel && Scheduled(g, [m], queues[mp := []], executed, mp.vertexLabel)
  {
    forall p | p in queues && p != mp && queues[p] != [] ensures mp.vertexLabel < p.vertexLabel {
      assert p == MergePoint(frame.scope, frame.depth, p.vertexLabel, frame.returnLabel);
      assert mp == MergePoint(frame.scope, frame.depth, mp.vertexLabel, frame.returnLabel);
    }
    forall l | l in executed ensures Executed(g, executed, mp.vertexLabel, l) && l != mp.vertexLabel {
      assert Executed(g, executed, floor, l);
    }
  }

  // ---------- the exit ----------

  function Above(g: Graph, l: int): set<int> {
    set k | k in g.vertices && k > l
  }

  // No label lies behind the exit.
  lemma {:induction false} ExitIsLast(g: Graph, vars: set<string>, l: int)
    requires Executable(g, vars) && l in g.vertices
    ensures l <= g.exit
    decreases Above(g, l)
  {
    if l != g.exit {
      assert VertexFits(g, l);
      var out := Outgoing(g.edges, l);
      if g.vertices[l].Regular? { assert InstructionsOk(g.vertices[l].instrs, vars); }
      assert out[0] in out;
      var next := out[0].target;
      assert next in Above(g, l) && next !in Above(g, next);
      assert Above(g, next) <= Above(g, l);
      ExitIsLast(g, vars, next);
    }
  }

  // When the exit is executed, no other context is left.
  lemma {:induction false} ExitAlone(g: Graph, vars: set<string>, frame: CallFrame, live: multiset<Context>,
        contexts: seq<Context>, queues: Queues, executed: set<int>, floor: int, i: nat)
    requires Executable(g, vars) && Scheduled(g, contexts, queues, executed, floor) && QueuesFit(g, frame, queues)
            && LiveIs(live, contexts, queues)
    requires i < |contexts| && contexts[i].vertexLabel == g.exit
    ensures contexts == [contexts[i]] && (forall mp | mp in queues :: queues[mp] == []) && live == multiset{contexts[i]}
  {
    assert |contexts| > 1 ==> contexts[0].vertexLabel != contexts[1].vertexLabel;
    assert Ready(g, executed, floor, contexts[i].vertexLabel) && Joins(g, g.exit);
    forall j | 0 <= j < |contexts| ensures contexts[j].vertexLabel == g.exit {
      assert Ready(g, executed, floor, contexts[j].vertexLabel);
      ExitIsLast(g, vars, contexts[j].vertexLabel);
    }
    forall mp | mp in queues ensures queues[mp] == [] {
      if queues[mp] != [] {
        ExitIsLast(g, vars, mp.vertexLabel);
        assert false;
      }
    }
    forall c ensures live[c] == multiset{contexts[i]}[c] {
      assert live[c] == multiset(contexts)[c] + Waiting(queues, c);
    }
  }
}
