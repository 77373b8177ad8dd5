// What three-address code keeps of the instructions, apart from their expressions
// (ahorn/src/pass/tac/tac_pass.cpp).

module TacShape {
  import opened Ir
  import opened Cfg
  import opened Tac

  // The same instruction, but for the expression of an assignment or a condition.
  predicate SameButExpression(i: Instr, j: Instr) {
    match i
    case Assign(v, _) => j.Assign? && j.v == v
    case IfGoto(_, t, f) => j.IfGoto? && j.thenLabel == t && j.elseLabel == f
    case _ => j == i
  }

  lemma {:induction false} InstrKept(i: Instr, n: nat)
    requires Accepted(i)
    ensures var (ins, _) := TacInstr(i, n);
            && ins != [] && SameButExpression(i, ins[|ins| - 1])
            && forall k | 0 <= k < |ins| - 1 :: ins[k].Assign?
    ensures i.Call? || i.Havoc? ==> TacInstr(i, n).0 == [i]
  {
    match i
    case Assign(_, e) => TemporariesOnly(e, n);
    case IfGoto(e, _, _) => TemporariesOnly(e, n);
    case _ =>
  }

  lemma {:induction false} TemporariesOnly(e: Expr, n: nat)
    requires Encodable(e)
    ensures forall k | 0 <= k < |Flatten(e, n).ins| :: Flatten(e, n).ins[k].Assign?
    ensures var ins := HoistOperation(Flatten(e, n)).ins; forall k | 0 <= k < |ins| :: ins[k].Assign?
  {
    match e
    case BinaryExpression(op, left, right) =>
      TemporariesOnly(left, n);
      TemporariesOnly(right, HoistOperation(Flatten(left, n)).next);
    case UnaryExpression(op, operand) =>
      TemporariesOnly(operand, n);
    case _ =>
  }

  // What is left when the assignments are dropped: calls, havocs and branches, in order.
  function Skeleton(instrs: seq<Instr>): seq<Instr> {
    if instrs == [] then []
    else (if instrs[0].Assign? then [] else [instrs[0]]) + Skeleton(instrs[1..])
  }

  lemma {:induction false} SkeletonAppend(a: seq<Instr>, b: seq<Instr>)
    ensures Skeleton(a + b) == Skeleton(a) + Skeleton(b)
  {
    if a == [] {
      assert a + b == b;
    } else {
      assert (a + b)[0] == a[0] && (a + b)[1..] == a[1..] + b;
      SkeletonAppend(a[1..], b);
    }
  }

  lemma {:induction false} AssignsLeaveNothing(instrs: seq<Instr>)
    requires forall k | 0 <= k < |instrs| :: instrs[k].Assign?
    ensures Skeleton(instrs) == []
  {
    if instrs != [] {
      AssignsLeaveNothing(instrs[1..]);
    }
  }

  predicate SameSkeleton(a: seq<Instr>, b: seq<Instr>) {
    |a| == |b| && forall k | 0 <= k < |a| :: SameButExpression(a[k], b[k])
  }

  lemma {:induction false} InstrSkeleton(i: Instr, n: nat)
    requires Accepted(i)
    ensures SameSkeleton(Skeleton([i]), Skeleton(TacInstr(i, n).0))
  {
    var ins := TacInstr(i, n).0;
    InstrKept(i, n);
    var last := ins[|ins| - 1];
    assert ins == ins[..|ins| - 1] + [last];
    SkeletonAppend(ins[..|ins| - 1], [last]);
    AssignsLeaveNothing(ins[..|ins| - 1]);
    assert [last][1..] == [] && [i][1..] == [];
  }

  lemma {:induction false} BlockKept(instrs: seq<Instr>, n: nat)
    requires AcceptedBlock(instrs)
    ensures var ins := TacBlock(instrs, n).0;
            ins != [] && SameButExpression(instrs[|instrs| - 1], ins[|ins| - 1])
    ensures SameSkeleton(Skeleton(instrs), Skeleton(TacBlock(instrs, n).0))
  {
    var (a, n1) := TacInstr(instrs[0], n);
    var rest := instrs[1..];
    InstrKept(instrs[0], n);
    if rest == [] {
      assert a + [] == a;
    } else {
      var b := TacBlock(rest, n1).0;
      BlockKept(rest, n1);
      assert (a + b)[|a + b| - 1] == b[|b| - 1];
    }
    SkeletonKept(instrs, n);
  }

  lemma {:induction false} SkeletonKept(instrs: seq<Instr>, n: nat)
    requires forall i | 0 <= i < |instrs| :: Accepted(instrs[i])
    ensures SameSkeleton(Skeleton(instrs), Skeleton(TacBlock(instrs, n).0))
  {
    if instrs != [] {
      var (a, n1) := TacInstr(instrs[0], n);
      var rest := instrs[1..];
      InstrSkeleton(instrs[0], n);
      SkeletonKept(rest, n1);
      assert instrs == [instrs[0]] + rest;
      SkeletonAppend([instrs[0]], rest);
      SkeletonAppend(a, TacBlock(rest, n1).0);
      SkeletonsAppend(Skeleton([instrs[0]]), Skeleton(a), Skeleton(rest), Skeleton(TacBlock(rest, n1).0));
    }
  }

  lemma {:induction false} SkeletonsAppend(a: seq<Instr>, a': seq<Instr>, b: seq<Instr>, b': seq<Instr>)
    requires SameSkeleton(a, a') && SameSkeleton(b, b')
    ensures SameSkeleton(a + b, a' + b')
  {
  }

  // Calls, havocs and branches stay, in order and with all that they name; only the expressions of
  // assignments and conditions change, and the last instruction stays the last one.
  lemma {:induction false} VerticesKept(g: Graph, r: Graph, l: int)
    requires AcceptedGraph(g) && IsTacOf(g, r) && l in g.vertices
    ensures l in r.vertices && r.edges == g.edges
    ensures !g.vertices[l].Regular? ==> r.vertices[l] == g.vertices[l]
    ensures g.vertices[l].Regular? ==>
              && r.vertices[l].Regular?
              && var before, after := g.vertices[l].instrs, r.vertices[l].instrs;
              && before != [] && after != []
              && SameButExpression(before[|before| - 1], after[|after| - 1])
              && SameSkeleton(Skeleton(before), Skeleton(after))
  {
    if g.vertices[l].Regular? {
      var n: nat :| r.vertices[l] == Regular(TacBlock(g.vertices[l].instrs, n).0);
      BlockKept(g.vertices[l].instrs, n);
    }
  }

  // In a graph of single instructions, a call or a havoc is left as it is, and the rewritten code of an
  // IF ends in an IF whose labels are the targets of its true and its false edge.
  lemma {:induction false} BranchesKept(g: Graph, r: Graph, l: int)
    requires AcceptedGraph(g) && IsTacOf(g, r) && l in g.vertices && WellShaped(g) && g.vertices[l].Regular?
    ensures var i := g.vertices[l].instrs[0];
            && (i.Call? || i.Havoc? ==> r.vertices[l] == Regular([i]))
            && (i.IfGoto? ==>
                  && r.vertices[l].Regular? && r.vertices[l].instrs != []
                  && var j := r.vertices[l].instrs[|r.vertices[l].instrs| - 1];
                  && j.IfGoto? && j.thenLabel == i.thenLabel && j.elseLabel == i.elseLabel
                  && Edge(l, j.thenLabel, TrueBranch) in r.edges && Edge(l, j.elseLabel, FalseBranch) in r.edges)
  {
    assert VertexFits(g, l);
    var i := g.vertices[l].instrs[0];
    VerticesKept(g, r, l);
    var n: nat :| r.vertices[l] == Regular(TacBlock(g.vertices[l].instrs, n).0);
    assert g.vertices[l].instrs == [i] && [i][1..] == [];
    assert TacBlock([i], n).0 == TacInstr(i, n).0 + [] == TacInstr(i, n).0;
    var out := Outgoing(g.edges, l);
    if i.IfGoto? {
      assert out[0] in out && out[1] in out;
    }
  }

  // How many operations are moved to temporaries: those that are operands of a binary operator, and
  // binary ones below a unary operator.
  function Moved(e: Expr): nat {
    match e
    case BinaryExpression(_, l, r) =>
      Moved(l) + Moved(r) + (if l.BinaryExpression? || l.UnaryExpression? then 1 else 0)
      + (if r.BinaryExpression? || r.UnaryExpression? then 1 else 0)
    case UnaryExpression(_, a) => Moved(a) + if a.BinaryExpression? then 1 else 0
    case _ => 0
  }

  lemma {:induction false} FlattenCounts(e: Expr, n: nat)
    requires Encodable(e)
    ensures |Flatten(e, n).ins| == Moved(e) && Flatten(e, n).next == n + Moved(e)
    ensures (Flatten(e, n).e.BinaryExpression? <==> e.BinaryExpression?)
            && (Flatten(e, n).e.UnaryExpression? <==> e.UnaryExpression?)
  {
    match e
    case BinaryExpression(_, l, r) =>
      FlattenCounts(l, n);
      FlattenCounts(r, HoistOperation(Flatten(l, n)).next);
    case UnaryExpression(_, a) => FlattenCounts(a, n);
    case _ =>
  }

  // One temporary for each operation that is moved, and one more for a condition that is an operation;
  // a condition is left with a variable or a constant, and an assignment keeps its outermost operation.
  lemma {:induction false} CodeExactly(g: Graph, r: Graph, l: int)
    requires AcceptedGraph(g) && IsTacOf(g, r) && l in g.vertices && WellShaped(g) && g.vertices[l].Regular?
    ensures var i := g.vertices[l].instrs[0];
            && r.vertices[l].Regular? && r.vertices[l].instrs != []
            && var code := r.vertices[l].instrs;
            var j := code[|code| - 1];
            && (i.Assign? ==>
                  && |code| == Moved(i.e) + 1 && j.Assign? && j.v == i.v
                  && (j.e.BinaryExpression? <==> i.e.BinaryExpression?)
                  && (j.e.UnaryExpression? <==> i.e.UnaryExpression?))
            && (i.IfGoto? ==>
                  && |code| == Moved(i.ifCond) + 1
                               + (if i.ifCond.BinaryExpression? || i.ifCond.UnaryExpression? then 1 else 0)
                  && j.IfGoto? && !j.ifCond.BinaryExpression? && !j.ifCond.UnaryExpression?)
  {
    assert VertexFits(g, l);
    var i := g.vertices[l].instrs[0];
    var n: nat :| r.vertices[l] == Regular(TacBlock(g.vertices[l].instrs, n).0);
    assert g.vertices[l].instrs == [i] && [i][1..] == [];
    assert TacBlock([i], n).0 == TacInstr(i, n).0 + [] == TacInstr(i, n).0;
    assert Accepted(i);
    match i
    case Assign(_, e) => FlattenCounts(e, n);
    case IfGoto(e, _, _) => FlattenCounts(e, n);
    case _ =>
  }
}
