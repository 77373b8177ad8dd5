// Statement and branch coverage of the exploration, and the test cases it asks for
// (ahorn/src/se/experimental/explorer.cpp, ahorn/src/se/experimental/engine.cpp).

module Coverage {
  import opened Ir
  import opened Cfg
  import opened DecisionSplitting

  // A branch of a decision: its label, and whether it is the true branch.
  datatype BranchId = BranchId(at: int, positive: bool)

  datatype Pair = Pair(positive: bool, negative: bool)

  function Statements(covered: map<int, bool>): set<int> {
    set l | l in covered && covered[l]
  }

  function BothBranches(decisions: set<int>): set<BranchId> {
    (set l | l in decisions :: BranchId(l, true)) + (set l | l in decisions :: BranchId(l, false))
  }

  lemma {:induction false} InBoth(decisions: set<int>, b: BranchId)
    ensures b in BothBranches(decisions) <==> b.at in decisions
  {
    var yes, no := BranchId(b.at, true), BranchId(b.at, false);
    assert b == if b.positive then yes else no;
    if b.at in decisions {
      assert yes in BothBranches(decisions) && no in BothBranches(decisions);
    }
  }

  function Branches(covered: map<int, Pair>): set<BranchId> {
    set b | b in BothBranches(covered.Keys) && IsCovered(covered, b)
  }

  predicate IsCovered(covered: map<int, Pair>, b: BranchId) {
    b.at in covered && if b.positive then covered[b.at].positive else covered[b.at].negative
  }

  lemma {:induction false} BranchesAre(covered: map<int, Pair>, b: BranchId)
    ensures b in Branches(covered) <==> IsCovered(covered, b)
  {
    InBoth(covered.Keys, b);
  }

  // Covered branches are those whose own flag is set, covered statements likewise.
  lemma {:induction false} FlagsExactly(statements: map<int, bool>, branches: map<int, Pair>, l: int)
    ensures l in Statements(statements) <==> l in statements && statements[l]
    ensures BranchId(l, true) in Branches(branches) <==> l in branches && branches[l].positive
    ensures BranchId(l, false) in Branches(branches) <==> l in branches && branches[l].negative
  {
    BranchesAre(branches, BranchId(l, true));
    BranchesAre(branches, BranchId(l, false));
  }

  // The branches whose edge leads from the label to the next one.
  function Taken(edges: seq<Edge>, l: int, next: int): set<BranchId> {
    if edges == [] then {}
    else
      var e := edges[0];
      (if e.source == l && e.target == next && IsBranch(e) then {BranchId(l, e.kind.TrueBranch?)}
            else {}) + Taken(edges[1..], l, next)
  }

  lemma {:induction false} TakenSnoc(edges: seq<Edge>, e: Edge, l: int, next: int)
    ensures Taken(edges + [e], l, next) ==
            Taken(edges, l, next) + if e.source == l && e.target == next && IsBranch(e)
                  then {BranchId(l, e.kind.TrueBranch?)} else {}
  {
    if edges == [] {
      assert edges + [e] == [e] && [e][1..] == [];
    } else {
      assert (edges + [e])[1..] == edges[1..] + [e];
      TakenSnoc(edges[1..], e, l, next);
    }
  }

  function Mark(covered: map<int, Pair>, l: int, positive: bool): map<int, Pair>
    requires l in covered
  {
    covered[l := if positive then covered[l].(positive := true) else covered[l].(negative := true)]
  }

  lemma {:induction false} Marked(covered: map<int, Pair>, l: int, positive: bool)
    requires l in covered
    ensures Branches(Mark(covered, l, positive)) == Branches(covered) + {BranchId(l, positive)}
  {
    var after := Mark(covered, l, positive);
    forall b: BranchId ensures b in Branches(after) <==> b in Branches(covered) + {BranchId(l, positive)} {
      BranchesAre(after, b);
      BranchesAre(covered, b);
    }
  }

  class Explorer {
    var coveredStatements: map<int, bool>
    var coveredBranches: map<int, Pair>
    var statementCoverage: nat   // how many are covered; the number of all of them is fixed
    var branchCoverage: nat

    ghost predicate Valid()
      reads this
    {
      statementCoverage == |Statements(coveredStatements)| && branchCoverage == |Branches(coveredBranches)|
    }

    // A step from one label to the next. The flags say whether something new was covered.
    method UpdateCoverage(g: Graph, l: int, next: int) returns (newStatement: bool, newBranch: bool)
      requires Valid() && l in coveredStatements && (Taken(g.edges, l, next) != {} ==> l in coveredBranches)
      modifies this
      ensures Valid()
      ensures coveredStatements.Keys == old(coveredStatements).Keys && coveredBranches.Keys == old(coveredBranches).Keys
      ensures Statements(coveredStatements) == old(Statements(coveredStatements)) + {l}
      ensures Branches(coveredBranches) == old(Branches(coveredBranches)) + Taken(g.edges, l, next)
      ensures newStatement <==> l !in old(Statements(coveredStatements))
      ensures newBranch <==> !(Taken(g.edges, l, next) <= old(Branches(coveredBranches)))
    {
      coveredStatements := coveredStatements[l := true];
      assert Statements(coveredStatements) == old(Statements(coveredStatements)) + {l};
      MarkBranches(g, l, next);
      var oldStatementCoverage, oldBranchCoverage := statementCoverage, branchCoverage;
      statementCoverage := CountStatements();
      branchCoverage := CountBranches();
      newStatement, newBranch := oldStatementCoverage < statementCoverage, oldBranchCoverage < branchCoverage;
      Larger(old(Statements(coveredStatements)), {l});
      Larger(old(Branches(coveredBranches)), Taken(g.edges, l, next));
    }

    // A run of the engine: every step updates the coverage, and makes a test case if a branch is new.
    method CoverAll(steps: seq<Step>) returns (testCases: nat)
      requires Valid()
      requires forall i | 0 <= i < |steps| :: steps[i].source in coveredStatements
      requires forall i | 0 <= i < |steps| ::
                 Taken(steps[i].g.edges, steps[i].source, steps[i].next) != {} ==> steps[i].source in coveredBranches
      modifies this
      ensures Valid()
      ensures coveredStatements.Keys == old(coveredStatements).Keys && coveredBranches.Keys == old(coveredBranches).Keys
      ensures Branches(coveredBranches) == CoveredAfter(old(Branches(coveredBranches)), steps)
      ensures testCases == TestCases(old(Branches(coveredBranches)), steps)
    {
      testCases := 0;
      ghost var start := Branches(coveredBranches);
      assert steps[0..] == steps;
      for i := 0 to |steps|
        invariant Valid()
        invariant coveredStatements.Keys == old(coveredStatements).Keys
        invariant coveredBranches.Keys == old(coveredBranches).Keys
        invariant CoveredAfter(Branches(coveredBranches), steps[i..]) == CoveredAfter(start, steps)
        invariant testCases + TestCases(Branches(coveredBranches), steps[i..]) == TestCases(start, steps)
      {
        assert steps[i..][0] == steps[i] && steps[i..][1..] == steps[i + 1..];
        var newStatement, newBranch := UpdateCoverage(steps[i].g, steps[i].source, steps[i].next);
        if newBranch {
          testCases := testCases + 1;
        }
      }
      assert steps[|steps|..] == [];
    }

    method MarkBranches(g: Graph, l: int, next: int)
      requires Taken(g.edges, l, next) != {} ==> l in coveredBranches
      modifies `coveredBranches
      ensures coveredBranches.Keys == old(coveredBranches).Keys
      ensures Branches(coveredBranches) == old(Branches(coveredBranches)) + Taken(g.edges, l, next)
    {
      for i := 0 to |g.edges|
        invariant coveredBranches.Keys == old(coveredBranches).Keys
        invariant Branches(coveredBranches) == old(Branches(coveredBranches)) + Taken(g.edges[..i], l, next)
      {
        var e := g.edges[i];
        TakenSnoc(g.edges[..i], e, l, next);
        assert g.edges[..i + 1] == g.edges[..i] + [e];
        if e.source == l && e.target == next && (e.kind.TrueBranch? || e.kind.FalseBranch?) {
          TakenMember(g.edges, i, l, next);
          Marked(coveredBranches, l, e.kind.TrueBranch?);
          coveredBranches := Mark(coveredBranches, l, e.kind.TrueBranch?);
        }
      }
      assert g.edges[..|g.edges|] == g.edges;
    }

    method CountStatements() returns (n: nat)
      ensures n == |Statements(coveredStatements)|
    {
      n := 0;
      var todo := coveredStatements.Keys;
      ghost var seen: set<int> := {};
      while exists l :: l in todo
        invariant todo !! seen && todo + seen == coveredStatements.Keys
        invariant n == |Statements(coveredStatements) * seen|
        decreases todo
      {
        var l :| l in todo;
        SeenMore(Statements(coveredStatements), seen, l);
        if coveredStatements[l] {
          n := n + 1;
        }
        todo, seen := todo - {l}, seen + {l};
      }
      assert Statements(coveredStatements) * seen == Statements(coveredStatements);
    }

    method CountBranches() returns (n: nat)
      ensures n == |Branches(coveredBranches)|
    {
      n := 0;
      var todo := coveredBranches.Keys;
      ghost var seen: set<BranchId> := {};
      while exists l :: l in todo
        invariant todo <= coveredBranches.Keys
        invariant forall b: BranchId :: b in seen <==> b.at in coveredBranches && b.at !in todo
        invariant n == |Branches(coveredBranches) * seen|
        decreases todo
      {
        var l :| l in todo;
        SeenMore(Branches(coveredBranches), seen, BranchId(l, true));
        SeenMore(Branches(coveredBranches), seen + {BranchId(l, true)}, BranchId(l, false));
        BranchesAre(coveredBranches, BranchId(l, true));
        BranchesAre(coveredBranches, BranchId(l, false));
        if coveredBranches[l].positive {
          n := n + 1;
        }
        if coveredBranches[l].negative {
          n := n + 1;
        }
        todo, seen := todo - {l}, seen + {BranchId(l, true)} + {BranchId(l, false)};
      }
      forall b | b in Branches(coveredBranches) ensures b in seen { BranchesAre(coveredBranches, b); }
      assert Branches(coveredBranches) * seen == Branches(coveredBranches);
    }
  }

  lemma {:induction false} TakenMember(edges: seq<Edge>, i: nat, l: int, next: int)
    requires i < |edges| && edges[i].source == l && edges[i].target == next && IsBranch(edges[i])
    ensures BranchId(l, edges[i].kind.TrueBranch?) in Taken(edges, l, next)
  {
    if i > 0 {
      TakenMember(edges[1..], i - 1, l, next);
    }
  }

  lemma {:induction false} SeenMore<T>(all: set<T>, seen: set<T>, x: T)
    requires x !in seen
    ensures |all * (seen + {x})| == |all * seen| + if x in all then 1 else 0
  {
    if x in all {
      assert all * (seen + {x}) == all * seen + {x};
    } else {
      assert all * (seen + {x}) == all * seen;
    }
  }

  lemma {:induction false} Larger<T>(a: set<T>, b: set<T>)
    ensures |a| <= |a + b| && (|a| < |a + b| <==> !(b <= a))
  {
    assert a + b == a + (b - a) && a !! (b - a);
    assert |a + b| == |a| + |b - a|;
    if !(b <= a) {
      var x :| x in b && x !in a;
      assert x in b - a;
    } else {
      assert b - a == {};
    }
  }

  // ---------- whole runs ----------

  // One step of the exploration, in the graph of its frame.
  datatype Step = Step(g: Graph, source: int, next: int)

  function CoveredAfter(covered: set<BranchId>, steps: seq<Step>): set<BranchId>
    decreases |steps|
  {
    if steps == [] then covered else CoveredAfter(covered + Taken(steps[0].g.edges, steps[0].source, steps[0].next),
          steps[1..])
  }

  // The number of steps for which a test case is made.
  function TestCases(covered: set<BranchId>, steps: seq<Step>): nat
    decreases |steps|
  {
    if steps == [] then 0
    else
      var taken := Taken(steps[0].g.edges, steps[0].source, steps[0].next);
      (if taken <= covered then 0 else 1) + TestCases(covered + taken, steps[1..])
  }

  // Covered branches stay covered, and each test case covers a new one.
  lemma {:induction false} CoverageGrows(covered: set<BranchId>, steps: seq<Step>)
    ensures covered <= CoveredAfter(covered, steps)
    ensures TestCases(covered, steps) + |covered| <= |CoveredAfter(covered, steps)|
    decreases |steps|
  {
    if steps != [] {
      var taken := Taken(steps[0].g.edges, steps[0].source, steps[0].next);
      CoverageGrows(covered + taken, steps[1..]);
      Larger(covered, taken);
    }
  }

  lemma {:induction false} TwoEach(decisions: set<int>)
    ensures |BothBranches(decisions)| == 2 * |decisions|
    decreases decisions
  {
    if exists l :: l in decisions {
      var l :| l in decisions;
      var rest := decisions - {l};
      TwoEach(rest);
      var some := BothBranches(rest);
      MoreBranches(rest, l);
      assert |some + {BranchId(l, true)}| == |some| + 1;
      assert |some + {BranchId(l, true)} + {BranchId(l, false)}| == |some| + 2;
      assert decisions == rest + {l} && |decisions| == |rest| + 1;
    } else {
      forall b ensures b !in BothBranches(decisions) { InBoth(decisions, b); }
      assert BothBranches(decisions) == {};
    }
  }

  lemma {:induction false} MoreBranches(rest: set<int>, l: int)
    requires l !in rest
    ensures BothBranches(rest + {l}) == BothBranches(rest) + {BranchId(l, true)} + {BranchId(l, false)}
    ensures BranchId(l, true) !in BothBranches(rest) && BranchId(l, false) !in BothBranches(rest)
  {
    forall b: BranchId
      ensures b in BothBranches(rest + {l}) <==> b in BothBranches(rest) + {BranchId(l, true)} + {BranchId(l, false)}
    {
      InBoth(rest, b);
      InBoth(rest + {l}, b);
    }
    InBoth(rest, BranchId(l, true));
    InBoth(rest, BranchId(l, false));
  }

  lemma {:induction false} Smaller<T>(a: set<T>, b: set<T>)
    requires a <= b
    ensures |a| <= |b|
  {
    assert b == a + (b - a);
    Larger(a, b - a);
  }

  ghost predicate StepsWithin(steps: seq<Step>, decisions: set<int>) {
    forall i | 0 <= i < |steps| :: Taken(steps[i].g.edges, steps[i].source, steps[i].next) <= BothBranches(decisions)
  }

  lemma {:induction false} CoveredWithin(covered: set<BranchId>, steps: seq<Step>, decisions: set<int>)
    requires covered <= BothBranches(decisions) && StepsWithin(steps, decisions)
    ensures CoveredAfter(covered, steps) <= BothBranches(decisions)
    decreases |steps|
  {
    if steps != [] {
      CoveredWithin(covered + Taken(steps[0].g.edges, steps[0].source, steps[0].next), steps[1..], decisions);
    }
  }

  // However long the exploration runs, it makes at most two test cases for each decision.
  lemma {:induction false} TestCasesBounded(steps: seq<Step>, decisions: set<int>)
    requires StepsWithin(steps, decisions)
    ensures TestCases({}, steps) <= 2 * |decisions|
  {
    CoverageGrows({}, steps);
    CoveredWithin({}, steps, decisions);
    Smaller(CoveredAfter({}, steps), BothBranches(decisions));
    TwoEach(decisions);
  }

  // ---------- what is counted ----------

  // The step takes branch b: the edge of that branch leads from its label to the next one.
  predicate TakenBy(s: Step, b: BranchId) {
    b.at == s.source && Edge(s.source, s.next, if b.positive then TrueBranch else FalseBranch) in s.g.edges
  }

  lemma {:induction false} TakenExactly(edges: seq<Edge>, l: int, next: int, b: BranchId)
    ensures b in Taken(edges, l, next) <==>
            b.at == l && Edge(l, next, if b.positive then TrueBranch else FalseBranch) in edges
  {
    if edges != [] {
      TakenExactly(edges[1..], l, next, b);
      assert edges == [edges[0]] + edges[1..];
    }
  }

  lemma {:induction false} TakenIs(s: Step, b: BranchId)
    ensures b in Taken(s.g.edges, s.source, s.next) <==> TakenBy(s, b)
  {
    TakenExactly(s.g.edges, s.source, s.next, b);
  }

  // Covered is what was covered before and what a step takes, and nothing else.
  lemma {:induction false} CoveredExactly(covered: set<BranchId>, steps: seq<Step>, b: BranchId)
    ensures b in CoveredAfter(covered, steps) <==>
            || b in covered
            || exists i :: 0 <= i < |steps| && steps[i].source == b.at
                 && Edge(b.at, steps[i].next, if b.positive then TrueBranch else FalseBranch) in steps[i].g.edges
  {
    CoveredIs(covered, steps, b);
    if exists i :: 0 <= i < |steps| && TakenBy(steps[i], b) {
      var i :| 0 <= i < |steps| && TakenBy(steps[i], b);
      assert steps[i].source == b.at;
    }
    forall i | 0 <= i < |steps| && steps[i].source == b.at
      && Edge(b.at, steps[i].next, if b.positive then TrueBranch else FalseBranch) in steps[i].g.edges
      ensures TakenBy(steps[i], b)
    {
    }
  }

  lemma {:induction false} CoveredIs(covered: set<BranchId>, steps: seq<Step>, b: BranchId)
    ensures b in CoveredAfter(covered, steps) <==>
            b in covered || exists i :: 0 <= i < |steps| && TakenBy(steps[i], b)
    decreases |steps|
  {
    if steps != [] {
      var s, rest := steps[0], steps[1..];
      TakenIs(s, b);
      CoveredIs(covered + Taken(s.g.edges, s.source, s.next), rest, b);
      if exists i :: 0 <= i < |rest| && TakenBy(rest[i], b) {
        var i :| 0 <= i < |rest| && TakenBy(rest[i], b);
        assert TakenBy(steps[i + 1], b);
      }
      if exists i :: 0 <= i < |steps| && TakenBy(steps[i], b) {
        var i :| 0 <= i < |steps| && TakenBy(steps[i], b);
        assert i > 0 ==> TakenBy(rest[i - 1], b);
      }
    }
  }

  // Step i is the first one to take some branch that was not covered at the start.
  ghost predicate TakesNew(covered: set<BranchId>, steps: seq<Step>, i: int) {
    0 <= i < |steps| && exists b {:trigger TakenBy(steps[i], b)} :: NewIn(covered, steps, i, b)
  }

  predicate NewIn(covered: set<BranchId>, steps: seq<Step>, i: int, b: BranchId)
    requires 0 <= i < |steps|
  {
    TakenBy(steps[i], b) && b !in covered && forall j | 0 <= j < i :: !TakenBy(steps[j], b)
  }

  // The number of test cases is the number of steps that take some branch which was neither covered at
  // the start nor taken by an earlier step.
  lemma {:induction false} TestCasesExactly(covered: set<BranchId>, steps: seq<Step>)
    ensures var first :=
              (set i | 0 <= i < |steps| &&
                 (exists kind: EdgeKind :: (kind.TrueBranch? || kind.FalseBranch?)
                   && Edge(steps[i].source, steps[i].next, kind) in steps[i].g.edges
                   && BranchId(steps[i].source, kind.TrueBranch?) !in covered
                   && forall j :: 0 <= j < i && steps[j].source == steps[i].source ==>
                        Edge(steps[j].source, steps[j].next, kind) !in steps[j].g.edges));
            TestCases(covered, steps) == |first|
  {
    TestCasesAre(covered, steps);
    var all := set i | 0 <= i < |steps| && TakesNew(covered, steps, i);
    forall i | 0 <= i < |steps|
      ensures TakesNew(covered, steps, i) <==>
              exists kind: EdgeKind :: (kind.TrueBranch? || kind.FalseBranch?)
                && Edge(steps[i].source, steps[i].next, kind) in steps[i].g.edges
                && BranchId(steps[i].source, kind.TrueBranch?) !in covered
                && forall j :: 0 <= j < i && steps[j].source == steps[i].source ==>
                     Edge(steps[j].source, steps[j].next, kind) !in steps[j].g.edges
    {
      TakesNewKind(covered, steps, i);
    }
    assert all ==
              (set i | 0 <= i < |steps| &&
                 (exists kind: EdgeKind :: (kind.TrueBranch? || kind.FalseBranch?)
                   && Edge(steps[i].source, steps[i].next, kind) in steps[i].g.edges
                   && BranchId(steps[i].source, kind.TrueBranch?) !in covered
                   && forall j :: 0 <= j < i && steps[j].source == steps[i].source ==>
                        Edge(steps[j].source, steps[j].next, kind) !in steps[j].g.edges));
  }

  lemma {:induction false} TakesNewKind(covered: set<BranchId>, steps: seq<Step>, i: int)
    requires 0 <= i < |steps|
    ensures TakesNew(covered, steps, i) <==>
            exists kind: EdgeKind :: (kind.TrueBranch? || kind.FalseBranch?)
              && Edge(steps[i].source, steps[i].next, kind) in steps[i].g.edges
              && BranchId(steps[i].source, kind.TrueBranch?) !in covered
              && forall j :: 0 <= j < i && steps[j].source == steps[i].source ==>
                   Edge(steps[j].source, steps[j].next, kind) !in steps[j].g.edges
  {
    if TakesNew(covered, steps, i) {
      var b :| NewIn(covered, steps, i, b);
      var kind := if b.positive then TrueBranch else FalseBranch;
      assert TakenBy(steps[i], b) && b == BranchId(b.at, b.positive);
      assert b.at == steps[i].source && kind.TrueBranch? == b.positive;
      assert Edge(steps[i].source, steps[i].next, kind) in steps[i].g.edges;
      forall j | 0 <= j < i && steps[j].source == steps[i].source
        ensures Edge(steps[j].source, steps[j].next, kind) !in steps[j].g.edges
      {
        assert !TakenBy(steps[j], b);
      }
    }
    forall kind: EdgeKind | (kind.TrueBranch? || kind.FalseBranch?)
      && Edge(steps[i].source, steps[i].next, kind) in steps[i].g.edges
      && BranchId(steps[i].source, kind.TrueBranch?) !in covered
      && forall j :: 0 <= j < i && steps[j].source == steps[i].source ==>
           Edge(steps[j].source, steps[j].next, kind) !in steps[j].g.edges
      ensures TakesNew(covered, steps, i)
    {
      assert NewIn(covered, steps, i, BranchId(steps[i].source, kind.TrueBranch?));
    }
  }

  lemma {:induction false} TestCasesAre(covered: set<BranchId>, steps: seq<Step>)
    ensures TestCases(covered, steps) == |set i | 0 <= i < |steps| && TakesNew(covered, steps, i)|
    decreases |steps|
  {
    var all := set i | 0 <= i < |steps| && TakesNew(covered, steps, i);
    if steps != [] {
      var s, rest := steps[0], steps[1..];
      var taken := Taken(s.g.edges, s.source, s.next);
      var later := set i | 0 <= i < |rest| && TakesNew(covered + taken, rest, i);
      TestCasesAre(covered + taken, rest);
      FirstTakesNew(covered, steps, taken);
      forall i | 0 <= i < |rest| ensures TakesNew(covered, steps, i + 1) <==> TakesNew(covered + taken, rest, i) {
        LaterTakesNew(covered, steps, taken, i);
      }
      Shifted(later, all);
    }
  }

  lemma {:induction false} FirstTakesNew(covered: set<BranchId>, steps: seq<Step>, taken: set<BranchId>)
    requires steps != [] && taken == Taken(steps[0].g.edges, steps[0].source, steps[0].next)
    ensures TakesNew(covered, steps, 0) <==> !(taken <= covered)
  {
    if !(taken <= covered) {
      var b :| b in taken && b !in covered;
      TakenIs(steps[0], b);
      assert NewIn(covered, steps, 0, b);
    }
    if TakesNew(covered, steps, 0) {
      var b :| NewIn(covered, steps, 0, b);
      TakenIs(steps[0], b);
    }
  }

  lemma {:induction false} LaterTakesNew(covered: set<BranchId>, steps: seq<Step>, taken: set<BranchId>, i: int)
    requires steps != [] && taken == Taken(steps[0].g.edges, steps[0].source, steps[0].next) && 0 <= i < |steps| - 1
    ensures TakesNew(covered, steps, i + 1) <==> TakesNew(covered + taken, steps[1..], i)
  {
    var rest := steps[1..];
    forall b ensures NewIn(covered, steps, i + 1, b) <==> NewIn(covered + taken, rest, i, b) {
      TakenIs(steps[0], b);
      assert forall j | 0 <= j < |rest| :: rest[j] == steps[j + 1];
      assert forall j | 0 < j < |steps| :: steps[j] == rest[j - 1];
    }
    if TakesNew(covered, steps, i + 1) {
      var b :| NewIn(covered, steps, i + 1, b);
      assert NewIn(covered + taken, rest, i, b);
    }
    if TakesNew(covered + taken, rest, i) {
      var b :| NewIn(covered + taken, rest, i, b);
      assert NewIn(covered, steps, i + 1, b);
    }
  }

  // `all` is `later` moved up by one, and possibly 0.
  lemma {:induction false} Shifted(later: set<int>, all: set<int>)
    requires forall i | i in later :: 0 <= i && i + 1 in all
    requires forall i | i in all :: i == 0 || (0 < i && i - 1 in later)
    ensures |all| == |later| + if 0 in all then 1 else 0
    decreases later
  {
    if exists i :: i in later {
      var i :| i in later;
      Shifted(later - {i}, all - {i + 1});
      assert |all - {i + 1}| == |all| - 1 && |later - {i}| == |later| - 1;
    } else {
      assert later == {};
      forall i | i in all ensures i == 0 { assert i - 1 !in later; }
      assert all == (if 0 in all then {0} else {});
    }
  }

  // No test case is made exactly if nothing new is covered.
  lemma {:induction false} NoTestCaseExactly(covered: set<BranchId>, steps: seq<Step>)
    ensures TestCases(covered, steps) == 0 <==> CoveredAfter(covered, steps) == covered
    decreases |steps|
  {
    CoverageGrows(covered, steps);
    if steps != [] && TestCases(covered, steps) == 0 {
      var taken := Taken(steps[0].g.edges, steps[0].source, steps[0].next);
      assert covered + taken == covered;
      NoTestCaseExactly(covered, steps[1..]);
    }
  }

  // If every step takes at most one branch, there is one test case for each branch that gets covered.
  lemma {:induction false} OneCaseEach(covered: set<BranchId>, steps: seq<Step>)
    requires forall i | 0 <= i < |steps| :: |Taken(steps[i].g.edges, steps[i].source, steps[i].next)| <= 1
    ensures TestCases(covered, steps) == |CoveredAfter(covered, steps) - covered|
    ensures TestCases(covered, steps) + |covered| == |CoveredAfter(covered, steps)|
    decreases |steps|
  {
    CoverageGrows(covered, steps);
    if steps != [] {
      var taken := Taken(steps[0].g.edges, steps[0].source, steps[0].next);
      OneCaseEach(covered + taken, steps[1..]);
      Larger(covered, taken);
      AtMostOne(covered, taken);
    }
    var after := CoveredAfter(covered, steps);
    assert after == covered + (after - covered);
  }

  lemma {:induction false} AtMostOne<T>(a: set<T>, b: set<T>)
    requires |b| <= 1
    ensures |a + b| <= |a| + 1
  {
    assert a + b == a + (b - a);
    Smaller(b - a, b);
  }

  // ---------- which branches are marked ----------

  lemma {:induction false} TakenOutgoing(edges: seq<Edge>, l: int, next: int)
    ensures Taken(edges, l, next) == Taken(Outgoing(edges, l), l, next)
  {
    if edges != [] {
      TakenOutgoing(edges[1..], l, next);
      if edges[0].source == l {
        assert Outgoing(edges, l)[1..] == Outgoing(edges[1..], l);
      } else {
        assert Outgoing(edges, l) == Outgoing(edges[1..], l);
      }
    }
  }

  // Taking one branch of a decision marks that branch alone exactly if the two have different targets.
  lemma {:induction false} MarksBranchExactly(g: Graph, l: int, t: int, f: int, positive: bool)
    requires Outgoing(g.edges, l) == [Edge(l, t, TrueBranch), Edge(l, f, FalseBranch)]
    ensures Taken(g.edges, l, if positive then t else f) == {BranchId(l, positive)} <==> t != f
  {
    var next := if positive then t else f;
    TakenOutgoing(g.edges, l, next);
    var d, e := Edge(l, t, TrueBranch), Edge(l, f, FalseBranch);
    TakenSnoc([d], e, l, next);
    TakenSnoc([], d, l, next);
    assert [d, e] == [d] + [e] && [d] == [] + [d];
    if t == f {
      assert BranchId(l, !positive) in Taken(g.edges, l, next);
    }
  }

  // With intermediate vertices, only the branch that was taken is marked.
  lemma {:induction false} SplitMarksBranch(g: Graph, mid: Middles, lo: int, hi: int, r: Graph, l: int, positive: bool)
    requires SplitOf(g, mid, lo, hi, r) && l in Decisions(g)
    ensures l in mid && Taken(r.edges, l, if positive then mid[l].positive
            else mid[l].negative) == {BranchId(l, positive)}
  {
    var t, f := MiddleBetween(g, mid, lo, hi, r, l);
    MarksBranchExactly(r, l, mid[l].positive, mid[l].negative, positive);
  }
}
