// What the SSA form keeps of the instructions, and what it makes of their expressions
// (ahorn/src/pass/ssa/ssa_pass.cpp, ahorn/src/pass/ssa/ssa_encoder.cpp).

module SsaShape {
  import opened Ir
  import opened Cfg
  import opened Tac
  import opened SsaTable
  import opened SsaNames
  import opened SsaLog
  import opened SsaBlocks

  // The same operators over variables only: constants have become variables.
  predicate OverVariables(e: Expr, r: Expr) {
    match e
    case UnaryExpression(op, a) => r.UnaryExpression? && r.unary == op && OverVariables(a, r.operand)
    case BinaryExpression(op, a, b) =>
      r.BinaryExpression? && r.binary == op && OverVariables(a, r.left) && OverVariables(b, r.right)
    case _ => r.VariableAccess?
  }

  lemma {:induction false} EncodedVariables(F: Frame, T: Table, e: Expr, r: Expr, cs: seq<Fixed>, l: int,
        before: map<string, int>)
    requires Encoded(F, T, e, r, cs, l, before)
    ensures OverVariables(e, r)
    decreases e
  {
    match e
    case UnaryExpression(_, a) => EncodedVariables(F, T, a, r.operand, cs, l, before);
    case BinaryExpression(_, a, b) =>
      EncodedVariables(F, T, a, r.left, cs, l, before);
      EncodedVariables(F, T, b, r.right, cs, l, before);
    case _ =>
  }

  // Instruction j is the renaming of i: definitions get a number behind their name, branches keep their
  // labels.
  ghost predicate RenamedTo(i: Instr, j: Instr) {
    match i
    case Assign(x, e) => j.Assign? && (exists v: nat :: j.v == x + "_" + Digits(v)) && OverVariables(e, j.e)
    case Havoc(x) => exists v: nat :: j == Havoc(x + "_" + Digits(v))
    case IfGoto(e, t, f) => j.IfGoto? && j.thenLabel == t && j.elseLabel == f && OverVariables(e, j.ifCond)
    case _ => false
  }

  // The assignment of a constant to a variable of its own.
  ghost predicate FixesConstant(j: Instr) {
    && j.Assign? && (j.e.IntegerConstant? || j.e.BooleanConstant?)
    && exists v: nat :: j.v == "const" + Digits(v)
  }

  lemma {:induction false} TargetRenamed(F: Frame, T: Table, l: int, s: Renaming)
    requires RenamingOk(F, T, l, s)
    ensures RenamedTo(s.source, s.target)
  {
    match s.source
    case Assign(x, e) =>
      EncodedVariables(F, T, e, s.target.e, s.constants, l, s.before);
      var v: nat := s.value;
      assert s.target.v == x + "_" + Digits(v);
    case Havoc(x) =>
      var v: nat := s.value;
      assert s.target == Havoc(x + "_" + Digits(v));
    case IfGoto(e, _, _) => EncodedVariables(F, T, e, s.target.ifCond, s.constants, l, s.before);
    case _ =>
  }

  lemma {:induction false} ConstantsFix(T: Table, cs: seq<Fixed>, l: int)
    requires ConstantsOk(T, cs, l)
    ensures |ConstantAssigns(cs)| == |cs| && forall k | 0 <= k < |cs| :: FixesConstant(ConstantAssigns(cs)[k])
    decreases |cs|
  {
    if cs != [] {
      var front, last := cs[..|cs| - 1], cs[|cs| - 1];
      assert forall k | 0 <= k < |front| :: front[k] == cs[k];
      ConstantsFix(T, front, l);
      var v: nat := last.value;
      assert ConstantName(v) == "const" + Digits(v);
    }
  }

  // The emitted code of a block: the renamed instructions at positions `at`, in order, and constants
  // between them.
  ghost predicate Interleaved(instrs: seq<Instr>, code: seq<Instr>, at: seq<int>) {
    && |at| == |instrs|
    && (forall i | 0 <= i < |at| :: 0 <= at[i] < |code| && RenamedTo(instrs[i], code[at[i]]))
    && (forall i, j | 0 <= i < j < |at| :: at[i] < at[j])
    && (forall p | 0 <= p < |code| && p !in at :: FixesConstant(code[p]))
  }

  lemma {:induction false} LogInterleaved(F: Frame, T: Table, l: int, log: seq<Renaming>, instrs: seq<Instr>,
        emitted: seq<Instr>)
      returns (at: seq<int>)
    requires LogOk(F, T, l, log) && Renames(log, instrs) && emitted == EmittedAll(log)
    ensures Interleaved(instrs, emitted, at) && (instrs != [] ==> at[|at| - 1] == |emitted| - 1)
    decreases |log|
  {
    if log == [] {
      at := [];
    } else {
      var n := |log| - 1;
      var s, front := log[n], log[..n];
      var instrsFront, code := instrs[..n], EmittedAll(front);
      LogFront(F, T, l, log, front, s);
      assert Renames(front, instrsFront) && instrs != [] && s.source == instrs[|instrs| - 1];
      var earlier := LogInterleaved(F, T, l, front, instrsFront, code);
      at := StepInterleaved(F, T, l, s, instrs, code, earlier);
    }
  }

  lemma {:induction false} StepInterleaved(F: Frame, T: Table, l: int, s: Renaming, instrs: seq<Instr>,
        code: seq<Instr>, earlier: seq<int>)
      returns (at: seq<int>)
    requires RenamingOk(F, T, l, s) && instrs != [] && s.source == instrs[|instrs| - 1]
    requires Interleaved(instrs[..|instrs| - 1], code, earlier)
    ensures Interleaved(instrs, code + ConstantAssigns(s.constants) + [s.target], at)
    ensures at[|at| - 1] == |code| + |ConstantAssigns(s.constants)|
  {
    TargetRenamed(F, T, l, s);
    ConstantsFix(T, s.constants, l);
    at := OneMore(instrs, code, ConstantAssigns(s.constants), s.target, earlier);
  }

  lemma {:induction false} LogFront(F: Frame, T: Table, l: int, log: seq<Renaming>, front: seq<Renaming>, s: Renaming)
    requires LogOk(F, T, l, log) && log != [] && front == log[..|log| - 1] && s == log[|log| - 1]
    ensures LogOk(F, T, l, front) && RenamingOk(F, T, l, s)
    ensures EmittedAll(log) == EmittedAll(front) + ConstantAssigns(s.constants) + [s.target]
  {
    var code, cs := EmittedAll(front), ConstantAssigns(s.constants);
    assert code + (cs + [s.target]) == code + cs + [s.target];
    forall i | 0 <= i < |front| ensures RenamingOk(F, T, l, front[i]) && front[i].before == Defined(front[..i]) {
      assert front[i] == log[i] && front[..i] == log[..i];
    }
  }

  lemma {:induction false} OneMore(instrs: seq<Instr>, code: seq<Instr>, cs: seq<Instr>, target: Instr,
        earlier: seq<int>)
      returns (at: seq<int>)
    requires instrs != [] && Interleaved(instrs[..|instrs| - 1], code, earlier)
    requires RenamedTo(instrs[|instrs| - 1], target) && forall k | 0 <= k < |cs| :: FixesConstant(cs[k])
    ensures Interleaved(instrs, code + cs + [target], at) && at[|at| - 1] == |code| + |cs|
  {
    var n, whole := |instrs| - 1, code + cs + [target];
    at := earlier + [|code| + |cs|];
    forall i | 0 <= i < |at| ensures 0 <= at[i] < |whole| && RenamedTo(instrs[i], whole[at[i]]) {
      if i < n { assert instrs[i] == instrs[..n][i] && whole[at[i]] == code[earlier[i]]; }
    }
    assert at[n] == |code| + |cs|;
    forall p | 0 <= p < |whole| && p !in at ensures FixesConstant(whole[p]) {
      assert p != |code| + |cs|;
      assert forall q | q in earlier :: q in at;
      assert whole[p] == if p < |code| then code[p] else cs[p - |code|];
    }
  }

  // Entry and exit stay; every other vertex holds the renamings of its instructions, in order, with
  // assignments of constants between them, and ends in the renaming of its last instruction.
  lemma {:induction false} VerticesRenamed(g: Graph, names: seq<string>, S: Fill, r: Graph, l: int)
      returns (at: seq<int>)
    requires IsSsaOf(g, names, S, r) && l in g.vertices
    ensures l in r.vertices && r.edges == g.edges
    ensures l == g.entry || l == g.exit ==> r.vertices[l] == g.vertices[l]
    ensures l != g.entry && l != g.exit ==>
              && g.vertices[l].Regular? && r.vertices[l].Regular?
              && Interleaved(g.vertices[l].instrs, r.vertices[l].instrs, at)
              && (at != [] ==> at[|at| - 1] == |r.vertices[l].instrs| - 1)
  {
    at := [];
    if l != g.entry && l != g.exit {
      assert BlockLogOk(S.F, S.T, l, S.logs[l]);
      at := LogInterleaved(S.F, S.T, l, S.logs[l], g.vertices[l].instrs,
            r.vertices[l].instrs);
    }
  }

  // So a vertex that ends in an IF still does, with the same labels.
  lemma {:induction false} BranchesRenamed(g: Graph, names: seq<string>, S: Fill, r: Graph, l: int)
    requires IsSsaOf(g, names, S, r) && l in g.vertices && l != g.entry && l != g.exit
    requires g.vertices[l].Regular? && g.vertices[l].instrs != []
    ensures r.vertices[l].Regular? && r.vertices[l].instrs != []
    ensures var i := g.vertices[l].instrs[|g.vertices[l].instrs| - 1];
            var j := r.vertices[l].instrs[|r.vertices[l].instrs| - 1];
            && (i.IfGoto? <==> j.IfGoto?) && (i.Assign? <==> j.Assign?) && (i.Havoc? <==> j.Havoc?)
            && (i.IfGoto? ==> j.thenLabel == i.thenLabel && j.elseLabel == i.elseLabel)
  {
    var at := VerticesRenamed(g, names, S, r, l);
    assert RenamedTo(g.vertices[l].instrs[|at| - 1], r.vertices[l].instrs[at[|at| - 1]]);
  }

  // Placing a phi for x in block l: it has no operands yet, and its variable is x with its number; the
  // other values keep their phis and variables.
  lemma {:induction false} PlacedExactly(T: Table, x: string, l: int)
    requires T.next >= 0
    ensures var v: nat, after := T.next, PlacePhi(T, x, l);
            && after.next == v + 1
            && after.variables == T.variables[v := x + "_" + Digits(v)] && after.origin == T.origin[v := l]
            && after.phis.Keys == T.phis.Keys + {v} && after.phis[v].name == x && after.phis[v].block == l
            && after.phis[v].operands == [] && (forall w | w in T.phis && w != v :: after.phis[w] == T.phis[w])
            && x in after.defs && l in after.defs[x] && after.defs[x][l] == v
            && forall y, k | Recorded(T.defs, y, k) && (y != x || k != l) ::
                 Recorded(after.defs, y, k) && after.defs[y][k] == T.defs[y][k]
  {
  }
}
