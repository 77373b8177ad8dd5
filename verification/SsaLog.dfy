// What the renamed instructions of a block have to do with its original ones
// (ahorn/src/pass/ssa/ssa_encoder.cpp and the visits of ahorn/src/pass/ssa/ssa_pass.cpp).

module SsaLog {
  import opened Ir
  import opened Cfg
  import opened Tac
  import opened SsaTable
  import opened SsaNames

  // A constant and the value that stands for it.
  datatype Fixed = Fixed(value: nat, literal: Expr)

  // How one instruction was renamed: constants get variables of their own in front of it, and
  // `before` are the definitions of the block so far.
  datatype Renaming = Renaming(source: Instr, constants: seq<Fixed>, target: Instr, value: int,
        before: map<string, int>)

  function After(s: Renaming): map<string, int> {
    match s.source
    case Assign(x, _) => s.before[x := s.value]
    case Havoc(x) => s.before[x := s.value]
    case _ => s.before
  }

  function Defined(log: seq<Renaming>): map<string, int> {
    if log == [] then map[] else After(log[|log| - 1])
  }

  function ConstantAssigns(constants: seq<Fixed>): seq<Instr> {
    if constants == [] then [] else
      var last := constants[|constants| - 1];
      ConstantAssigns(constants[..|constants| - 1]) + [Assign(ConstantName(last.value), last.literal)]
  }

  function Emitted(s: Renaming): seq<Instr> {
    ConstantAssigns(s.constants) + [s.target]
  }

  function EmittedAll(log: seq<Renaming>): seq<Instr> {
    if log == [] then [] else EmittedAll(log[..|log| - 1]) + Emitted(log[|log| - 1])
  }

  // ---------- what a read means ----------

  // The value v stands for x in block l, after the definitions `before` of the block.
  ghost predicate UseOk(F: Frame, T: Table, x: string, l: int, v: int, before: map<string, int>) {
    && NamedAt(T, F.rank, v, F.rank(l)) && Settled(T.phis, {}, F.rank, T.next, v, F.rank(l))
    && if x in before then v == before[x] && v !in T.phis else ReachesStart(F.g, T.phis, F.own, x, l, v)
  }

  ghost predicate Encoded(F: Frame, T: Table, e: Expr, r: Expr, constants: seq<Fixed>, l: int,
        before: map<string, int>) {
    match e
    case VariableAccess(x) =>
      exists v :: UseOk(F, T, x, l, v, before) && r == VariableAccess(T.variables[v])
    case UnaryExpression(op, a) =>
      r.UnaryExpression? && r.unary == op && Encoded(F, T, a, r.operand, constants, l, before)
    case BinaryExpression(op, a, b) =>
      && r.BinaryExpression? && r.binary == op
      && Encoded(F, T, a, r.left, constants, l, before) && Encoded(F, T, b, r.right, constants, l, before)
    case NondeterministicConstant => false
    case _ => exists k | 0 <= k < |constants| ::
            constants[k].literal == e && r == VariableAccess(ConstantName(constants[k].value))
  }

  // A value defined by an instruction of block l.
  ghost predicate DefinedAt(T: Table, v: int, l: int, name: string) {
    v >= 0 && v in T.variables && T.variables[v] == name && v in T.origin && T.origin[v] == l && v !in T.phis
  }

  ghost predicate ConstantsOk(T: Table, constants: seq<Fixed>, l: int) {
    && (forall k | 0 <= k < |constants| :: DefinedAt(T, constants[k].value, l, ConstantName(constants[k].value))
          && (constants[k].literal.IntegerConstant? || constants[k].literal.BooleanConstant?))
    && (forall j, k | 0 <= j < k < |constants| :: constants[j].value < constants[k].value)
  }

  ghost predicate RenamingOk(F: Frame, T: Table, l: int, s: Renaming) {
    && ConstantsOk(T, s.constants, l)
    && match s.source
       case Assign(x, e) =>
         && s.value >= 0 && s.target.Assign? && s.target.v == SsaName(x, s.value)
               && DefinedAt(T, s.value, l, SsaName(x, s.value))
         && (forall k | 0 <= k < |s.constants| :: s.constants[k].value < s.value)
         && Encoded(F, T, e, s.target.e, s.constants, l, s.before)
       case Havoc(x) =>
         s.value >= 0 && s.target == Havoc(SsaName(x, s.value)) && DefinedAt(T, s.value, l, SsaName(x, s.value))
               && s.constants == []
       case IfGoto(e, t, f) =>
         s.target.IfGoto? && s.target.thenLabel == t && s.target.elseLabel == f
               && Encoded(F, T, e, s.target.ifCond, s.constants, l, s.before)
       case _ => false
  }

  ghost predicate LogOk(F: Frame, T: Table, l: int, log: seq<Renaming>) {
    forall i {:trigger log[i]} | 0 <= i < |log| ::
      RenamingOk(F, T, l, log[i]) && log[i].before == Defined(log[..i])
  }

  // The definitions of a block are those of its log, apart from those of constants.
  ghost predicate OwnMatches(F: Frame, l: int, log: seq<Renaming>) {
    forall x {:trigger (x, l) in F.own} | !IsConstantName(x) ::
      ((x, l) in F.own <==> x in Defined(log)) && ((x, l) in F.own ==> F.own[(x, l)] == Defined(log)[x])
  }

  // ---------- reads survive later changes ----------

  // What encoding and defining in block l do to the tables.
  ghost predicate Advances(F: Frame, T: Table, F': Frame, T': Table, l: int) {
    && F' == F.(own := F'.own)
    && (forall y, k {:trigger (y, k) in F'.own} {:trigger (y, k) in F.own} | k != l ::
          ((y, k) in F'.own <==> (y, k) in F.own) && ((y, k) in F.own ==> F'.own[(y, k)] == F.own[(y, k)]))
    && Keeps({}, T.phis, T.next, T'.phis, T'.next)
    && (forall v | v in T.variables :: v in T'.variables && T'.variables[v] == T.variables[v])
    && (forall v | v in T.origin :: v in T'.origin && T'.origin[v] == T.origin[v])
  }

  // The ready blocks lie behind each other, and no ready block has l in front of it.
  ghost predicate Behind(F: Frame, l: int) {
    && (forall k | k in F.ready && k != F.g.entry :: Preds(F.g, k) != [] && forall q | q in Preds(F.g, k) ::
          q in F.ready)
    && (forall k | k in F.ready :: l !in Preds(F.g, k))
    && Preds(F.g, F.g.entry) == []
  }

  lemma {:induction false} PathAvoids(F: Frame, l: int, k: int, p: seq<int>)
    requires Behind(F, l) && k in F.ready && k != l && PathTo(F.g, p, k)
    ensures l !in p
    decreases |p|
  {
    if |p| > 1 {
      PathFront(F.g, p, k);
      PathAvoids(F, l, p[|p| - 2], p[..|p| - 1]);
      assert p == p[..|p| - 1] + [k];
    }
  }

  lemma {:induction false} LastDefinitionFrame(own: Own, own': Own, x: string, p: seq<int>)
    requires forall k | k in p :: ((x, k) in own' <==> (x, k) in own) && ((x, k) in own ==> own'[(x, k)] == own[(x, k)])
    ensures LastDefinition(own', x, p) == LastDefinition(own, x, p)
    decreases |p|
  {
    if p != [] {
      var k := p[|p| - 1];
      assert k in p && ((x, k) in own' <==> (x, k) in own);
      LastDefinitionFrame(own, own', x, p[..|p| - 1]);
    }
  }

  lemma {:induction false} UseStable(F: Frame, T: Table, F': Frame, T': Table, l: int, x: string, k: int, v: int,
        before: map<string, int>)
    requires Advances(F, T, F', T', l) && Behind(F, l) && k in F.ready
    requires PhisOk(F.g, F.rank, {}, T.phis, T.next) && UseOk(F, T, x, k, v, before)
    ensures UseOk(F', T', x, k, v, before) && T'.variables[v] == T.variables[v]
  {
    SettledStable(F.rank, {}, T.phis, T.next, {}, T'.phis, T'.next, v, F.rank(k));
    if x !in before {
      forall p | PathTo(F.g, p, k) && |p| > 1
        ensures Resolve(F.g, T'.phis, v, p) == LastDefinition(F'.own, x, p[..|p| - 1])
      {
        ResolveStable(F.g, F.rank, {}, T.phis, T.next, T'.phis, T'.next, v, F.rank(k), p);
        PathFront(F.g, p, k);
        assert k != F.g.entry;
        PathAvoids(F, l, p[|p| - 2], p[..|p| - 1]);
        LastDefinitionFrame(F.own, F'.own, x, p[..|p| - 1]);
      }
    }
  }

  lemma {:induction false} EncodedStable(F: Frame, T: Table, F': Frame, T': Table, l: int, e: Expr, r: Expr,
        cs: seq<Fixed>, more: seq<Fixed>, k: int, before: map<string, int>)
    requires Advances(F, T, F', T', l) && Behind(F, l) && k in F.ready
    requires PhisOk(F.g, F.rank, {}, T.phis, T.next) && Encoded(F, T, e, r, cs, k, before)
    ensures Encoded(F', T', e, r, cs + more, k, before)
    decreases e
  {
    match e
    case VariableAccess(x) =>
      var v :| UseOk(F, T, x, k, v, before) && r == VariableAccess(T.variables[v]);
      UseStable(F, T, F', T', l, x, k, v, before);
    case UnaryExpression(_, a) => EncodedStable(F, T, F', T', l, a, r.operand, cs, more, k, before);
    case BinaryExpression(_, a, b) =>
      EncodedStable(F, T, F', T', l, a, r.left, cs, more, k, before);
      EncodedStable(F, T, F', T', l, b, r.right, cs, more, k, before);
    case IntegerConstant(_) =>
      var i :| 0 <= i < |cs| && cs[i].literal == e && r == VariableAccess(ConstantName(cs[i].value));
      assert (cs + more)[i] == cs[i];
    case BooleanConstant(_) =>
      var i :| 0 <= i < |cs| && cs[i].literal == e && r == VariableAccess(ConstantName(cs[i].value));
      assert (cs + more)[i] == cs[i];
  }

  lemma {:induction false} ConstantsStable(F: Frame, T: Table, F': Frame, T': Table, l: int, cs: seq<Fixed>, k: int)
    requires Advances(F, T, F', T', l) && ConstantsOk(T, cs, k) && (forall v | v in T.origin :: 0 <= v < T.next)
    ensures ConstantsOk(T', cs, k)
  {
    forall i | 0 <= i < |cs| ensures DefinedAt(T', cs[i].value, k, ConstantName(cs[i].value)) {
      assert DefinedAt(T, cs[i].value, k, ConstantName(cs[i].value));
    }
  }

  lemma {:induction false} RenamingStable(F: Frame, T: Table, F': Frame, T': Table, l: int, k: int, s: Renaming)
    requires Advances(F, T, F', T', l) && Behind(F, l) && k in F.ready
    requires PhisOk(F.g, F.rank, {}, T.phis, T.next) && (forall v | v in T.origin :: 0 <= v < T.next)
    requires RenamingOk(F, T, k, s)
    ensures RenamingOk(F', T', k, s)
  {
    ConstantsStable(F, T, F', T', l, s.constants, k);
    assert s.constants + [] == s.constants;
    match s.source
    case Assign(x, e) => EncodedStable(F, T, F', T', l, e, s.target.e, s.constants, [], k, s.before);
    case Havoc(_) =>
    case IfGoto(e, _, _) => EncodedStable(F, T, F', T', l, e, s.target.ifCond, s.constants, [], k, s.before);
  }

  lemma {:induction false} LogStable(F: Frame, T: Table, F': Frame, T': Table, l: int, k: int, log: seq<Renaming>)
    requires Advances(F, T, F', T', l) && Behind(F, l) && k in F.ready
    requires PhisOk(F.g, F.rank, {}, T.phis, T.next) && (forall v | v in T.origin :: 0 <= v < T.next)
    requires LogOk(F, T, k, log)
    ensures LogOk(F', T', k, log)
  {
    forall i | 0 <= i < |log| ensures RenamingOk(F', T', k, log[i]) {
      RenamingStable(F, T, F', T', l, k, log[i]);
    }
  }

  // ---------- a definition in block l ----------

  function Define(T: Table, x: string, l: int, name: string): Table {
    Table(T.next + 1, Write(T.defs, x, l, T.next), T.phis, T.variables[T.next := name], T.origin[T.next := l])
  }

  lemma {:induction false} ResolvePlain(g: Graph, phis: Phis, v: int, p: seq<int>)
    requires v !in phis
    ensures Resolve(g, phis, v, p) == v
    decreases |p|
  {
    if |p| > 1 {
      ResolvePlain(g, phis, v, p[..|p| - 1]);
    }
  }

  lemma {:induction false} DefineEntry(F: Frame, T: Table, own': Own, x: string, l: int, y: string, k: int)
    requires Behind(F, l) && own' == F.own[(x, l) := T.next] && T.next !in T.phis && T.next >= 0
    requires if y == x && k == l then l in F.ready
             else Recorded(T.defs, y, k) && EntryOk(F.g, F.rank, F.ready, F.own, {}, T.phis, T.next, y, k, T.defs[y][k])
    ensures var U := Define(T, x, l, ""); EntryOk(F.g, F.rank, F.ready, own', {}, U.phis, U.next, y, k, U.defs[y][k])
  {
    var U := Define(T, x, l, "");
    var v := U.defs[y][k];
    forall p | PathTo(F.g, p, k) ensures Resolve(F.g, T.phis, v, p) == LastDefinition(own', y, p) {
      if y == x && k == l {
        ResolvePlain(F.g, T.phis, v, p);
      } else {
        if k != l { PathAvoids(F, l, k, p); }
        LastDefinitionFrame(F.own, own', y, p);
      }
    }
  }

  lemma {:induction false} DefineGood(F: Frame, T: Table, x: string, l: int)
    requires Good(F.g, F.rank, F.ready, F.own, {}, T.defs, T.phis, T.next) && Behind(F, l) && l in F.ready
    ensures var U := Define(T, x, l, ""); Good(F.g, F.rank, F.ready, F.own[(x, l) := T.next], {}, U.defs, U.phis,
            U.next)
  {
    var U, own' := Define(T, x, l, ""), F.own[(x, l) := T.next];
    forall w | w in T.phis ensures PhiOk(F.g, F.rank, T.phis, {}, U.next, w) && w != T.next {
      assert PhiOk(F.g, F.rank, T.phis, {}, T.next, w);
    }
    forall y, k | Recorded(U.defs, y, k)
      ensures EntryOk(F.g, F.rank, F.ready, own', {}, U.phis, U.next, y, k, U.defs[y][k])
    {
      if !(y == x && k == l) { assert Recorded(T.defs, y, k); }
      DefineEntry(F, T, own', x, l, y, k);
    }
    forall y, k | (y, k) in own' ensures Recorded(U.defs, y, k) && U.defs[y][k] == own'[(y, k)]
            && 0 <= own'[(y, k)] < U.next && own'[(y, k)] !in U.phis {
      if !(y == x && k == l) { assert (y, k) in F.own; }
    }
  }

  lemma {:induction false} DefineOk(F: Frame, T: Table, x: string, l: int, name: string)
    requires TableOk(F, T) && F.open == {} && Behind(F, l) && l in F.ready && NamesValue(name, T.next)
    ensures var F', U := F.(own := F.own[(x, l) := T.next]), Define(T, x, l, name);
            TableOk(F', U) && Advances(F, T, F', U, l) && DefinedAt(U, T.next, l, name)
  {
    DefineGood(F, T, x, l);
    DefineNamed(F, T, x, l, name);
    var U, own' := Define(T, x, l, name), F.own[(x, l) := T.next];
    forall y, k ensures OwnAt(U, own', y, k) { assert OwnAt(T, F.own, y, k); }
  }

  // The phis and the entries of the table keep their variables.
  lemma {:induction false} DefineNamed(F: Frame, T: Table, x: string, l: int, name: string)
    requires TableOk(F, T) && F.open == {} && NamesValue(name, T.next)
    ensures var U := Define(T, x, l, name);
            && (forall w | w in T.phis :: PhiNamed(U, F.rank, w) && w != T.next)
            && forall y, k | Recorded(U.defs, y, k) :: NamedAt(U, F.rank, U.defs[y][k], F.rank(k))
  {
    var U := Define(T, x, l, name);
    forall w | w in T.phis ensures PhiNamed(U, F.rank, w) && w != T.next {
      assert PhiNamed(T, F.rank, w) && PhiOk(F.g, F.rank, T.phis, {}, T.next, w);
    }
    forall y, k | Recorded(U.defs, y, k) ensures NamedAt(U, F.rank, U.defs[y][k], F.rank(k)) {
      if !(y == x && k == l) { assert Recorded(T.defs, y, k); }
    }
  }

  // ---------- a read in block l ----------

  lemma {:induction false} ReadUse(F: Frame, T: Table, x: string, l: int, v: int, log: seq<Renaming>)
    requires TableOk(F, T) && F.open == {} && Recorded(T.defs, x, l) && T.defs[x][l] == v
    requires OwnMatches(F, l, log) && !IsConstantName(x)
    ensures UseOk(F, T, x, l, v, Defined(log))
  {
    assert EntryOk(F.g, F.rank, F.ready, F.own, {}, T.phis, T.next, x, l, v);
    assert NamedAt(T, F.rank, v, F.rank(l));
    if (x, l) in F.own {
      assert x in Defined(log);
    } else {
      forall p | PathTo(F.g, p, l) && |p| > 1
        ensures Resolve(F.g, T.phis, v, p) == LastDefinition(F.own, x, p[..|p| - 1])
      {
        assert Resolve(F.g, T.phis, v, p) == LastDefinition(F.own, x, p);
      }
    }
  }

  lemma {:induction false} ReadAdvances(F: Frame, a: Table, b: Table, l: int)
    requires Grown(F.open, a, b)
    ensures Advances(F, a, F, b, l)
  {
  }

  // ---------- the logs of all blocks ----------

  ghost predicate BlockLogOk(F: Frame, T: Table, k: int, log: seq<Renaming>) {
    k in F.ready && LogOk(F, T, k, log) && OwnMatches(F, k, log)
  }

  ghost predicate LogsOk(F: Frame, T: Table, logs: map<int, seq<Renaming>>) {
    forall k {:trigger logs[k]} | k in logs :: BlockLogOk(F, T, k, logs[k])
  }

  lemma {:induction false} LogsAdvance(F: Frame, T: Table, F': Frame, T': Table, l: int, logs: map<int, seq<Renaming>>)
    requires LogsOk(F, T, logs) && Advances(F, T, F', T', l) && Behind(F, l)
    requires PhisOk(F.g, F.rank, {}, T.phis, T.next) && (forall v | v in T.origin :: 0 <= v < T.next)
    requires l in logs && OwnMatches(F', l, logs[l])
    ensures LogsOk(F', T', logs)
  {
    forall k | k in logs ensures BlockLogOk(F', T', k, logs[k]) {
      assert BlockLogOk(F, T, k, logs[k]);
      LogStable(F, T, F', T', l, k, logs[k]);
      if k != l {
        forall x | !IsConstantName(x)
          ensures ((x, k) in F'.own <==> x in Defined(logs[k]))
                  && ((x, k) in F'.own ==> F'.own[(x, k)] == Defined(logs[k])[x])
        {
          assert (x, k) in F'.own <==> (x, k) in F.own;
        }
      }
    }
  }

  // While block l is being filled.
  ghost predicate FillingOk(F: Frame, T: Table, l: int, logs: map<int, seq<Renaming>>, constants: seq<Fixed>) {
    && TableOk(F, T) && F.open == {} && Behind(F, l) && l in F.ready && l != F.g.entry && l in logs
    && LogsOk(F, T, logs) && ConstantsOk(T, constants, l)
  }

  // Reading keeps all of it.
  lemma {:induction false} FillingRead(F: Frame, T: Table, T': Table, l: int, logs: map<int, seq<Renaming>>,
        constants: seq<Fixed>, x: string, v: int)
    requires FillingOk(F, T, l, logs, constants) && TableOk(F, T') && ReadOk(F, x, l, v, T, T') && !IsConstantName(x)
    ensures FillingOk(F, T', l, logs, constants) && Advances(F, T, F, T', l)
    ensures UseOk(F, T', x, l, v, Defined(logs[l]))
  {
    ReadAdvances(F, T, T', l);
    assert BlockLogOk(F, T, l, logs[l]);
    LogsAdvance(F, T, F, T', l, logs);
    ConstantsStable(F, T, F, T', l, constants, l);
    ReadUse(F, T', x, l, v, logs[l]);
  }

  // So does a variable for a constant.
  lemma {:induction false} FillingConstant(F: Frame, T: Table, l: int, logs: map<int, seq<Renaming>>,
        constants: seq<Fixed>, e: Expr)
    requires FillingOk(F, T, l, logs, constants) && (e.IntegerConstant? || e.BooleanConstant?)
    ensures var name := ConstantName(T.next);
            var F', T' := F.(own := F.own[(name, l) := T.next]), Define(T, name, l, name);
            FillingOk(F', T', l, logs, constants + [Fixed(T.next, e)]) && Advances(F, T, F', T', l)
  {
    var name := ConstantName(T.next);
    var F', T' := F.(own := F.own[(name, l) := T.next]), Define(T, name, l, name);
    assert NamesValue(name, T.next);
    DefineOk(F, T, name, l, name);
    assert BlockLogOk(F, T, l, logs[l]);
    assert IsConstantName(name);
    LogsAdvance(F, T, F', T', l, logs);
    ConstantsStable(F, T, F', T', l, constants, l);
  }

  // A renaming of an instruction that defines x, up to the definition itself.
  ghost predicate Completes(F: Frame, T: Table, l: int, x: string, s: Renaming)
    requires T.next >= 0
  {
    match s.source
    case Assign(y, e) => y == x && s.target.Assign? && s.target.v == SsaName(x, T.next)
          && Encoded(F, T, e, s.target.e, s.constants, l, s.before)
    case Havoc(y) => y == x && s.target == Havoc(SsaName(x, T.next)) && s.constants == []
    case _ => false
  }

  lemma {:induction false} CompletedRenaming(F: Frame, T: Table, F': Frame, T': Table, l: int, x: string, s: Renaming)
    requires Advances(F, T, F', T', l) && Behind(F, l) && l in F.ready
    requires PhisOk(F.g, F.rank, {}, T.phis, T.next) && (forall v | v in T.origin :: 0 <= v < T.next)
    requires ConstantsOk(T, s.constants, l) && s.value == T.next && Completes(F, T, l, x, s)
    requires DefinedAt(T', T.next, l, SsaName(x, T.next))
    ensures RenamingOk(F', T', l, s)
  {
    ConstantsStable(F, T, F', T', l, s.constants, l);
    if s.source.Assign? {
      EncodedStable(F, T, F', T', l, s.source.e, s.target.e, s.constants, [], l, s.before);
      assert s.constants + [] == s.constants;
    }
  }

  lemma {:induction false} DefinedMatches(F: Frame, F': Frame, T: Table, l: int, x: string, log: seq<Renaming>,
        s: Renaming)
    requires OwnMatches(F, l, log) && F' == F.(own := F.own[(x, l) := T.next])
    requires s.value == T.next && s.before == Defined(log) && T.next >= 0 && Completes(F, T, l, x, s)
    ensures OwnMatches(F', l, log + [s])
  {
    var log' := log + [s];
    assert log'[|log'| - 1] == s && After(s) == Defined(log)[x := T.next];
    forall y | !IsConstantName(y)
      ensures ((y, l) in F'.own <==> y in Defined(log')) && ((y, l) in F'.own ==> F'.own[(y, l)] == Defined(log')[y])
    {
      assert (y, l) in F.own <==> y in Defined(log);
    }
  }

  // So does the definition at the end of an instruction, which completes its renaming.
  lemma {:induction false} FillingDefined(F: Frame, T: Table, l: int, logs: map<int, seq<Renaming>>,
        constants: seq<Fixed>, x: string, s: Renaming)
    requires FillingOk(F, T, l, logs, constants) && !IsConstantName(x)
    requires s.constants == constants && s.value == T.next && s.before == Defined(logs[l])
    requires Completes(F, T, l, x, s)
    ensures var F', T' := F.(own := F.own[(x, l) := T.next]), Define(T, x, l, SsaName(x, T.next));
            FillingOk(F', T', l, logs[l := logs[l] + [s]], [])
  {
    var name := SsaName(x, T.next);
    var F', T' := F.(own := F.own[(x, l) := T.next]), Define(T, x, l, name);
    assert NamesValue(name, T.next);
    DefineOk(F, T, x, l, name);
    assert BlockLogOk(F, T, l, logs[l]);
    CompletedRenaming(F, T, F', T', l, x, s);
    DefinedMatches(F, F', T, l, x, logs[l], s);
    FillingExtended(F, T, F', T', l, logs, s);
  }

  // A condition defines nothing.
  lemma {:induction false} FillingCondition(F: Frame, T: Table, l: int, logs: map<int, seq<Renaming>>,
        constants: seq<Fixed>, s: Renaming)
    requires FillingOk(F, T, l, logs, constants) && RenamingOk(F, T, l, s)
    requires s.source.IfGoto? && s.before == Defined(logs[l])
    ensures FillingOk(F, T, l, logs[l := logs[l] + [s]], [])
  {
    assert BlockLogOk(F, T, l, logs[l]);
    FillingExtended(F, T, F, T, l, logs, s);
  }

  lemma {:induction false} FillingExtended(F: Frame, T: Table, F': Frame, T': Table, l: int,
        logs: map<int, seq<Renaming>>, s: Renaming)
    requires FillingOk(F, T, l, logs, []) || FillingOk(F, T, l, logs, s.constants)
    requires Advances(F, T, F', T', l) && TableOk(F', T') && RenamingOk(F', T', l, s) && s.before == Defined(logs[l])
    requires OwnMatches(F', l, logs[l] + [s])
    ensures FillingOk(F', T', l, logs[l := logs[l] + [s]], [])
  {
    var logs' := logs[l := logs[l] + [s]];
    forall k | k in logs' ensures BlockLogOk(F', T', k, logs'[k]) {
      assert BlockLogOk(F, T, k, logs[k]);
      LogStable(F, T, F', T', l, k, logs[k]);
      if k == l {
        LogAppended(F', T', l, logs[l], s);
      } else {
        forall x | !IsConstantName(x)
          ensures ((x, k) in F'.own <==> x in Defined(logs[k]))
                  && ((x, k) in F'.own ==> F'.own[(x, k)] == Defined(logs[k])[x])
        {
          assert (x, k) in F'.own <==> (x, k) in F.own;
        }
      }
    }
  }

  lemma {:induction false} LogAppended(F: Frame, T: Table, l: int, log: seq<Renaming>, s: Renaming)
    requires LogOk(F, T, l, log) && RenamingOk(F, T, l, s) && s.before == Defined(log)
    ensures LogOk(F, T, l, log + [s])
  {
    forall i | 0 <= i < |log + [s]| ensures RenamingOk(F, T, l, (log + [s])[i])
            && (log + [s])[i].before == Defined((log + [s])[..i]) {
      assert (log + [s])[..i] == log[..i];
      if i == |log| { assert log[..i] == log; } else { assert (log + [s])[i] == log[i]; }
    }
  }

  // ---------- encoding an expression ----------

  // What the encoder accepts, where the block has defined `defined` so far. Variables named like
  // those for constants would be mistaken for them.
  ghost predicate Readable(e: Expr, names: seq<string>, defined: map<string, int>) {
    match e
    case VariableAccess(x) => (x in names || x in defined) && !IsConstantName(x)
    case UnaryExpression(_, a) => Readable(a, names, defined)
    case BinaryExpression(_, a, b) => Readable(a, names, defined) && Readable(b, names, defined)
    case NondeterministicConstant => false
    case _ => true
  }

  // ---------- the emitted code ----------

  function At<T>(m: map<int, seq<T>>, l: int): seq<T> {
    if l in m then m[l] else []
  }

  // The code of every block is what its log emits, and for block l the constants of the instruction
  // that is being encoded.
  ghost predicate CodeOk(code: map<int, seq<Instr>>, logs: map<int, seq<Renaming>>, l: int, constants: seq<Fixed>) {
    && code.Keys <= logs.Keys
    && forall k {:trigger logs[k]} | k in logs :: At(code, k) == EmittedAll(logs[k]) + if k == l
          then ConstantAssigns(constants) else []
  }

  lemma {:induction false} Regroup(a: seq<Instr>, b: seq<Instr>, c: seq<Instr>)
    ensures a + (b + c) == (a + b) + c && a + [] == a
  {
  }

  lemma {:induction false} ConstantAssignsMore(constants: seq<Fixed>, c: Fixed)
    ensures ConstantAssigns(constants + [c]) == ConstantAssigns(constants) + [Assign(ConstantName(c.value), c.literal)]
  {
    var cs := constants + [c];
    assert cs[..|cs| - 1] == constants && cs[|cs| - 1] == c;
  }

  lemma {:induction false} EmittedMore(log: seq<Renaming>, s: Renaming)
    ensures EmittedAll(log + [s]) == (EmittedAll(log) + ConstantAssigns(s.constants)) + [s.target]
  {
    var more := log + [s];
    assert more[..|more| - 1] == log && more[|more| - 1] == s;
    Regroup(EmittedAll(log), ConstantAssigns(s.constants), [s.target]);
  }

  lemma {:induction false} CodeConstant(code: map<int, seq<Instr>>, logs: map<int, seq<Renaming>>, l: int,
        constants: seq<Fixed>, v: nat, e: Expr)
    requires CodeOk(code, logs, l, constants) && l in logs
    ensures CodeOk(code[l := At(code, l) + [Assign(ConstantName(v), e)]], logs, l, constants + [Fixed(v, e)])
  {
    var i := Assign(ConstantName(v), e);
    ConstantAssignsMore(constants, Fixed(v, e));
    assert At(code, l) == EmittedAll(logs[l]) + ConstantAssigns(constants);
    Regroup(EmittedAll(logs[l]), ConstantAssigns(constants), [i]);
  }

  lemma {:induction false} CodeInstruction(code: map<int, seq<Instr>>, logs: map<int, seq<Renaming>>, l: int,
        s: Renaming)
    requires CodeOk(code, logs, l, s.constants) && l in logs
    ensures CodeOk(code[l := At(code, l) + [s.target]], logs[l := logs[l] + [s]], l, [])
  {
    var code', logs' := code[l := At(code, l) + [s.target]], logs[l := logs[l] + [s]];
    assert At(code, l) == EmittedAll(logs[l]) + ConstantAssigns(s.constants);
    EmittedMore(logs[l], s);
    Regroup(EmittedAll(logs'[l]), [], []);
    forall k | k in logs' ensures At(code', k) == EmittedAll(logs'[k]) + if k == l then ConstantAssigns([]) else [] {
      if k != l { assert logs'[k] == logs[k]; }
    }
  }

  // ---------- the state while block l is being filled ----------

  datatype Fill = Fill(F: Frame, T: Table, l: int, logs: map<int, seq<Renaming>>, constants: seq<Fixed>,
                       code: map<int, seq<Instr>>, names: seq<string>, sealed: set<int>)

  // Each variable of the interface has a value at the entry.
  ghost predicate Initialised(g: Graph, own: Own, names: seq<string>) {
    forall x | x in names :: (x, g.entry) in own
  }

  ghost predicate FillOk(S: Fill) {
    && Ranked(S.F.g, S.F.rank) && S.F.ready <= S.sealed && Initialised(S.F.g, S.F.own, S.names)
    && FillingOk(S.F, S.T, S.l, S.logs, S.constants)
    && CodeOk(S.code, S.logs, S.l, S.constants)
  }

  // The encoder has pushed the encoding of e.
  ghost predicate Pushed(S0: Fill, stack0: seq<Expr>, S: Fill, stack: seq<Expr>, e: Expr) {
    && S.l == S0.l && S.logs == S0.logs && S.names == S0.names && S.sealed == S0.sealed && S.l in S.logs
    && Advances(S0.F, S0.T, S.F, S.T, S.l) && S0.constants <= S.constants
    && |stack| == |stack0| + 1 && stack[..|stack0|] == stack0
    && Encoded(S.F, S.T, e, stack[|stack0|], S.constants, S.l, Defined(S.logs[S.l]))
  }

  lemma {:induction false} AdvancesTransitive(F0: Frame, T0: Table, F1: Frame, T1: Table, F2: Frame, T2: Table, l: int)
    requires Advances(F0, T0, F1, T1, l) && Advances(F1, T1, F2, T2, l)
    ensures Advances(F0, T0, F2, T2, l)
  {
    forall y, k | k != l ensures ((y, k) in F2.own <==> (y, k) in F0.own)
            && ((y, k) in F0.own ==> F2.own[(y, k)] == F0.own[(y, k)]) {
      assert (y, k) in F1.own <==> (y, k) in F0.own;
    }
  }

  lemma {:induction false} BinaryPushed(S0: Fill, stack0: seq<Expr>, S1: Fill, stack1: seq<Expr>, S2: Fill,
        stack2: seq<Expr>, e: Expr)
    requires e.BinaryExpression? && FillOk(S1)
    requires Pushed(S0, stack0, S1, stack1, e.left) && Pushed(S1, stack0, S2, stack2, e.right)
    ensures Pushed(S0, stack0, S2, stack0 + [BinaryExpression(e.binary, stack1[|stack0|], stack2[|stack0|])], e)
  {
    var l, before := S0.l, Defined(S0.logs[S0.l]);
    AdvancesTransitive(S0.F, S0.T, S1.F, S1.T, S2.F, S2.T, l);
    EncodedStable(S1.F, S1.T, S2.F, S2.T, l, e.left, stack1[|stack0|], S1.constants, S2.constants[|S1.constants|..],
          l, before);
    assert S1.constants + S2.constants[|S1.constants|..] == S2.constants;
  }

  lemma {:induction false} UnaryPushed(S0: Fill, stack0: seq<Expr>, S: Fill, stack: seq<Expr>, e: Expr)
    requires e.UnaryExpression? && Pushed(S0, stack0, S, stack, e.operand)
    ensures Pushed(S0, stack0, S, stack0 + [UnaryExpression(e.unary, stack[|stack0|])], e)
  {
  }

  function ConstantFill(S: Fill, e: Expr): Fill
    requires S.T.next >= 0
  {
    var name := ConstantName(S.T.next);
    S.(F := S.F.(own := S.F.own[(name, S.l) := S.T.next]), T := Define(S.T, name, S.l, name),
       constants := S.constants + [Fixed(S.T.next, e)], code := S.code[S.l := At(S.code, S.l) + [Assign(name, e)]])
  }

  lemma {:induction false} ConstantFilled(S: Fill, e: Expr)
    requires FillOk(S) && (e.IntegerConstant? || e.BooleanConstant?)
    ensures FillOk(ConstantFill(S, e)) && Advances(S.F, S.T, ConstantFill(S, e).F, ConstantFill(S, e).T, S.l)
  {
    FillingConstant(S.F, S.T, S.l, S.logs, S.constants, e);
    CodeConstant(S.code, S.logs, S.l, S.constants, S.T.next, e);
  }

  lemma {:induction false} ConstantPushed(S: Fill, stack: seq<Expr>, e: Expr)
    requires S.T.next >= 0 && S.l in S.logs && (e.IntegerConstant? || e.BooleanConstant?)
    requires Advances(S.F, S.T, ConstantFill(S, e).F, ConstantFill(S, e).T, S.l)
    ensures Pushed(S, stack, ConstantFill(S, e), stack + [VariableAccess(ConstantName(S.T.next))], e)
  {
    assert ConstantFill(S, e).constants[|S.constants|] == Fixed(S.T.next, e);
  }

  // A read is possible ...
  lemma {:induction false} ReadPossible(S: Fill, x: string)
    requires FillOk(S) && Readable(VariableAccess(x), S.names, Defined(S.logs[S.l]))
    ensures x in S.names || Recorded(S.T.defs, x, S.l)
  {
    assert BlockLogOk(S.F, S.T, S.l, S.logs[S.l]);
    assert (x, S.l) in S.F.own <==> x in Defined(S.logs[S.l]);
  }

  // ... and what it returns stands for the variable.
  lemma {:induction false} VariablePushed(S: Fill, T': Table, stack: seq<Expr>, x: string, v: int)
    requires FillOk(S) && Readable(VariableAccess(x), S.names, Defined(S.logs[S.l]))
    requires TableOk(S.F, T') && ReadOk(S.F, x, S.l, v, S.T, T')
    ensures FillOk(S.(T := T')) && v in T'.variables
    ensures Pushed(S, stack, S.(T := T'), stack + [VariableAccess(T'.variables[v])], VariableAccess(x))
  {
    FillingRead(S.F, S.T, T', S.l, S.logs, S.constants, x, v);
  }

  // The source's instructions of a log.
  predicate Renames(log: seq<Renaming>, instrs: seq<Instr>) {
    |log| == |instrs| && forall i | 0 <= i < |log| :: log[i].source == instrs[i]
  }

  // What one instruction of a block may be: the pass rejects WHILE and GOTO.
  ghost predicate Renamable(i: Instr, names: seq<string>, defined: map<string, int>) {
    match i
    case Assign(x, e) => !IsConstantName(x) && Readable(e, names, defined)
    case Havoc(x) => !IsConstantName(x)
    case IfGoto(e, _, _) => Readable(e, names, defined)
    case _ => false
  }

  function DefinedBy(instrs: seq<Instr>): map<string, int> {
    if instrs == [] then map[] else
      match instrs[|instrs| - 1]
      case Assign(x, _) => DefinedBy(instrs[..|instrs| - 1])[x := 0]
      case Havoc(x) => DefinedBy(instrs[..|instrs| - 1])[x := 0]
      case _ => DefinedBy(instrs[..|instrs| - 1])
  }

  ghost predicate BlockRenamable(instrs: seq<Instr>, names: seq<string>) {
    instrs != [] && forall i | 0 <= i < |instrs| :: Renamable(instrs[i], names, DefinedBy(instrs[..i]))
  }

  lemma {:induction false} ReadableKeys(e: Expr, names: seq<string>, a: map<string, int>, b: map<string, int>)
    requires Readable(e, names, a) && a.Keys == b.Keys
    ensures Readable(e, names, b)
  {
    match e
    case VariableAccess(x) => assert x in a.Keys <==> x in b.Keys;
    case UnaryExpression(_, c) => ReadableKeys(c, names, a, b);
    case BinaryExpression(_, c, d) => ReadableKeys(c, names, a, b); ReadableKeys(d, names, a, b);
    case _ =>
  }
}
