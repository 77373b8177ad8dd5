// Three-address code: nested operands are moved to temporaries
// (ahorn/src/pass/tac/encoder.cpp and ahorn/src/pass/tac/tac_pass.cpp).

module Tac {
  import opened Ir
  import opened Machines
  import opened Cfg

  // ---------- names of temporaries ----------

  function Digits(n: nat): string {
    var d := ['0', '1', '2', '3', '4', '5', '6', '7', '8', '9'][n % 10];
    if n < 10 then [d] else Digits(n / 10) + [d]
  }

  lemma {:induction false} DigitsInjective(m: nat, n: nat)
    requires Digits(m) == Digits(n)
    ensures m == n
    decreases m
  {
    var a, b := Digits(m), Digits(n);
    assert a[|a| - 1] == b[|b| - 1];
    assert m % 10 == n % 10;
    if m >= 10 && n >= 10 {
      assert a[..|a| - 1] == Digits(m / 10) && b[..|b| - 1] == Digits(n / 10);
      DigitsInjective(m / 10, n / 10);
    } else if m >= 10 {
      assert |b| == 1;
      DigitsNotEmpty(m / 10);
    } else if n >= 10 {
      assert |a| == 1;
      DigitsNotEmpty(n / 10);
    }
  }

  lemma {:induction false} DigitsNotEmpty(n: nat)
    ensures Digits(n) != []
  {
  }

  function Temp(n: nat): string {
    "temp" + Digits(n)
  }

  lemma {:induction false} TempInjective(m: nat, n: nat)
    requires Temp(m) == Temp(n)
    ensures m == n
  {
    assert Digits(m) == Temp(m)[4..] && Digits(n) == Temp(n)[4..];
    DigitsInjective(m, n);
  }

  ghost predicate IsTemp(x: string) {
    exists n: nat :: x == Temp(n)
  }

  // A temporary with a number in [lo, hi).
  ghost predicate TempIn(x: string, lo: nat, hi: nat) {
    exists n: nat :: lo <= n < hi && x == Temp(n)
  }

  lemma {:induction false} TempApart(x: string, a: nat, b: nat, c: nat, d: nat)
    requires TempIn(x, a, b) && b <= c
    ensures IsTemp(x) && !TempIn(x, c, d)
  {
    var m: nat :| a <= m < b && x == Temp(m);
    forall n: nat | c <= n < d ensures x != Temp(n) {
      if x == Temp(n) { TempInjective(m, n); }
    }
  }

  // ---------- expressions ----------

  function FreeVars(e: Expr): set<string> {
    match e
    case VariableAccess(x) => {x}
    case UnaryExpression(_, a) => FreeVars(a)
    case BinaryExpression(_, l, r) => FreeVars(l) + FreeVars(r)
    case _ => {}
  }

  lemma {:induction false} EvalFrame(env: Env, e: Expr, a: Store, b: Store)
    requires forall x | x in FreeVars(e) :: Lookup(a, x) == Lookup(b, x)
    ensures Eval(env, e, a) == Eval(env, e, b)
  {
    match e
    case UnaryExpression(_, o) => EvalFrame(env, o, a, b);
    case BinaryExpression(_, l, r) => EvalFrame(env, l, a, b); EvalFrame(env, r, a, b);
    case _ =>
  }

  predicate IsOperation(e: Expr) {
    e.BinaryExpression? || e.UnaryExpression?
  }

  // Three-address form: a binary operator has atomic operands, a unary one has no binary below it.
  predicate IsTac(e: Expr) {
    match e
    case BinaryExpression(_, l, r) => !IsOperation(l) && !IsOperation(r)
    case UnaryExpression(_, a) => !a.BinaryExpression? && IsTac(a)
    case _ => true
  }

  // The encoder has no case for a nondeterministic constant.
  predicate Encodable(e: Expr) {
    match e
    case NondeterministicConstant => false
    case UnaryExpression(_, a) => Encodable(a)
    case BinaryExpression(_, l, r) => Encodable(l) && Encodable(r)
    case _ => true
  }

  // ---------- flattening ----------

  // The expression that is left, the assignments in front of it, and the next temporary.
  datatype Flat = Flat(e: Expr, ins: seq<Instr>, next: nat)

  function Hoist(f: Flat): Flat {
    Flat(VariableAccess(Temp(f.next)), f.ins + [Assign(Temp(f.next), f.e)], f.next + 1)
  }

  function HoistOperation(f: Flat): Flat {
    if IsOperation(f.e) then Hoist(f) else f
  }

  function Flatten(e: Expr, n: nat): Flat {
    match e
    case BinaryExpression(op, left, right) =>
      var l := HoistOperation(Flatten(left, n));
      var r := HoistOperation(Flatten(right, l.next));
      Flat(BinaryExpression(op, l.e, r.e), l.ins + r.ins, r.next)
    case UnaryExpression(op, operand) =>
      var a := Flatten(operand, n);
      var h := if a.e.BinaryExpression? then Hoist(a) else a;
      Flat(UnaryExpression(op, h.e), h.ins, h.next)
    case _ => Flat(e, [], n)
  }

  // Only temporaries in [lo, hi) differ.
  ghost predicate Untouched(a: State, b: State, lo: nat, hi: nat) {
    a.consumed == b.consumed && forall x | !TempIn(x, lo, hi) :: Lookup(a.vars, x) == Lookup(b.vars, x)
  }

  // `f` computes in front, and leaves behind, exactly the value of `e`.
  ghost predicate Sound(env: Env, e: Expr, n: nat, f: Flat, st: State) {
    && n <= f.next
    && Untouched(st, RunBlock(env, f.ins, st), n, f.next)
    && Eval(env, f.e, RunBlock(env, f.ins, st).vars) == Eval(env, e, st.vars)
    && forall x | x in FreeVars(f.e) :: x in FreeVars(e) || TempIn(x, n, f.next)
  }

  lemma {:induction false} RunBlockAppend(env: Env, a: seq<Instr>, b: seq<Instr>, st: State)
    ensures RunBlock(env, a + b, st) == RunBlock(env, b, RunBlock(env, a, st))
  {
    if a == [] {
      assert a + b == b;
    } else {
      assert (a + b)[1..] == a[1..] + b;
      RunBlockAppend(env, a[1..], b, Effect(env, a[0], st));
    }
  }

  lemma {:induction false} HoistSound(env: Env, e: Expr, n: nat, f: Flat, st: State)
    requires Sound(env, e, n, f, st)
    ensures Sound(env, e, n, Hoist(f), st)
  {
    var t, mid := Temp(f.next), RunBlock(env, f.ins, st);
    var i := Assign(t, f.e);
    RunBlockAppend(env, f.ins, [i], st);
    assert [i][1..] == [];
    assert RunBlock(env, [i], mid) == RunBlock(env, [], Effect(env, i, mid)) == Effect(env, i, mid);
    forall x | !TempIn(x, n, f.next + 1) ensures !TempIn(x, n, f.next) && x != t {}
  }

  lemma {:induction false} FlattenGrows(e: Expr, n: nat)
    ensures n <= Flatten(e, n).next
  {
    match e
    case BinaryExpression(_, left, right) =>
      FlattenGrows(left, n);
      FlattenGrows(right, HoistOperation(Flatten(left, n)).next);
    case UnaryExpression(_, operand) => FlattenGrows(operand, n);
    case _ =>
  }

  // The expression reads none of these temporaries.
  ghost predicate Avoids(e: Expr, lo: nat, hi: nat) {
    forall x | x in FreeVars(e) :: !TempIn(x, lo, hi)
  }

  lemma {:induction false} AvoidsLess(e: Expr, lo: nat, hi: nat, lo': nat, hi': nat)
    requires Avoids(e, lo, hi) && lo <= lo' && hi' <= hi
    ensures Avoids(e, lo', hi')
  {
  }

  // The meaning of an expression that reads none of the emitted temporaries is kept: run the
  // assignments, then evaluate what is left.
  lemma {:induction false} FlattenSound(env: Env, e: Expr, n: nat, st: State)
    requires Avoids(e, n, Flatten(e, n).next)
    ensures Sound(env, e, n, Flatten(e, n), st)
  {
    match e
    case BinaryExpression(op, left, right) =>
      var hi, mid' := Flatten(e, n).next, HoistOperation(Flatten(left, n)).next;
      FlattenGrows(left, n);
      FlattenGrows(right, mid');
      assert Avoids(left, n, hi) && Avoids(right, n, hi);
      AvoidsLess(left, n, hi, n, Flatten(left, n).next);
      AvoidsLess(right, n, hi, mid', Flatten(right, mid').next);
      FlattenSound(env, left, n, st);
      var l := HoistOperation(Flatten(left, n));
      HoistSound(env, left, n, Flatten(left, n), st);
      var mid := RunBlock(env, l.ins, st);
      FlattenSound(env, right, l.next, mid);
      HoistSound(env, right, l.next, Flatten(right, l.next), mid);
      var r := HoistOperation(Flatten(right, l.next));
      RunBlockAppend(env, l.ins, r.ins, st);
      JoinSound(env, op, left, right, n, l, r, st);
    case UnaryExpression(op, operand) =>
      FlattenGrows(operand, n);
      AvoidsLess(operand, n, Flatten(e, n).next, n, Flatten(operand, n).next);
      FlattenSound(env, operand, n, st);
      HoistSound(env, operand, n, Flatten(operand, n), st);
    case _ =>
  }

  // A program variable with the name of a temporary would be overwritten: (1 > 0) = temp0 becomes
  // temp0 := 1 > 0; temp0 = temp0.
  lemma {:induction false} TempClash(env: Env)
    ensures var e := BinaryExpression(Equality, BinaryExpression(GreaterThan, IntegerConstant(1),
            IntegerConstant(0)), VariableAccess("temp0"));
            var st := State(map["temp0" := 0], 0);
            Eval(env, e, st.vars) == 0 && Eval(env, Flatten(e, 0).e, RunBlock(env, Flatten(e, 0).ins, st).vars) == 1
  {
    var greater := BinaryExpression(GreaterThan, IntegerConstant(1), IntegerConstant(0));
    var e := BinaryExpression(Equality, greater, VariableAccess("temp0"));
    var st := State(map["temp0" := 0], 0);
    assert Temp(0) == "temp0";
    assert Flatten(greater, 0) == Flat(greater, [], 0);
    assert Flatten(e, 0).ins == [Assign("temp0", greater)];
    assert Flatten(e, 0).e == BinaryExpression(Equality, VariableAccess("temp0"), VariableAccess("temp0"));
    assert [Assign("temp0", greater)][1..] == [];
    assert RunBlock(env, Flatten(e, 0).ins, st) == RunBlock(env, [], Effect(env, Assign("temp0", greater), st));
    assert Eval(env, IntegerConstant(1), st.vars) == 1 && Eval(env, IntegerConstant(0), st.vars) == 0;
    assert Eval(env, greater, st.vars) == 1;
    var after := RunBlock(env, Flatten(e, 0).ins, st).vars;
    assert Lookup(after, "temp0") == 1 && Eval(env, VariableAccess("temp0"), after) == 1;
  }

  // The right operand's assignments disturb neither the left result nor the right operand's inputs.
  lemma {:induction false} JoinSound(env: Env, op: BinaryOperator, left: Expr, right: Expr, n: nat, l: Flat, r: Flat,
        st: State)
    requires Avoids(left, n, r.next) && Avoids(right, n, r.next)
    requires Sound(env, left, n, l, st) && Sound(env, right, l.next, r, RunBlock(env, l.ins, st))
    ensures Sound(env, BinaryExpression(op, left, right), n,
            Flat(BinaryExpression(op, l.e, r.e), l.ins + r.ins, r.next), st)
  {
    var mid := RunBlock(env, l.ins, st);
    var end := RunBlock(env, r.ins, mid);
    RunBlockAppend(env, l.ins, r.ins, st);
    forall x | x in FreeVars(l.e) ensures Lookup(mid.vars, x) == Lookup(end.vars, x) {
      assert TempIn(x, l.next, r.next) ==> TempIn(x, n, r.next);
      if TempIn(x, n, l.next) { TempApart(x, n, l.next, l.next, r.next); }
    }
    EvalFrame(env, l.e, mid.vars, end.vars);
    forall x | x in FreeVars(right) ensures Lookup(st.vars, x) == Lookup(mid.vars, x) {
      assert TempIn(x, n, l.next) ==> TempIn(x, n, r.next);
    }
    EvalFrame(env, right, st.vars, mid.vars);
    forall x | !TempIn(x, n, r.next) ensures !TempIn(x, n, l.next) && !TempIn(x, l.next, r.next) {}
    forall x | TempIn(x, n, l.next) || TempIn(x, l.next, r.next) ensures TempIn(x, n, r.next) {}
  }

  // Assignments in three-address form to the temporaries from n on.
  predicate TacRun(ins: seq<Instr>, n: nat) {
    forall i | 0 <= i < |ins| :: ins[i].Assign? && ins[i].v == Temp(n + i) && IsTac(ins[i].e)
  }

  lemma {:induction false} TacRunAppend(a: seq<Instr>, b: seq<Instr>, n: nat)
    requires TacRun(a, n) && TacRun(b, n + |a|)
    ensures TacRun(a + b, n)
  {
    forall i | 0 <= i < |a + b|
      ensures (a + b)[i].Assign? && (a + b)[i].v == Temp(n + i) && IsTac((a + b)[i].e)
    {
      if i >= |a| { assert (a + b)[i] == b[i - |a|]; }
    }
  }

  ghost predicate TacFlat(f: Flat, n: nat) {
    IsTac(f.e) && f.next == n + |f.ins| && TacRun(f.ins, n)
  }

  lemma {:induction false} HoistIsTac(f: Flat, n: nat)
    requires TacFlat(f, n)
    ensures TacFlat(Hoist(f), n)
  {
    TacRunAppend(f.ins, [Assign(Temp(f.next), f.e)], n);
  }

  // Everything emitted is in three-address form and assigns a fresh temporary.
  lemma {:induction false} FlattenIsTac(e: Expr, n: nat)
    requires Encodable(e)
    ensures TacFlat(Flatten(e, n), n)
  {
    match e
    case BinaryExpression(op, left, right) =>
      var l := HoistOperation(Flatten(left, n));
      FlattenIsTac(left, n);
      HoistIsTac(Flatten(left, n), n);
      FlattenIsTac(right, l.next);
      HoistIsTac(Flatten(right, l.next), l.next);
      TacRunAppend(l.ins, HoistOperation(Flatten(right, l.next)).ins, n);
    case UnaryExpression(op, operand) =>
      FlattenIsTac(operand, n);
      HoistIsTac(Flatten(operand, n), n);
    case _ =>
  }

  // ---------- the pass ----------

  function At(m: map<int, seq<Instr>>, l: int): seq<Instr> {
    if l in m then m[l] else []
  }

  function Appended(m: map<int, seq<Instr>>, l: int, ins: seq<Instr>): map<int, seq<Instr>> {
    if ins == [] then m else m[l := At(m, l) + ins]
  }

  lemma {:induction false} AppendedTwice(m: map<int, seq<Instr>>, l: int, a: seq<Instr>, b: seq<Instr>)
    ensures Appended(Appended(m, l, a), l, b) == Appended(m, l, a + b)
  {
    assert At(m, l) + a + b == At(m, l) + (a + b);
    if a == [] { assert a + b == b; }
    if b == [] { assert a + b == a; }
  }

  // The code of one instruction, and the next temporary.
  function TacInstr(i: Instr, n: nat): (seq<Instr>, nat) {
    match i
    case Assign(v, e) =>
      var f := Flatten(e, n);
      (f.ins + [Assign(v, f.e)], f.next)
    case IfGoto(e, t, f) =>
      var h := HoistOperation(Flatten(e, n));
      (h.ins + [IfGoto(h.e, t, f)], h.next)
    case _ => ([i], n)
  }

  function TacBlock(instrs: seq<Instr>, n: nat): (seq<Instr>, nat) {
    if instrs == [] then ([], n)
    else
      var (a, n1) := TacInstr(instrs[0], n);
      var (b, n2) := TacBlock(instrs[1..], n1);
      (a + b, n2)
  }

  // The first k instructions of a block gave `ins`, and n is the next temporary.
  predicate BlockSoFar(instrs: seq<Instr>, start: nat, k: nat, n: nat, ins: seq<Instr>)
    requires k <= |instrs|
  {
    TacBlock(instrs, start) == (ins + TacBlock(instrs[k..], n).0, TacBlock(instrs[k..], n).1)
  }

  lemma {:induction false} BlockStart(instrs: seq<Instr>, n: nat)
    ensures BlockSoFar(instrs, n, 0, n, [])
  {
    assert instrs[0..] == instrs && [] + TacBlock(instrs, n).0 == TacBlock(instrs, n).0;
  }

  lemma {:induction false} BlockProceeds(instrs: seq<Instr>, start: nat, k: nat, n: nat, ins: seq<Instr>)
    requires k < |instrs| && BlockSoFar(instrs, start, k, n, ins)
    ensures var (one, next) := TacInstr(instrs[k], n); BlockSoFar(instrs, start, k + 1, next, ins + one)
  {
    var (one, next) := TacInstr(instrs[k], n);
    var rest := TacBlock(instrs[k + 1..], next).0;
    assert instrs[k..][0] == instrs[k] && instrs[k..][1..] == instrs[k + 1..];
    assert ins + (one + rest) == (ins + one) + rest;
  }

  lemma {:induction false} BlockEnd(instrs: seq<Instr>, start: nat, n: nat, ins: seq<Instr>)
    requires BlockSoFar(instrs, start, |instrs|, n, ins)
    ensures TacBlock(instrs, start) == (ins, n)
  {
    assert instrs[|instrs|..] == [] && ins + [] == ins;
  }

  // The pass has no case for loops and gotos.
  predicate Accepted(i: Instr) {
    match i
    case Assign(_, e) => Encodable(e)
    case IfGoto(e, _, _) => Encodable(e)
    case Call(_, _, _, _) => true
    case Havoc(_) => true
    case _ => false
  }

  predicate AcceptedBlock(instrs: seq<Instr>) {
    instrs != [] && forall i | 0 <= i < |instrs| :: Accepted(instrs[i])
  }

  // The names of the first n temporaries.
  function Temps(n: nat): seq<string> {
    seq(n, i requires 0 <= i < n => Temp(i))
  }

  class TacPass {
    var value: nat                                   // number of the next temporary
    var temporaryVariables: seq<string>
    var labelToInstructions: map<int, seq<Instr>>
    var currentLabel: int
    var expressionStack: seq<Expr>                   // the encoder's stack, the top is the last element

    constructor ()
      ensures value == 0 && Listed() && labelToInstructions == map[] && expressionStack == []
    {
      value, temporaryVariables, labelToInstructions, currentLabel, expressionStack := 0, [], map[], 0, [];
    }

    // The list of temporaries holds each of them once.
    ghost predicate Listed()
      reads this
    {
      temporaryVariables == Temps(value)
    }

    method InsertInstructionAtLabel(i: Instr, l: int)
      modifies `labelToInstructions
      ensures labelToInstructions == Appended(old(labelToInstructions), l, [i])
    {
      if l !in labelToInstructions {
        labelToInstructions := labelToInstructions[l := [i]];
        assert [] + [i] == [i];
      } else {
        labelToInstructions := labelToInstructions[l := labelToInstructions[l] + [i]];
      }
    }

    method IntroduceTemporaryVariableExpression(e: Expr) returns (t: Expr)
      requires Listed()
      modifies `value, `temporaryVariables, `labelToInstructions
      ensures Listed()
      ensures t == VariableAccess(Temp(old(value))) && value == old(value) + 1
      ensures temporaryVariables == old(temporaryVariables) + [Temp(old(value))]
      ensures labelToInstructions == Appended(old(labelToInstructions), currentLabel, [Assign(Temp(old(value)), e)])
    {
      var name := Temp(value);
      value := value + 1;
      temporaryVariables := temporaryVariables + [name];
      assert Temps(value) == Temps(value - 1) + [name];
      t := VariableAccess(name);
      InsertInstructionAtLabel(Assign(name, e), currentLabel);
    }

    method Pop() returns (e: Expr)
      requires expressionStack != []
      modifies `expressionStack
      ensures expressionStack == old(expressionStack[..|expressionStack| - 1])
      ensures e == old(expressionStack[|expressionStack| - 1])
    {
      e := expressionStack[|expressionStack| - 1];
      expressionStack := expressionStack[..|expressionStack| - 1];
    }

    method Encode(e: Expr) returns (r: Expr)
      requires Encodable(e) && expressionStack == []
      requires Listed()
      modifies this
      ensures Listed()
      ensures expressionStack == [] && currentLabel == old(currentLabel)
      ensures var f := Flatten(e, old(value));
              r == f.e && value == f.next && labelToInstructions == Appended(old(labelToInstructions), currentLabel,
                    f.ins)
    {
      Visit(e);
      r := Pop();
    }

    // The visits communicate by the stack only: a visit nets one expression.
    method Visit(e: Expr)
      requires Encodable(e)
      requires Listed()
      modifies this
      ensures Listed()
      ensures var f := Flatten(e, old(value));
              && expressionStack == old(expressionStack) + [f.e] && value == f.next && currentLabel == old(currentLabel)
              && labelToInstructions == Appended(old(labelToInstructions), currentLabel, f.ins)
      decreases e, 1
    {
      match e
      case BinaryExpression(op, left, right) => VisitBinary(e, op, left, right);
      case UnaryExpression(op, operand) =>
        ghost var f := Flatten(operand, value);
        Visit(operand);
        var encoded := Pop();
        if encoded.BinaryExpression? {
          var temporary := IntroduceTemporaryVariableExpression(encoded);
          AppendedTwice(old(labelToInstructions), currentLabel, f.ins, [Assign(Temp(f.next), f.e)]);
          expressionStack := expressionStack + [UnaryExpression(op, temporary)];
        } else {
          expressionStack := expressionStack + [UnaryExpression(op, encoded)];
        }
      case IntegerConstant(_) => expressionStack := expressionStack + [e];
      case BooleanConstant(_) => expressionStack := expressionStack + [e];
      case VariableAccess(_) => expressionStack := expressionStack + [e];
      case NondeterministicConstant => assert false;
    }

    method VisitBinary(e: Expr, op: BinaryOperator, left: Expr, right: Expr)
      requires e == BinaryExpression(op, left, right) && Encodable(e)
      requires Listed()
      modifies this
      ensures Listed()
      ensures var f := Flatten(e, old(value));
              && expressionStack == old(expressionStack) + [f.e] && value == f.next && currentLabel == old(currentLabel)
              && labelToInstructions == Appended(old(labelToInstructions), currentLabel, f.ins)
      decreases e, 0
    {
      ghost var l := HoistOperation(Flatten(left, value));
      ghost var r := HoistOperation(Flatten(right, l.next));
      var leftExpression, introducedLeft := VisitOperand(left);
      ghost var mid := labelToInstructions;
      var rightExpression, introducedRight := VisitOperand(right);
      AppendedTwice(old(labelToInstructions), currentLabel, l.ins, r.ins);
      if introducedLeft && introducedRight {
        var temporaryRight := Pop();
        var temporaryLeft := Pop();
        expressionStack := expressionStack + [BinaryExpression(op, temporaryLeft, temporaryRight)];
      } else if introducedLeft && !introducedRight {
        var temporaryLeft := Pop();
        expressionStack := expressionStack + [BinaryExpression(op, temporaryLeft, rightExpression)];
      } else if !introducedLeft && introducedRight {
        var temporaryRight := Pop();
        expressionStack := expressionStack + [BinaryExpression(op, leftExpression, temporaryRight)];
      } else {
        AtomsKept(left, old(value));
        AtomsKept(right, l.next);
        expressionStack := expressionStack + [e];
      }
    }

    // An operand that is an operation is replaced by a temporary, which is left on the stack.
    method VisitOperand(operand: Expr) returns (encoded: Expr, introduced: bool)
      requires Encodable(operand)
      requires Listed()
      modifies this
      ensures Listed()
      ensures var f := Flatten(operand, old(value));
              var h := HoistOperation(f);
              && introduced == IsOperation(f.e) && encoded == f.e && value == h.next
                    && currentLabel == old(currentLabel)
              && expressionStack == (if introduced then old(expressionStack) + [h.e] else old(expressionStack))
              && labelToInstructions == Appended(old(labelToInstructions), currentLabel, h.ins)
      decreases operand, 2
    {
      ghost var f := Flatten(operand, value);
      Visit(operand);
      encoded := Pop();
      introduced := false;
      if encoded.BinaryExpression? || encoded.UnaryExpression? {
        introduced := true;
        var temporary := IntroduceTemporaryVariableExpression(encoded);
        AppendedTwice(old(labelToInstructions), currentLabel, f.ins, [Assign(Temp(f.next), f.e)]);
        expressionStack := expressionStack + [temporary];
      }
    }

    method VisitInstruction(i: Instr)
      requires Accepted(i) && expressionStack == []
      requires Listed()
      modifies this
      ensures Listed()
      ensures expressionStack == [] && currentLabel == old(currentLabel)
      ensures var (ins, next) := TacInstr(i, old(value));
              value == next && labelToInstructions == Appended(old(labelToInstructions), currentLabel, ins)
    {
      match i
      case Assign(v, e) =>
        ghost var f := Flatten(e, value);
        var encoded := Encode(e);
        InsertInstructionAtLabel(Assign(v, encoded), currentLabel);
        AppendedTwice(old(labelToInstructions), currentLabel, f.ins, [Assign(v, f.e)]);
      case IfGoto(e, t, f) =>
        ghost var flat := Flatten(e, value);
        ghost var h := HoistOperation(flat);
        var encoded := Encode(e);
        if encoded.UnaryExpression? || encoded.BinaryExpression? {
          encoded := IntroduceTemporaryVariableExpression(encoded);
          AppendedTwice(old(labelToInstructions), currentLabel, flat.ins, [Assign(Temp(flat.next), flat.e)]);
        }
        InsertInstructionAtLabel(IfGoto(encoded, t, f), currentLabel);
        AppendedTwice(old(labelToInstructions), currentLabel, h.ins, [IfGoto(h.e, t, f)]);
      case Call(_, _, _, _) => InsertInstructionAtLabel(i, currentLabel);
      case Havoc(_) => InsertInstructionAtLabel(i, currentLabel);
      case WhileGoto(_, _, _) => assert false;
      case Goto(_) => assert false;
    }

    // The instructions of one vertex.
    method VisitVertex(l: int, instrs: seq<Instr>)
      requires AcceptedBlock(instrs) && expressionStack == []
      requires Listed()
      modifies this
      ensures Listed()
      ensures expressionStack == []
      ensures var (ins, next) := TacBlock(instrs, old(value));
              value == next && labelToInstructions == Appended(old(labelToInstructions), l, ins)
    {
      currentLabel := l;
      ghost var ins: seq<Instr>, n := [], value;
      BlockStart(instrs, n);
      for k := 0 to |instrs|
        invariant Listed() && expressionStack == [] && currentLabel == l
        invariant labelToInstructions == Appended(old(labelToInstructions), l, ins)
        invariant BlockSoFar(instrs, n, k, value, ins)
      {
        ghost var one := TacInstr(instrs[k], value).0;
        BlockProceeds(instrs, n, k, value, ins);
        AppendedTwice(old(labelToInstructions), l, ins, one);
        VisitInstruction(instrs[k]);
        ins := ins + one;
      }
      BlockEnd(instrs, n, value, ins);
    }

    method RewriteVertex(l: int, v: Vertex) returns (w: Vertex)
      requires (v.Regular? ==> AcceptedBlock(v.instrs)) && l !in labelToInstructions && expressionStack == []
              && Listed()
      modifies this
      ensures w == Written(v, old(value)) && value == NextTemp(v, old(value))
      ensures expressionStack == [] && Listed() && labelToInstructions.Keys <= old(labelToInstructions.Keys) + {l}
    {
      match v
      case Regular(instrs) =>
        ghost var n := value;
        VisitVertex(l, instrs);
        TacBlockNotEmpty(instrs, n);
        assert [] + TacBlock(instrs, n).0 == TacBlock(instrs, n).0;
        w := Regular(labelToInstructions[l]);
      case EntryVertex => w := EntryVertex;
      case ExitVertex => w := ExitVertex;
    }

    // Every regular vertex gets its flattened instructions, with temporaries of its own; the edges stay.
    method Apply(g: Graph) returns (r: Graph, ghost starts: map<int, nat>)
      requires AcceptedGraph(g) && labelToInstructions == map[] && expressionStack == [] && Listed()
      modifies this
      ensures IsTacOf(g, r) && Listed()
      ensures |temporaryVariables| == value && forall k | 0 <= k < value :: temporaryVariables[k] == Temp(k)
      ensures starts.Keys == g.vertices.Keys && Numbered(g.vertices, r.vertices, starts, g.vertices.Keys, value)
    {
      var labelToVertex: map<int, Vertex> := map[];
      var todo := g.vertices.Keys;
      ghost var done: set<int> := {};
      starts := map[];
      NothingNumbered(g.vertices, value);
      while exists l :: l in todo
        invariant todo !! done && todo + done == g.vertices.Keys && expressionStack == [] && Listed()
        invariant labelToVertex.Keys == starts.Keys == done && labelToInstructions.Keys <= done
        invariant Numbered(g.vertices, labelToVertex, starts, done, value)
        decreases todo
      {
        var l :| l in todo;
        ghost var n := value;
        assert g.vertices[l].Regular? ==> AcceptedBlock(g.vertices[l].instrs);
        var v := RewriteVertex(l, g.vertices[l]);
        OneMoreNumbered(g.vertices, labelToVertex, starts, done, n, l, v, value);
        labelToVertex, starts := labelToVertex[l := v], starts[l := n];
        todo, done := todo - {l}, done + {l};
      }
      assert done == g.vertices.Keys;
      labelToInstructions := map[];
      r := Graph(labelToVertex, g.edges, g.entry, g.exit);
      NumberedIsTac(g, r, starts, value);
    }
  }

  // The number after the temporaries of a vertex.
  function NextTemp(v: Vertex, n: nat): nat {
    if v.Regular? then TacBlock(v.instrs, n).1 else n
  }

  // The vertices at these labels are rewritten with temporaries from their start on, and no two of
  // them share a temporary.
  ghost predicate Numbered(vertices: map<int, Vertex>, written: map<int, Vertex>, starts: map<int, nat>,
        labels: set<int>, next: nat) {
    && (forall l {:trigger NumberedAt(vertices, written, starts, next, l)} | l in labels ::
          NumberedAt(vertices, written, starts, next, l))
    && (forall k, l {:trigger SharesNone(vertices, starts, k, l)} | k in labels && l in labels && k != l ::
          SharesNone(vertices, starts, k, l))
  }

  predicate NumberedAt(vertices: map<int, Vertex>, written: map<int, Vertex>, starts: map<int, nat>, next: nat,
        l: int) {
    && l in vertices && l in written && l in starts
    && written[l] == Written(vertices[l], starts[l]) && starts[l] <= NextTemp(vertices[l], starts[l]) <= next
  }

  predicate SharesNone(vertices: map<int, Vertex>, starts: map<int, nat>, k: int, l: int) {
    && k in vertices && k in starts && l in vertices && l in starts
    && (NextTemp(vertices[k], starts[k]) <= starts[l] || NextTemp(vertices[l], starts[l]) <= starts[k])
  }

  function Written(v: Vertex, n: nat): Vertex {
    if v.Regular? then Regular(TacBlock(v.instrs, n).0) else v
  }

  lemma {:induction false} NothingNumbered(vertices: map<int, Vertex>, next: nat)
    ensures Numbered(vertices, map[], map[], {}, next)
  {
  }

  lemma {:induction false} OneMoreNumbered(vertices: map<int, Vertex>, written: map<int, Vertex>,
        starts: map<int, nat>, labels: set<int>, n: nat, l: int, w: Vertex, next: nat)
    requires Numbered(vertices, written, starts, labels, n) && l !in labels && l in vertices
    requires w == Written(vertices[l], n) && next == NextTemp(vertices[l], n)
    ensures Numbered(vertices, written[l := w], starts[l := n], labels + {l}, next)
  {
    if vertices[l].Regular? {
      TacBlockGrows(vertices[l].instrs, n);
    }
    var starts' := starts[l := n];
    forall k | k in labels + {l} ensures NumberedAt(vertices, written[l := w], starts', next, k) {
      if k != l { assert NumberedAt(vertices, written, starts, n, k); }
    }
    forall k, m | k in labels + {l} && m in labels + {l} && k != m ensures SharesNone(vertices, starts', k, m) {
      if k != l { assert NumberedAt(vertices, written, starts, n, k); }
      if m != l { assert NumberedAt(vertices, written, starts, n, m); }
      if k != l && m != l { assert SharesNone(vertices, starts, k, m); }
    }
  }

  lemma {:induction false} TacBlockGrows(instrs: seq<Instr>, n: nat)
    ensures n <= TacBlock(instrs, n).1
  {
    if instrs != [] {
      match instrs[0]
      case Assign(_, e) =>
        FlattenGrows(e, n);
        TacBlockGrows(instrs[1..], TacInstr(instrs[0], n).1);
      case IfGoto(e, _, _) =>
        FlattenGrows(e, n);
        TacBlockGrows(instrs[1..], TacInstr(instrs[0], n).1);
      case _ => TacBlockGrows(instrs[1..], n);
    }
  }

  lemma {:induction false} NumberedIsTac(g: Graph, r: Graph, starts: map<int, nat>, next: nat)
    requires Numbered(g.vertices, r.vertices, starts, g.vertices.Keys, next)
    requires r.entry == g.entry && r.exit == g.exit && r.edges == g.edges && r.vertices.Keys == g.vertices.Keys
    ensures IsTacOf(g, r)
  {
    forall l | l in g.vertices ensures TacVertex(g.vertices[l], r.vertices[l]) {
      assert NumberedAt(g.vertices, r.vertices, starts, next, l);
    }
  }

  lemma {:induction false} TacBlockNotEmpty(instrs: seq<Instr>, n: nat)
    requires instrs != []
    ensures TacBlock(instrs, n).0 != []
  {
  }

  predicate AcceptedGraph(g: Graph) {
    forall l | l in g.vertices && g.vertices[l].Regular? :: AcceptedBlock(g.vertices[l].instrs)
  }

  ghost predicate TacVertex(v: Vertex, w: Vertex) {
    if v.Regular? then exists n: nat :: w == Regular(TacBlock(v.instrs, n).0) else w == v
  }

  ghost predicate IsTacOf(g: Graph, r: Graph) {
    && r.entry == g.entry && r.exit == g.exit && r.edges == g.edges && r.vertices.Keys == g.vertices.Keys
    && forall l | l in g.vertices :: TacVertex(g.vertices[l], r.vertices[l])
  }

  // ---------- a pass that preserves runs ----------

  // States that differ in temporaries only.
  ghost predicate Same(a: State, b: State) {
    a.consumed == b.consumed && forall x | !IsTemp(x) :: Lookup(a.vars, x) == Lookup(b.vars, x)
  }

  // No callee reads a temporary of its caller.
  ghost predicate CalleesIgnoreTemps(env: Env) {
    forall f: string, a: State, b: State | Same(a, b) :: Same(env.callee(f, a), env.callee(f, b))
  }

  ghost predicate ProgramExpr(e: Expr) {
    forall x | x in FreeVars(e) :: !IsTemp(x)
  }

  // The program has no variable named like a temporary.
  ghost predicate ProgramInstr(i: Instr) {
    match i
    case Assign(v, e) => !IsTemp(v) && ProgramExpr(e)
    case Havoc(v) => !IsTemp(v)
    case IfGoto(e, _, _) => ProgramExpr(e)
    case WhileGoto(e, _, _) => ProgramExpr(e)
    case _ => true
  }

  ghost predicate ProgramGraph(g: Graph) {
    forall l, k | l in g.vertices && g.vertices[l].Regular? && 0 <= k < |g.vertices[l].instrs| ::
            ProgramInstr(g.vertices[l].instrs[k])
  }

  lemma {:induction false} FlattenSame(env: Env, e: Expr, n: nat, a: State, b: State)
    requires ProgramExpr(e) && Same(a, b)
    ensures var f := HoistOperation(Flatten(e, n)); var g := Flatten(e, n);
            && Same(a, RunBlock(env, f.ins, b)) && Same(a, RunBlock(env, g.ins, b))
            && Eval(env, f.e, RunBlock(env, f.ins, b).vars) == Eval(env, e, a.vars)
            && Eval(env, g.e, RunBlock(env, g.ins, b).vars) == Eval(env, e, a.vars)
  {
    assert Avoids(e, n, Flatten(e, n).next) by {
      forall x | x in FreeVars(e) ensures !TempIn(x, n, Flatten(e, n).next) { assert !IsTemp(x); }
    }
    FlattenSound(env, e, n, b);
    HoistSound(env, e, n, Flatten(e, n), b);
    EvalFrame(env, e, a.vars, b.vars);
    var f := HoistOperation(Flatten(e, n));
    forall x | !IsTemp(x) ensures !TempIn(x, n, f.next) && !TempIn(x, n, Flatten(e, n).next) {}
  }

  lemma {:induction false} BlockBranchAppend(env: Env, a: seq<Instr>, b: seq<Instr>, st: State)
    requires b != []
    ensures BlockBranch(env, a + b, st) == BlockBranch(env, b, RunBlock(env, a, st))
  {
    if a == [] {
      assert a + b == b;
    } else {
      assert (a + b)[1..] == a[1..] + b;
      BlockBranchAppend(env, a[1..], b, Effect(env, a[0], st));
    }
  }

  lemma {:induction false} LastInstr(env: Env, ins: seq<Instr>, i: Instr, st: State)
    ensures RunBlock(env, ins + [i], st) == Effect(env, i, RunBlock(env, ins, st))
    ensures BlockBranch(env, ins + [i], st) == Branch(env, i, RunBlock(env, ins, st))
  {
    var mid := RunBlock(env, ins, st);
    RunBlockAppend(env, ins, [i], st);
    BlockBranchAppend(env, ins, [i], st);
    assert [i][1..] == [];
    assert RunBlock(env, [i], mid) == RunBlock(env, [], Effect(env, i, mid));
  }

  lemma {:induction false} TacInstrSound(env: Env, i: Instr, n: nat, a: State, b: State)
    requires CalleesIgnoreTemps(env) && Accepted(i) && ProgramInstr(i) && Same(a, b)
    ensures var ins := TacInstr(i, n).0;
            && Same(Effect(env, i, a), RunBlock(env, ins, b))
            && ins != [] && BlockBranch(env, ins, b) == Branch(env, i, a)
  {
    match i
    case Assign(v, e) =>
      var f := Flatten(e, n);
      FlattenSame(env, e, n, a, b);
      LastInstr(env, f.ins, Assign(v, f.e), b);
    case IfGoto(e, t, f) =>
      var h := HoistOperation(Flatten(e, n));
      FlattenSame(env, e, n, a, b);
      LastInstr(env, h.ins, IfGoto(h.e, t, f), b);
    case Havoc(_) =>
      LastInstr(env, [], i, b);
      assert [] + [i] == [i];
    case Call(_, _, _, _) =>
      LastInstr(env, [], i, b);
      assert [] + [i] == [i];
  }

  lemma {:induction false} TacBlockSound(env: Env, instrs: seq<Instr>, n: nat, a: State, b: State)
    requires CalleesIgnoreTemps(env) && AcceptedBlock(instrs) && Same(a, b)
    requires forall k | 0 <= k < |instrs| :: ProgramInstr(instrs[k])
    ensures var ins := TacBlock(instrs, n).0;
            && Same(RunBlock(env, instrs, a), RunBlock(env, ins, b))
            && ins != [] && BlockBranch(env, ins, b) == BlockBranch(env, instrs, a)
  {
    var (one, n1) := TacInstr(instrs[0], n);
    var rest := TacBlock(instrs[1..], n1).0;
    var a', b' := Effect(env, instrs[0], a), RunBlock(env, one, b);
    TacInstrSound(env, instrs[0], n, a, b);
    RunBlockAppend(env, one, rest, b);
    if |instrs| == 1 {
      assert one + rest == one;
      assert RunBlock(env, instrs, a) == RunBlock(env, [], a') == a';
    } else {
      TacBlockSound(env, instrs[1..], n1, a', b');
      BlockBranchAppend(env, one, rest, b);
    }
  }

  // Both graphs step in parallel, through the same vertices and states that differ in temporaries only.
  lemma {:induction false} TacStep(env: Env, g: Graph, r: Graph, l: int, a: State, b: State)
    requires CalleesIgnoreTemps(env) && AcceptedGraph(g) && ProgramGraph(g) && IsTacOf(g, r) && Same(a, b)
    ensures var c, d := StepAt(env, g, Config(l, a)), StepAt(env, r, Config(l, b)); c.pc == d.pc && Same(c.st, d.st)
  {
    if l in g.vertices && g.vertices[l].Regular? {
      assert TacVertex(g.vertices[l], r.vertices[l]);
      var instrs := g.vertices[l].instrs;
      var n: nat :| r.vertices[l] == Regular(TacBlock(instrs, n).0);
      assert AcceptedBlock(instrs);
      TacBlockSound(env, instrs, n, a, b);
    } else if l in g.vertices {
      assert TacVertex(g.vertices[l], r.vertices[l]);
    }
  }

  lemma {:induction false} TacRuns(env: Env, g: Graph, r: Graph, l: int, a: State, b: State, n: nat)
    requires CalleesIgnoreTemps(env) && AcceptedGraph(g) && ProgramGraph(g) && IsTacOf(g, r) && Same(a, b)
    ensures var c, d := Iterate(GraphStep(env, g), Config(l, a), n), Iterate(GraphStep(env, r), Config(l, b), n);
            c.pc == d.pc && Same(c.st, d.st)
    decreases n
  {
    if n > 0 {
      TacStep(env, g, r, l, a, b);
      var c, d := StepAt(env, g, Config(l, a)), StepAt(env, r, Config(l, b));
      TacRuns(env, g, r, c.pc, c.st, d.st, n - 1);
      assert c == Config(c.pc, c.st) && d == Config(d.pc, d.st);
    }
  }

  // The graph in three-address form takes a state to the same results, up to temporaries.
  lemma {:induction false} TacPreservesRuns(env: Env, g: Graph, r: Graph, st: State, t: State)
    requires CalleesIgnoreTemps(env) && AcceptedGraph(g) && ProgramGraph(g) && IsTacOf(g, r)
    ensures Computes(env, g, st, t) ==> exists u :: Same(t, u) && Computes(env, r, st, u)
    ensures Computes(env, r, st, t) ==> exists u :: Same(u, t) && Computes(env, g, st, u)
  {
    if Computes(env, g, st, t) {
      var n: nat :| Iterate(GraphStep(env, g), Config(g.entry, st), n) == Config(g.exit, t);
      TacRuns(env, g, r, g.entry, st, st, n);
      var d := Iterate(GraphStep(env, r), Config(g.entry, st), n);
      assert d == Config(r.exit, d.st) && Computes(env, r, st, d.st);
    }
    if Computes(env, r, st, t) {
      var n: nat :| Iterate(GraphStep(env, r), Config(r.entry, st), n) == Config(r.exit, t);
      TacRuns(env, g, r, g.entry, st, st, n);
      var c := Iterate(GraphStep(env, g), Config(g.entry, st), n);
      assert c == Config(g.exit, c.st) && Computes(env, g, st, c.st);
    }
  }

  lemma {:induction false} AtomsKept(e: Expr, n: nat)
    ensures !IsOperation(Flatten(e, n).e) ==> Flatten(e, n) == Flat(e, [], n)
  {
  }
}
