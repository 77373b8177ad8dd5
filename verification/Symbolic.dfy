// Symbolic states of one engine run: versioned names, expressions over them, execution contexts
// (ahorn/src/se/ahorn/context/state.cpp, ahorn/src/se/ahorn/execution/encoder.cpp).

module Symbolic {
  import opened Ir

  // x_<version>__<cycle>
  datatype Versioned = Versioned(name: string, version: nat, cycle: nat)

  datatype SExpr =
    | Constant(n: int)
    | Boolean(b: bool)
    | Symbol(v: Versioned)
    | Unary(op: UnaryOperator, a: SExpr)
    | Binary(bop: BinaryOperator, l: SExpr, r: SExpr)
    | Ite(c: SExpr, t: SExpr, f: SExpr)

  type Valuation = Versioned -> int
  type SymbolicStore = map<Versioned, SExpr>

  function Value(env: Env, e: SExpr, nu: Valuation): int {
    match e
    case Constant(n) => n
    case Boolean(b) => OfBool(b)
    case Symbol(v) => nu(v)
    case Unary(op, a) => ApplyUnary(env, op, Value(env, a, nu))
    case Binary(op, l, r) => ApplyBinary(env, op, Value(env, l, nu), Value(env, r, nu))
    case Ite(c, t, f) => if Truth(Value(env, c, nu)) then Value(env, t, nu) else Value(env, f, nu)
  }

  function Symbols(e: SExpr): set<Versioned> {
    match e
    case Constant(_) => {}
    case Boolean(_) => {}
    case Symbol(v) => {v}
    case Unary(_, a) => Symbols(a)
    case Binary(_, l, r) => Symbols(l) + Symbols(r)
    case Ite(c, t, f) => Symbols(c) + Symbols(t) + Symbols(f)
  }

  lemma {:induction false} ValueAgrees(env: Env, e: SExpr, nu: Valuation, mu: Valuation)
    requires forall v | v in Symbols(e) :: nu(v) == mu(v)
    ensures Value(env, e, nu) == Value(env, e, mu)
  {
    match e
    case Constant(_) =>
    case Boolean(_) =>
    case Symbol(v) => assert v in Symbols(e);
    case Unary(_, a) => ValueAgrees(env, a, nu, mu);
    case Binary(_, l, r) => ValueAgrees(env, l, nu, mu); ValueAgrees(env, r, nu, mu);
    case Ite(c, t, f) => ValueAgrees(env, c, nu, mu); ValueAgrees(env, t, nu, mu); ValueAgrees(env, f, nu, mu);
  }

  // ---------- sorts ----------

  // The expression is Boolean; all others are integers.
  predicate IsBoolean(boolean: string -> bool, e: SExpr) {
    match e
    case Constant(_) => false
    case Boolean(_) => true
    case Symbol(v) => boolean(v.name)
    case Unary(op, a) => op.Complement? || (op.UnaryPlus? && IsBoolean(boolean, a))
    case Binary(op, _, _) => IsTest(op)
    case Ite(_, t, f) => IsBoolean(boolean, t) && IsBoolean(boolean, f)
  }

  predicate IsTest(op: BinaryOperator) {
    match op
    case Exponentiation => false
    case Multiply => false
    case Divide => false
    case Modulo => false
    case Add => false
    case Subtract => false
    case _ => true
  }

  // The symbols of Boolean variables have Boolean values.
  ghost predicate Typed(env: Env, nu: Valuation) {
    forall v: Versioned | env.boolean(v.name) :: nu(v) == 0 || nu(v) == 1
  }

  lemma {:induction false} BooleanValue(env: Env, e: SExpr, nu: Valuation)
    requires Typed(env, nu) && IsBoolean(env.boolean, e)
    ensures Value(env, e, nu) == 0 || Value(env, e, nu) == 1
  {
    match e
    case Unary(op, a) => if op.UnaryPlus? { BooleanValue(env, a, nu); }
    case Ite(_, t, f) => BooleanValue(env, t, nu); BooleanValue(env, f, nu);
    case _ =>
  }

  // nu is a model of the definitions in the store.
  ghost predicate Satisfies(env: Env, nu: Valuation, store: SymbolicStore) {
    Typed(env, nu) && forall n | n in store :: nu(n) == Value(env, store[n], nu)
  }

  // ---------- the solver ----------

  // What the engine asks of the solver: the sorts of variables, simplification, the branch that the
  // concrete store takes, and whether the other branch is satisfiable.
  datatype Oracle = Oracle(boolean: string -> bool, simplify: SExpr -> SExpr, takesTrue: (Context, SExpr) -> bool,
        forks: (Context, SExpr) -> bool)

  // Rewriting keeps sort and value, and adds no symbols.
  ghost predicate SimplifiesAt(env: Env, oracle: Oracle, e: SExpr) {
    && IsBoolean(env.boolean, oracle.simplify(e)) == IsBoolean(env.boolean, e)
    && Symbols(oracle.simplify(e)) <= Symbols(e)
    && forall nu | Typed(env, nu) :: Value(env, oracle.simplify(e), nu) == Value(env, e, nu)
  }

  // A branch that is not forked has no model under the path constraint and the store.
  ghost predicate NoModel(env: Env, c: Context, e: SExpr) {
    forall nu | Satisfies(env, nu, c.store) && Active(env, nu, c) :: !Truth(Value(env, e, nu))
  }

  ghost predicate Sound(env: Env, oracle: Oracle) {
    && oracle.boolean == env.boolean
    && (forall e {:trigger oracle.simplify(e)} :: SimplifiesAt(env, oracle, e))
    && (forall c, e {:trigger oracle.forks(c, e)} | !oracle.forks(c, e) :: NoModel(env, c, e))
  }

  // ---------- contexts ----------

  // The only frame of the call stack: calls are not part of this model.
  datatype CallFrame = CallFrame(scope: string, depth: nat, returnLabel: int)

  datatype Context = Context(
    cycle: nat, frame: CallFrame, vertexLabel: int,
    pathConstraint: seq<SExpr>, store: SymbolicStore, version: map<string, nat>)

  // The path constraint of c holds.
  ghost predicate Active(env: Env, nu: Valuation, c: Context) {
    forall i | 0 <= i < |c.pathConstraint| :: Truth(Value(env, c.pathConstraint[i], nu))
  }

  function MkAnd(es: seq<SExpr>): SExpr {
    if es == [] then Boolean(true) else Binary(BooleanAnd, MkAnd(es[..|es| - 1]), es[|es| - 1])
  }

  lemma {:induction false} MkAndMeans(env: Env, es: seq<SExpr>, nu: Valuation)
    ensures Truth(Value(env, MkAnd(es), nu)) <==> forall i | 0 <= i < |es| :: Truth(Value(env, es[i], nu))
  {
    if es != [] {
      var front, last := es[..|es| - 1], es[|es| - 1];
      MkAndMeans(env, front, nu);
      if Truth(Value(env, MkAnd(es), nu)) {
        forall i | 0 <= i < |es| ensures Truth(Value(env, es[i], nu)) {
          if i < |front| { assert front[i] == es[i]; }
        }
      } else if Truth(Value(env, last, nu)) {
        var i :| 0 <= i < |front| && !Truth(Value(env, front[i], nu));
        assert es[i] == front[i];
      }
    }
  }

  lemma {:induction false} MkAndSymbols(es: seq<SExpr>, names: set<Versioned>)
    requires forall i | 0 <= i < |es| :: Symbols(es[i]) <= names
    ensures Symbols(MkAnd(es)) <= names
  {
    if es != [] {
      MkAndSymbols(es[..|es| - 1], names);
    }
  }

  // The newest version of x in a context.
  function Newest(c: Context, x: string): Versioned
    requires x in c.version
  {
    Versioned(x, c.version[x], c.cycle)
  }

  // The program store that a context describes under a valuation.
  function StoreUnder(c: Context, nu: Valuation): Store {
    map x | x in c.version :: nu(Newest(c, x))
  }

  // ---------- encoding expressions ----------

  predicate Encodable(e: Expr, vars: set<string>) {
    match e
    case NondeterministicConstant => false
    case VariableAccess(x) => x in vars
    case UnaryExpression(op, a) => !op.UnaryPlus? && Encodable(a, vars)
    case BinaryExpression(op, l, r) =>
      !op.Multiply? && !op.Divide? && !op.Modulo? && !op.Exponentiation? && Encodable(l, vars) && Encodable(r, vars)
    case _ => true
  }

  // A Boolean as a summand.
  function AsInteger(e: SExpr): SExpr {
    Ite(e, Constant(1), Constant(0))
  }

  // If the left summand is Boolean, the code takes the right one twice.
  function EncodeSum(boolean: string -> bool, l: SExpr, r: SExpr): SExpr {
    if IsBoolean(boolean, l) then
      if IsBoolean(boolean, r) then Binary(Add, AsInteger(r), AsInteger(r)) else Binary(Add, AsInteger(r), r)
    else
      if IsBoolean(boolean, r) then Binary(Add, l, AsInteger(r)) else Binary(Add, l, r)
  }

  function Encode(oracle: Oracle, e: Expr, c: Context): SExpr
    requires Encodable(e, c.version.Keys)
  {
    match e
    case IntegerConstant(n) => Constant(n)
    case BooleanConstant(b) => Boolean(b)
    case VariableAccess(x) => Symbol(Newest(c, x))
    case UnaryExpression(op, a) => oracle.simplify(Unary(op, Encode(oracle, a, c)))
    case BinaryExpression(op, l, r) =>
      var left, right := Encode(oracle, l, c), Encode(oracle, r, c);
      oracle.simplify(if op.Add? then EncodeSum(oracle.boolean, left, right) else Binary(op, left, right))
  }

  // The sort of an expression of the program.
  predicate BooleanExpr(boolean: string -> bool, e: Expr) {
    match e
    case IntegerConstant(_) => false
    case BooleanConstant(_) => true
    case NondeterministicConstant => false
    case VariableAccess(x) => boolean(x)
    case UnaryExpression(op, a) => op.Complement? || (op.UnaryPlus? && BooleanExpr(boolean, a))
    case BinaryExpression(op, _, _) => IsTest(op)
  }

  // The operands have the sorts that the solver accepts: it has no integer conditions, so a sum of a
  // Boolean and an integer has no encoding.
  predicate SortsFit(op: BinaryOperator, left: bool, right: bool) {
    match op
    case Add => left ==> right
    case Equality => left == right
    case Inequality => left == right
    case BooleanAnd => left && right
    case BooleanOr => left && right
    case BooleanExclusiveOr => left && right
    case _ => !left && !right
  }

  predicate WellSorted(boolean: string -> bool, e: Expr) {
    match e
    case UnaryExpression(op, a) => op.Complement? == BooleanExpr(boolean, a) && WellSorted(boolean, a)
    case BinaryExpression(op, l, r) =>
      && SortsFit(op, BooleanExpr(boolean, l), BooleanExpr(boolean, r))
      && WellSorted(boolean, l) && WellSorted(boolean, r)
    case _ => true
  }

  // No sum has a Boolean on its left.
  predicate SumsOk(boolean: string -> bool, e: Expr) {
    match e
    case UnaryExpression(_, a) => SumsOk(boolean, a)
    case BinaryExpression(op, l, r) => !(op.Add? && BooleanExpr(boolean, l)) && SumsOk(boolean, l) && SumsOk(boolean, r)
    case _ => true
  }

  // The encoding means the expression.
  predicate EncodesItself(boolean: string -> bool, e: Expr) {
    WellSorted(boolean, e) && SumsOk(boolean, e)
  }

  lemma {:induction false} EncodeSort(env: Env, oracle: Oracle, e: Expr, c: Context)
    requires Sound(env, oracle) && Encodable(e, c.version.Keys)
    ensures IsBoolean(env.boolean, Encode(oracle, e, c)) == BooleanExpr(env.boolean, e)
  {
    match e
    case UnaryExpression(op, a) =>
      EncodeSort(env, oracle, a, c);
      assert SimplifiesAt(env, oracle, Unary(op, Encode(oracle, a, c)));
    case BinaryExpression(op, l, r) =>
      var left, right := Encode(oracle, l, c), Encode(oracle, r, c);
      assert SimplifiesAt(env, oracle, if op.Add? then EncodeSum(oracle.boolean, left, right)
              else Binary(op, left, right));
    case _ =>
  }

  lemma {:induction false} EncodeSymbols(env: Env, oracle: Oracle, e: Expr, c: Context)
    requires Sound(env, oracle) && Encodable(e, c.version.Keys)
    ensures forall v | v in Symbols(Encode(oracle, e, c)) :: v.name in c.version && v == Newest(c, v.name)
  {
    match e
    case UnaryExpression(op, a) =>
      EncodeSymbols(env, oracle, a, c);
      assert SimplifiesAt(env, oracle, Unary(op, Encode(oracle, a, c)));
    case BinaryExpression(op, l, r) =>
      EncodeSymbols(env, oracle, l, c);
      EncodeSymbols(env, oracle, r, c);
      var left, right := Encode(oracle, l, c), Encode(oracle, r, c);
      var whole := if op.Add? then EncodeSum(oracle.boolean, left, right) else Binary(op, left, right);
      SumSymbols(oracle.boolean, left, right);
      assert SimplifiesAt(env, oracle, whole) && Symbols(whole) <= Symbols(left) + Symbols(right);
    case _ =>
  }

  lemma {:induction false} SumSymbols(boolean: string -> bool, l: SExpr, r: SExpr)
    ensures Symbols(EncodeSum(boolean, l, r)) <= Symbols(l) + Symbols(r)
  {
    assert Symbols(AsInteger(r)) == Symbols(r);
  }

  // An encoded expression without sums of a Boolean and something has the value of the expression in
  // the program store.
  lemma {:induction false} EncodeMeans(env: Env, oracle: Oracle, e: Expr, c: Context, nu: Valuation)
    requires Sound(env, oracle) && Encodable(e, c.version.Keys) && Typed(env, nu)
    requires EncodesItself(env.boolean, e)
    ensures Value(env, Encode(oracle, e, c), nu) == Eval(env, e, StoreUnder(c, nu))
    decreases e
  {
    match e
    case IntegerConstant(_) =>
    case BooleanConstant(_) =>
    case VariableAccess(x) =>
    case UnaryExpression(op, a) =>
      EncodeMeans(env, oracle, a, c, nu);
      assert SimplifiesAt(env, oracle, Unary(op, Encode(oracle, a, c)));
    case BinaryExpression(op, l, r) =>
      EncodeMeans(env, oracle, l, c, nu);
      EncodeMeans(env, oracle, r, c, nu);
      if op.Add? {
        SumValue(env, oracle, l, r, c, nu);
      } else {
        assert SimplifiesAt(env, oracle, Binary(op, Encode(oracle, l, c), Encode(oracle, r, c)));
      }
  }

  // What a sum is encoded as: its right summand counts twice if the left one is Boolean.
  lemma {:induction false} SumValue(env: Env, oracle: Oracle, l: Expr, r: Expr, c: Context, nu: Valuation)
    requires Sound(env, oracle) && Encodable(l, c.version.Keys) && Encodable(r, c.version.Keys) && Typed(env, nu)
    requires BooleanExpr(env.boolean, l) ==> BooleanExpr(env.boolean, r)
    ensures var x, y := Value(env, Encode(oracle, l, c), nu), Value(env, Encode(oracle, r, c), nu);
            Value(env, Encode(oracle, BinaryExpression(Add, l, r), c), nu) ==
            env.arith(Add, if BooleanExpr(env.boolean, l) then y else x, y)
  {
    var left, right := Encode(oracle, l, c), Encode(oracle, r, c);
    EncodeSort(env, oracle, l, c);
    EncodeSort(env, oracle, r, c);
    assert SimplifiesAt(env, oracle, EncodeSum(oracle.boolean, left, right));
    if IsBoolean(env.boolean, right) {
      BooleanValue(env, right, nu);
      assert Value(env, AsInteger(right), nu) == Value(env, right, nu);
    }
  }

  // A sum of two Booleans is encoded as what it means exactly where they are equal.
  lemma {:induction false} BooleanSumExactly(env: Env, oracle: Oracle, l: Expr, r: Expr, c: Context, nu: Valuation)
    requires Sound(env, oracle) && Encodable(l, c.version.Keys) && Encodable(r, c.version.Keys) && Typed(env, nu)
    requires EncodesItself(env.boolean, l) && EncodesItself(env.boolean, r)
    requires BooleanExpr(env.boolean, l) && BooleanExpr(env.boolean, r)
    requires forall x, y :: env.arith(Add, x, y) == x + y
    ensures var vars := StoreUnder(c, nu);
            Value(env, Encode(oracle, BinaryExpression(Add, l, r), c), nu) == Eval(env, BinaryExpression(Add, l, r),
                  vars)
            <==> Eval(env, l, vars) == Eval(env, r, vars)
  {
    EncodeMeans(env, oracle, l, c, nu);
    EncodeMeans(env, oracle, r, c, nu);
    SumValue(env, oracle, l, r, c, nu);
  }

  // TRUE + FALSE is encoded as 0, FALSE + TRUE as 2.
  lemma {:induction false} BooleanSumFails(env: Env, oracle: Oracle, c: Context, nu: Valuation)
    requires Sound(env, oracle) && Typed(env, nu) && forall x, y :: env.arith(Add, x, y) == x + y
    ensures var yes, no := BooleanConstant(true), BooleanConstant(false);
            var p, q := BinaryExpression(Add, yes, no), BinaryExpression(Add, no, yes);
            && Encodable(p, c.version.Keys) && Encodable(q, c.version.Keys)
            && Value(env, Encode(oracle, p, c), nu) == 0 && Value(env, Encode(oracle, q, c), nu) == 2
            && Eval(env, p, map[]) == Eval(env, q, map[]) == 1
  {
    assert Encodable(BooleanConstant(true), c.version.Keys) && Encodable(BooleanConstant(false), c.version.Keys);
    SumValue(env, oracle, BooleanConstant(true), BooleanConstant(false), c, nu);
    SumValue(env, oracle, BooleanConstant(false), BooleanConstant(true), c, nu);
  }

  // ---------- all definitions of a run ----------

  // Every definition that was ever made, in the order in which it was made, and the global versions.
  datatype World = World(defs: SymbolicStore, order: seq<Versioned>, global: map<string, nat>)

  // The definition of a Boolean variable is Boolean.
  predicate SortOk(env: Env, n: Versioned, e: SExpr) {
    env.boolean(n.name) ==> IsBoolean(env.boolean, e)
  }

  // A definition refers to earlier ones, or, for an input, to itself.
  ghost predicate RefersBack(W: World, i: int)
    requires 0 <= i < |W.order| && W.order[i] in W.defs
  {
    W.defs[W.order[i]] == Symbol(W.order[i]) || forall v | v in Symbols(W.defs[W.order[i]]) :: v in W.order[..i]
  }

  ghost predicate Ordered(env: Env, W: World) {
    && (forall n {:trigger n in W.order} :: n in W.defs <==> n in W.order)
    && (forall i, j | 0 <= i < j < |W.order| :: W.order[i] != W.order[j])
    && (forall i {:trigger W.order[i]} | 0 <= i < |W.order| :: W.order[i] in W.defs && RefersBack(W, i))
    && (forall n {:trigger W.defs[n]} | n in W.defs :: SortOk(env, n, W.defs[n]))
  }

  function Define(W: World, n: Versioned, e: SExpr): World {
    W.(defs := W.defs[n := e], order := W.order + [n])
  }

  lemma {:induction false} DefineOrdered(env: Env, W: World, n: Versioned, e: SExpr)
    requires Ordered(env, W) && n !in W.defs
    requires (e == Symbol(n) || forall v | v in Symbols(e) :: v in W.defs) && SortOk(env, n, e)
    ensures Ordered(env, Define(W, n, e))
  {
    var U := Define(W, n, e);
    forall i | 0 <= i < |U.order| ensures U.order[i] in U.defs && RefersBack(U, i) {
      assert U.order[..i] == W.order[..i];
      if i < |W.order| {
        assert W.order[i] in W.order && RefersBack(W, i);
      } else {
        assert W.order[..i] == W.order;
      }
    }
  }

  // nu satisfies the first i definitions.
  ghost predicate SatisfiesUpTo(env: Env, nu: Valuation, W: World, i: int)
    requires 0 <= i <= |W.order| && Ordered(env, W)
  {
    forall j | 0 <= j < i :: W.order[j] in W.defs && nu(W.order[j]) == Value(env, W.defs[W.order[j]], nu)
  }

  // Give the definitions from the k-th to the i-th the values that they demand.
  ghost function Complete(env: Env, W: World, k: int, i: int, nu: Valuation): Valuation
    requires 0 <= k <= i <= |W.order| && Ordered(env, W)
    decreases i
  {
    if i <= k then nu
    else
      var n := W.order[i - 1];
      var mu := Complete(env, W, k, i - 1, nu);
      assert n in W.order;
      var x := Value(env, W.defs[n], mu);
      (m: Versioned) => if m == n then x else mu(m)
  }

  // A model of the first k definitions extends to a model of all of them, and inputs stay as chosen.
  lemma {:induction false} Completed(env: Env, W: World, k: int, i: int, nu: Valuation)
    requires 0 <= k <= i <= |W.order| && Ordered(env, W) && SatisfiesUpTo(env, nu, W, k) && Typed(env, nu)
    ensures var mu := Complete(env, W, k, i, nu);
            && SatisfiesUpTo(env, mu, W, i) && Typed(env, mu)
            && (forall n | n !in W.order[k..i] :: mu(n) == nu(n))
            && (forall n | n in W.defs && W.defs[n] == Symbol(n) :: mu(n) == nu(n))
    decreases i
  {
    if i > k {
      var n, lower, mu := W.order[i - 1], Complete(env, W, k, i - 1, nu), Complete(env, W, k, i, nu);
      Completed(env, W, k, i - 1, nu);
      OneCompleted(env, W, i, lower, mu);
      OthersKept(env, W, k, i, nu, lower, mu);
    }
  }

  lemma {:induction false} OthersKept(env: Env, W: World, k: int, i: int, nu: Valuation, lower: Valuation,
        mu: Valuation)
    requires 0 <= k < i <= |W.order| && Ordered(env, W)
    requires var n := W.order[i - 1];
             n in W.defs && mu(n) == Value(env, W.defs[n], lower) && forall m | m != n :: mu(m) == lower(m)
    requires forall n | n !in W.order[k..i - 1] :: lower(n) == nu(n)
    requires forall n | n in W.defs && W.defs[n] == Symbol(n) :: lower(n) == nu(n)
    ensures forall n | n !in W.order[k..i] :: mu(n) == nu(n)
    ensures forall n | n in W.defs && W.defs[n] == Symbol(n) :: mu(n) == nu(n)
  {
    assert W.order[k..i] == W.order[k..i - 1] + [W.order[i - 1]];
  }

  lemma {:induction false} OneCompleted(env: Env, W: World, i: int, lower: Valuation, mu: Valuation)
    requires 0 < i <= |W.order| && Ordered(env, W) && SatisfiesUpTo(env, lower, W, i - 1) && Typed(env, lower)
    requires var n := W.order[i - 1];
             n in W.defs && mu(n) == Value(env, W.defs[n], lower) && forall m | m != n :: mu(m) == lower(m)
    ensures SatisfiesUpTo(env, mu, W, i) && Typed(env, mu)
  {
    var n := W.order[i - 1];
    assert SortOk(env, n, W.defs[n]);
    if env.boolean(n.name) {
      BooleanValue(env, W.defs[n], lower);
    }
    forall j | 0 <= j < i ensures W.order[j] in W.defs && mu(W.order[j]) == Value(env, W.defs[W.order[j]], mu) {
      assert W.order[j] in W.order && RefersBack(W, j);
      if W.defs[W.order[j]] != Symbol(W.order[j]) {
        ValueAgrees(env, W.defs[W.order[j]], lower, mu);
      }
    }
  }

  lemma {:induction false} NotAfter(env: Env, W: World, k: int, n: Versioned)
    requires 0 <= k <= |W.order| && Ordered(env, W) && (n in W.order[..k] || n !in W.defs)
    ensures n !in W.order[k..]
  {
    if n in W.order[..k] {
      var j :| 0 <= j < k && W.order[j] == n;
      forall i | k <= i < |W.order| ensures W.order[i] != n {}
    } else {
      assert n !in W.order;
    }
  }

  // The definitions have a model for every choice of the inputs.
  lemma {:induction false} ModelExists(env: Env, W: World, k: int, nu: Valuation) returns (mu: Valuation)
    requires 0 <= k <= |W.order| && Ordered(env, W) && SatisfiesUpTo(env, nu, W, k) && Typed(env, nu)
    ensures Satisfies(env, mu, W.defs)
    ensures forall n | n in W.order[..k] || n !in W.defs || W.defs[n] == Symbol(n) :: mu(n) == nu(n)
  {
    mu := Complete(env, W, k, |W.order|, nu);
    Completed(env, W, k, |W.order|, nu);
    assert W.order[k..|W.order|] == W.order[k..];
    forall n | n in W.order[..k] || n !in W.defs ensures mu(n) == nu(n) {
      NotAfter(env, W, k, n);
    }
    forall n | n in W.defs ensures mu(n) == Value(env, W.defs[n], mu) {
      assert n in W.order;
      var j :| 0 <= j < |W.order| && W.order[j] == n;
      assert W.order[j] in W.defs && mu(W.order[j]) == Value(env, W.defs[W.order[j]], mu);
    }
  }
}
