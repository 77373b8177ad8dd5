// The intermediate representation: expressions, program states and labelled instructions
// (ahorn/include/ahorn/ir/).

module Ir {

  datatype Option<+T> = None | Some(value: T)

  datatype UnaryOperator = Negation | UnaryPlus | Complement

  datatype BinaryOperator =
    | Exponentiation | Multiply | Divide | Modulo | Add | Subtract
    | GreaterThan | LessThan | GreaterThanOrEqualTo | LessThanOrEqualTo
    | Equality | Inequality
    | BooleanAnd | BooleanExclusiveOr | BooleanOr

  datatype Expr =
    | IntegerConstant(n: int)
    | BooleanConstant(b: bool)
    | NondeterministicConstant
    | VariableAccess(name: string)
    | UnaryExpression(unary: UnaryOperator, operand: Expr)
    | BinaryExpression(binary: BinaryOperator, left: Expr, right: Expr)

  type Store = map<string, int>

  // A program state: the store, and how many nondeterministic values were consumed so far.
  datatype State = State(vars: Store, consumed: nat)

  // What the code does not fix: the numeric operators (so that a result holds for unbounded and for
  // wrapped integers alike), the nondeterministic values, the effect of a callee on the state, and
  // which variables are declared as BOOL.
  datatype Env = Env(
    arith: (BinaryOperator, int, int) -> int,
    negate: int -> int,
    inputs: nat -> int,
    callee: (string, State) -> State,
    boolean: string -> bool)

  predicate Truth(v: int) {
    v != 0
  }

  function OfBool(b: bool): int {
    if b then 1 else 0
  }

  function Lookup(vars: Store, x: string): int {
    if x in vars then vars[x] else 0
  }

  function ApplyUnary(env: Env, op: UnaryOperator, x: int): int {
    match op
    case Negation => env.negate(x)
    case UnaryPlus => x
    case Complement => OfBool(!Truth(x))
  }

  function ApplyBinary(env: Env, op: BinaryOperator, x: int, y: int): int {
    match op
    case GreaterThan => OfBool(x > y)
    case LessThan => OfBool(x < y)
    case GreaterThanOrEqualTo => OfBool(x >= y)
    case LessThanOrEqualTo => OfBool(x <= y)
    case Equality => OfBool(x == y)
    case Inequality => OfBool(x != y)
    case BooleanAnd => OfBool(Truth(x) && Truth(y))
    case BooleanExclusiveOr => OfBool(Truth(x) != Truth(y))
    case BooleanOr => OfBool(Truth(x) || Truth(y))
    case _ => env.arith(op, x, y)
  }

  // A nondeterministic constant has a meaning only as a whole right-hand side (see Update); inside
  // an expression no later stage accepts it, and it is read as 0 here.
  function Eval(env: Env, e: Expr, vars: Store): int {
    match e
    case IntegerConstant(n) => n
    case BooleanConstant(b) => OfBool(b)
    case NondeterministicConstant => 0
    case VariableAccess(x) => Lookup(vars, x)
    case UnaryExpression(op, a) => ApplyUnary(env, op, Eval(env, a, vars))
    case BinaryExpression(op, l, r) => ApplyBinary(env, op, Eval(env, l, vars), Eval(env, r, vars))
  }

  predicate Holds(env: Env, e: Expr, st: State) {
    Truth(Eval(env, e, st.vars))
  }

  // v := e, where a nondeterministic right-hand side consumes the next external value.
  function Update(env: Env, v: string, e: Expr, st: State): State {
    if e.NondeterministicConstant? then HavocUpdate(env, v, st)
    else AssignUpdate(env, v, e, st)
  }

  function AssignUpdate(env: Env, v: string, e: Expr, st: State): State {
    st.(vars := st.vars[v := Eval(env, e, st.vars)])
  }

  function HavocUpdate(env: Env, v: string, st: State): State {
    State(st.vars[v := env.inputs(st.consumed)], st.consumed + 1)
  }

  datatype Instr =
    | Assign(v: string, e: Expr)
    | Havoc(h: string)
    | Call(instance: string, pou: string, intraprocedural: int, interprocedural: int)
    | Goto(target: int)
    | IfGoto(ifCond: Expr, thenLabel: int, elseLabel: int)
    | WhileGoto(whileCond: Expr, bodyEntry: int, whileExit: int)

  type Code = map<int, Instr>
}
