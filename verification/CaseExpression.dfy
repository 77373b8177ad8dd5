// Construction of the condition of a CASE arm (ahorn/src/compiler/ast.cpp, compileCaseExpression).

module CaseExpression {
  import opened Ir
  import opened StructuredText
  import opened Plan

  // A binary expression under construction: its right operand may still be missing.
  datatype Open = Open(op: BinaryOperator, left: Expr, right: Option<Expr>)

  method CompileCaseExpression(sel: Expr, values: seq<Expr>) returns (r: Expr)
    requires values != []
    ensures r == CaseCondition(sel, values)
    ensures forall env: Env, st: State :: Holds(env, r, st) <==> Selects(env, sel, values, st)
  {
    if |values| > 1 {
      var expression := Open(BooleanOr, BinaryExpression(Equality, sel, values[0]), None);
      for i := 1 to |values|
        invariant expression.op == BooleanOr
        invariant i < |values| ==> expression.right == None && expression.left == CaseCondition(sel, values[..i])
        invariant i == |values| ==> expression.right.Some? &&
                                    BinaryExpression(BooleanOr, expression.left,
                                          expression.right.value) == CaseCondition(sel, values)
      {
        expression := expression.(right := Some(BinaryExpression(Equality, sel, values[i])));
        assert values[..i + 1][..i] == values[..i];
        assert i + 1 == |values| ==> values[..i + 1] == values;
        if i + 1 != |values| {
          var complete := BinaryExpression(expression.op, expression.left, expression.right.value);
          expression := Open(BooleanOr, complete, None);
        }
      }
      r := BinaryExpression(expression.op, expression.left, expression.right.value);
    } else {
      r := BinaryExpression(Equality, sel, values[0]);
    }
    forall env: Env, st: State
      ensures Holds(env, r, st) <==> Selects(env, sel, values, st)
    {
      CaseConditionSelects(env, sel, values, st);
    }
  }
}
