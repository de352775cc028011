/** The evaluator: a post-order walk over the syntax tree that computes a
    real number. Only a division by exactly zero can fail.
 */
module Evaluating {
  import opened Syntax

  /** The tree divides somewhere. */
  predicate HasDivision(n: Node) {
    match n
    case NumberNode(_) => false
    case ExpressionNode(_, l, r) => HasDivision(l) || HasDivision(r)
    case TermNode(op, l, r) => op == Divide || HasDivision(l) || HasDivision(r)
  }

  /** evaluateNode: a number is its own value; other nodes dispatch on their
      tag. Only a tree that divides somewhere can fail. */
  function EvaluateNode(n: Node): (r: Result<real>)
    requires WellTagged(n)
    ensures r.Err? ==> r.error == DivisionByZero && HasDivision(n)
    decreases n, 1
  {
    match n
    case NumberNode(v) => Ok(v as real)
    case ExpressionNode(_, _, _) => EvaluateExpression(n)
    case TermNode(_, _, _) => EvaluateTerm(n)
  }

  /** The value of `left op right` from the values of its operands: the
      left operand is on the left of `-` and `/`, and the quotient is the
      exact real quotient. */
  function Apply(op: Op, left: real, right: real): (r: Result<real>)
    ensures r.Err? <==> op == Divide && right == 0.0
    ensures r.Err? ==> r.error == DivisionByZero
    ensures op == Times ==> r.value == left * right
    ensures op == Plus ==> r.value - right == left
    ensures op == Minus ==> r.value + right == left
    ensures op == Divide && r.Ok? ==> r.value * right == left
  {
    match op
    case Plus => Ok(left + right)
    case Minus => Ok(left - right)
    case Times => Ok(left * right)
    case Divide => if right == 0.0 then Err(DivisionByZero) else Ok(left / right)
  }

  /** evaluateExpression: left operand plus or minus right operand. */
  function EvaluateExpression(n: Node): (r: Result<real>)
    requires n.ExpressionNode? && WellTagged(n)
    ensures r.Err? ==> r.error == DivisionByZero && HasDivision(n)
    decreases n, 0
  {
    var left :- EvaluateNode(n.left);
    var right :- EvaluateNode(n.right);
    Apply(n.op, left, right)
  }

  /** evaluateTerm: left operand times or divided by right operand. */
  function EvaluateTerm(n: Node): (r: Result<real>)
    requires n.TermNode? && WellTagged(n)
    ensures r.Err? ==> r.error == DivisionByZero && HasDivision(n)
    decreases n, 0
  {
    var left :- EvaluateNode(n.left);
    var right :- EvaluateNode(n.right);
    Apply(n.op, left, right)
  }

  /** A number node evaluates to its literal. */
  lemma EvaluateNumber(v: nat)
    ensures EvaluateNode(NumberNode(v)) == Ok(v as real)
  {
  }

  /** A binary node evaluates both children and applies its operator to
      their values, left operand first; an error in a child is the node's
      error. */
  lemma EvaluateOperands(n: Node)
    requires WellTagged(n) && !n.NumberNode?
    ensures EvaluateNode(n.left).Err? ==> EvaluateNode(n) == EvaluateNode(n.left)
    ensures EvaluateNode(n.left).Ok? && EvaluateNode(n.right).Err? ==> EvaluateNode(n) == EvaluateNode(n.right)
    ensures EvaluateNode(n.left).Ok? && EvaluateNode(n.right).Ok? ==>
      EvaluateNode(n) == Apply(n.op, EvaluateNode(n.left).value, EvaluateNode(n.right).value)
  {
    if n.ExpressionNode? {
      assert EvaluateNode(n) == EvaluateExpression(n);
    } else {
      assert EvaluateNode(n) == EvaluateTerm(n);
    }
  }

  /** The value of a binary node from the values of its operands. */
  lemma EvaluateApplied(n: Node, x: real, y: real)
    requires WellTagged(n) && !n.NumberNode?
    requires EvaluateNode(n.left) == Ok(x) && EvaluateNode(n.right) == Ok(y)
    ensures EvaluateNode(n) == Apply(n.op, x, y)
  {
    EvaluateOperands(n);
  }

  /** Some `/` in the tree has a right operand that evaluates to exactly
      zero. */
  predicate ZeroDivisor(n: Node)
    requires WellTagged(n)
  {
    match n
    case NumberNode(_) => false
    case ExpressionNode(_, l, r) => ZeroDivisor(l) || ZeroDivisor(r)
    case TermNode(op, l, r) =>
      ZeroDivisor(l) || ZeroDivisor(r) || (op == Divide && EvaluateNode(r) == Ok(0.0))
  }

  /** The evaluation of a tree fails exactly when it divides by a zero
      somewhere; every other tree has a value. */
  lemma {:induction false} EvaluateFailsIff(n: Node)
    requires WellTagged(n)
    ensures EvaluateNode(n).Err? <==> ZeroDivisor(n)
  {
    if !n.NumberNode? {
      EvaluateFailsIff(n.left);
      EvaluateFailsIff(n.right);
      EvaluateOperands(n);
    }
  }
}
