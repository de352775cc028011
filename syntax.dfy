/** The values that flow through the calculator pipeline: tokens, syntax
    trees, and the errors any stage can raise.
 */
module Syntax {

  /** The four binary operators of the calculator. */
  datatype Op = Plus | Minus | Times | Divide

  /** The tokens the tokenizer emits: `{type: 'number' | 'operator' |
      'leftParenthesis' | 'rightParenthesis', value}` in the source. */
  datatype Token =
    | NumberToken(value: nat)
    | OperatorToken(op: Op)
    | LeftParenthesis
    | RightParenthesis

  /** Syntax tree nodes. A parsed number is the number token itself
      (`type: 'number'`); `+`/`-` nodes have type 'expression' and `*`/`/`
      nodes have type 'term'. */
  datatype Node =
    | NumberNode(value: nat)
    | ExpressionNode(op: Op, left: Node, right: Node)
    | TermNode(op: Op, left: Node, right: Node)

  /** What the pipeline can throw. */
  datatype Error =
    | InvalidCharacter   // the tokenizer met a character it does not know
    | InvalidSyntax      // the parser met a token the grammar does not allow there
    | MissingToken       // the parser read a token past the end of the sequence
    | DivisionByZero     // the evaluator divided by exactly zero

  /** A value or the error that aborted the computation. */
  datatype Result<T> = Ok(value: T) | Err(error: Error) {
    predicate IsFailure() { Err? }

    function PropagateFailure<U>(): Result<U>
      requires Err?
    {
      Err(error)
    }

    function Extract(): T
      requires Ok?
    {
      value
    }
  }

  predicate IsAdditive(op: Op) { op == Plus || op == Minus }

  predicate IsMultiplicative(op: Op) { op == Times || op == Divide }

  /** Every 'expression' node carries `+` or `-` and every 'term' node
      carries `*` or `/`. */
  predicate WellTagged(n: Node) {
    match n
    case NumberNode(_) => true
    case ExpressionNode(op, l, r) => IsAdditive(op) && WellTagged(l) && WellTagged(r)
    case TermNode(op, l, r) => IsMultiplicative(op) && WellTagged(l) && WellTagged(r)
  }
}
