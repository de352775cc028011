/** The parser: recursive descent with one level per precedence,
        expression := term (('+' | '-') term)*
        term       := factor (('*' | '/') factor)*
        factor     := number | '(' expression ')'
    The functions below give the meaning of each rule as a function of the
    token position it starts at; the class `Parser` is the source's parser
    over a shared cursor, proved to compute them.
 */
module Parsing {
  import opened Syntax
  import opened Tokenizing

  /** A rule's outcome: the node and the position after it, or an error. */
  type Parsed = Result<(Node, nat)>

  predicate IsAdditiveToken(t: Token) { t.OperatorToken? && IsAdditive(t.op) }

  predicate IsMultiplicativeToken(t: Token) { t.OperatorToken? && IsMultiplicative(t.op) }

  /** `expression` at position i: a term, then the additive loop. A success
      consumes at least one token and yields a well-tagged node. */
  function ParseExpressionAt(ts: seq<Token>, i: nat): (r: Parsed)
    requires i <= |ts|
    ensures r.Ok? ==> i < r.value.1 <= |ts| && WellTagged(r.value.0)
    ensures r.Err? ==> r.error == InvalidSyntax || r.error == MissingToken
    decreases |ts| - i, 2
  {
    match ParseTermAt(ts, i)
    case Err(e) => Err(e)
    case Ok((left, j)) => ExpressionLoop(ts, left, j)
  }

  /** The `while` loop of getExpression: `acc` is the node folded so far and
      j the cursor; each `+`/`-` makes `acc` the left child of a new
      'expression' node. */
  function ExpressionLoop(ts: seq<Token>, acc: Node, j: nat): (r: Parsed)
    requires j <= |ts|
    ensures r.Ok? ==> j <= r.value.1 <= |ts|
    ensures r.Ok? && WellTagged(acc) ==> WellTagged(r.value.0)
    ensures r.Err? ==> r.error == InvalidSyntax || r.error == MissingToken
    decreases |ts| - j, 3
  {
    if j < |ts| && IsAdditiveToken(ts[j]) then
      match ParseTermAt(ts, j + 1)
      case Err(e) => Err(e)
      case Ok((right, k)) => ExpressionLoop(ts, ExpressionNode(ts[j].op, acc, right), k)
    else
      Ok((acc, j))
  }

  /** `term` at position i: a factor, then the multiplicative loop. */
  function ParseTermAt(ts: seq<Token>, i: nat): (r: Parsed)
    requires i <= |ts|
    ensures r.Ok? ==> i < r.value.1 <= |ts| && WellTagged(r.value.0)
    ensures r.Err? ==> r.error == InvalidSyntax || r.error == MissingToken
    decreases |ts| - i, 1
  {
    match ParseFactorAt(ts, i)
    case Err(e) => Err(e)
    case Ok((left, j)) => TermLoop(ts, left, j)
  }

  /** The `while` loop of getTerm, folding `*`/`/` into 'term' nodes. */
  function TermLoop(ts: seq<Token>, acc: Node, j: nat): (r: Parsed)
    requires j <= |ts|
    ensures r.Ok? ==> j <= r.value.1 <= |ts|
    ensures r.Ok? && WellTagged(acc) ==> WellTagged(r.value.0)
    ensures r.Err? ==> r.error == InvalidSyntax || r.error == MissingToken
    decreases |ts| - j, 3
  {
    if j < |ts| && IsMultiplicativeToken(ts[j]) then
      match ParseFactorAt(ts, j + 1)
      case Err(e) => Err(e)
      case Ok((right, k)) => TermLoop(ts, TermNode(ts[j].op, acc, right), k)
    else
      Ok((acc, j))
  }

  /** `factor` at position i: a number, or a parenthesised expression. Past
      the last token there is nothing to read (MissingToken); any other
      token, or a missing `)`, is InvalidSyntax. */
  function ParseFactorAt(ts: seq<Token>, i: nat): (r: Parsed)
    requires i <= |ts|
    ensures r.Ok? ==> i < r.value.1 <= |ts| && WellTagged(r.value.0)
    ensures r.Err? ==> r.error == InvalidSyntax || r.error == MissingToken
    decreases |ts| - i, 0
  {
    if i == |ts| then Err(MissingToken)
    else
      match ts[i]
      case NumberToken(v) => Ok((NumberNode(v), i + 1))
      case LeftParenthesis =>
        (match ParseExpressionAt(ts, i + 1)
         case Err(e) => Err(e)
         case Ok((inner, j)) =>
           if j == |ts| then Err(MissingToken)
           else if ts[j] != RightParenthesis then Err(InvalidSyntax)
           else Ok((inner, j + 1)))
      case _ => Err(InvalidSyntax)
  }

  /** The whole parse: one expression that must use up every token. */
  function ParseTokens(ts: seq<Token>): (r: Result<Node>)
    ensures r.Ok? ==> WellTagged(r.value)
    ensures r.Ok? <==> ParseExpressionAt(ts, 0).Ok? && ParseExpressionAt(ts, 0).value.1 == |ts|
    ensures r.Err? ==> r.error == InvalidSyntax || r.error == MissingToken
    ensures ParseExpressionAt(ts, 0).Err? ==> r == Err(ParseExpressionAt(ts, 0).error)
    ensures ParseExpressionAt(ts, 0).Ok? && ParseExpressionAt(ts, 0).value.1 < |ts| ==> r == Err(InvalidSyntax)
  {
    match ParseExpressionAt(ts, 0)
    case Err(e) => Err(e)
    case Ok((n, j)) => if j < |ts| then Err(InvalidSyntax) else Ok(n)
  }

  // Printing a tree as tokens with only the parentheses it needs.

  function ShowExpression(n: Node): seq<Token>
    decreases n, 2
  {
    match n
    case ExpressionNode(op, l, r) => ShowExpression(l) + [OperatorToken(op)] + ShowTerm(r)
    case _ => ShowTerm(n)
  }

  function ShowTerm(n: Node): seq<Token>
    decreases n, 1
  {
    match n
    case TermNode(op, l, r) => ShowTerm(l) + [OperatorToken(op)] + ShowFactor(r)
    case _ => ShowFactor(n)
  }

  function ShowFactor(n: Node): seq<Token>
    decreases n, 0
  {
    match n
    case NumberNode(v) => [NumberToken(v)]
    case ExpressionNode(op, l, r) =>
      [LeftParenthesis] + ShowExpression(l) + [OperatorToken(op)] + ShowTerm(r) + [RightParenthesis]
    case TermNode(op, l, r) =>
      [LeftParenthesis] + ShowTerm(l) + [OperatorToken(op)] + ShowFactor(r) + [RightParenthesis]
  }

  lemma ShowNumber(v: nat)
    ensures ShowExpression(NumberNode(v)) == [NumberToken(v)]
    ensures ShowTerm(NumberNode(v)) == [NumberToken(v)]
  {
    assert ShowTerm(NumberNode(v)) == ShowFactor(NumberNode(v));
  }

  lemma ShowFactorParenthesised(n: Node)
    requires !n.NumberNode?
    ensures ShowFactor(n) == [LeftParenthesis] + ShowExpression(n) + [RightParenthesis]
  {
  }

  /** ts[i..] starts with `s`. */
  predicate SpellsAt(ts: seq<Token>, i: nat, s: seq<Token>) {
    i + |s| <= |ts| && ts[i..i + |s|] == s
  }

  /** Position j ends a term: no `*` or `/` follows. */
  predicate EndsTerm(ts: seq<Token>, j: nat) {
    j >= |ts| || !IsMultiplicativeToken(ts[j])
  }

  /** Splits `ts[i..]` starting with `a + [t] + b` into its three parts. */
  lemma SpellsSplit(ts: seq<Token>, i: nat, a: seq<Token>, t: Token, b: seq<Token>)
    requires SpellsAt(ts, i, a + [t] + b)
    ensures SpellsAt(ts, i, a) && ts[i + |a|] == t && SpellsAt(ts, i + |a| + 1, b)
  {
    var s := a + [t] + b;
    assert ts[i..i + |a|] == s[..|a|];
    assert ts[i + |a|] == s[|a|];
    assert ts[i + |a| + 1..i + |s|] == s[|a| + 1..];
  }

  /** Parenthesis tokens around an inner sequence. */
  lemma SpellsParenthesised(ts: seq<Token>, i: nat, inner: seq<Token>)
    requires SpellsAt(ts, i, [LeftParenthesis] + inner + [RightParenthesis])
    ensures ts[i] == LeftParenthesis && SpellsAt(ts, i + 1, inner)
    ensures ts[i + 1 + |inner|] == RightParenthesis
  {
    SpellsSplit(ts, i, [LeftParenthesis] + inner, RightParenthesis, []);
    SpellsSplit(ts, i, [], LeftParenthesis, inner);
    assert [] + [LeftParenthesis] + inner == [LeftParenthesis] + inner;
  }

  /** A factor's printed form parses back to it, whatever follows. */
  lemma {:induction false} FactorRoundTrip(ts: seq<Token>, i: nat, n: Node)
    requires WellTagged(n) && SpellsAt(ts, i, ShowFactor(n))
    ensures ParseFactorAt(ts, i) == Ok((n, i + |ShowFactor(n)|))
    decreases |ShowFactor(n)|, 0
  {
    if !n.NumberNode? {
      ShowFactorParenthesised(n);
      var inner := ShowExpression(n);
      SpellsParenthesised(ts, i, inner);
      var j := i + 1 + |inner|;
      ExpressionPrefix(ts, i + 1, n);
      assert ExpressionLoop(ts, n, j) == Ok((n, j));
    } else {
      assert ts[i] == ShowFactor(n)[0];
    }
  }

  /** The term rule, on a term's printed form, stops in the loop state that
      holds that term. */
  lemma {:induction false} TermPrefix(ts: seq<Token>, i: nat, n: Node)
    requires WellTagged(n) && SpellsAt(ts, i, ShowTerm(n))
    ensures ParseTermAt(ts, i) == TermLoop(ts, n, i + |ShowTerm(n)|)
    decreases |ShowTerm(n)|, 1
  {
    if n.TermNode? {
      var l, r := ShowTerm(n.left), ShowFactor(n.right);
      SpellsSplit(ts, i, l, OperatorToken(n.op), r);
      TermPrefix(ts, i, n.left);
      FactorRoundTrip(ts, i + |l| + 1, n.right);
    } else {
      FactorRoundTrip(ts, i, n);
    }
  }

  /** The expression rule, on an expression's printed form followed by no
      `*` or `/`, stops in the loop state that holds that expression. */
  lemma {:induction false} ExpressionPrefix(ts: seq<Token>, i: nat, n: Node)
    requires WellTagged(n) && SpellsAt(ts, i, ShowExpression(n))
    requires EndsTerm(ts, i + |ShowExpression(n)|)
    ensures ParseExpressionAt(ts, i) == ExpressionLoop(ts, n, i + |ShowExpression(n)|)
    decreases |ShowExpression(n)|, 2
  {
    var j := i + |ShowExpression(n)|;
    if n.ExpressionNode? {
      var l, r := ShowExpression(n.left), ShowTerm(n.right);
      SpellsSplit(ts, i, l, OperatorToken(n.op), r);
      ExpressionPrefix(ts, i, n.left);
      TermPrefix(ts, i + |l| + 1, n.right);
      assert TermLoop(ts, n.right, j) == Ok((n.right, j));
    } else {
      TermPrefix(ts, i, n);
      assert TermLoop(ts, n, j) == Ok((n, j));
    }
  }

  /** Every well-tagged tree printed with minimal parentheses parses back
      to itself: `*`/`/` bind tighter than `+`/`-`, both fold to the left,
      and parentheses group. */
  lemma ParseShow(n: Node)
    requires WellTagged(n)
    ensures ParseTokens(ShowExpression(n)) == Ok(n)
  {
    var ts := ShowExpression(n);
    assert ts[0..|ts|] == ts;
    ExpressionPrefix(ts, 0, n);
  }

  /** The printer never puts two numbers side by side. */
  lemma {:induction false} ShowNoAdjacentNumbers(n: Node)
    ensures NoAdjacentNumbers(ShowExpression(n))
    ensures NoAdjacentNumbers(ShowTerm(n))
    ensures NoAdjacentNumbers(ShowFactor(n))
  {
    match n
    case NumberNode(v) =>
    case ExpressionNode(op, l, r) =>
      ShowNoAdjacentNumbers(l);
      ShowNoAdjacentNumbers(r);
      NoAdjacentNumbersJoin(ShowExpression(l), OperatorToken(op), ShowTerm(r));
      NoAdjacentNumbersJoin([], LeftParenthesis, ShowExpression(n));
      NoAdjacentNumbersJoin([LeftParenthesis] + ShowExpression(n), RightParenthesis, []);
      assert [] + [LeftParenthesis] + ShowExpression(n) == [LeftParenthesis] + ShowExpression(n);
      assert ShowFactor(n) == [LeftParenthesis] + ShowExpression(n) + [RightParenthesis] + [];
    case TermNode(op, l, r) =>
      ShowNoAdjacentNumbers(l);
      ShowNoAdjacentNumbers(r);
      NoAdjacentNumbersJoin(ShowTerm(l), OperatorToken(op), ShowFactor(r));
      NoAdjacentNumbersJoin([], LeftParenthesis, ShowTerm(n));
      NoAdjacentNumbersJoin([LeftParenthesis] + ShowTerm(n), RightParenthesis, []);
      assert [] + [LeftParenthesis] + ShowTerm(n) == [LeftParenthesis] + ShowTerm(n);
      assert ShowFactor(n) == [LeftParenthesis] + ShowTerm(n) + [RightParenthesis] + [];
  }

  /** A complete expression followed by anything that does not start with
      an operator is rejected: the parse must use up every token. */
  lemma ParseRejectsTrailing(n: Node, t: Token, rest: seq<Token>)
    requires WellTagged(n) && !t.OperatorToken?
    ensures ParseTokens(ShowExpression(n) + [t] + rest) == Err(InvalidSyntax)
  {
    var s := ShowExpression(n);
    var ts := s + [t] + rest;
    assert ts[0..|s|] == s;
    assert ts[|s|] == t;
    ExpressionPrefix(ts, 0, n);
  }

  /** An empty token sequence has no factor to read. */
  lemma ParseRejectsEmpty()
    ensures ParseTokens([]) == Err(MissingToken)
  {
  }

  /** A factor cannot start with an operator or a `)`: there is no unary
      minus. */
  lemma ParseRejectsLeading(t: Token, rest: seq<Token>)
    requires t.OperatorToken? || t.RightParenthesis?
    ensures ParseTokens([t] + rest) == Err(InvalidSyntax)
  {
    var ts := [t] + rest;
    assert ts[0] == t;
    assert ParseFactorAt(ts, 0) == Err(InvalidSyntax);
    assert ParseTermAt(ts, 0) == Err(InvalidSyntax);
  }

  /** A `(` whose expression runs to the end of the tokens: reading the
      closing token past the end fails. */
  lemma ParseRejectsUnclosed(n: Node)
    requires WellTagged(n)
    ensures ParseTokens([LeftParenthesis] + ShowExpression(n)) == Err(MissingToken)
  {
    var s := ShowExpression(n);
    var ts := [LeftParenthesis] + s;
    assert ts[1..1 + |s|] == s;
    ExpressionPrefix(ts, 1, n);
    assert ParseExpressionAt(ts, 1) == Ok((n, |ts|));
    assert ParseFactorAt(ts, 0) == Err(MissingToken);
    assert ParseTermAt(ts, 0) == Err(MissingToken);
  }

  /** A `(` and an expression followed by a token that is neither an
      operator nor `)`. */
  lemma ParseRejectsMismatched(n: Node, t: Token, rest: seq<Token>)
    requires WellTagged(n) && !t.OperatorToken? && !t.RightParenthesis?
    ensures ParseTokens([LeftParenthesis] + ShowExpression(n) + [t] + rest) == Err(InvalidSyntax)
  {
    var s := ShowExpression(n);
    var ts := [LeftParenthesis] + s + [t] + rest;
    assert ts[1..1 + |s|] == s;
    assert ts[1 + |s|] == t;
    ExpressionPrefix(ts, 1, n);
    assert ParseExpressionAt(ts, 1) == Ok((n, 1 + |s|));
    assert ParseFactorAt(ts, 0) == Err(InvalidSyntax);
    assert ParseTermAt(ts, 0) == Err(InvalidSyntax);
  }

  /** An expression ending in `+` or `-` has no right operand to read. */
  lemma ParseRejectsDangling(n: Node, op: Op)
    requires WellTagged(n) && IsAdditive(op)
    ensures ParseTokens(ShowExpression(n) + [OperatorToken(op)]) == Err(MissingToken)
  {
    var s := ShowExpression(n);
    var ts := s + [OperatorToken(op)];
    assert ts[0..|s|] == s;
    assert ts[|s|] == OperatorToken(op);
    ExpressionPrefix(ts, 0, n);
    assert ParseTermAt(ts, |ts|) == Err(MissingToken);
  }

  /** `r` and the cursor agree with the rule's outcome `expected`: on
      success the node is returned and the cursor stands after it; a
      failure throws the same error and leaves the cursor anywhere. */
  predicate Agrees(expected: Parsed, r: Result<Node>, cursor: nat) {
    match expected
    case Ok((n, j)) => r == Ok(n) && cursor == j
    case Err(e) => r == Err(e)
  }

  /** The source's Parser: the tokens and one cursor shared by all rules. */
  class Parser {
    const tokens: seq<Token>
    var currentTokenIndex: nat

    constructor (tokens: seq<Token>)
      ensures this.tokens == tokens && currentTokenIndex == 0
    {
      this.tokens := tokens;
      currentTokenIndex := 0;
    }

    /** Parses one expression from a fresh parser and rejects any token
        left over. */
    method Parse() returns (r: Result<Node>)
      requires currentTokenIndex == 0
      modifies this
      ensures r == ParseTokens(tokens)
      ensures r.Ok? ==> currentTokenIndex == |tokens|
    {
      var node :- GetExpression();
      if currentTokenIndex < |tokens| {
        return Err(InvalidSyntax);
      }
      return Ok(node);
    }

    method GetExpression() returns (r: Result<Node>)
      requires currentTokenIndex <= |tokens|
      modifies this
      ensures Agrees(ParseExpressionAt(tokens, old(currentTokenIndex)), r, currentTokenIndex)
      decreases |tokens| - currentTokenIndex, 2
    {
      var node :- GetTerm();
      while currentTokenIndex < |tokens|
        invariant old(currentTokenIndex) < currentTokenIndex <= |tokens|
        invariant ParseExpressionAt(tokens, old(currentTokenIndex)) == ExpressionLoop(tokens, node, currentTokenIndex)
        decreases |tokens| - currentTokenIndex
      {
        var token := tokens[currentTokenIndex];
        if IsAdditiveToken(token) {
          currentTokenIndex := currentTokenIndex + 1;
          var right :- GetTerm();
          node := ExpressionNode(token.op, node, right);
        } else {
          break;
        }
      }
      return Ok(node);
    }

    method GetTerm() returns (r: Result<Node>)
      requires currentTokenIndex <= |tokens|
      modifies this
      ensures Agrees(ParseTermAt(tokens, old(currentTokenIndex)), r, currentTokenIndex)
      decreases |tokens| - currentTokenIndex, 1
    {
      var node :- GetFactor();
      while currentTokenIndex < |tokens|
        invariant old(currentTokenIndex) < currentTokenIndex <= |tokens|
        invariant ParseTermAt(tokens, old(currentTokenIndex)) == TermLoop(tokens, node, currentTokenIndex)
        decreases |tokens| - currentTokenIndex
      {
        var token := tokens[currentTokenIndex];
        if IsMultiplicativeToken(token) {
          currentTokenIndex := currentTokenIndex + 1;
          var right :- GetFactor();
          node := TermNode(token.op, node, right);
        } else {
          break;
        }
      }
      return Ok(node);
    }

    method GetFactor() returns (r: Result<Node>)
      requires currentTokenIndex <= |tokens|
      modifies this
      ensures Agrees(ParseFactorAt(tokens, old(currentTokenIndex)), r, currentTokenIndex)
      decreases |tokens| - currentTokenIndex, 0
    {
      if currentTokenIndex == |tokens| {
        return Err(MissingToken);
      }
      var token := tokens[currentTokenIndex];
      if token.NumberToken? {
        currentTokenIndex := currentTokenIndex + 1;
        return Ok(NumberNode(token.value));
      } else if token.LeftParenthesis? {
        currentTokenIndex := currentTokenIndex + 1;
        var node :- GetExpression();
        if currentTokenIndex == |tokens| {
          return Err(MissingToken);
        }
        if tokens[currentTokenIndex] != RightParenthesis {
          return Err(InvalidSyntax);
        }
        currentTokenIndex := currentTokenIndex + 1;
        return Ok(node);
      } else {
        return Err(InvalidSyntax);
      }
    }
  }
}
