/** The entry point: tokenize, parse, evaluate, and stop at the first
    error.
 */
module Calculator {
  import opened Syntax
  import opened Tokenizing
  import opened Parsing
  import Evaluating

  /** What the calculator yields for a text. */
  function Calculate(text: seq<char>): (r: Result<real>)
    ensures Lex(text).Err? ==> r == Err(Lex(text).error)
    ensures Lex(text).Ok? && ParseTokens(Lex(text).value).Err? ==> r == Err(ParseTokens(Lex(text).value).error)
    ensures Lex(text).Ok? && ParseTokens(Lex(text).value).Ok? ==>
      r == Evaluating.EvaluateNode(ParseTokens(Lex(text).value).value)
    ensures r.Err? ==> (r.error == InvalidCharacter <==> Lex(text).Err?)
    ensures r.Err? ==> (r.error == DivisionByZero <==> Lex(text).Ok? && ParseTokens(Lex(text).value).Ok?)
  {
    match Lex(text)
    case Err(e) => Err(e)
    case Ok(ts) =>
      match ParseTokens(ts)
      case Err(e) => Err(e)
      case Ok(n) => Evaluating.EvaluateNode(n)
  }

  /** evaluateExpression: a fresh tokenizer, a fresh parser over its tokens,
      and an evaluation of the tree; no state survives the call, so the
      same text always gives the same outcome. */
  method EvaluateExpression(text: seq<char>) returns (r: Result<real>)
    ensures r == Calculate(text)
  {
    var tokenizer := new Tokenizer(text);
    var lexed := tokenizer.Tokenize();
    assert text[0..] == text;
    assert lexed == Lex(text) by {
      if lexed.Ok? {
        assert [] + Lex(text).value == Lex(text).value;
      }
    }
    if lexed.Err? {
      return Err(lexed.error);
    }
    var parser := new Parser(lexed.value);
    var parsed := parser.Parse();
    if parsed.Err? {
      return Err(parsed.error);
    }
    var ast := parsed.value;
    r := Evaluating.EvaluateNode(ast);
  }

  /** Printing any well-tagged tree (numbers in decimal, minimal
      parentheses, a space after every token) and calculating the text gives
      the tree's value. */
  lemma CalculateShown(n: Node)
    requires WellTagged(n)
    ensures Calculate(Render(ShowExpression(n))) == Evaluating.EvaluateNode(n)
  {
    LexRender(ShowExpression(n));
    ParseShow(n);
  }

  /** The same with no spaces at all: the printed text calculates to the
      tree's value. */
  lemma CalculateShownCompact(n: Node)
    requires WellTagged(n)
    ensures Calculate(RenderCompact(ShowExpression(n))) == Evaluating.EvaluateNode(n)
  {
    ShowNoAdjacentNumbers(n);
    LexRenderCompact(ShowExpression(n));
    ParseShow(n);
  }

  /** The tree node for `left op right`: 'expression' for `+`/`-`, 'term'
      for `*`/`/`. */
  function Combine(op: Op, l: Node, r: Node): (n: Node)
    ensures !n.NumberNode? && n.op == op && n.left == l && n.right == r
    ensures WellTagged(l) && WellTagged(r) ==> WellTagged(n)
  {
    if IsAdditive(op) then ExpressionNode(op, l, r) else TermNode(op, l, r)
  }

  /** The text `L c R`, where `L` and `R` print the operands with just the
      parentheses that the precedence of `c` needs around them. */
  function BinaryText(l: Node, c: char, r: Node): seq<char>
    requires IsOperator(c)
  {
    if IsAdditive(OperatorOf(c)) then RenderCompact(ShowExpression(l)) + [c] + RenderCompact(ShowTerm(r))
    else RenderCompact(ShowTerm(l)) + [c] + RenderCompact(ShowFactor(r))
  }

  /** `L c R` for any two well-tagged operands: the left operand is
      evaluated first and its error wins, then the right operand, and then
      the operator is applied to the two values, left value on the left. */
  lemma CalculateCombined(l: Node, c: char, r: Node)
    requires IsOperator(c) && WellTagged(l) && WellTagged(r)
    ensures Evaluating.EvaluateNode(l).Err? ==> Calculate(BinaryText(l, c, r)) == Evaluating.EvaluateNode(l)
    ensures Evaluating.EvaluateNode(l).Ok? && Evaluating.EvaluateNode(r).Err? ==>
      Calculate(BinaryText(l, c, r)) == Evaluating.EvaluateNode(r)
    ensures Evaluating.EvaluateNode(l).Ok? && Evaluating.EvaluateNode(r).Ok? ==>
      Calculate(BinaryText(l, c, r))
      == Evaluating.Apply(OperatorOf(c), Evaluating.EvaluateNode(l).value, Evaluating.EvaluateNode(r).value)
  {
    var op := OperatorOf(c);
    assert OperatorChar(op) == c;
    var n := Combine(op, l, r);
    assert RenderCompact(ShowExpression(n)) == BinaryText(l, c, r) by {
      if IsAdditive(op) {
        RenderSum(op, l, r);
      } else {
        assert ShowExpression(n) == ShowTerm(n);
        RenderProduct(op, l, r);
      }
    }
    CalculateShownCompact(n);
    Evaluating.EvaluateOperands(n);
  }

  /** `a op b` for any two literals and any operator, with the left operand
      on the left of `-` and `/`; division by zero fails. */
  lemma CalculateBinary(a: nat, c: char, b: nat)
    requires IsOperator(c)
    ensures Calculate(Decimal(a) + [c] + Decimal(b)) == Evaluating.Apply(OperatorOf(c), a as real, b as real)
  {
    assert WellTagged(NumberNode(a)) && WellTagged(NumberNode(b));
    RenderNumber(a);
    RenderNumber(b);
    assert BinaryText(NumberNode(a), c, NumberNode(b)) == Decimal(a) + [c] + Decimal(b);
    Evaluating.EvaluateNumber(a);
    Evaluating.EvaluateNumber(b);
    CalculateCombined(NumberNode(a), c, NumberNode(b));
  }

  // Printing a tree without separators, one node at a time.

  lemma RenderNumber(v: nat)
    ensures RenderCompact(ShowExpression(NumberNode(v))) == Decimal(v)
    ensures RenderCompact(ShowTerm(NumberNode(v))) == Decimal(v)
    ensures RenderCompact(ShowFactor(NumberNode(v))) == Decimal(v)
  {
    ShowNumber(v);
    assert RenderCompact([NumberToken(v)]) == Decimal(v) + [];
  }

  lemma RenderOperator(op: Op)
    ensures RenderCompact([OperatorToken(op)]) == [OperatorChar(op)]
  {
    assert RenderCompact([OperatorToken(op)]) == [OperatorChar(op)] + [];
  }

  lemma RenderSum(op: Op, l: Node, r: Node)
    ensures RenderCompact(ShowExpression(ExpressionNode(op, l, r)))
         == RenderCompact(ShowExpression(l)) + [OperatorChar(op)] + RenderCompact(ShowTerm(r))
  {
    RenderCompactConcat(ShowExpression(l) + [OperatorToken(op)], ShowTerm(r));
    RenderCompactConcat(ShowExpression(l), [OperatorToken(op)]);
    RenderOperator(op);
  }

  lemma RenderProduct(op: Op, l: Node, r: Node)
    ensures RenderCompact(ShowTerm(TermNode(op, l, r)))
         == RenderCompact(ShowTerm(l)) + [OperatorChar(op)] + RenderCompact(ShowFactor(r))
  {
    RenderCompactConcat(ShowTerm(l) + [OperatorToken(op)], ShowFactor(r));
    RenderCompactConcat(ShowTerm(l), [OperatorToken(op)]);
    RenderOperator(op);
  }

  lemma RenderParenthesised(n: Node)
    requires !n.NumberNode?
    ensures RenderCompact(ShowFactor(n)) == "(" + RenderCompact(ShowExpression(n)) + ")"
  {
    ShowFactorParenthesised(n);
    RenderCompactConcat([LeftParenthesis] + ShowExpression(n), [RightParenthesis]);
    RenderCompactConcat([LeftParenthesis], ShowExpression(n));
    assert RenderCompact([LeftParenthesis]) == "(" + [];
    assert RenderCompact([RightParenthesis]) == ")" + [];
  }

  // Three-literal trees and their values.

  function Difference(a: nat, b: nat, c: nat): Node {
    ExpressionNode(Minus, ExpressionNode(Minus, NumberNode(a), NumberNode(b)), NumberNode(c))
  }

  function SumOfProduct(a: nat, b: nat, c: nat): Node {
    ExpressionNode(Plus, NumberNode(a), TermNode(Times, NumberNode(b), NumberNode(c)))
  }

  function ProductOfSum(a: nat, b: nat, c: nat): Node {
    TermNode(Times, ExpressionNode(Plus, NumberNode(a), NumberNode(b)), NumberNode(c))
  }

  lemma DifferenceValue(a: nat, b: nat, c: nat)
    ensures WellTagged(Difference(a, b, c))
    ensures Evaluating.EvaluateNode(Difference(a, b, c)) == Ok((a as real - b as real) - c as real)
  {
    assert WellTagged(NumberNode(a)) && WellTagged(NumberNode(b)) && WellTagged(NumberNode(c));
    var left := ExpressionNode(Minus, NumberNode(a), NumberNode(b));
    Evaluating.EvaluateNumber(a);
    Evaluating.EvaluateNumber(b);
    Evaluating.EvaluateNumber(c);
    Evaluating.EvaluateApplied(left, a as real, b as real);
    Evaluating.EvaluateApplied(Difference(a, b, c), a as real - b as real, c as real);
  }

  lemma SumOfProductValue(a: nat, b: nat, c: nat)
    ensures WellTagged(SumOfProduct(a, b, c))
    ensures Evaluating.EvaluateNode(SumOfProduct(a, b, c)) == Ok(a as real + b as real * c as real)
  {
    assert WellTagged(NumberNode(a)) && WellTagged(NumberNode(b)) && WellTagged(NumberNode(c));
    var right := TermNode(Times, NumberNode(b), NumberNode(c));
    Evaluating.EvaluateNumber(a);
    Evaluating.EvaluateNumber(b);
    Evaluating.EvaluateNumber(c);
    Evaluating.EvaluateApplied(right, b as real, c as real);
    Evaluating.EvaluateApplied(SumOfProduct(a, b, c), a as real, b as real * c as real);
  }

  lemma ProductOfSumValue(a: nat, b: nat, c: nat)
    ensures WellTagged(ProductOfSum(a, b, c))
    ensures Evaluating.EvaluateNode(ProductOfSum(a, b, c)) == Ok((a as real + b as real) * c as real)
  {
    assert WellTagged(NumberNode(a)) && WellTagged(NumberNode(b)) && WellTagged(NumberNode(c));
    var left := ExpressionNode(Plus, NumberNode(a), NumberNode(b));
    Evaluating.EvaluateNumber(a);
    Evaluating.EvaluateNumber(b);
    Evaluating.EvaluateNumber(c);
    Evaluating.EvaluateApplied(left, a as real, b as real);
    Evaluating.EvaluateApplied(ProductOfSum(a, b, c), a as real + b as real, c as real);
    assert Evaluating.Apply(Times, a as real + b as real, c as real).value == (a as real + b as real) * c as real;
  }

  lemma DifferenceText(a: nat, b: nat, c: nat)
    ensures RenderCompact(ShowExpression(Difference(a, b, c))) == Decimal(a) + "-" + Decimal(b) + "-" + Decimal(c)
  {
    RenderNumber(a);
    RenderNumber(b);
    RenderNumber(c);
    RenderSum(Minus, NumberNode(a), NumberNode(b));
    RenderSum(Minus, ExpressionNode(Minus, NumberNode(a), NumberNode(b)), NumberNode(c));
  }

  lemma SumOfProductText(a: nat, b: nat, c: nat)
    ensures RenderCompact(ShowExpression(SumOfProduct(a, b, c))) == Decimal(a) + "+" + Decimal(b) + "*" + Decimal(c)
  {
    var right := TermNode(Times, NumberNode(b), NumberNode(c));
    RenderNumber(a);
    RenderNumber(b);
    RenderNumber(c);
    RenderProduct(Times, NumberNode(b), NumberNode(c));
    RenderSum(Plus, NumberNode(a), right);
    assert RenderCompact(ShowTerm(right)) == Decimal(b) + "*" + Decimal(c);
  }

  lemma ParenthesisedSumText(a: nat, b: nat)
    ensures RenderCompact(ShowTerm(ExpressionNode(Plus, NumberNode(a), NumberNode(b))))
         == "(" + Decimal(a) + "+" + Decimal(b) + ")"
  {
    var left := ExpressionNode(Plus, NumberNode(a), NumberNode(b));
    var sum := RenderCompact(ShowExpression(left));
    assert sum == Decimal(a) + "+" + Decimal(b) by {
      RenderNumber(a);
      RenderNumber(b);
      RenderSum(Plus, NumberNode(a), NumberNode(b));
    }
    RenderParenthesised(left);
    assert ShowTerm(left) == ShowFactor(left);
  }

  lemma ProductOfSumText(a: nat, b: nat, c: nat)
    ensures RenderCompact(ShowExpression(ProductOfSum(a, b, c))) == "(" + Decimal(a) + "+" + Decimal(b) + ")*" + Decimal(c)
  {
    var left := ExpressionNode(Plus, NumberNode(a), NumberNode(b));
    var sum, dc := "(" + Decimal(a) + "+" + Decimal(b) + ")", Decimal(c);
    assert RenderCompact(ShowExpression(ProductOfSum(a, b, c))) == sum + "*" + dc by {
      ParenthesisedSumText(a, b);
      assert ShowExpression(ProductOfSum(a, b, c)) == ShowTerm(ProductOfSum(a, b, c));
      RenderProduct(Times, left, NumberNode(c));
      RenderNumber(c);
    }
    assert sum + "*" + dc == "(" + Decimal(a) + "+" + Decimal(b) + ")*" + dc;
  }

  /** `a - b - c` is `(a - b) - c`: subtraction folds to the left. */
  lemma CalculateLeftAssociative(a: nat, b: nat, c: nat)
    ensures Calculate(Decimal(a) + "-" + Decimal(b) + "-" + Decimal(c))
         == Ok((a as real - b as real) - c as real)
  {
    DifferenceValue(a, b, c);
    DifferenceText(a, b, c);
    CalculateShownCompact(Difference(a, b, c));
  }

  /** `a + b * c` is `a + (b * c)`: `*` binds tighter than `+`. */
  lemma CalculatePrecedence(a: nat, b: nat, c: nat)
    ensures Calculate(Decimal(a) + "+" + Decimal(b) + "*" + Decimal(c))
         == Ok(a as real + b as real * c as real)
  {
    SumOfProductValue(a, b, c);
    SumOfProductText(a, b, c);
    CalculateShownCompact(SumOfProduct(a, b, c));
  }

  /** `(a + b) * c`: parentheses override precedence. */
  lemma CalculateParentheses(a: nat, b: nat, c: nat)
    ensures Calculate("(" + Decimal(a) + "+" + Decimal(b) + ")*" + Decimal(c))
         == Ok((a as real + b as real) * c as real)
  {
    ProductOfSumValue(a, b, c);
    ProductOfSumText(a, b, c);
    CalculateShownCompact(ProductOfSum(a, b, c));
  }

  /** Spaces around the whole text change nothing. */
  lemma CalculateIgnoresOuterSpaces(text: seq<char>)
    ensures Calculate(" " + text + " ") == Calculate(text)
  {
    LexSpaceBetween(text, []);
    assert text + " " + [] == text + " ";
    assert text + [] == text;
    LexSpaceThen(text + " ");
    assert " " + text + " " == " " + (text + " ");
  }

  /** Each stage raises only its own errors, so the error says where the
      text went wrong: an unknown character somewhere in the text exactly
      when the tokenizer fails, and a division by zero only in a tree that
      divides. */
  lemma CalculateErrors(text: seq<char>)
    ensures Calculate(text) == Err(InvalidCharacter)
        <==> exists i :: 0 <= i < |text| && !IsAccepted(text[i])
    ensures Calculate(text) == Err(DivisionByZero) ==>
        Lex(text).Ok? && ParseTokens(Lex(text).value).Ok? &&
        Evaluating.HasDivision(ParseTokens(Lex(text).value).value)
  {
    LexSucceedsIff(text);
  }

  /** A space anywhere except between two digits changes nothing. */
  lemma CalculateSpaceBetween(a: seq<char>, b: seq<char>)
    requires a == [] || b == [] || !IsDigit(a[|a| - 1]) || !IsDigit(b[0])
    ensures Calculate(a + " " + b) == Calculate(a + b)
  {
    LexSpaceBetween(a, b);
  }

  /** Two numbers printed apart (`a b `) are two number tokens in a row,
      which is no expression. */
  lemma CalculateAdjacentNumbers(a: nat, b: nat)
    ensures Calculate(Render([NumberToken(a), NumberToken(b)])) == Err(InvalidSyntax)
  {
    var tokens := [NumberToken(a), NumberToken(b)];
    LexRender(tokens);
    ShowNumber(a);
    assert tokens == ShowExpression(NumberNode(a)) + [NumberToken(b)] + [];
    ParseRejectsTrailing(NumberNode(a), NumberToken(b), []);
  }

  /** Two numbers with one space between them: the same outcome as `a b `,
      since the trailing space changes nothing. */
  lemma CalculateSeparatedNumbers(a: nat, b: nat)
    ensures Calculate(Decimal(a) + " " + Decimal(b)) == Err(InvalidSyntax)
  {
    var text := Decimal(a) + " " + Decimal(b);
    var tokens := [NumberToken(a), NumberToken(b)];
    assert Render(tokens) == text + " " + [] by {
      assert tokens[1..] == [NumberToken(b)];
      assert tokens[1..][1..] == [];
      assert Render([NumberToken(b)]) == Decimal(b) + " ";
    }
    CalculateAdjacentNumbers(a, b);
    CalculateSpaceBetween(text, []);
    assert text + [] == text;
  }

  /** `(a + b` with no `)`: the parser reads past the last token. */
  lemma CalculateUnclosed(a: nat, b: nat)
    ensures Calculate("(" + Decimal(a) + "+" + Decimal(b)) == Err(MissingToken)
  {
    var sum := ExpressionNode(Plus, NumberNode(a), NumberNode(b));
    assert WellTagged(NumberNode(a)) && WellTagged(NumberNode(b));
    var tokens := [LeftParenthesis] + ShowExpression(sum);
    assert RenderCompact(tokens) == "(" + Decimal(a) + "+" + Decimal(b) by {
      RenderCompactConcat([LeftParenthesis], ShowExpression(sum));
      assert RenderCompact([LeftParenthesis]) == "(" + [];
      RenderNumber(a);
      RenderNumber(b);
      RenderSum(Plus, NumberNode(a), NumberNode(b));
    }
    assert Lex(RenderCompact(tokens)) == Ok(tokens) by {
      ShowNoAdjacentNumbers(sum);
      NoAdjacentNumbersJoin([], LeftParenthesis, ShowExpression(sum));
      assert [] + [LeftParenthesis] + ShowExpression(sum) == tokens;
      LexRenderCompact(tokens);
    }
    ParseRejectsUnclosed(sum);
  }

  /** `-a`: there is no unary minus. */
  lemma CalculateNoUnaryMinus(a: nat)
    ensures Calculate("-" + Decimal(a)) == Err(InvalidSyntax)
  {
    assert Lex("-" + Decimal(a)) == Ok([OperatorToken(Minus), NumberToken(a)]) by {
      LexNumberThen(a, []);
      assert Decimal(a) + [] == Decimal(a);
      LexSymbolThen('-', Decimal(a));
      assert [OperatorToken(Minus)] + ([NumberToken(a)] + []) == [OperatorToken(Minus), NumberToken(a)];
    }
    ParseRejectsLeading(OperatorToken(Minus), [NumberToken(a)]);
    assert [OperatorToken(Minus)] + [NumberToken(a)] == [OperatorToken(Minus), NumberToken(a)];
  }

  /** `a +` with nothing after the operator: the parser reads past the last
      token. */
  lemma CalculateDangling(a: nat)
    ensures Calculate(Decimal(a) + "+") == Err(MissingToken)
  {
    assert Lex(Decimal(a) + "+") == Ok([NumberToken(a), OperatorToken(Plus)]) by {
      LexSymbolThen('+', []);
      assert "+" + [] == "+";
      assert Lex([]) == Ok([]);
      LexNumberThen(a, "+");
      assert [NumberToken(a)] + ([OperatorToken(Plus)] + []) == [NumberToken(a), OperatorToken(Plus)];
    }
    ShowNumber(a);
    assert ShowExpression(NumberNode(a)) + [OperatorToken(Plus)] == [NumberToken(a), OperatorToken(Plus)];
    assert WellTagged(NumberNode(a));
    ParseRejectsDangling(NumberNode(a), Plus);
  }

  // The documented behaviours, on concrete texts.

  lemma ExamplePrecedence()
    ensures Calculate("2+3*4") == Ok(14.0)
  {
    assert Decimal(2) == "2" && Decimal(3) == "3" && Decimal(4) == "4";
    assert Decimal(2) + "+" + Decimal(3) + "*" + Decimal(4) == "2+3*4";
    CalculatePrecedence(2, 3, 4);
  }

  lemma ExampleParentheses()
    ensures Calculate("(2+3)*4") == Ok(20.0)
  {
    assert Decimal(2) == "2" && Decimal(3) == "3" && Decimal(4) == "4";
    assert "(" + Decimal(2) + "+" + Decimal(3) + ")*" + Decimal(4) == "(2+3)*4";
    CalculateParentheses(2, 3, 4);
  }

  lemma ExampleLeftAssociative()
    ensures Calculate("10-2-3") == Ok(5.0)
  {
    assert Decimal(10) == "10" && Decimal(2) == "2" && Decimal(3) == "3";
    assert Decimal(10) + "-" + Decimal(2) + "-" + Decimal(3) == "10-2-3";
    CalculateLeftAssociative(10, 2, 3);
  }

  lemma ExampleRealQuotient()
    ensures Calculate("7/2") == Ok(3.5)
  {
    CalculateBinary(7, '/', 2);
  }

  lemma ExampleDivisionByZero()
    ensures Calculate("5/0") == Err(DivisionByZero)
  {
    CalculateBinary(5, '/', 0);
  }

  lemma ExampleUnknownCharacter()
    ensures Calculate("2&3") == Err(InvalidCharacter)
  {
    CalculateErrors("2&3");
    assert !IsAccepted("2&3"[1]);
  }
}
