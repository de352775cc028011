# A verified model of a small arithmetic calculator

The calculator reads a line of text such as `(2+3)*4` and computes its
value in three stages:

- a **tokenizer** scans the text left to right and turns it into number,
  operator and parenthesis tokens;
- a **recursive-descent parser** builds a syntax tree from the tokens, one
  rule per precedence level (`expression` for `+`/`-`, `term` for
  `*`/`/`, `factor` for numbers and parenthesised expressions);
- an **evaluator** walks the tree bottom-up and computes the number.

`evaluateExpression` chains the three stages. Any stage can abort the
whole computation.

The model has five modules:

- `Syntax` (`syntax.dfy`) holds the shared values: tokens, tree nodes, the
  four error kinds and a `Result` type.
- `Tokenizing` (`tokenizer.dfy`) holds the tokenizer.
- `Parsing` (`parser.dfy`) holds the parser.
- `Evaluating` (`evaluator.dfy`) holds the evaluator.
- `Calculator` (`calculator.dfy`) holds the pipeline and its end-to-end
  properties.

The tokenizer and the parser update a cursor in place in the source, so
they are Dafny classes (`Tokenizing.Tokenizer`, `Parsing.Parser`) with
the same fields, except the tokenizer's `currentToken`. Their methods are
proved equal to pure reference functions:

- `Lex` gives the meaning of a scan of the remaining text.
- `ParseExpressionAt`, `ParseTermAt` and `ParseFactorAt` give the meaning
  of each grammar rule at a token position. `ExpressionLoop` and
  `TermLoop` give the meaning of the rules' `while` loops.

The properties are then proved about those functions. The evaluator is
pure recursion and is modelled as functions.

A thrown exception becomes an `Err` result with one of four kinds:

| kind | raised by |
|---|---|
| `InvalidCharacter` | the tokenizer's "Invalid character found" |
| `InvalidSyntax` | each "Invalid syntax" throw of the parser |
| `MissingToken` | a parser read past the last token (see below) |
| `DivisionByZero` | the evaluator dividing by exactly zero (see below) |

In the source, reading past the last token gives `undefined`, and reading
`.type` of it throws a `TypeError`. `(1+2`, an empty text and `2+` all
read past the last token, so they fail with MissingToken rather than
InvalidSyntax (`Calculator.CalculateUnclosed`, `Parsing.ParseRejectsEmpty`,
`Calculator.CalculateDangling`).

Numbers are unbounded naturals and results are exact reals (`real`).

## Model

| member | source | states |
|---|---|---|
| Tokenizing.Lex | script.js:10-32 | the scan of a text never yields more tokens than the text has characters (each token consumes at least one), and its only failure is InvalidCharacter |
| Tokenizing.Tokenizer.Tokenize | script.js:10-32 | the cursor-driven scan returns the old tokens followed by the scan (`Lex`) of the text from the old cursor, and on success leaves exactly those tokens in `tokens` and the cursor at the end of the text |
| Tokenizing.Tokenizer.GetNumber | script.js:38-49 | consumes the maximal run of digits at the cursor, leaves the cursor on its last digit, and returns the number token with the run's decimal value |
| Tokenizing.Tokenizer.constructor | script.js:2-8 | a fresh tokenizer has the text, no tokens and the cursor at 0 |
| Tokenizing.IsOperator | script.js:51-53 | an operator character is never a digit |
| Tokenizing.IsParenthesis | script.js:59-61 | a parenthesis is neither a digit nor an operator |
| Tokenizing.IsSpace | script.js:72-74 | a space is none of the other three classes, so the order of the scan's tests does not matter |
| Tokenizing.CharacterClasses | script.js:34-36 | the digit class is exactly the ten characters of `[0-9]`, the operators exactly `+ - * /` and the parentheses exactly `(` and `)` |
| Tokenizing.SymbolToken | script.js:55-70 | a one-character symbol becomes an operator token exactly when it is an operator, whose character reads back as that symbol, and otherwise the left or right parenthesis token matching the character |
| Tokenizing.DigitsValue | script.js:48 | `parseInt` of `k` decimal digits is below `10^k` |
| Tokenizing.DigitsValueLeadingZero | script.js:48 | a leading zero does not change the value `parseInt` reads |
| Tokenizing.DigitRun | script.js:41-45 | the consumed prefix is all digits and is followed either by the end of the text or by a non-digit |
| Tokenizing.DigitChar | script.js:35 | the digit character of a value below ten is a digit that reads back as that value |
| Tokenizing.OperatorChar | script.js:52 | the character of each operator is accepted as an operator and reads back as that operator |
| Tokenizing.LexDigitRun | script.js:14-15 | a run of digits followed by the end or by a non-digit is one number token with its decimal value, whatever follows |
| Tokenizing.LexSucceedsIff | script.js:14-26 | the scan succeeds if and only if every character is a digit, an operator, a parenthesis or a space |
| Tokenizing.LexNeverSplitsRuns | script.js:38-49 | a text with no spaces never scans to two number tokens in a row: digit runs are never split |
| Tokenizing.LexConcat | script.js:10-32 | scanning a concatenation scans each part and joins the tokens, unless the parts meet in the middle of a digit run |
| Tokenizing.LexSpaceBetween | script.js:22-23 | inserting a space anywhere except between two digits does not change the scan |
| Tokenizing.Decimal | script.js:48 | a decimal rendering is a non-empty string of digits |
| Tokenizing.DecimalValue | script.js:48 | `parseInt` reads back the decimal rendering of every natural |
| Tokenizing.LexRender | script.js:10-32 | scanning any token sequence printed with a space after each token gives back exactly that sequence |
| Tokenizing.LexRenderCompact | script.js:10-32 | the same round trip without separators holds whenever no two number tokens are adjacent |
| Parsing.ParseExpressionAt | script.js:102-122 | `expression`: a term and then the additive loop; a success consumes at least one token, stays inside the tokens and yields a well-tagged tree; the only failures are InvalidSyntax and MissingToken |
| Parsing.ExpressionLoop | script.js:105-119 | the additive loop never moves the cursor back or past the end, keeps the folded tree well-tagged, and fails only with InvalidSyntax or MissingToken |
| Parsing.ParseTermAt | script.js:124-144 | `term`: a factor and then the multiplicative loop, with the same guarantees as `expression` |
| Parsing.TermLoop | script.js:127-141 | the multiplicative loop never moves the cursor back or past the end, keeps the folded tree well-tagged, and fails only with InvalidSyntax or MissingToken |
| Parsing.ParseFactorAt | script.js:146-165 | `factor`: a success consumes at least one token, stays inside the tokens and yields a well-tagged tree; the only failures are InvalidSyntax and MissingToken (the individual cases are the `ParseRejects` lemmas) |
| Parsing.ParseTokens | script.js:92-100 | succeeds exactly when one expression parses from position 0 and uses every token; its tree is well-tagged; a failure of the expression is passed on unchanged, and tokens left over after a complete expression are InvalidSyntax |
| Parsing.ParseShow | script.js:92-165 | every well-tagged tree printed with minimal parentheses parses back to itself: precedence and left associativity are exactly what the tree shapes encode |
| Parsing.ParseRejectsTrailing | script.js:95-97 | a complete expression followed by a token that is not an operator is rejected with InvalidSyntax, as in `2 2` |
| Parsing.ParseRejectsEmpty | script.js:147-149 | no tokens: reading the first factor fails with MissingToken |
| Parsing.ParseRejectsLeading | script.js:162-164 | a text that starts with an operator or a `)` is InvalidSyntax: there is no unary minus |
| Parsing.ParseRejectsUnclosed | script.js:150-158 | a `(` whose expression runs to the end fails with MissingToken when the `)` is read |
| Parsing.ParseRejectsMismatched | script.js:156-158 | a `(` and an expression followed by a token that is neither an operator nor `)` is InvalidSyntax |
| Parsing.ParseRejectsDangling | script.js:108-115 | an expression ending in `+` or `-` fails with MissingToken when the right operand is read |
| Parsing.Parser.Parse | script.js:92-100 | a fresh parser's `parse` returns exactly `ParseTokens` of its tokens and, on success, leaves the cursor at the end of the tokens |
| Parsing.Parser.GetExpression | script.js:102-122 | returns the outcome of `ParseExpressionAt` at the old cursor and, on success, leaves the cursor after the expression |
| Parsing.Parser.GetTerm | script.js:124-144 | returns the outcome of `ParseTermAt` at the old cursor and, on success, leaves the cursor after the term |
| Parsing.Parser.GetFactor | script.js:146-165 | returns the outcome of `ParseFactorAt` at the old cursor and, on success, leaves the cursor after the factor |
| Parsing.Parser.constructor | script.js:87-90 | a fresh parser has the tokens and the cursor at 0 |
| Evaluating.EvaluateNode | script.js:181-201 | the only error a well-tagged tree can give is DivisionByZero, and only a tree that contains a `/` can give it |
| Evaluating.EvaluateExpression | script.js:203-217 | an 'expression' node can fail only with DivisionByZero, and only when an operand contains a `/` |
| Evaluating.EvaluateTerm | script.js:219-233 | a 'term' node can fail only with DivisionByZero, and only when it or an operand is a division |
| Evaluating.Apply | script.js:210-232 | the operator dispatch of `evaluateExpression` and `evaluateTerm` fails exactly for `/` by zero, and only with DivisionByZero; `*` gives the product; a sum minus the right operand, a difference plus it and a quotient times it each give back the left operand |
| Evaluating.EvaluateFailsIff | script.js:181-233 | evaluating a tree fails exactly when some `/` in it has a right operand whose value is exactly zero; every other tree has a value |
| Calculator.Calculate | script.js:260-263 | the outcome of a text: its scan (`Lex`), then the parse of the tokens (`ParseTokens`), then the evaluation of the tree (`EvaluateNode`), where the first stage that fails gives the outcome as is; so InvalidCharacter comes exactly from a failed scan and DivisionByZero exactly from a parsed tree |
| Calculator.EvaluateExpression | script.js:259-263 | the pipeline method (new tokenizer, new parser, evaluation) returns `Calculate(text)`, so the outcome depends on the text alone |
| Calculator.CalculateShown | script.js:259-263 | printing any well-tagged tree with spaces and calculating the text gives the tree's value |
| Calculator.CalculateShownCompact | script.js:259-263 | the same holds when the tree is printed without spaces |
| Calculator.CalculateCombined | script.js:203-233 | `L op R` for any two well-tagged operands printed with the parentheses precedence needs: an error of the left operand wins, then one of the right operand, and otherwise the result is `op` applied to the two values, left value on the left |
| Calculator.CalculateBinary | script.js:203-233 | `a op b` for any two literals and any operator is `op` applied to them, left operand first; division by zero fails |
| Calculator.CalculateLeftAssociative | script.js:105-119 | `a-b-c` is `(a-b)-c`: operators of one level fold to the left |
| Calculator.CalculatePrecedence | script.js:102-144 | `a+b*c` is `a+(b*c)`: `*` binds tighter than `+` |
| Calculator.CalculateParentheses | script.js:150-160 | `(a+b)*c` multiplies the parenthesised sum |
| Calculator.CalculateErrors | script.js:25 | the outcome is InvalidCharacter exactly when some character is not accepted, and DivisionByZero only when the text parses to a tree that divides |
| Calculator.CalculateSpaceBetween | script.js:22-23 | a space inserted anywhere except between two digits changes nothing |
| Calculator.CalculateIgnoresOuterSpaces | script.js:22-23 | spaces around the whole text change nothing |
| Calculator.CalculateAdjacentNumbers | script.js:95-97 | `a b `, each number followed by a space, is InvalidSyntax |
| Calculator.CalculateSeparatedNumbers | script.js:95-97 | two numbers with one space between them, `a b`, are InvalidSyntax |
| Calculator.CalculateUnclosed | script.js:156 | `(a+b` without `)` fails with MissingToken |
| Calculator.CalculateNoUnaryMinus | script.js:162-164 | `-a` is InvalidSyntax |
| Calculator.CalculateDangling | script.js:114 | `a+` fails with MissingToken |
| Calculator.ExamplePrecedence | script.js:259-263 | `2+3*4` is 14 |
| Calculator.ExampleParentheses | script.js:259-263 | `(2+3)*4` is 20 |
| Calculator.ExampleLeftAssociative | script.js:259-263 | `10-2-3` is 5 |
| Calculator.ExampleRealQuotient | script.js:230-232 | `7/2` is 3.5: division is not integer division |
| Calculator.ExampleDivisionByZero | script.js:230-232 | `5/0` fails with DivisionByZero |
| Calculator.ExampleUnknownCharacter | script.js:25 | `2&3` fails with InvalidCharacter |

## Left out

- The page code is not modelled: the button and keyboard listeners and
  `displayResult` (script.js:236-257, 265). The result is returned
  instead of displayed.
- The stale grammar comment at script.js:79-85 is not modelled. It
  describes a grammar without precedence; the parser's code is modelled
  instead.
- Evaluating.EvaluateTerm and Evaluating.Apply: dividing by zero in
  JavaScript yields `Infinity` or `NaN` and does not throw. The model fails with
  DivisionByZero instead, because reals have no infinity. This is a
  deliberate departure from the source.
- IEEE double arithmetic is not modelled. `parseInt` of long digit runs
  loses precision, and `+`, `-`, `*` and `/` round. The model uses
  unbounded naturals for literals and exact reals for results.
- The tokenizer's `currentToken` field is not kept. It only caches
  `text[currentTokenIndex]`, and the model reads the text at the cursor
  instead.
- `toString()` on the constructor argument is not modelled. The model
  takes the text as a string.
- Tokenizing.Tokenizer.Tokenize: after a failure, the contents of
  `tokens` are not stated. In the source they hold the partial scan, but
  nothing reads them after the throw.
- Parsing.Parser.GetExpression, Parsing.Parser.GetTerm and
  Parsing.Parser.GetFactor: after a failure, where the cursor stands is
  not stated. In the source the exception ends the parse, and nothing
  reads the cursor afterwards.
- Parsing.Parser.Parse requires a fresh cursor. The source only ever
  calls `parse` on a new parser.
- Any exception the source throws when it reads past the end of the
  tokens is modelled as the single kind MissingToken. The message of the
  JavaScript error is not modelled.
- The `undefined` results of `evaluateNode`, `evaluateExpression` and
  `evaluateTerm` for an unknown node type or operator are not modelled.
  The parser never builds such nodes: all its trees are well-tagged, so
  the evaluator requires `WellTagged`.
- The source's `Evaluator` class only holds the tree, so it is modelled
  by the functions alone.
