/** The tokenizer: one left-to-right scan over the input text. `Lex` is the
    reference meaning of a scan, defined on the remaining text; the class
    `Tokenizer` is the cursor-driven scan of the source, proved to compute
    `Lex`.
 */
module Tokenizing {
  import opened Syntax

  // Character classes (isNumber, isOperator, isParenthesis, isSpace).

  // The four classes are disjoint, so the order in which the scan tests
  // them does not matter.

  /** The characters of the class `[0-9]`. */
  predicate IsDigit(c: char)
  {
    '0' <= c <= '9'
  }

  /** One of the four operator characters. */
  predicate IsOperator(c: char)
    ensures IsOperator(c) ==> !IsDigit(c)
  {
    c == '+' || c == '-' || c == '*' || c == '/'
  }

  predicate IsParenthesis(c: char)
    ensures IsParenthesis(c) ==> !IsDigit(c) && !IsOperator(c)
  {
    c == '(' || c == ')'
  }

  /** Only the space character itself; tabs and newlines are not spaces. */
  predicate IsSpace(c: char)
    ensures IsSpace(c) ==> !IsDigit(c) && !IsOperator(c) && !IsParenthesis(c)
  {
    c == ' '
  }

  /** The classes as the source lists them: the digits of `[0-9]`, the
      operators `+ - * /` and the two parentheses. */
  lemma CharacterClasses(c: char)
    ensures IsDigit(c) <==> c in "0123456789"
    ensures IsOperator(c) <==> c in "+-*/"
    ensures IsParenthesis(c) <==> c in "()"
  {
  }

  predicate IsAccepted(c: char) {
    IsDigit(c) || IsOperator(c) || IsParenthesis(c) || IsSpace(c)
  }

  predicate AllDigits(d: seq<char>) {
    forall i :: 0 <= i < |d| ==> IsDigit(d[i])
  }

  function DigitValue(c: char): nat
    requires IsDigit(c)
  {
    c as int - '0' as int
  }

  function DigitChar(d: nat): (c: char)
    requires d < 10
    ensures IsDigit(c) && DigitValue(c) == d
  {
    ('0' as int + d) as char
  }

  function OperatorOf(c: char): Op
    requires IsOperator(c)
  {
    if c == '+' then Plus else if c == '-' then Minus else if c == '*' then Times else Divide
  }

  function OperatorChar(op: Op): (c: char)
    ensures IsOperator(c) && OperatorOf(c) == op
  {
    match op
    case Plus => '+'
    case Minus => '-'
    case Times => '*'
    case Divide => '/'
  }

  /** The token of a one-character symbol (getOperator, getParenthesis). */
  function SymbolToken(c: char): (t: Token)
    requires IsOperator(c) || IsParenthesis(c)
    ensures t.OperatorToken? <==> IsOperator(c)
    ensures t.OperatorToken? ==> OperatorChar(t.op) == c
    ensures t == LeftParenthesis <==> c == '('
    ensures t == RightParenthesis <==> c == ')'
  {
    if IsOperator(c) then OperatorToken(OperatorOf(c))
    else if c == '(' then LeftParenthesis
    else RightParenthesis
  }

  function Power10(k: nat): (p: nat)
    ensures p > 0
  {
    if k == 0 then 1 else 10 * Power10(k - 1)
  }

  /** parseInt on a string of decimal digits: the digits read most
      significant first, so `k` digits give a value below `10^k`. */
  function DigitsValue(d: seq<char>): (v: nat)
    requires AllDigits(d)
    ensures v < Power10(|d|)
  {
    if d == [] then 0
    else
      var prefix := DigitsValue(d[..|d| - 1]);
      assert prefix * 10 + DigitValue(d[|d| - 1]) < Power10(|d|) by {
        assert prefix <= Power10(|d| - 1) - 1;
        assert prefix * 10 <= Power10(|d|) - 10;
      }
      prefix * 10 + DigitValue(d[|d| - 1])
  }

  /** Leading zeros do not change the value, as with parseInt("007"). */
  lemma {:induction false} DigitsValueLeadingZero(d: seq<char>)
    requires AllDigits(d)
    ensures AllDigits(['0'] + d) && DigitsValue(['0'] + d) == DigitsValue(d)
  {
    var z := ['0'] + d;
    if d != [] {
      assert z[..|z| - 1] == ['0'] + d[..|d| - 1];
      assert z[|z| - 1] == d[|d| - 1];
      DigitsValueLeadingZero(d[..|d| - 1]);
    }
  }

  /** The length of the run of digits that starts `s`: it is all digits and
      cannot be extended. */
  function DigitRun(s: seq<char>): (k: nat)
    ensures k <= |s| && AllDigits(s[..k])
    ensures k < |s| ==> !IsDigit(s[k])
  {
    if s == [] || !IsDigit(s[0]) then 0
    else
      var k := 1 + DigitRun(s[1..]);
      assert s[..k] == [s[0]] + s[1..][..k - 1];
      k
  }

  function Prepend(ts: seq<Token>, r: Result<seq<Token>>): Result<seq<Token>> {
    match r
    case Ok(rest) => Ok(ts + rest)
    case Err(e) => Err(e)
  }

  /** The tokens of `a` followed by those of `b`, or the first error. */
  function Join(a: Result<seq<Token>>, b: Result<seq<Token>>): Result<seq<Token>> {
    match a
    case Ok(ts) => Prepend(ts, b)
    case Err(e) => Err(e)
  }

  /** What a scan of `s` yields: a maximal digit run becomes one number token,
      a symbol becomes its token, a space is skipped, anything else is an
      error. No scan yields more tokens than there are characters. */
  function Lex(s: seq<char>): (r: Result<seq<Token>>)
    ensures r.Ok? ==> |r.value| <= |s|
    ensures r.Err? ==> r.error == InvalidCharacter
    decreases |s|
  {
    if s == [] then Ok([])
    else if IsDigit(s[0]) then
      var k := DigitRun(s);
      Prepend([NumberToken(DigitsValue(s[..k]))], Lex(s[k..]))
    else if IsOperator(s[0]) || IsParenthesis(s[0]) then
      Prepend([SymbolToken(s[0])], Lex(s[1..]))
    else if IsSpace(s[0]) then
      Lex(s[1..])
    else
      Err(InvalidCharacter)
  }

  lemma PrependPrepend(a: seq<Token>, b: seq<Token>, r: Result<seq<Token>>)
    ensures Prepend(a, Prepend(b, r)) == Prepend(a + b, r)
  {
    if r.Ok? {
      assert a + (b + r.value) == (a + b) + r.value;
    }
  }

  lemma JoinPrepend(ts: seq<Token>, a: Result<seq<Token>>, b: Result<seq<Token>>)
    ensures Join(Prepend(ts, a), b) == Prepend(ts, Join(a, b))
  {
    if a.Ok? {
      PrependPrepend(ts, a.value, b);
    }
  }

  /** The run of digits is determined by where the digits stop. */
  lemma {:induction false} DigitRunUnique(s: seq<char>, k: nat)
    requires k <= |s| && AllDigits(s[..k])
    requires k < |s| ==> !IsDigit(s[k])
    ensures DigitRun(s) == k
  {
    if k > 0 {
      assert IsDigit(s[..k][0]);
      assert s[1..][..k - 1] == s[..k][1..];
      DigitRunUnique(s[1..], k - 1);
    }
  }

  /** Maximal munch: a run of digits followed by a non-digit is one number
      token holding the decimal value of the run, whatever follows. */
  lemma LexDigitRun(d: seq<char>, rest: seq<char>)
    requires |d| >= 1 && AllDigits(d)
    requires rest == [] || !IsDigit(rest[0])
    ensures Lex(d + rest) == Prepend([NumberToken(DigitsValue(d))], Lex(rest))
  {
    var s := d + rest;
    assert s[..|d|] == d;
    assert s[|d|..] == rest;
    DigitRunUnique(s, |d|);
  }

  /** Scanning a concatenation scans each part, provided the parts do not
      meet inside a run of digits. */
  lemma {:induction false} LexConcat(a: seq<char>, b: seq<char>)
    requires a == [] || b == [] || !IsDigit(a[|a| - 1]) || !IsDigit(b[0])
    ensures Lex(a + b) == Join(Lex(a), Lex(b))
    decreases |a|
  {
    var s := a + b;
    if a == [] {
      assert s == b;
      if Lex(b).Ok? {
        assert [] + Lex(b).value == Lex(b).value;
      }
    } else if IsDigit(a[0]) {
      var k := DigitRun(a);
      assert s[..k] == a[..k];
      if k < |a| {
        assert s[k] == a[k];
      } else if b != [] {
        assert s[k] == b[0];
      }
      DigitRunUnique(s, k);
      assert s[k..] == a[k..] + b;
      LexConcat(a[k..], b);
      JoinPrepend([NumberToken(DigitsValue(a[..k]))], Lex(a[k..]), Lex(b));
    } else if IsOperator(a[0]) || IsParenthesis(a[0]) || IsSpace(a[0]) {
      assert s[0] == a[0];
      assert s[1..] == a[1..] + b;
      LexConcat(a[1..], b);
      if !IsSpace(a[0]) {
        JoinPrepend([SymbolToken(a[0])], Lex(a[1..]), Lex(b));
      }
    } else {
      assert s[0] == a[0];
    }
  }

  /** A scan succeeds exactly when every character is accepted. */
  lemma {:induction false} LexSucceedsIff(s: seq<char>)
    ensures Lex(s).Ok? <==> forall i :: 0 <= i < |s| ==> IsAccepted(s[i])
    decreases |s|
  {
    if s != [] {
      var k := if IsDigit(s[0]) then DigitRun(s) else 1;
      if IsAccepted(s[0]) {
        assert k >= 1;
        LexSucceedsIff(s[k..]);
        assert forall i :: 0 <= i < k ==> IsAccepted(s[i]) by {
          if IsDigit(s[0]) {
            assert forall i :: 0 <= i < k ==> s[..k][i] == s[i];
          }
        }
        assert forall i :: k <= i < |s| ==> s[i] == s[k..][i - k];
      }
    }
  }

  predicate NoAdjacentNumbers(ts: seq<Token>) {
    forall i :: 0 <= i < |ts| - 1 ==> !(ts[i].NumberToken? && ts[i + 1].NumberToken?)
  }

  /** Two token sequences without adjacent numbers stay so when joined by
      a token that is not a number. */
  lemma NoAdjacentNumbersJoin(a: seq<Token>, t: Token, b: seq<Token>)
    requires NoAdjacentNumbers(a) && NoAdjacentNumbers(b) && !t.NumberToken?
    ensures NoAdjacentNumbers(a + [t] + b)
  {
    var s := a + [t] + b;
    forall i | 0 <= i < |s| - 1
      ensures !(s[i].NumberToken? && s[i + 1].NumberToken?)
    {
      if i + 1 < |a| {
        assert s[i] == a[i] && s[i + 1] == a[i + 1];
      } else if i > |a| {
        assert s[i] == b[i - |a| - 1] && s[i + 1] == b[i - |a|];
      }
    }
  }

  /** Without spaces a digit run is never split: no two number tokens
      follow each other. */
  lemma {:induction false} LexNeverSplitsRuns(s: seq<char>)
    requires forall i :: 0 <= i < |s| ==> !IsSpace(s[i])
    ensures Lex(s).Ok? ==> NoAdjacentNumbers(Lex(s).value)
    decreases |s|
  {
    if s != [] && Lex(s).Ok? {
      var k := if IsDigit(s[0]) then DigitRun(s) else 1;
      assert k >= 1;
      assert forall i :: 0 <= i < |s[k..]| ==> s[k..][i] == s[k + i];
      LexNeverSplitsRuns(s[k..]);
      if IsDigit(s[0]) && k < |s| {
        var t := s[k..];
        assert t[0] == s[k] && !IsDigit(t[0]) && !IsSpace(t[0]);
        assert Lex(t).value[0] == SymbolToken(t[0]);
      }
    }
  }

  // Printing tokens back as text.

  /** The decimal digits of `n`, with no leading zero. */
  function Decimal(n: nat): (d: seq<char>)
    ensures |d| >= 1 && AllDigits(d)
  {
    if n < 10 then [DigitChar(n)] else Decimal(n / 10) + [DigitChar(n % 10)]
  }

  /** parseInt reads back the digits Decimal prints. */
  lemma {:induction false} DecimalValue(n: nat)
    ensures DigitsValue(Decimal(n)) == n
  {
    if n >= 10 {
      var d := Decimal(n);
      assert d[..|d| - 1] == Decimal(n / 10);
      DecimalValue(n / 10);
    }
  }

  function RenderToken(t: Token): seq<char> {
    match t
    case NumberToken(v) => Decimal(v)
    case OperatorToken(op) => [OperatorChar(op)]
    case LeftParenthesis => "("
    case RightParenthesis => ")"
  }

  /** Each token printed and followed by a space. */
  function Render(ts: seq<Token>): seq<char> {
    if ts == [] then [] else RenderToken(ts[0]) + " " + Render(ts[1..])
  }

  /** Each token printed with nothing between. */
  function RenderCompact(ts: seq<Token>): seq<char> {
    if ts == [] then [] else RenderToken(ts[0]) + RenderCompact(ts[1..])
  }

  /** Printing distributes over concatenation. */
  lemma {:induction false} RenderCompactConcat(a: seq<Token>, b: seq<Token>)
    ensures RenderCompact(a + b) == RenderCompact(a) + RenderCompact(b)
    decreases |a|
  {
    if a == [] {
      assert a + b == b;
    } else {
      assert (a + b)[1..] == a[1..] + b;
      RenderCompactConcat(a[1..], b);
    }
  }

  lemma RenderTokenEnds(t: Token)
    ensures |RenderToken(t)| >= 1
    ensures IsDigit(RenderToken(t)[0]) <==> t.NumberToken?
    ensures IsDigit(RenderToken(t)[|RenderToken(t)| - 1]) <==> t.NumberToken?
  {
  }

  /** Printing tokens with no spaces and scanning them back gives the same
      tokens, as long as no two numbers are adjacent (they would merge). */
  lemma {:induction false} LexRenderCompact(ts: seq<Token>)
    requires NoAdjacentNumbers(ts)
    ensures Lex(RenderCompact(ts)) == Ok(ts)
  {
    if ts != [] {
      var head, tail := RenderToken(ts[0]), RenderCompact(ts[1..]);
      RenderTokenEnds(ts[0]);
      if |ts| > 1 {
        RenderTokenEnds(ts[1]);
        assert tail == RenderToken(ts[1]) + RenderCompact(ts[2..]);
        assert tail[0] == RenderToken(ts[1])[0];
      }
      LexConcat(head, tail);
      LexRenderToken(ts[0]);
      assert NoAdjacentNumbers(ts[1..]) by {
        forall i | 0 <= i < |ts[1..]| - 1
          ensures !(ts[1..][i].NumberToken? && ts[1..][i + 1].NumberToken?)
        {
          assert ts[1..][i] == ts[i + 1] && ts[1..][i + 1] == ts[i + 2];
        }
      }
      LexRenderCompact(ts[1..]);
      assert [ts[0]] + ts[1..] == ts;
    }
  }

  lemma LexNumberThen(v: nat, s: seq<char>)
    requires s == [] || !IsDigit(s[0])
    ensures Lex(Decimal(v) + s) == Prepend([NumberToken(v)], Lex(s))
  {
    LexDigitRun(Decimal(v), s);
    DecimalValue(v);
  }

  lemma LexSymbolThen(c: char, s: seq<char>)
    requires IsOperator(c) || IsParenthesis(c)
    ensures Lex([c] + s) == Prepend([SymbolToken(c)], Lex(s))
  {
    assert ([c] + s)[1..] == s;
  }

  lemma LexSpaceThen(s: seq<char>)
    ensures Lex(" " + s) == Lex(s)
  {
    assert (" " + s)[1..] == s;
  }

  /** A space between two parts that do not meet inside a digit run
      changes nothing. */
  lemma LexSpaceBetween(a: seq<char>, b: seq<char>)
    requires a == [] || b == [] || !IsDigit(a[|a| - 1]) || !IsDigit(b[0])
    ensures Lex(a + " " + b) == Lex(a + b)
  {
    assert a + " " + b == a + (" " + b);
    LexConcat(a, " " + b);
    LexSpaceThen(b);
    LexConcat(a, b);
  }

  lemma LexRenderToken(t: Token)
    ensures Lex(RenderToken(t)) == Ok([t])
  {
    assert Lex([]) == Ok([]);
    if t.NumberToken? {
      LexNumberThen(t.value, []);
      assert RenderToken(t) == Decimal(t.value) + [];
      assert [t] + [] == [t];
    } else {
      var c := if t.OperatorToken? then OperatorChar(t.op) else if t.LeftParenthesis? then '(' else ')';
      LexSymbolThen(c, []);
      assert RenderToken(t) == [c] + [];
      assert SymbolToken(c) == t;
      assert Prepend([t], Lex([])) == Ok([t] + []);
      assert [t] + [] == [t];
    }
  }

  /** Printing any token sequence and scanning it back gives the same
      tokens. */
  lemma {:induction false} LexRender(ts: seq<Token>)
    ensures Lex(Render(ts)) == Ok(ts)
  {
    if ts != [] {
      var head := RenderToken(ts[0]);
      var tail := " " + Render(ts[1..]);
      assert Render(ts) == head + tail;
      LexConcat(head, tail);
      LexRenderToken(ts[0]);
      LexSpaceThen(Render(ts[1..]));
      LexRender(ts[1..]);
      assert [ts[0]] + ts[1..] == ts;
    }
  }

  /** One step of the scan, read at a cursor position of the text. */
  lemma LexAt(text: seq<char>, i: nat)
    requires i < |text|
    ensures var k := DigitRun(text[i..]);
      IsDigit(text[i]) ==>
        i + k <= |text| && Lex(text[i..]) == Prepend([NumberToken(DigitsValue(text[i..][..k]))], Lex(text[i + k..]))
    ensures IsOperator(text[i]) || IsParenthesis(text[i]) ==>
      Lex(text[i..]) == Prepend([SymbolToken(text[i])], Lex(text[i + 1..]))
    ensures IsSpace(text[i]) ==> Lex(text[i..]) == Lex(text[i + 1..])
    ensures !IsAccepted(text[i]) ==> Lex(text[i..]) == Err(InvalidCharacter)
  {
    var s := text[i..];
    assert s[0] == text[i];
    assert s[1..] == text[i + 1..];
    assert s[DigitRun(s)..] == text[i + DigitRun(s)..];
  }

  /** The source's Tokenizer: the text, the tokens emitted so far, and the
      cursor. The source also caches the character under the cursor in
      `currentToken`; the model reads `text` at the cursor instead. */
  class Tokenizer {
    const text: seq<char>
    var tokens: seq<Token>
    var currentTokenIndex: nat

    constructor (text: seq<char>)
      ensures this.text == text && tokens == [] && currentTokenIndex == 0
    {
      this.text := text;
      tokens := [];
      currentTokenIndex := 0;
    }

    /** Scans from the cursor to the end. On success the result, which is
        also the new `tokens`, is the old tokens followed by the scan of the
        rest of the text; an unknown character aborts with InvalidCharacter. */
    method Tokenize() returns (r: Result<seq<Token>>)
      requires currentTokenIndex <= |text|
      modifies this
      ensures r == Prepend(old(tokens), Lex(text[old(currentTokenIndex)..]))
      ensures r.Ok? ==> tokens == r.value && currentTokenIndex == |text|
    {
      ghost var goal := Prepend(tokens, Lex(text[currentTokenIndex..]));
      while currentTokenIndex < |text|
        invariant currentTokenIndex <= |text|
        invariant Prepend(tokens, Lex(text[currentTokenIndex..])) == goal
        decreases |text| - currentTokenIndex
      {
        var c := text[currentTokenIndex];
        ghost var i, before := currentTokenIndex, tokens;
        if IsDigit(c) {
          var t := GetNumber();
          assert Prepend(before + [t], Lex(text[currentTokenIndex + 1..])) == goal by {
            LexAt(text, i);
            PrependPrepend(before, [t], Lex(text[currentTokenIndex + 1..]));
          }
          tokens := tokens + [t];
        } else if IsOperator(c) || IsParenthesis(c) {
          assert Prepend(before + [SymbolToken(c)], Lex(text[i + 1..])) == goal by {
            LexAt(text, i);
            PrependPrepend(before, [SymbolToken(c)], Lex(text[i + 1..]));
          }
          tokens := tokens + [SymbolToken(c)];
        } else if IsSpace(c) {
          assert Prepend(before, Lex(text[i + 1..])) == goal by {
            LexAt(text, i);
          }
        } else {
          assert Err(InvalidCharacter) == goal by {
            LexAt(text, i);
          }
          return Err(InvalidCharacter);
        }
        currentTokenIndex := currentTokenIndex + 1;
      }
      assert text[currentTokenIndex..] == [];
      assert tokens + [] == tokens;
      return Ok(tokens);
    }

    /** Consumes the maximal run of digits under the cursor and returns its
        number token; the cursor is left on the run's last digit, so that
        the scan's own step moves past it. */
    method GetNumber() returns (t: Token)
      requires currentTokenIndex < |text| && IsDigit(text[currentTokenIndex])
      modifies this`currentTokenIndex
      ensures var start := old(currentTokenIndex);
              var k := DigitRun(text[start..]);
              currentTokenIndex == start + k - 1 &&
              t == NumberToken(DigitsValue(text[start..][..k]))
    {
      ghost var start := currentTokenIndex;
      var number: seq<char> := [];
      while currentTokenIndex < |text| && IsDigit(text[currentTokenIndex])
        invariant start <= currentTokenIndex <= |text|
        invariant number == text[start..currentTokenIndex]
        invariant forall i :: start <= i < currentTokenIndex ==> IsDigit(text[i])
        decreases |text| - currentTokenIndex
      {
        number := number + [text[currentTokenIndex]];
        currentTokenIndex := currentTokenIndex + 1;
      }
      ghost var k := currentTokenIndex - start;
      assert text[start..][..k] == number;
      DigitRunUnique(text[start..], k);
      currentTokenIndex := currentTokenIndex - 1;
      t := NumberToken(DigitsValue(number));
    }
  }
}
