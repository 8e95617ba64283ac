/** Worked readings: what ParseExpression's result is pinned to on two token
    streams. Its contract gives Spells(ts, e, lo, hi, min) for the expression
    `e` it returns and `hi` one past its last token; on each stream below that is
    enough to fix both where the expression ends and which tree it is. */
module Readings {
  import opened Token
  import opened Ast
  import opened Precedence

  function Ident(name: string): Token { Token(IDENT, name) }
  function Leaf(name: string): Expression { Identifier(Ident(name), name) }
  function Op(t: TokenType, literal: string): Token { Token(t, literal) }

  /** The tokens of `a + b * c;`. */
  function SumOfProduct(): seq<Token> {
    [Ident("a"), Op(PLUS, "+"), Ident("b"), Op(ASTERISK, "*"), Ident("c"), Op(SEMICOLON, ";"), Op(EOF, "")]
  }

  /** The tokens of `a - b - c;`. */
  function Differences(): seq<Token> {
    [Ident("a"), Op(MINUS, "-"), Ident("b"), Op(MINUS, "-"), Ident("c"), Op(SEMICOLON, ";"), Op(EOF, "")]
  }

  /** Operand, infix operator, operand, infix operator, operand, then `;`: the
      five form one run of operands and operators, and the `;` closes it. */
  lemma FiveTokenRun(ts: seq<Token>)
    requires |ts| > 5 && ts[5].tokenType == SEMICOLON
    requires IsLeafType(ts[0].tokenType) && IsLeafType(ts[2].tokenType) && IsLeafType(ts[4].tokenType)
    requires IsInfixOperator(ts[1].tokenType) && IsInfixOperator(ts[3].tokenType)
    ensures OperatorRunEnd(ts, 0) == 5 && RunClosed(ts, 0)
  {
    assert OperatorRunEnd(ts, 5) == 5;
    assert OperatorRunEnd(ts, 4) == 5;
    assert OperatorRunEnd(ts, 3) == 5;
    assert OperatorRunEnd(ts, 2) == 5;
    assert OperatorRunEnd(ts, 1) == 5;
  }

  /** A reading that spells a nonempty slice ends with an operand: a formed tree
      never ends on an operator. */
  lemma ReadingEndsOnOperand(ts: seq<Token>, e: Expression, lo: nat, hi: nat, min: int)
    requires lo <= hi <= |ts| && IsReading(ts, e, lo, hi, min)
    ensures lo < hi && IsLeafType(ts[hi - 1].tokenType)
  {
    FlattenEnds(e);
    assert Flatten(e)[|Flatten(e)| - 1] == ts[hi - 1];
  }

  /** On five tokens operand, infix operator, operand, infix operator, operand,
      then `;`, a reading from the first token at level LOWEST takes all five:
      the `;` closes the run, it cannot stop before an operator, which binds
      tighter than LOWEST, and it cannot end on one, since a tree ends with an
      operand. */
  lemma FiveTokenReading(ts: seq<Token>, e: Expression, hi: nat)
    requires |ts| > 5 && ts[5].tokenType == SEMICOLON
    requires IsLeafType(ts[0].tokenType) && IsLeafType(ts[2].tokenType) && IsLeafType(ts[4].tokenType)
    requires IsInfixOperator(ts[1].tokenType) && IsInfixOperator(ts[3].tokenType)
    requires hi <= |ts| && Spells(ts, e, 0, hi, LOWEST)
    ensures hi == 5 && IsReading(ts, e, 0, 5, LOWEST)
  {
    FiveTokenRun(ts);
    OperatorRunIsRun(ts, 0);
    AllOperatorExpressionWithin(ts, 0, 5, 0, hi);
    ReadingEndsOnOperand(ts, e, 0, hi, LOWEST);
    assert hi != 1 && hi != 3;
  }

  /** `a + b * c;` read from its first token at level LOWEST ends before the `;`
      and is `(a + (b * c))`: `*` binds tighter than `+`. */
  lemma SumOfProductExample(e: Expression, hi: nat)
    requires hi <= |SumOfProduct()| && Spells(SumOfProduct(), e, 0, hi, LOWEST)
    ensures hi == 5
    ensures e == InfixExpression(Op(PLUS, "+"), Leaf("a"), "+",
                                 InfixExpression(Op(ASTERISK, "*"), Leaf("b"), "*", Leaf("c")))
  {
    var ts := SumOfProduct();
    FiveTokenReading(ts, e, hi);
    var product := InfixExpression(Op(ASTERISK, "*"), Leaf("b"), "*", Leaf("c"));
    var sum := InfixExpression(Op(PLUS, "+"), Leaf("a"), "+", product);
    assert Flatten(sum) == ts[0..5];
    ReadingsUnique(ts, 0, 5, LOWEST, e, sum);
  }

  /** `a - b - c;` read from its first token at level LOWEST ends before the `;`
      and is `((a - b) - c)`: operators of one level group to the left. */
  lemma DifferencesExample(e: Expression, hi: nat)
    requires hi <= |Differences()| && Spells(Differences(), e, 0, hi, LOWEST)
    ensures hi == 5
    ensures e == InfixExpression(Op(MINUS, "-"),
                                 InfixExpression(Op(MINUS, "-"), Leaf("a"), "-", Leaf("b")), "-", Leaf("c"))
  {
    var ts := Differences();
    FiveTokenReading(ts, e, hi);
    var first := InfixExpression(Op(MINUS, "-"), Leaf("a"), "-", Leaf("b"));
    var difference := InfixExpression(Op(MINUS, "-"), first, "-", Leaf("c"));
    assert Flatten(difference) == ts[0..5];
    ReadingsUnique(ts, 0, 5, LOWEST, e, difference);
  }
}
