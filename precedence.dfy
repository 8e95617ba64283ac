/** Operator precedence: the levels of the precedence table and what they mean
    for the trees the parser builds. The predicates below describe, independently
    of the parser, the operator trees that respect the table; the lemmas show that
    a sequence of tokens has at most one such tree. */
module Precedence {
  import opened Common
  import opened Token
  import opened Ast
  import opened Strconv

  const LOWEST: int := 1
  const EQUALS: int := 2
  const LESSGREATER: int := 3
  const SUM: int := 4
  const PRODUCT: int := 5
  const PREFIX: int := 6
  const CALL: int := 7

  /** The precedence table: the token types that can continue an expression. */
  const Precedences: map<TokenType, int> := map[
    EQ := EQUALS,
    NOT_EQ := EQUALS,
    LT := LESSGREATER,
    GT := LESSGREATER,
    PLUS := SUM,
    MINUS := SUM,
    SLASH := PRODUCT,
    ASTERISK := PRODUCT,
    LPAREN := CALL
  ]

  /** The binary operators: the table's entries other than the call parenthesis. */
  predicate IsInfixOperator(t: TokenType) {
    t == EQ || t == NOT_EQ || t == LT || t == GT || t == PLUS || t == MINUS || t == SLASH || t == ASTERISK
  }

  /** A token type's precedence: its level in the table, LOWEST when it has no entry. */
  function PrecedenceOf(t: TokenType): (p: int)
    ensures LOWEST <= p <= CALL && p != PREFIX
    ensures IsInfixOperator(t) <==> LOWEST < p <= PRODUCT
    ensures p == CALL <==> t == LPAREN
  {
    if t == EQ then EQUALS
    else if t == NOT_EQ then EQUALS
    else if t == LT then LESSGREATER
    else if t == GT then LESSGREATER
    else if t == PLUS then SUM
    else if t == MINUS then SUM
    else if t == SLASH then PRODUCT
    else if t == ASTERISK then PRODUCT
    else if t == LPAREN then CALL
    else LOWEST
  }

  /** PrecedenceOf is the table lookup, with LOWEST for a type that has no entry. */
  lemma PrecedenceOfTable(t: TokenType)
    ensures t in Precedences <==> PrecedenceOf(t) > LOWEST
    ensures t in Precedences ==> PrecedenceOf(t) == Precedences[t]
  {
    if PrecedenceOf(t) == LOWEST { assert t !in Precedences; }
  }

  /** The levels rank `==` and `!=` below `<` and `>`, below `+` and `-`, below `*`
      and `/`, below a call's `(`. */
  lemma PrecedenceLevels(t: TokenType)
    ensures (t == EQ || t == NOT_EQ) <==> PrecedenceOf(t) == EQUALS
    ensures (t == LT || t == GT) <==> PrecedenceOf(t) == LESSGREATER
    ensures (t == PLUS || t == MINUS) <==> PrecedenceOf(t) == SUM
    ensures (t == ASTERISK || t == SLASH) <==> PrecedenceOf(t) == PRODUCT
  {
  }

  /** The token types that stand alone as an operand. */
  predicate IsLeafType(t: TokenType) {
    t == IDENT || t == INT || t == TRUE || t == FALSE
  }

  predicate IsPrefixOperator(t: TokenType) {
    t == BANG || t == MINUS
  }

  /** The token types of operator expressions: operands and the prefix and infix operators. */
  predicate IsOperatorExpressionType(t: TokenType) {
    IsLeafType(t) || IsPrefixOperator(t) || IsInfixOperator(t)
  }

  /** Every token in `ts[lo..hi]` belongs to an operator expression. */
  predicate AllOperatorExpression(ts: seq<Token>, lo: int, hi: int)
    requires 0 <= lo && hi <= |ts|
  {
    forall k :: lo <= k < hi ==> IsOperatorExpressionType(ts[k].tokenType)
  }

  /** A slice within an all-operator slice is all-operator too. */
  lemma AllOperatorExpressionWithin(ts: seq<Token>, lo: int, hi: int, lo': int, hi': int)
    requires 0 <= lo <= lo' && hi' <= hi <= |ts|
    requires AllOperatorExpression(ts, lo, hi)
    ensures AllOperatorExpression(ts, lo', hi')
  {
  }

  /** A token type that can neither begin nor continue an expression: it has no
      prefix parse function and no entry in the precedence table (`;`, `)`, `,`,
      `{`, `}`, `=`, `else`, `let`, `return`, ILLEGAL and EOF). */
  predicate EndsExpression(t: TokenType) {
    !IsOperatorExpressionType(t) && t != LPAREN && t != IF && t != FUNCTION
  }

  /** Where the run of operand and operator tokens that starts at `lo` ends: the
      first position at or after `lo` whose token is neither. */
  function OperatorRunEnd(ts: seq<Token>, lo: nat): (m: nat)
    requires lo <= |ts|
    ensures lo <= m <= |ts|
    decreases |ts| - lo
  {
    if lo == |ts| || !IsOperatorExpressionType(ts[lo].tokenType) then lo else OperatorRunEnd(ts, lo + 1)
  }

  /** The run is all operands and operators, and the token that ends it is neither. */
  lemma {:induction false} OperatorRunIsRun(ts: seq<Token>, lo: nat)
    requires lo <= |ts|
    ensures AllOperatorExpression(ts, lo, OperatorRunEnd(ts, lo))
    ensures OperatorRunEnd(ts, lo) < |ts| ==> !IsOperatorExpressionType(ts[OperatorRunEnd(ts, lo)].tokenType)
    decreases |ts| - lo
  {
    if lo < |ts| && IsOperatorExpressionType(ts[lo].tokenType) {
      OperatorRunIsRun(ts, lo + 1);
    }
  }

  /** The run of operands and operators that starts at `lo` is closed by a token
      that ends every expression, so a parse from `lo` cannot read past it. */
  predicate RunClosed(ts: seq<Token>, lo: nat)
    requires lo <= |ts|
  {
    OperatorRunEnd(ts, lo) < |ts| && EndsExpression(ts[OperatorRunEnd(ts, lo)].tokenType)
  }

  /** A run seen from a later position inside it ends at the same place. */
  lemma {:induction false} OperatorRunEndWithin(ts: seq<Token>, lo: nat, j: nat)
    requires lo <= j <= |ts| && j <= OperatorRunEnd(ts, lo)
    ensures OperatorRunEnd(ts, j) == OperatorRunEnd(ts, lo)
    decreases j - lo
  {
    if lo < j {
      assert OperatorRunEnd(ts, lo) == OperatorRunEnd(ts, lo + 1);
      OperatorRunEndWithin(ts, lo + 1, j);
    }
  }

  /** Go's loop condition fails for the token at `hi`: it is `;`, or it binds no
      tighter than `min`. */
  predicate StopsAt(ts: seq<Token>, hi: nat, min: int) {
    hi < |ts| ==> ts[hi].tokenType == SEMICOLON || PrecedenceOf(ts[hi].tokenType) <= min
  }

  /** An operator expression whose every node fits its token: leaves carry their
      token's value, operators their token's literal. */
  predicate Formed(e: Expression) {
    match e
    case Identifier(tok, v) => tok.tokenType == IDENT && v == tok.literal
    case IntegerLiteral(tok, v) => tok.tokenType == INT && ParseInt(tok.literal) == Some(v)
    case Boolean(tok, v) => (tok.tokenType == TRUE || tok.tokenType == FALSE) && v == (tok.tokenType == TRUE)
    case PrefixExpression(tok, op, right) => IsPrefixOperator(tok.tokenType) && op == tok.literal && Formed(right)
    case InfixExpression(tok, left, op, right) =>
      IsInfixOperator(tok.tokenType) && op == tok.literal && Formed(left) && Formed(right)
    case _ => false
  }

  /** The tokens of an operator expression in source order. */
  function Flatten(e: Expression): seq<Token> {
    match e
    case Identifier(tok, _) => [tok]
    case IntegerLiteral(tok, _) => [tok]
    case Boolean(tok, _) => [tok]
    case PrefixExpression(tok, _, right) => [tok] + Flatten(right)
    case InfixExpression(tok, left, _, right) => Flatten(left) + [tok] + Flatten(right)
    case _ => []
  }

  /** The tree respects the precedence table, for a context that already binds at
      level `min`: an infix node must bind tighter than `min`; its left operand may
      bind at its own level (operators of one level group to the left) and its
      right operand must bind tighter; the operand of a prefix operator binds at
      PREFIX, so it has no infix node at its root. */
  predicate WellNested(e: Expression, min: int) {
    match e
    case PrefixExpression(_, _, right) => WellNested(right, PREFIX)
    case InfixExpression(tok, left, _, right) =>
      var p := PrecedenceOf(tok.tokenType);
      min < p && WellNested(left, p - 1) && WellNested(right, p)
    case _ => true
  }

  /** The level at which a tree binds as a left operand: its root operator's precedence. */
  function BindingLevel(e: Expression): (p: int)
    ensures LOWEST <= p <= CALL
  {
    match e
    case InfixExpression(tok, _, _, _) => PrecedenceOf(tok.tokenType)
    case PrefixExpression(_, _, _) => PREFIX
    case _ => CALL
  }

  /** Only the root's check depends on the context level. */
  lemma WellNestedAtLevel(e: Expression, min: int, min': int)
    requires WellNested(e, min)
    requires e.InfixExpression? ==> min' < PrecedenceOf(e.token.tokenType)
    ensures WellNested(e, min')
  {
  }

  /** One step of left-to-right parsing: an infix node whose left operand spells
      `ts[start..k]` and binds at least as tightly as the operator `ts[k]`, and whose
      right operand spells `ts[k + 1..end]` and binds tighter, respects the table
      and spells `ts[start..end]`. */
  lemma InfixStep(ts: seq<Token>, start: int, k: int, end: int, left: Expression, right: Expression, min: int)
    requires 0 <= start <= k < end <= |ts|
    requires IsInfixOperator(ts[k].tokenType)
    requires min < PrecedenceOf(ts[k].tokenType) <= BindingLevel(left)
    requires Formed(left) && WellNested(left, min) && Flatten(left) == ts[start..k]
    requires Formed(right) && WellNested(right, PrecedenceOf(ts[k].tokenType)) && Flatten(right) == ts[k + 1..end]
    ensures var e := InfixExpression(ts[k], left, ts[k].literal, right);
            Formed(e) && WellNested(e, min) && Flatten(e) == ts[start..end]
            && BindingLevel(e) == PrecedenceOf(ts[k].tokenType)
  {
    var e := InfixExpression(ts[k], left, ts[k].literal, right);
    WellNestedAtLevel(left, min, PrecedenceOf(ts[k].tokenType) - 1);
    assert Flatten(e) == Flatten(left) + [ts[k]] + Flatten(right);
    SliceAround(ts, start, k, end);
  }

  /** `e` reads as `ts[lo..hi]` in a context at level `min`: it is formed, true to
      the precedence table and spells exactly those tokens. By ReadingsUnique
      there is at most one such tree. */
  ghost predicate IsReading(ts: seq<Token>, e: Expression, lo: nat, hi: nat, min: int)
    requires lo <= hi <= |ts|
  {
    Formed(e) && WellNested(e, min) && Flatten(e) == ts[lo..hi]
  }

  /** `e` is what a parse at level `min` reads from `ts[lo]` up to `ts[hi - 1]`:
      reading stopped where Go's loop stops (StopsAt); it did not go past a run of
      operands and operators that a closing token ends; and when `ts[lo..hi]` are
      all operands and operators, `e` is the tree they read as. On a closed run
      this fixes both `hi` and `e` (see SumOfProductExample). */
  ghost predicate Spells(ts: seq<Token>, e: Expression, lo: nat, hi: nat, min: int) {
    lo <= hi <= |ts| ==>
      StopsAt(ts, hi, min)
      && (RunClosed(ts, lo) ==> hi <= OperatorRunEnd(ts, lo))
      && (AllOperatorExpression(ts, lo, hi) ==> IsReading(ts, e, lo, hi, min))
  }

  /** What the Pratt loop knows of `left`, the expression it has read from
      `ts[start..end]` at context level `min` when the next token has type `next`:
      it has not gone past a closed run of operands and operators, and when those
      tokens are all operands and operators, `left` is the tree they read as and it
      binds at least as tightly as `next`. */
  ghost predicate ReadSoFar(ts: seq<Token>, left: Expression, start: nat, end: nat, min: int, next: TokenType) {
    start <= end <= |ts| ==>
      (RunClosed(ts, start) ==> end <= OperatorRunEnd(ts, start))
      && (AllOperatorExpression(ts, start, end) ==>
            IsReading(ts, left, start, end, min) && PrecedenceOf(next) <= BindingLevel(left))
  }

  /** The end of the Pratt loop: once the next token, of type `next`, is `;` or
      binds no tighter than `min`, what the loop has read is what it spells. */
  lemma ReadSoFarSpells(ts: seq<Token>, e: Expression, lo: nat, hi: nat, min: int, next: TokenType)
    requires ReadSoFar(ts, e, lo, hi, min, next) && (hi < |ts| ==> ts[hi].tokenType == next)
    requires next == SEMICOLON || PrecedenceOf(next) <= min
    ensures Spells(ts, e, lo, hi, min)
  {
  }

  /** An operand read alone: a formed leaf for `ts[k]` is what `ts[k..k + 1]` reads
      as, and it binds tighter than any operator that may follow. The flag `failed`
      stands for an error reported on the way, which voids both sides. */
  lemma ReadOperand(ts: seq<Token>, k: nat, e: Expression, min: int, next: TokenType, failed: bool)
    requires (k < |ts| && Formed(e) && !e.PrefixExpression? && !e.InfixExpression? && e.token == ts[k]) || failed
    ensures ReadSoFar(ts, e, k, k + 1, min, next) || failed
  {
    if !failed {
      assert ts[k..k + 1] == [ts[k]];
      assert OperatorRunEnd(ts, k) == OperatorRunEnd(ts, k + 1);
    }
  }

  /** Past a token at `k` that is neither operand nor operator but can begin or
      continue an expression (`(`, `if`, `fn`), the loop no longer reads an
      operator expression, and the run from `start` is not closed, so nothing is
      claimed. The flag `failed` stands for an error reported on the way. */
  lemma ReadBeyond(ts: seq<Token>, start: nat, k: nat, end: nat, e: Expression, min: int, next: TokenType, failed: bool)
    requires (start <= k < end <= |ts| && !IsOperatorExpressionType(ts[k].tokenType) && !EndsExpression(ts[k].tokenType)
                && (RunClosed(ts, start) ==> k <= OperatorRunEnd(ts, start))) || failed
    ensures ReadSoFar(ts, e, start, end, min, next) || failed
  {
    if !failed {
      OperatorRunIsRun(ts, start);
      assert !IsOperatorExpressionType(ts[k].tokenType);
      assert OperatorRunEnd(ts, start) <= k;
    }
  }

  /** The infix step in terms of what the loop knows: the node joining what was
      read before the operator `op`, found at `ts[k]`, to the operand read after
      it at the operator's own level is what has been read of `ts[start..end]`.
      The flag `failed` stands for an error reported on the way, which voids both sides. */
  lemma ReadInfix(ts: seq<Token>, start: nat, k: nat, end: nat, op: Token, left: Expression, right: Expression,
                  min: int, next: TokenType, failed: bool)
    requires (start <= k < end <= |ts| && ts[k] == op
                && IsInfixOperator(op.tokenType) && min < PrecedenceOf(op.tokenType)
                && PrecedenceOf(next) <= PrecedenceOf(op.tokenType)
                && ReadSoFar(ts, left, start, k, min, op.tokenType)
                && Spells(ts, right, k + 1, end, PrecedenceOf(op.tokenType))) || failed
    ensures ReadSoFar(ts, InfixExpression(op, left, op.literal, right), start, end, min, next) || failed
  {
    if !failed {
      if RunClosed(ts, start) {
        OperatorRunIsRun(ts, start);
        assert k != OperatorRunEnd(ts, start);
        OperatorRunEndWithin(ts, start, k + 1);
      }
      if AllOperatorExpression(ts, start, end) {
        AllOperatorExpressionWithin(ts, start, end, start, k);
        AllOperatorExpressionWithin(ts, start, end, k + 1, end);
        InfixStep(ts, start, k, end, left, right, min);
      }
    }
  }

  /** The prefix step: a prefix operator `op`, found at `ts[start]`, applied to the
      operand read from `ts[start + 1..end]` at level PREFIX. The flag `failed`
      stands for an error reported on the way, which voids both sides. */
  lemma ReadPrefix(ts: seq<Token>, start: nat, end: nat, op: Token, right: Expression, min: int, next: TokenType,
                   failed: bool)
    requires (start < end <= |ts| && ts[start] == op && IsPrefixOperator(op.tokenType)
                && PrecedenceOf(next) <= PREFIX && Spells(ts, right, start + 1, end, PREFIX)) || failed
    ensures ReadSoFar(ts, PrefixExpression(op, op.literal, right), start, end, min, next) || failed
  {
    if !failed {
      assert OperatorRunEnd(ts, start) == OperatorRunEnd(ts, start + 1);
      if AllOperatorExpression(ts, start, end) {
        AllOperatorExpressionWithin(ts, start, end, start + 1, end);
        SliceCons(ts, start, end);
      }
    }
  }

  /** A formed tree has at least one token; it ends with an operand and starts with
      an operand or a prefix operator. */
  lemma {:induction false} FlattenEnds(e: Expression)
    requires Formed(e)
    ensures |Flatten(e)| > 0
    ensures IsLeafType(Flatten(e)[|Flatten(e)| - 1].tokenType)
    ensures IsLeafType(Flatten(e)[0].tokenType) || IsPrefixOperator(Flatten(e)[0].tokenType)
  {
    match e
    case PrefixExpression(tok, _, right) =>
      FlattenEnds(right);
      var r := Flatten(right);
      assert Flatten(e) == [tok] + r;
      assert Flatten(e)[|Flatten(e)| - 1] == r[|r| - 1];
    case InfixExpression(tok, left, _, right) =>
      FlattenEnds(left);
      FlattenEnds(right);
      var l, r := Flatten(left), Flatten(right);
      assert Flatten(e) == l + [tok] + r;
      assert Flatten(e)[0] == l[0];
      assert Flatten(e)[|Flatten(e)| - 1] == r[|r| - 1];
    case _ =>
  }

  /** Conversely to what the parser reads, every token of a formed tree belongs to an
      operator expression. */
  lemma {:induction false} FlattenOperatorTokens(e: Expression)
    requires Formed(e)
    ensures AllOperatorExpression(Flatten(e), 0, |Flatten(e)|)
  {
    var ts := Flatten(e);
    match e
    case PrefixExpression(tok, _, right) =>
      FlattenOperatorTokens(right);
      var r := Flatten(right);
      forall k | 0 < k < |ts|
        ensures IsOperatorExpressionType(ts[k].tokenType)
      {
        assert ts[k] == r[k - 1];
      }
    case InfixExpression(tok, left, _, right) =>
      FlattenOperatorTokens(left);
      FlattenOperatorTokens(right);
      var l, r := Flatten(left), Flatten(right);
      forall k | 0 <= k < |ts|
        ensures IsOperatorExpressionType(ts[k].tokenType)
      {
        if k < |l| {
          assert ts[k] == l[k];
        } else if k > |l| {
          assert ts[k] == r[k - |l| - 1];
        }
      }
    case _ =>
  }

  /** Position `k` holds a binary operator: an infix operator token right after an
      operand. A prefix `-` is never right after an operand, so this tells the two
      uses of `-` apart. */
  predicate BinaryAt(ts: seq<Token>, k: int) {
    0 < k < |ts| && IsInfixOperator(ts[k].tokenType) && IsLeafType(ts[k - 1].tokenType)
  }

  /** Binary positions of a concatenation: those of each side, shifted. */
  lemma BinaryAtConcat(a: seq<Token>, b: seq<Token>, k: int)
    requires |a| > 0 && !IsLeafType(a[|a| - 1].tokenType)
    requires 0 <= k < |b|
    ensures BinaryAt(a + b, |a| + k) <==> BinaryAt(b, k)
  {
    if k == 0 {
      assert (a + b)[|a| - 1] == a[|a| - 1];
    } else {
      assert (a + b)[|a| + k] == b[k] && (a + b)[|a| + k - 1] == b[k - 1];
    }
  }

  /** A binary position in a well-nested tree belongs to an infix node, so the tree
      is an infix tree, and its operator binds tighter than the context level. */
  lemma {:induction false} BinaryAbove(e: Expression, min: int, k: int)
    requires Formed(e) && WellNested(e, min) && BinaryAt(Flatten(e), k)
    ensures e.InfixExpression?
    ensures PrecedenceOf(Flatten(e)[k].tokenType) > min
    decreases e, 1
  {
    match e
    case PrefixExpression(tok, _, right) =>
      // the operand of a prefix operator would need an operator binding above PREFIX
      var r := Flatten(right);
      assert Flatten(e) == [tok] + r;
      BinaryAtConcat([tok], r, k - 1);
      BinaryAbove(right, PREFIX, k - 1);
      assert false;
    case InfixExpression(tok, left, _, right) =>
      var l := Flatten(left);
      if k < |l| {
        BinaryInLeft(e, min, k);
      } else if k > |l| {
        BinaryInRight(e, min, k);
      } else {
        assert Flatten(e) == l + [tok] + Flatten(right);
        assert Flatten(e)[k] == tok;
      }
    case _ =>
  }

  /** A binary position inside the left operand of an infix tree holds an operator
      that binds at least as tightly as the root. */
  lemma {:induction false} BinaryInLeft(e: Expression, min: int, k: int)
    requires Formed(e) && WellNested(e, min) && BinaryAt(Flatten(e), k)
    requires e.InfixExpression? && k < |Flatten(e.left)|
    ensures PrecedenceOf(Flatten(e)[k].tokenType) >= PrecedenceOf(e.token.tokenType)
    decreases e, 0
  {
    var l := Flatten(e.left);
    assert Flatten(e) == l + [e.token] + Flatten(e.right);
    assert Flatten(e)[k] == l[k] && Flatten(e)[k - 1] == l[k - 1];
    BinaryAbove(e.left, PrecedenceOf(e.token.tokenType) - 1, k);
  }

  /** A binary position inside the right operand of an infix tree holds an operator
      that binds more tightly than the root. */
  lemma {:induction false} BinaryInRight(e: Expression, min: int, k: int)
    requires Formed(e) && WellNested(e, min) && BinaryAt(Flatten(e), k)
    requires e.InfixExpression? && k > |Flatten(e.left)|
    ensures PrecedenceOf(Flatten(e)[k].tokenType) > PrecedenceOf(e.token.tokenType)
    decreases e, 0
  {
    var l, r := Flatten(e.left), Flatten(e.right);
    assert Flatten(e) == (l + [e.token]) + r;
    BinaryAtConcat(l + [e.token], r, k - |l| - 1);
    assert Flatten(e)[k] == r[k - |l| - 1];
    BinaryAbove(e.right, PrecedenceOf(e.token.tokenType), k - |l| - 1);
  }

  /** The root of an infix tree is a binary position. */
  lemma RootIsBinary(e: Expression)
    requires Formed(e) && e.InfixExpression?
    ensures BinaryAt(Flatten(e), |Flatten(e.left)|)
    ensures Flatten(e)[|Flatten(e.left)|] == e.token
  {
    FlattenEnds(e.left);
    FlattenEnds(e.right);
    var l := Flatten(e.left);
    assert Flatten(e)[|l| - 1] == l[|l| - 1];
  }

  /** A sequence of tokens has at most one formed tree that respects the precedence
      table: the root is the last binary operator of lowest precedence, and the rest
      follows by induction. So a parser that always builds such a tree builds the
      only one there is. */
  lemma {:induction false} UniqueTree(e1: Expression, e2: Expression, min: int)
    requires Formed(e1) && Formed(e2)
    requires WellNested(e1, min) && WellNested(e2, min)
    requires Flatten(e1) == Flatten(e2)
    ensures e1 == e2
    decreases e1, 1
  {
    if e1.InfixExpression? {
      RootIsBinary(e1);
      BinaryAbove(e2, min, |Flatten(e1.left)|);
      UniqueInfix(e1, e2, min);
    } else if e2.InfixExpression? {
      RootIsBinary(e2);
      BinaryAbove(e1, min, |Flatten(e2.left)|);
    } else {
      UniqueOperand(e1, e2);
    }
  }

  /** UniqueTree stated on IsReading: a slice of tokens reads as at most one tree. */
  lemma ReadingsUnique(ts: seq<Token>, lo: nat, hi: nat, min: int, e1: Expression, e2: Expression)
    requires lo <= hi <= |ts|
    ensures IsReading(ts, e1, lo, hi, min) && IsReading(ts, e2, lo, hi, min) ==> e1 == e2
  {
    if IsReading(ts, e1, lo, hi, min) && IsReading(ts, e2, lo, hi, min) {
      UniqueTree(e1, e2, min);
    }
  }

  /** The case of UniqueTree where neither root is infix: a chain of prefix
      operators over one operand. */
  lemma {:induction false} UniqueOperand(e1: Expression, e2: Expression)
    requires Formed(e1) && Formed(e2)
    requires WellNested(e1, PREFIX) && WellNested(e2, PREFIX)
    requires !e1.InfixExpression? && !e2.InfixExpression?
    requires Flatten(e1) == Flatten(e2)
    ensures e1 == e2
    decreases e1, 0
  {
    if e1.PrefixExpression? {
      FlattenEnds(e1.right);
      if e2.PrefixExpression? {
        FlattenEnds(e2.right);
        assert Flatten(e1)[1..] == Flatten(e1.right);
        assert Flatten(e2)[1..] == Flatten(e2.right);
        UniqueTree(e1.right, e2.right, PREFIX);
      } else {
        assert false;
      }
    } else if e2.PrefixExpression? {
      FlattenEnds(e2.right);
      assert false;
    }
  }

  /** Of two infix trees that respect the table and spell the same tokens, the
      second's root is not to the right of the first's: otherwise the second root
      would lie in the first's right operand and bind tighter than the first root,
      while the first root would lie in the second's left operand and bind at
      least as tightly as the second root. */
  lemma RootNotAfter(e1: Expression, e2: Expression, min: int)
    requires Formed(e1) && Formed(e2)
    requires WellNested(e1, min) && WellNested(e2, min)
    requires Flatten(e1) == Flatten(e2)
    requires e1.InfixExpression? && e2.InfixExpression?
    ensures |Flatten(e2.left)| <= |Flatten(e1.left)|
  {
    var i1, i2 := |Flatten(e1.left)|, |Flatten(e2.left)|;
    if i1 < i2 {
      RootIsBinary(e1);
      RootIsBinary(e2);
      BinaryInRight(e1, min, i2);
      BinaryInLeft(e2, min, i1);
      assert false;
    }
  }

  /** The infix case of UniqueTree: both roots sit at the same position. */
  lemma {:induction false} UniqueInfix(e1: Expression, e2: Expression, min: int)
    requires Formed(e1) && Formed(e2)
    requires WellNested(e1, min) && WellNested(e2, min)
    requires Flatten(e1) == Flatten(e2)
    requires e1.InfixExpression? && e2.InfixExpression?
    ensures e1 == e2
    decreases e1, 0
  {
    RootNotAfter(e1, e2, min);
    RootNotAfter(e2, e1, min);
    var ts := Flatten(e1);
    var l1, l2 := Flatten(e1.left), Flatten(e2.left);
    var r1, r2 := Flatten(e1.right), Flatten(e2.right);
    assert ts == (l1 + [e1.token]) + r1 == (l2 + [e2.token]) + r2;
    assert l1 == ts[..|l1|] == l2;
    assert e1.token == ts[|l1|] == e2.token;
    assert r1 == ts[|l1| + 1..] == r2;
    var p := PrecedenceOf(e1.token.tokenType);
    UniqueTree(e1.left, e2.left, p - 1);
    UniqueTree(e1.right, e2.right, p);
  }
}
