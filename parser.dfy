/** The Pratt parser: a cursor over the lexer's tokens (`curToken`, `peekToken`),
    a table of prefix and infix parse rules, and an error list. Every parse
    method leaves `curToken` on the last token of what it parsed. */
module Parser {
  import opened Common
  import opened Token
  import opened Lexer
  import opened Ast
  import opened Strconv
  import opened Precedence

  /** The prefix parse functions, one per registered behaviour. */
  datatype PrefixRule =
    | IdentifierRule
    | IntegerLiteralRule
    | PrefixOperatorRule
    | BooleanRule
    | GroupedRule
    | IfRule
    | FunctionLiteralRule

  /** The token types that can begin an expression. */
  predicate HasPrefixRule(t: TokenType) {
    IsLeafType(t) || IsPrefixOperator(t) || t == LPAREN || t == IF || t == FUNCTION
  }

  /** The prefix registration table: the rule for each token type that can begin an expression. */
  function PrefixParseFn(t: TokenType): (r: Option<PrefixRule>)
    ensures r.Some? <==> HasPrefixRule(t)
    ensures r == Some(IdentifierRule) <==> t == IDENT
    ensures r == Some(IntegerLiteralRule) <==> t == INT
    ensures r == Some(PrefixOperatorRule) <==> IsPrefixOperator(t)
    ensures r == Some(BooleanRule) <==> t == TRUE || t == FALSE
    ensures r == Some(GroupedRule) <==> t == LPAREN
    ensures r == Some(IfRule) <==> t == IF
    ensures r == Some(FunctionLiteralRule) <==> t == FUNCTION
  {
    if t == IDENT then Some(IdentifierRule)
    else if t == INT then Some(IntegerLiteralRule)
    else if t == BANG then Some(PrefixOperatorRule)
    else if t == MINUS then Some(PrefixOperatorRule)
    else if t == TRUE then Some(BooleanRule)
    else if t == FALSE then Some(BooleanRule)
    else if t == LPAREN then Some(GroupedRule)
    else if t == IF then Some(IfRule)
    else if t == FUNCTION then Some(FunctionLiteralRule)
    else None
  }

  /** The infix parse functions. */
  datatype InfixRule = InfixOperatorRule | CallRule

  /** The infix registration table. Exactly the entries of the precedence table have
      a rule, so a token that binds tighter than LOWEST always has one. */
  function InfixParseFn(t: TokenType): (r: Option<InfixRule>)
    ensures r.Some? <==> PrecedenceOf(t) > LOWEST
    ensures r == Some(InfixOperatorRule) <==> IsInfixOperator(t)
    ensures r == Some(CallRule) <==> t == LPAREN
  {
    if IsInfixOperator(t) then Some(InfixOperatorRule)
    else if t == LPAREN then Some(CallRule)
    else None
  }

  /** An entry of the parser's error list: which check failed and on what. The
      Go parser appends the rendered string, Message(e), to its list. */
  datatype ParseError =
    | UnexpectedPeek(expected: TokenType, got: TokenType)
    | NoPrefixParseFn(tokenType: TokenType)
    | BadInteger(literal: string)

  /** The message the Go parser records for each error. */
  function Message(e: ParseError): string {
    match e
    case UnexpectedPeek(expected, got) => PeekErrorMessage(expected, got)
    case NoPrefixParseFn(t) => NoPrefixMessage(t)
    case BadInteger(literal) => IntegerErrorMessage(literal)
  }

  /** The messages of a list of errors, in order. */
  function Messages(errors: seq<ParseError>): (messages: seq<string>)
    ensures |messages| == |errors|
    ensures forall i :: 0 <= i < |errors| ==> messages[i] == Message(errors[i])
  {
    seq(|errors|, i requires 0 <= i < |errors| => Message(errors[i]))
  }

  function PeekErrorMessage(expected: TokenType, got: TokenType): string {
    "expected next token to be of type " + Name(expected) + ", got " + Name(got) + " instead"
  }

  function NoPrefixMessage(t: TokenType): string {
    "no prefix parse function for " + Name(t) + " found"
  }

  /** The `%q` rendering of a literal of digits is the literal between double quotes. */
  function IntegerErrorMessage(literal: string): string {
    "could not parse \"" + literal + "\" as integer"
  }

  /** The statement ParseStatement builds for a statement that begins with `t`: a
      `let` (or the nil *LetStatement of a failed one) for LET, a `return` for
      RETURN, and an expression statement for any other token, each keeping `t`. */
  predicate StatementAt(s: Statement, t: Token) {
    if t.tokenType == LET then s.NilLetStatement? || (s.LetStatement? && s.token == t)
    else if t.tokenType == RETURN then s.ReturnStatement? && s.token == t
    else s.ExpressionStatement? && s.token == t
  }

  class Parser {
    /** The tokens the lexer hands out, in order. The last one is EOF, which the
        lexer then hands out again on every later call. */
    const tokens: seq<Token>
    /** The number of tokens handed out before curToken: curToken is tokens[curIndex]. */
    var curIndex: nat
    /** The errors recorded so far, oldest first; Errors renders them. */
    var errors: seq<ParseError>
    var curToken: Token
    var peekToken: Token
    /** Set when the source would loop forever: a `let` whose value is never
        followed by `;`. It is set only on the final EOF, where the cursor then
        stays. What the model computes after that is never returned. */
    var hang: bool

    ghost predicate Valid()
      reads this
    {
      |tokens| > 0 && tokens[|tokens| - 1].tokenType == EOF
      && curIndex < |tokens|
      && curToken == tokens[curIndex]
      && peekToken == tokens[NextIndex(curIndex)]
      && (hang ==> curIndex == |tokens| - 1)
    }

    /** The cursor only moves forward, errors are only appended (the old list is a
        prefix of the new one), and a hang is never undone. */
    ghost predicate Advanced(index0: nat, errors0: seq<ParseError>, hang0: bool)
      reads this
    {
      index0 <= curIndex && errors0 <= errors && (hang0 ==> hang)
    }

    /** Go's Errors: the messages recorded so far, oldest first. */
    function Errors(): (messages: seq<string>)
      reads this
      ensures |messages| == |errors|
    {
      Messages(errors)
    }

    /** The index of the token after `i`; the final EOF repeats. */
    function NextIndex(i: nat): nat {
      if i + 1 < |tokens| then i + 1 else i
    }

    /** No `;` at or after position `i`. */
    ghost predicate NoSemicolonFrom(i: nat) {
      forall k :: i <= k < |tokens| ==> tokens[k].tokenType != SEMICOLON
    }

    /** A well-formed `let <ident> =` starts at position `i` and no `;` follows it. */
    ghost predicate UnterminatedLet(i: nat)
      requires |tokens| > 0
    {
      TokenAt(tokens, i).tokenType == LET && TokenAt(tokens, i + 1).tokenType == IDENT
      && TokenAt(tokens, i + 2).tokenType == ASSIGN && NoSemicolonFrom(i)
    }

    /** A parser over the tokens of `input`, primed by two nextToken calls: the
        first fills peekToken, the second moves it to curToken. */
    constructor (input: seq<Byte>)
      ensures Valid()
      ensures tokens == Tokens(input, 0)
      ensures curIndex == 0 && curToken == tokens[0] && peekToken == TokenAt(tokens, 1)
      ensures errors == [] && !hang
    {
      var ts := Tokens(input, 0);
      tokens := ts;
      errors := [];
      hang := false;
      peekToken := TokenAt(ts, 0);
      curToken := peekToken;
      peekToken := TokenAt(ts, 1);
      curIndex := 0;
    }

    /** The lookahead token is the one after the current position. */
    lemma PeekIsNext()
      requires Valid()
      ensures peekToken == TokenAt(tokens, curIndex + 1)
    {
    }

    method NextToken()
      requires Valid()
      modifies this`curIndex, this`curToken, this`peekToken
      ensures Valid()
      ensures curToken == old(peekToken)
      ensures curIndex == NextIndex(old(curIndex))
      ensures old(peekToken).tokenType != EOF ==> curIndex == old(curIndex) + 1
    {
      curToken := peekToken;
      if curIndex + 1 < |tokens| {
        curIndex := curIndex + 1;
      }
      peekToken := tokens[NextIndex(curIndex)];
    }

    method PeekError(expected: TokenType)
      modifies this`errors
      ensures errors == old(errors) + [UnexpectedPeek(expected, peekToken.tokenType)]
    {
      errors := errors + [UnexpectedPeek(expected, peekToken.tokenType)];
    }

    method NoPrefixParseFnError(t: TokenType)
      modifies this`errors
      ensures errors == old(errors) + [NoPrefixParseFn(t)]
    {
      errors := errors + [NoPrefixParseFn(t)];
    }

    /** Moves on when the next token has type `t`; records an error otherwise. */
    method ExpectPeek(t: TokenType) returns (ok: bool)
      requires Valid()
      modifies this`curIndex, this`curToken, this`peekToken, this`errors
      ensures Valid()
      ensures ok <==> old(peekToken).tokenType == t
      ensures ok ==> curToken == old(peekToken) && curIndex == NextIndex(old(curIndex)) && errors == old(errors)
      ensures ok && t != EOF ==> curIndex == old(curIndex) + 1
      ensures !ok ==> curIndex == old(curIndex) && curToken == old(curToken) && peekToken == old(peekToken)
                      && errors == old(errors) + [UnexpectedPeek(t, old(peekToken).tokenType)]
    {
      if peekToken.tokenType == t {
        NextToken();
        return true;
      }
      PeekError(t);
      return false;
    }

    /** `starts[i]` is where `statements[i]` begins: the positions ascend from
        `first`, stay below `bound`, and each holds a token that is neither EOF
        nor `closer` and that the statement keeps (StatementAt). */
    ghost predicate StatementsFrom(statements: seq<Statement>, starts: seq<nat>, first: nat, bound: nat, closer: TokenType) {
      |starts| == |statements| && bound <= |tokens|
      && (|starts| > 0 ==> starts[0] == first)
      && (forall i :: 0 < i < |starts| ==> starts[i - 1] < starts[i])
      && (forall i :: 0 <= i < |starts| ==>
            first <= starts[i] < bound && tokens[starts[i]].tokenType != EOF
            && tokens[starts[i]].tokenType != closer && StatementAt(statements[i], tokens[starts[i]]))
    }

    /** One more statement, beginning at `k` at or after `bound`, extends the list. */
    lemma StatementsFromExtend(statements: seq<Statement>, starts: seq<nat>, first: nat, bound: nat, closer: TokenType,
                               s: Statement, k: nat, bound': nat)
      requires StatementsFrom(statements, starts, first, bound, closer)
      requires bound <= k < bound' <= |tokens| && (|starts| == 0 ==> k == first)
      requires tokens[k].tokenType != EOF && tokens[k].tokenType != closer && StatementAt(s, tokens[k])
      ensures StatementsFrom(statements + [s], starts + [k], first, bound', closer)
    {
      var starts', statements' := starts + [k], statements + [s];
      forall i | 0 < i < |starts'|
        ensures starts'[i - 1] < starts'[i]
      {
        if i < |starts| {
          assert starts'[i - 1] == starts[i - 1] && starts'[i] == starts[i];
        }
      }
      forall i | 0 <= i < |starts'|
        ensures first <= starts'[i] < bound' && tokens[starts'[i]].tokenType != EOF
                && tokens[starts'[i]].tokenType != closer && StatementAt(statements'[i], tokens[starts'[i]])
      {
        if i < |starts| {
          assert starts'[i] == starts[i] && statements'[i] == statements[i];
        } else if |starts| > 0 {
          assert first <= starts[0] < bound;
        }
      }
    }

    /** Parses statements up to the first EOF token. Every statement parsed is kept,
        nil ones included, in source order: statement i is the one that begins at
        token `starts[i]`. */
    method ParseProgram() returns (program: Program, ghost starts: seq<nat>)
      requires Valid()
      modifies this
      ensures Valid() && Advanced(old(curIndex), old(errors), old(hang))
      ensures curToken.tokenType == EOF
      ensures StatementsFrom(program.statements, starts, old(curIndex), curIndex, EOF)
      ensures old(curToken).tokenType == EOF ==> program.statements == [] && curIndex == old(curIndex) && errors == old(errors)
      ensures old(curToken).tokenType != EOF ==> |program.statements| > 0
      ensures (forall i :: 0 <= i < |program.statements| ==> CompleteStatement(program.statements[i]))
                || |errors| > |old(errors)|
      ensures UnterminatedLet(old(curIndex)) ==> hang
      ensures forall i :: 0 <= i < |starts| && UnterminatedLet(starts[i]) ==> hang
    {
      var statements: seq<Statement> := [];
      starts := [];
      while curToken.tokenType != EOF
        invariant Valid() && Advanced(old(curIndex), old(errors), old(hang))
        invariant StatementsFrom(statements, starts, old(curIndex), curIndex, EOF)
        invariant |starts| == 0 ==> curIndex == old(curIndex)
        invariant curIndex == old(curIndex) ==> statements == [] && errors == old(errors)
        invariant old(curToken).tokenType == EOF ==> curIndex == old(curIndex)
        invariant old(curToken).tokenType != EOF ==> curIndex > old(curIndex) || curToken == old(curToken)
        invariant curIndex > old(curIndex) ==> |statements| > 0
        invariant (forall i :: 0 <= i < |statements| ==> CompleteStatement(statements[i]))
                    || |errors| > |old(errors)|
        invariant UnterminatedLet(old(curIndex)) && curIndex > old(curIndex) ==> hang
        invariant forall i :: 0 <= i < |starts| && UnterminatedLet(starts[i]) ==> hang
        decreases |tokens| - curIndex
      {
        ghost var k := curIndex;
        var s := ParseStatement();
        NextToken();
        assert k < curIndex;
        StatementsFromExtend(statements, starts, old(curIndex), k, EOF, s, k, curIndex);
        starts := starts + [k];
        statements := statements + [s];
      }
      return Program(statements), starts;
    }

    method ParseStatement() returns (s: Statement)
      requires Valid()
      modifies this
      decreases |tokens| - curIndex, 10
      ensures Valid() && Advanced(old(curIndex), old(errors), old(hang))
      ensures StatementAt(s, old(curToken))
      ensures CompleteStatement(s) || |errors| > |old(errors)|
      ensures UnterminatedLet(old(curIndex)) ==> hang
    {
      ghost var valueEnd: nat;
      ghost var valueHang: bool;
      if curToken.tokenType == LET {
        s, valueEnd, valueHang := ParseLetStatement();
      } else if curToken.tokenType == RETURN {
        s, valueEnd := ParseReturnStatement();
      } else {
        s, valueEnd := ParseExpressionStatement();
      }
    }

    /** `let <ident> = <expression>`, then skips to the next `;`. */
    method ParseLetStatement() returns (s: Statement, ghost valueEnd: nat, ghost valueHang: bool)
      requires Valid() && curToken.tokenType == LET
      modifies this
      decreases |tokens| - curIndex, 9
      ensures Valid() && Advanced(old(curIndex), old(errors), old(hang))
      ensures s.LetStatement? || s.NilLetStatement?
      ensures s.NilLetStatement? <==>
                old(peekToken).tokenType != IDENT || TokenAt(tokens, old(curIndex) + 2).tokenType != ASSIGN
      ensures old(peekToken).tokenType != IDENT ==>
                curIndex == old(curIndex) && errors == old(errors) + [UnexpectedPeek(IDENT, old(peekToken).tokenType)]
      ensures old(peekToken).tokenType == IDENT && TokenAt(tokens, old(curIndex) + 2).tokenType != ASSIGN ==>
                curIndex == old(curIndex) + 1
                && errors == old(errors) + [UnexpectedPeek(ASSIGN, TokenAt(tokens, old(curIndex) + 2).tokenType)]
      ensures s.LetStatement? ==> s.token == old(curToken) && s.name == IdentifierOf(old(peekToken))
      ensures s.LetStatement? ==> old(curIndex) + 3 <= valueEnd < |tokens|
      ensures s.LetStatement? ==>
                Spells(tokens, s.value, old(curIndex) + 3, valueEnd + 1, LOWEST) || |errors| > |old(errors)|
      ensures s.LetStatement? && !hang ==> curToken.tokenType == SEMICOLON
      ensures s.LetStatement? ==>
                (old(hang) ==> valueHang) && (valueHang ==> valueEnd == |tokens| - 1)
                && (hang <==> valueHang || NoSemicolonFrom(valueEnd))
      ensures s.LetStatement? && NoSemicolonFrom(old(curIndex)) ==> hang
      ensures s.NilLetStatement? ==> hang == old(hang)
      ensures CompleteStatement(s) || |errors| > |old(errors)|
    {
      var letToken := curToken;
      var ok := ExpectPeek(IDENT);
      if !ok {
        return NilLetStatement, 0, hang;
      }
      s, valueEnd, valueHang := ParseLetName(letToken, old(curIndex));
    }

    /** The rest of a `let` whose name, at position `letIndex + 1`, is the current
        token: `=` must follow, then the value. */
    method ParseLetName(letToken: Token, ghost letIndex: nat)
      returns (s: Statement, ghost valueEnd: nat, ghost valueHang: bool)
      requires Valid() && curToken.tokenType == IDENT && curIndex == letIndex + 1
      requires tokens[letIndex].tokenType == LET
      modifies this
      decreases |tokens| - curIndex, 9
      ensures Valid() && Advanced(old(curIndex), old(errors), old(hang))
      ensures s.LetStatement? || s.NilLetStatement?
      ensures s.NilLetStatement? <==> TokenAt(tokens, letIndex + 2).tokenType != ASSIGN
      ensures s.NilLetStatement? ==>
                curIndex == letIndex + 1
                && errors == old(errors) + [UnexpectedPeek(ASSIGN, TokenAt(tokens, letIndex + 2).tokenType)]
      ensures s.LetStatement? ==> s.token == letToken && s.name == IdentifierOf(old(curToken))
      ensures s.LetStatement? ==> letIndex + 3 <= valueEnd < |tokens|
      ensures s.LetStatement? ==>
                Spells(tokens, s.value, letIndex + 3, valueEnd + 1, LOWEST) || |errors| > |old(errors)|
      ensures s.LetStatement? && !hang ==> curToken.tokenType == SEMICOLON
      ensures s.LetStatement? ==>
                (old(hang) ==> valueHang) && (valueHang ==> valueEnd == |tokens| - 1)
                && (hang <==> valueHang || NoSemicolonFrom(valueEnd))
      ensures s.LetStatement? && NoSemicolonFrom(letIndex) ==> hang
      ensures s.NilLetStatement? ==> hang == old(hang)
      ensures CompleteStatement(s) || |errors| > |old(errors)|
    {
      var nameToken := curToken;
      var ok := ExpectPeek(ASSIGN);
      if !ok {
        return NilLetStatement, 0, hang;
      }
      s, valueEnd, valueHang := ParseLetValue(letToken, nameToken, letIndex + 3);
    }

    /** The value of a `let` once `=` is the current token, then every token up to
        the `;` that ends the statement. With no `;` left the source never returns,
        which the model records in `hang`. */
    method ParseLetValue(letToken: Token, nameToken: Token, ghost valueStart: nat)
      returns (s: Statement, ghost valueEnd: nat, ghost valueHang: bool)
      requires Valid() && curToken.tokenType == ASSIGN && valueStart == curIndex + 1
      modifies this
      decreases |tokens| - curIndex, 9
      ensures Valid() && Advanced(old(curIndex) + 1, old(errors), old(hang))
      ensures s.LetStatement? && s.token == letToken && s.name == IdentifierOf(nameToken)
      ensures valueStart <= valueEnd < |tokens|
      ensures Spells(tokens, s.value, valueStart, valueEnd + 1, LOWEST) || |errors| > |old(errors)|
      ensures !hang ==> curToken.tokenType == SEMICOLON
      ensures old(hang) ==> valueHang
      ensures valueHang ==> valueEnd == |tokens| - 1
      ensures hang <==> valueHang || NoSemicolonFrom(valueEnd)
      ensures NoSemicolonFrom(old(curIndex)) ==> hang
      ensures CompleteStatement(s) || |errors| > |old(errors)|
    {
      var value := ParseValue();
      valueEnd := curIndex;
      valueHang := hang;
      SkipToSemicolon();
      s := LetStatement(letToken, IdentifierOf(nameToken), value);
    }

    /** The expression that starts at the next token, as `let` and `return` read it. */
    method ParseValue() returns (value: Expression)
      requires Valid()
      modifies this
      decreases |tokens| - curIndex, 9, 0
      ensures Valid() && Advanced(NextIndex(old(curIndex)), old(errors), old(hang))
      ensures (Complete(value) && Spells(tokens, value, NextIndex(old(curIndex)), curIndex + 1, LOWEST))
                || |errors| > |old(errors)|
    {
      NextToken();
      value := ParseExpression(LOWEST);
    }

    /** The loop that ends a `let`: moves on until the current token is `;`. With
        no `;` left the source never returns, which the model records in `hang`. */
    method SkipToSemicolon()
      requires Valid()
      modifies this`curIndex, this`curToken, this`peekToken, this`hang
      ensures Valid() && old(curIndex) <= curIndex
      ensures !hang ==> curToken.tokenType == SEMICOLON
      ensures !hang ==> forall k :: old(curIndex) <= k < curIndex ==> tokens[k].tokenType != SEMICOLON
      ensures hang <==> old(hang) || NoSemicolonFrom(old(curIndex))
    {
      while curToken.tokenType != SEMICOLON
        invariant Valid() && old(curIndex) <= curIndex && hang == old(hang)
        invariant forall k :: old(curIndex) <= k < curIndex ==> tokens[k].tokenType != SEMICOLON
        decreases |tokens| - curIndex
      {
        if curIndex == |tokens| - 1 {
          // The lexer is exhausted: nextToken leaves the parser in this same state
          // on every call, so the source never leaves this loop.
          hang := true;
          break;
        }
        NextToken();
      }
    }

    /** `return <expression>`; moves one token further unless the expression ends on `;`. */
    method ParseReturnStatement() returns (s: Statement, ghost valueEnd: nat)
      requires Valid() && curToken.tokenType == RETURN
      modifies this
      decreases |tokens| - curIndex, 9
      ensures Valid() && Advanced(old(curIndex) + 1, old(errors), old(hang))
      ensures s.ReturnStatement? && s.token == old(curToken)
      ensures old(curIndex) < valueEnd < |tokens|
      ensures tokens[valueEnd].tokenType == SEMICOLON ==> curIndex == valueEnd
      ensures tokens[valueEnd].tokenType != SEMICOLON ==> curIndex == NextIndex(valueEnd)
      ensures CompleteStatement(s) || |errors| > |old(errors)|
      ensures Spells(tokens, s.returnValue, old(curIndex) + 1, valueEnd + 1, LOWEST)
                || |errors| > |old(errors)|
    {
      var returnToken := curToken;
      var value := ParseValue();
      valueEnd := curIndex;
      if curToken.tokenType != SEMICOLON {
        NextToken();
      }
      s := ReturnStatement(returnToken, value);
    }

    /** An expression, then an optional `;`. */
    method ParseExpressionStatement() returns (s: Statement, ghost valueEnd: nat)
      requires Valid()
      modifies this
      decreases |tokens| - curIndex, 9
      ensures Valid() && Advanced(old(curIndex), old(errors), old(hang))
      ensures s.ExpressionStatement? && s.token == old(curToken)
      ensures old(curIndex) <= valueEnd < |tokens|
      ensures curIndex == if TokenAt(tokens, valueEnd + 1).tokenType == SEMICOLON then valueEnd + 1 else valueEnd
      ensures CompleteStatement(s) || |errors| > |old(errors)|
      ensures Spells(tokens, s.expression, old(curIndex), valueEnd + 1, LOWEST) || |errors| > |old(errors)|
    {
      var expressionToken := curToken;
      var expression := ParseExpression(LOWEST);
      valueEnd := curIndex;
      if peekToken.tokenType == SEMICOLON {
        NextToken();
      }
      s := ExpressionStatement(expressionToken, expression);
    }

    /** The Pratt loop: a prefix rule for the current token, then infix rules while
        the next token binds tighter than `precedence`. When no error is recorded and
        only operands and operators were read, the result is a tree that respects
        the precedence table and spells exactly the tokens read (by UniqueTree,
        the only such tree). */
    method ParseExpression(precedence: int) returns (e: Expression)
      requires Valid() && precedence >= LOWEST
      modifies this
      decreases |tokens| - curIndex, 8
      ensures Valid() && Advanced(old(curIndex), old(errors), old(hang))
      ensures !HasPrefixRule(old(curToken).tokenType) ==>
                e == Nil && curIndex == old(curIndex) && hang == old(hang)
                && errors == old(errors) + [NoPrefixParseFn(old(curToken).tokenType)]
      ensures (Complete(e) && (peekToken.tokenType == SEMICOLON || PrecedenceOf(peekToken.tokenType) <= precedence))
                || |errors| > |old(errors)|
      ensures Spells(tokens, e, old(curIndex), curIndex + 1, precedence) || |errors| > |old(errors)|
    {
      var prefix := PrefixParseFn(curToken.tokenType);
      if prefix.None? {
        NoPrefixParseFnError(curToken.tokenType);
        return Nil;
      }
      var left := ApplyPrefixRule(prefix.value, precedence);
      e := ParseOperators(left, old(curIndex), precedence, old(errors));
      if |errors| == |old(errors)| {
        PeekIsNext();
        ReadSoFarSpells(tokens, e, old(curIndex), curIndex + 1, precedence, peekToken.tokenType);
        assert Spells(tokens, e, old(curIndex), curIndex + 1, precedence);
      }
    }

    /** The loop of ParseExpression once the prefix rule has read `left`: while the
        next token is not `;` and binds tighter than `precedence`, what has been
        read from `start` becomes the left operand of that token's infix rule. */
    method ParseOperators(left: Expression, ghost start: nat, precedence: int, ghost errors0: seq<ParseError>)
      returns (e: Expression)
      requires Valid() && precedence >= LOWEST && start <= curIndex && errors0 <= errors
      requires (Complete(left) && ReadSoFar(tokens, left, start, curIndex + 1, precedence, peekToken.tokenType))
                 || |errors| > |errors0|
      modifies this
      decreases |tokens| - curIndex, 8, 0
      ensures Valid() && Advanced(old(curIndex), old(errors), old(hang))
      ensures peekToken.tokenType == SEMICOLON || PrecedenceOf(peekToken.tokenType) <= precedence
      ensures (Complete(e) && ReadSoFar(tokens, e, start, curIndex + 1, precedence, peekToken.tokenType))
                || |errors| > |errors0|
    {
      e := left;
      while peekToken.tokenType != SEMICOLON && precedence < PrecedenceOf(peekToken.tokenType)
        invariant Valid() && Advanced(old(curIndex), old(errors), old(hang))
        invariant (Complete(e) && ReadSoFar(tokens, e, start, curIndex + 1, precedence, peekToken.tokenType))
                    || |errors| > |errors0|
        decreases |tokens| - curIndex
      {
        // Go returns here when the token has no infix rule; every token that binds
        // tighter than LOWEST has one, so that case cannot arise
        match InfixParseFn(peekToken.tokenType)
        case Some(rule) =>
          e := ApplyInfixRule(rule, e, start, precedence, errors0);
      }
    }

    /** Calls the prefix parse function registered for the current token. */
    method ApplyPrefixRule(rule: PrefixRule, ghost precedence: int) returns (left: Expression)
      requires Valid() && PrefixParseFn(curToken.tokenType) == Some(rule)
      modifies this
      decreases |tokens| - curIndex, 7, 1
      ensures Valid() && Advanced(old(curIndex), old(errors), old(hang))
      ensures (Complete(left) && ReadSoFar(tokens, left, old(curIndex), curIndex + 1, precedence, peekToken.tokenType))
                || |errors| > |old(errors)|
    {
      match rule {
        case IdentifierRule =>
          left := ApplyLeafRule(rule, precedence);
        case IntegerLiteralRule =>
          left := ApplyLeafRule(rule, precedence);
        case BooleanRule =>
          left := ApplyLeafRule(rule, precedence);
        case PrefixOperatorRule =>
          left := ApplyPrefixOperatorRule(precedence);
        // `(`, `if` and `fn` are not part of an operator expression.
        case GroupedRule =>
          left := ApplyGroupedRule(precedence);
        case IfRule =>
          left := ApplyIfRule(precedence);
        case FunctionLiteralRule =>
          left := ApplyFunctionLiteralRule(precedence);
      }
    }

    /** The prefix parse functions for an identifier, an integer literal and a
        boolean, each read as one operand of the Pratt loop. */
    method ApplyLeafRule(rule: PrefixRule, ghost precedence: int) returns (left: Expression)
      requires Valid() && PrefixParseFn(curToken.tokenType) == Some(rule)
      requires rule == IdentifierRule || rule == IntegerLiteralRule || rule == BooleanRule
      modifies this`errors
      ensures Valid() && Advanced(old(curIndex), old(errors), old(hang))
      ensures (Complete(left) && ReadSoFar(tokens, left, old(curIndex), curIndex + 1, precedence, peekToken.tokenType))
                || |errors| > |old(errors)|
    {
      ghost var k := curIndex;
      match rule {
        case IdentifierRule =>
          left := ParseIdentifier();
          ReadOperand(tokens, k, left, precedence, peekToken.tokenType, false);
        case IntegerLiteralRule =>
          left := ParseIntegerLiteral();
          ReadOperand(tokens, k, left, precedence, peekToken.tokenType, |errors| > |old(errors)|);
        case BooleanRule =>
          left := ParseBoolean();
          ReadOperand(tokens, k, left, precedence, peekToken.tokenType, false);
      }
    }

    /** The prefix parse function for `!` and `-`, read as one operand of the Pratt loop. */
    method ApplyPrefixOperatorRule(ghost precedence: int) returns (left: Expression)
      requires Valid() && PrefixParseFn(curToken.tokenType) == Some(PrefixOperatorRule)
      modifies this
      decreases |tokens| - curIndex, 7, 0
      ensures Valid() && Advanced(old(curIndex), old(errors), old(hang))
      ensures (Complete(left) && ReadSoFar(tokens, left, old(curIndex), curIndex + 1, precedence, peekToken.tokenType))
                || |errors| > |old(errors)|
    {
      ghost var k := curIndex;
      left := ParsePrefixExpression();
      ReadPrefix(tokens, k, curIndex + 1, old(curToken), left.right, precedence, peekToken.tokenType,
                 |errors| > |old(errors)|);
    }

    /** The prefix parse function for a parenthesised expression, read as one operand of the Pratt loop. */
    method ApplyGroupedRule(ghost precedence: int) returns (left: Expression)
      requires Valid() && PrefixParseFn(curToken.tokenType) == Some(GroupedRule)
      modifies this
      decreases |tokens| - curIndex, 7, 0
      ensures Valid() && Advanced(old(curIndex), old(errors), old(hang))
      ensures (Complete(left) && ReadSoFar(tokens, left, old(curIndex), curIndex + 1, precedence, peekToken.tokenType))
                || |errors| > |old(errors)|
    {
      ghost var k := curIndex;
      ghost var innerEnd: nat;
      left, innerEnd := ParseGroupedExpression();
      ReadBeyond(tokens, k, k, curIndex + 1, left, precedence, peekToken.tokenType, false);
    }

    /** The prefix parse function for an `if` expression, read as one operand of the Pratt loop. */
    method ApplyIfRule(ghost precedence: int) returns (left: Expression)
      requires Valid() && PrefixParseFn(curToken.tokenType) == Some(IfRule)
      modifies this
      decreases |tokens| - curIndex, 7, 0
      ensures Valid() && Advanced(old(curIndex), old(errors), old(hang))
      ensures (Complete(left) && ReadSoFar(tokens, left, old(curIndex), curIndex + 1, precedence, peekToken.tokenType))
                || |errors| > |old(errors)|
    {
      ghost var k := curIndex;
      ghost var conditionEnd: nat, consequenceEnd: nat;
      left, conditionEnd, consequenceEnd := ParseIfExpression();
      ReadBeyond(tokens, k, k, curIndex + 1, left, precedence, peekToken.tokenType, false);
    }

    /** The prefix parse function for a function literal, read as one operand of the Pratt loop. */
    method ApplyFunctionLiteralRule(ghost precedence: int) returns (left: Expression)
      requires Valid() && PrefixParseFn(curToken.tokenType) == Some(FunctionLiteralRule)
      modifies this
      decreases |tokens| - curIndex, 7, 0
      ensures Valid() && Advanced(old(curIndex), old(errors), old(hang))
      ensures (Complete(left) && ReadSoFar(tokens, left, old(curIndex), curIndex + 1, precedence, peekToken.tokenType))
                || |errors| > |old(errors)|
    {
      ghost var k := curIndex;
      ghost var parametersEnd: nat;
      left, parametersEnd := ParseFunctionLiteral();
      ReadBeyond(tokens, k, k, curIndex + 1, left, precedence, peekToken.tokenType, false);
    }

    /** One turn of the Pratt loop: moves to the operator and calls its infix parse
        function with the expression read so far from position `start`. */
    method ApplyInfixRule(rule: InfixRule, left: Expression, ghost start: nat, ghost precedence: int, ghost errors0: seq<ParseError>)
      returns (e: Expression)
      requires Valid() && InfixParseFn(peekToken.tokenType) == Some(rule)
      requires precedence < PrecedenceOf(peekToken.tokenType)
      requires start <= curIndex && errors0 <= errors
      requires (Complete(left) && ReadSoFar(tokens, left, start, curIndex + 1, precedence, peekToken.tokenType))
                 || |errors| > |errors0|
      modifies this
      decreases |tokens| - curIndex, 7
      ensures Valid() && Advanced(old(curIndex) + 1, old(errors), old(hang))
      ensures Complete(e) || |errors| > |errors0|
      ensures ReadSoFar(tokens, e, start, curIndex + 1, precedence, peekToken.tokenType)
                || |errors| > |errors0|
    {
      match rule {
        case InfixOperatorRule =>
          e := ApplyOperatorRule(left, start, precedence, errors0);
        case CallRule =>
          e := ApplyCallRule(left, start, precedence, errors0);
      }
    }

    /** The operator turn of the Pratt loop: moves to the binary operator and reads
        its right operand, with the expression read so far from `start` on its left. */
    method ApplyOperatorRule(left: Expression, ghost start: nat, ghost precedence: int, ghost errors0: seq<ParseError>)
      returns (e: Expression)
      requires Valid() && InfixParseFn(peekToken.tokenType) == Some(InfixOperatorRule)
      requires precedence < PrecedenceOf(peekToken.tokenType)
      requires start <= curIndex && errors0 <= errors
      requires (Complete(left) && ReadSoFar(tokens, left, start, curIndex + 1, precedence, peekToken.tokenType))
                 || |errors| > |errors0|
      modifies this
      decreases |tokens| - curIndex, 6
      ensures Valid() && Advanced(old(curIndex) + 1, old(errors), old(hang))
      ensures Complete(e) || |errors| > |errors0|
      ensures ReadSoFar(tokens, e, start, curIndex + 1, precedence, peekToken.tokenType)
                || |errors| > |errors0|
    {
      ghost var k := curIndex + 1;
      assert k < |tokens| && tokens[k] == peekToken;
      NextToken();
      e := ParseInfixExpression(left, start, precedence, errors0);
    }

    /** The call turn of the Pratt loop: moves to the `(` and reads the call whose
        callee is the expression read so far from position `start`. */
    method ApplyCallRule(left: Expression, ghost start: nat, ghost precedence: int, ghost errors0: seq<ParseError>)
      returns (e: Expression)
      requires Valid() && InfixParseFn(peekToken.tokenType) == Some(CallRule)
      requires precedence < PrecedenceOf(peekToken.tokenType)
      requires start <= curIndex && errors0 <= errors
      requires (Complete(left) && ReadSoFar(tokens, left, start, curIndex + 1, precedence, peekToken.tokenType))
                 || |errors| > |errors0|
      modifies this
      decreases |tokens| - curIndex, 6
      ensures Valid() && Advanced(old(curIndex) + 1, old(errors), old(hang))
      ensures Complete(e) || |errors| > |errors0|
      ensures ReadSoFar(tokens, e, start, curIndex + 1, precedence, peekToken.tokenType)
                || |errors| > |errors0|
    {
      ghost var k := curIndex + 1;
      ghost var failed := |errors| > |errors0|;
      assert k < |tokens| && tokens[k] == peekToken;
      NextToken();
      ghost var argumentStarts: seq<nat>, argumentEnds: seq<nat>;
      e, argumentStarts, argumentEnds := ParseCallExpression(left, errors0);
      ReadBeyond(tokens, start, k, curIndex + 1, e, precedence, peekToken.tokenType, failed);
    }

    method ParseIdentifier() returns (e: Expression)
      requires Valid()
      ensures e == IdentifierOf(curToken)
    {
      return IdentifierOf(curToken);
    }

    /** An integer literal, or nil and an error when strconv rejects the literal. */
    method ParseIntegerLiteral() returns (e: Expression)
      requires Valid()
      modifies this`errors
      ensures ParseInt(curToken.literal).Some? ==>
                e == IntegerLiteral(curToken, ParseInt(curToken.literal).value) && errors == old(errors)
      ensures ParseInt(curToken.literal).None? ==>
                e == Nil && errors == old(errors) + [BadInteger(curToken.literal)]
    {
      var value := ParseInt(curToken.literal);
      if value.None? {
        errors := errors + [BadInteger(curToken.literal)];
        return Nil;
      }
      return IntegerLiteral(curToken, value.value);
    }

    /** `!` or `-` applied to the expression that follows, read at PREFIX. */
    method ParsePrefixExpression() returns (e: Expression)
      requires Valid() && IsPrefixOperator(curToken.tokenType)
      modifies this
      decreases |tokens| - curIndex, 6
      ensures Valid() && Advanced(old(curIndex) + 1, old(errors), old(hang))
      ensures e.PrefixExpression? && e == PrefixExpression(old(curToken), old(curToken).literal, e.right)
      ensures (Complete(e) && PrecedenceOf(peekToken.tokenType) <= PREFIX) || |errors| > |old(errors)|
      ensures Spells(tokens, e.right, old(curIndex) + 1, curIndex + 1, PREFIX) || |errors| > |old(errors)|
    {
      var operatorToken := curToken;
      NextToken();
      var right := ParseExpression(PREFIX);
      return PrefixExpression(operatorToken, operatorToken.literal, right);
    }

    /** `( <expression> )`: the inner expression, read from the token after `(` up
        to `innerEnd`, when `)` follows it; nil and an error when it does not. */
    method ParseGroupedExpression() returns (e: Expression, ghost innerEnd: nat)
      requires Valid() && curToken.tokenType == LPAREN
      modifies this
      decreases |tokens| - curIndex, 6
      ensures Valid() && Advanced(old(curIndex) + 1, old(errors), old(hang))
      ensures old(curIndex) < innerEnd < |tokens|
      ensures TokenAt(tokens, innerEnd + 1).tokenType == RPAREN ==> curIndex == innerEnd + 1
      ensures TokenAt(tokens, innerEnd + 1).tokenType != RPAREN ==>
                e == Nil && curIndex == innerEnd && |errors| > 0
                && errors[|errors| - 1] == UnexpectedPeek(RPAREN, TokenAt(tokens, innerEnd + 1).tokenType)
      ensures (Complete(e) && curToken.tokenType == RPAREN) || |errors| > |old(errors)|
      ensures Spells(tokens, e, old(curIndex) + 1, innerEnd + 1, LOWEST) || |errors| > |old(errors)|
    {
      var inner, ok;
      inner, ok, innerEnd := ParseParenthesised();
      if !ok {
        return Nil, innerEnd;
      }
      return inner, innerEnd;
    }

    /** From the `(` at curToken: the expression read from the next token up to
        `innerEnd`, and whether `)` follows it (an error is recorded when it does
        not). Both grouped expressions and `if` conditions are read this way. */
    method ParseParenthesised() returns (inner: Expression, ok: bool, ghost innerEnd: nat)
      requires Valid() && curToken.tokenType == LPAREN
      modifies this
      decreases |tokens| - curIndex, 4
      ensures Valid() && Advanced(old(curIndex) + 1, old(errors), old(hang))
      ensures old(curIndex) < innerEnd < |tokens|
      ensures ok <==> TokenAt(tokens, innerEnd + 1).tokenType == RPAREN
      ensures ok ==> curIndex == innerEnd + 1 && curToken.tokenType == RPAREN
      ensures !ok ==> curIndex == innerEnd && |errors| > |old(errors)|
                      && errors[|errors| - 1] == UnexpectedPeek(RPAREN, TokenAt(tokens, innerEnd + 1).tokenType)
      ensures (ok && Complete(inner) && Spells(tokens, inner, old(curIndex) + 1, innerEnd + 1, LOWEST))
                || |errors| > |old(errors)|
    {
      NextToken();
      inner := ParseExpression(LOWEST);
      innerEnd := curIndex;
      PeekIsNext();
      ok := ExpectPeek(RPAREN);
    }

    /** The operator at curToken with `left` as its left operand; the right operand
        is read at the operator's own precedence, so when no error is recorded it
        spells the tokens after the operator and binds at least as tightly as the
        token that follows it. */
    method ParseInfixExpression(left: Expression, ghost start: nat, ghost min: int, ghost errors0: seq<ParseError>)
      returns (e: Expression)
      requires Valid() && IsInfixOperator(curToken.tokenType) && min < PrecedenceOf(curToken.tokenType)
      requires start <= curIndex && errors0 <= errors
      requires (Complete(left) && ReadSoFar(tokens, left, start, curIndex, min, curToken.tokenType))
                 || |errors| > |errors0|
      modifies this
      decreases |tokens| - curIndex, 6
      ensures Valid() && Advanced(old(curIndex) + 1, old(errors), old(hang))
      ensures e.InfixExpression? && e.token == old(curToken) && e.left == left && e.operator == old(curToken).literal
      ensures Spells(tokens, e.right, old(curIndex) + 1, curIndex + 1, PrecedenceOf(old(curToken).tokenType))
                || |errors| > |old(errors)|
      ensures Complete(e) || |errors| > |errors0|
      ensures ReadSoFar(tokens, e, start, curIndex + 1, min, peekToken.tokenType) || |errors| > |errors0|
    {
      var operatorToken := curToken;
      var right := ParseRightOperand(PrecedenceOf(curToken.tokenType));
      e := InfixExpression(operatorToken, left, operatorToken.literal, right);
      if |errors| == |errors0| {
        ReadInfix(tokens, start, old(curIndex), curIndex + 1, operatorToken, left, right, min, peekToken.tokenType, false);
      }
    }

    /** The right operand of an infix operator at curToken, read from the next
        token at the operator's precedence. */
    method ParseRightOperand(precedence: int) returns (right: Expression)
      requires Valid() && IsInfixOperator(curToken.tokenType) && precedence >= LOWEST
      modifies this
      decreases |tokens| - curIndex, 6, 0
      ensures Valid() && Advanced(old(curIndex) + 1, old(errors), old(hang))
      ensures old(curIndex) + 1 < |tokens| && tokens[old(curIndex) + 1] == old(peekToken)
      ensures peekToken == TokenAt(tokens, curIndex + 1)
      ensures (Complete(right) && (peekToken.tokenType == SEMICOLON || PrecedenceOf(peekToken.tokenType) <= precedence))
                || |errors| > |old(errors)|
      ensures Spells(tokens, right, old(curIndex) + 1, curIndex + 1, precedence) || |errors| > |old(errors)|
    {
      NextToken();
      right := ParseExpression(precedence);
      PeekIsNext();
    }

    method ParseBoolean() returns (e: Expression)
      requires Valid()
      ensures e.Boolean? && e.token == curToken && (e.boolValue <==> curToken.tokenType == TRUE)
      ensures curToken.tokenType == TRUE || curToken.tokenType == FALSE ==> Formed(e)
    {
      return Boolean(curToken, curToken.tokenType == TRUE);
    }

    /** `if ( <condition> ) { ... }`, optionally followed by `else { ... }`. The
        condition is read from the token after `(` up to `conditionEnd`, and the
        consequence block ends at `consequenceEnd`. A missing `(`, `)` or `{` makes
        the expression nil, with the error for that token as the last one. */
    method ParseIfExpression() returns (e: Expression, ghost conditionEnd: nat, ghost consequenceEnd: nat)
      requires Valid() && curToken.tokenType == IF
      modifies this
      decreases |tokens| - curIndex, 6
      ensures Valid() && Advanced(old(curIndex), old(errors), old(hang))
      ensures e.Nil? || e.IfExpression?
      ensures old(peekToken).tokenType != LPAREN ==>
                e == Nil && curIndex == old(curIndex) && errors == old(errors) + [UnexpectedPeek(LPAREN, old(peekToken).tokenType)]
      ensures old(peekToken).tokenType == LPAREN ==> old(curIndex) + 2 <= conditionEnd < |tokens|
      ensures old(peekToken).tokenType == LPAREN && TokenAt(tokens, conditionEnd + 1).tokenType != RPAREN ==>
                e == Nil && curIndex == conditionEnd && |errors| > 0
                && errors[|errors| - 1] == UnexpectedPeek(RPAREN, TokenAt(tokens, conditionEnd + 1).tokenType)
      ensures old(peekToken).tokenType == LPAREN && TokenAt(tokens, conditionEnd + 1).tokenType == RPAREN
              && TokenAt(tokens, conditionEnd + 2).tokenType != LBRACE ==>
                e == Nil && curIndex == conditionEnd + 1 && |errors| > 0
                && errors[|errors| - 1] == UnexpectedPeek(LBRACE, TokenAt(tokens, conditionEnd + 2).tokenType)
      ensures old(peekToken).tokenType == LPAREN && TokenAt(tokens, conditionEnd + 1).tokenType == RPAREN
              && TokenAt(tokens, conditionEnd + 2).tokenType == LBRACE ==>
                BranchesRead(e, conditionEnd + 2, consequenceEnd)
      ensures e.IfExpression? ==>
                e.token == old(curToken) && e.consequence.token == TokenAt(tokens, conditionEnd + 2)
                && (e.alternative.Some? <==> TokenAt(tokens, consequenceEnd + 1).tokenType == ELSE)
                && (curToken.tokenType == RBRACE || curToken.tokenType == EOF)
      ensures (e.IfExpression? && Complete(e) && Spells(tokens, e.condition, old(curIndex) + 2, conditionEnd + 1, LOWEST))
                || |errors| > |old(errors)|
    {
      var ifToken := curToken;
      var condition, ok;
      condition, ok, conditionEnd := ParseIfCondition();
      if !ok {
        return Nil, conditionEnd, 0;
      }
      PeekIsNext();
      ok := ExpectPeek(LBRACE);
      if !ok {
        return Nil, conditionEnd, 0;
      }
      assert curIndex == conditionEnd + 2 && curToken == TokenAt(tokens, conditionEnd + 2);
      e, consequenceEnd := ParseIfBranches(ifToken, condition, old(errors));
    }

    /** `( <condition> )` after `if`: the condition is read from the token after
        `(` up to `conditionEnd`, and `ok` says whether both parentheses were
        found (an error is recorded for the first one missing). */
    method ParseIfCondition() returns (condition: Expression, ok: bool, ghost conditionEnd: nat)
      requires Valid()
      modifies this
      decreases |tokens| - curIndex, 5
      ensures Valid() && Advanced(old(curIndex), old(errors), old(hang))
      ensures old(peekToken).tokenType != LPAREN ==>
                !ok && curIndex == old(curIndex) && errors == old(errors) + [UnexpectedPeek(LPAREN, old(peekToken).tokenType)]
      ensures old(peekToken).tokenType == LPAREN ==>
                old(curIndex) + 2 <= conditionEnd < |tokens| && (ok <==> TokenAt(tokens, conditionEnd + 1).tokenType == RPAREN)
      ensures ok ==> curIndex == conditionEnd + 1 && curToken.tokenType == RPAREN
      ensures old(peekToken).tokenType == LPAREN && !ok ==>
                curIndex == conditionEnd && |errors| > |old(errors)|
                && errors[|errors| - 1] == UnexpectedPeek(RPAREN, TokenAt(tokens, conditionEnd + 1).tokenType)
      ensures (ok && Complete(condition) && Spells(tokens, condition, old(curIndex) + 2, conditionEnd + 1, LOWEST))
                || |errors| > |old(errors)|
    {
      ok := ExpectPeek(LPAREN);
      if !ok {
        return Nil, false, 0;
      }
      assert curIndex == old(curIndex) + 1 && errors == old(errors);
      condition, ok, conditionEnd := ParseParenthesised();
    }

    /** The blocks of an `if` read from the `{` at `open`: the consequence ends at
        `consequenceEnd` on `}` or EOF, and the result is an if node exactly when
        an `else` after it is followed by `{`; otherwise it is nil and the missing
        `{` is the last error. */
    ghost predicate BranchesRead(e: Expression, open: nat, consequenceEnd: nat)
      reads this
    {
      open < consequenceEnd < |tokens|
      && (tokens[consequenceEnd].tokenType == RBRACE || tokens[consequenceEnd].tokenType == EOF)
      && (e.IfExpression? <==>
            (TokenAt(tokens, consequenceEnd + 1).tokenType == ELSE ==> TokenAt(tokens, consequenceEnd + 2).tokenType == LBRACE))
      && (!e.IfExpression? ==>
            e == Nil && curIndex == consequenceEnd + 1 && |errors| > 0
            && errors[|errors| - 1] == UnexpectedPeek(LBRACE, TokenAt(tokens, consequenceEnd + 2).tokenType))
    }

    /** The blocks of an `if` expression once its condition and `{` are read: the
        consequence block up to `consequenceEnd`, then `else` and the alternative
        block if `else` follows. `errors0` is the error list from before the
        condition: if nothing has been added to it since, the expression is complete. */
    method ParseIfBranches(ifToken: Token, condition: Expression, ghost errors0: seq<ParseError>)
      returns (e: Expression, ghost consequenceEnd: nat)
      requires Valid() && curToken.tokenType == LBRACE
      requires errors0 <= errors && (|errors| == |errors0| ==> Complete(condition))
      modifies this
      decreases |tokens| - curIndex, 5
      ensures Valid() && Advanced(old(curIndex), old(errors), old(hang))
      ensures BranchesRead(e, old(curIndex), consequenceEnd)
      ensures e.IfExpression? ==>
                e.token == ifToken && e.condition == condition && e.consequence.token == old(curToken)
                && (e.alternative.Some? <==> TokenAt(tokens, consequenceEnd + 1).tokenType == ELSE)
                && (curToken.tokenType == RBRACE || curToken.tokenType == EOF)
      ensures (e.IfExpression? && Complete(e)) || |errors| > |errors0|
    {
      var consequence: BlockStatement;
      ghost var consequenceStarts: seq<nat>;
      consequence, consequenceStarts := ParseBlockStatement();
      consequenceEnd := curIndex;
      PeekIsNext();
      var alternative, ok := ParseAlternative();
      if !ok {
        return Nil, consequenceEnd;
      }
      return IfExpression(ifToken, condition, consequence, alternative), consequenceEnd;
    }

    /** `else { ... }` when `else` is the next token, None when it is not. `ok` is
        false, with an error recorded, when `else` is not followed by `{`. */
    method ParseAlternative() returns (alternative: Option<BlockStatement>, ok: bool)
      requires Valid()
      modifies this
      decreases |tokens| - curIndex, 5
      ensures Valid() && Advanced(old(curIndex), old(errors), old(hang))
      ensures old(peekToken).tokenType != ELSE ==> alternative == None && ok && curIndex == old(curIndex) && errors == old(errors)
      ensures old(peekToken).tokenType == ELSE ==>
                (ok <==> TokenAt(tokens, old(curIndex) + 2).tokenType == LBRACE)
                && (alternative.Some? <==> ok)
      ensures old(peekToken).tokenType == ELSE && !ok ==>
                curIndex == old(curIndex) + 1
                && errors == old(errors) + [UnexpectedPeek(LBRACE, TokenAt(tokens, old(curIndex) + 2).tokenType)]
      ensures alternative.Some? ==>
                alternative.value.token == TokenAt(tokens, old(curIndex) + 2)
                && (curToken.tokenType == RBRACE || curToken.tokenType == EOF)
      ensures (ok && (alternative.Some? ==> CompleteBlock(alternative.value))) || |errors| > |old(errors)|
    {
      if peekToken.tokenType != ELSE {
        return None, true;
      }
      NextToken();
      ok := ExpectPeek(LBRACE);
      if !ok {
        return None, false;
      }
      var block: BlockStatement;
      ghost var blockStarts: seq<nat>;
      block, blockStarts := ParseBlockStatement();
      return Some(block), true;
    }

    /** `fn ( <parameters> ) { ... }`. The parameter list ends at `parametersEnd`;
        a missing `(` or `{` makes the literal nil, with the error for that token
        as the last one. */
    method ParseFunctionLiteral() returns (e: Expression, ghost parametersEnd: nat)
      requires Valid() && curToken.tokenType == FUNCTION
      modifies this
      decreases |tokens| - curIndex, 6, 1
      ensures Valid() && Advanced(old(curIndex), old(errors), old(hang))
      ensures e.Nil? || e.FunctionLiteral?
      ensures old(peekToken).tokenType != LPAREN ==>
                e == Nil && curIndex == old(curIndex) && errors == old(errors) + [UnexpectedPeek(LPAREN, old(peekToken).tokenType)]
      ensures old(peekToken).tokenType == LPAREN ==>
                old(curIndex) + 1 < parametersEnd < |tokens|
                && (e.FunctionLiteral? <==> TokenAt(tokens, parametersEnd + 1).tokenType == LBRACE)
      ensures old(peekToken).tokenType == LPAREN && TokenAt(tokens, parametersEnd + 1).tokenType != LBRACE ==>
                curIndex == parametersEnd && |errors| > 0
                && errors[|errors| - 1] == UnexpectedPeek(LBRACE, TokenAt(tokens, parametersEnd + 1).tokenType)
      ensures e.FunctionLiteral? ==>
                e.token == old(curToken) && e.body.token == TokenAt(tokens, parametersEnd + 1)
                && (curToken.tokenType == RBRACE || curToken.tokenType == EOF)
                && (|e.parameters| > 0 ==> parametersEnd == old(curIndex) + 1 + 2 * |e.parameters|)
                && ParametersAt(e.parameters, old(curIndex) + 1)
      ensures e.FunctionLiteral? && errors == old(errors) ==>
                (e.parameters == [] <==> parametersEnd == old(curIndex) + 2)
      ensures (e.FunctionLiteral? && Complete(e) && tokens[parametersEnd].tokenType == RPAREN)
                || |errors| > |old(errors)|
    {
      var fnToken := curToken;
      var ok := ExpectPeek(LPAREN);
      if !ok {
        return Nil, 0;
      }
      assert curIndex == old(curIndex) + 1 && errors == old(errors);
      e, parametersEnd := ParseFunctionRest(fnToken);
    }

    /** The parameter list and body of a function literal, from its `(`. */
    method ParseFunctionRest(fnToken: Token) returns (e: Expression, ghost parametersEnd: nat)
      requires Valid() && curToken.tokenType == LPAREN
      modifies this
      decreases |tokens| - curIndex, 6, 0
      ensures Valid() && Advanced(old(curIndex), old(errors), old(hang))
      ensures e.Nil? || e.FunctionLiteral?
      ensures old(curIndex) < parametersEnd < |tokens|
              && (e.FunctionLiteral? <==> TokenAt(tokens, parametersEnd + 1).tokenType == LBRACE)
      ensures TokenAt(tokens, parametersEnd + 1).tokenType != LBRACE ==>
                curIndex == parametersEnd && |errors| > 0
                && errors[|errors| - 1] == UnexpectedPeek(LBRACE, TokenAt(tokens, parametersEnd + 1).tokenType)
      ensures e.FunctionLiteral? ==>
                e.token == fnToken && e.body.token == TokenAt(tokens, parametersEnd + 1)
                && (curToken.tokenType == RBRACE || curToken.tokenType == EOF)
                && (|e.parameters| > 0 ==> parametersEnd == old(curIndex) + 2 * |e.parameters|)
                && ParametersAt(e.parameters, old(curIndex))
      ensures e.FunctionLiteral? && errors == old(errors) ==>
                (e.parameters == [] <==> parametersEnd == old(curIndex) + 1)
      ensures (e.FunctionLiteral? && Complete(e) && tokens[parametersEnd].tokenType == RPAREN)
                || |errors| > |old(errors)|
    {
      var parameters := ParseFunctionParameters();
      parametersEnd := curIndex;
      PeekIsNext();
      e := ParseFunctionBody(fnToken, parameters);
    }

    /** The body of a function literal once its parameter list is read; nil, with
        an error, when `{` does not follow. */
    method ParseFunctionBody(fnToken: Token, parameters: seq<Expression>) returns (e: Expression)
      requires Valid()
      modifies this
      decreases |tokens| - curIndex, 5
      ensures Valid() && Advanced(old(curIndex), old(errors), old(hang))
      ensures old(peekToken).tokenType != LBRACE ==>
                e == Nil && curIndex == old(curIndex) && errors == old(errors) + [UnexpectedPeek(LBRACE, old(peekToken).tokenType)]
      ensures old(peekToken).tokenType == LBRACE ==>
                e.FunctionLiteral? && e.token == fnToken && e.parameters == parameters && e.body.token == old(peekToken)
                && (curToken.tokenType == RBRACE || curToken.tokenType == EOF)
      ensures (e.FunctionLiteral? && CompleteBlock(e.body)) || |errors| > |old(errors)|
    {
      var ok := ExpectPeek(LBRACE);
      if !ok {
        return Nil;
      }
      var body: BlockStatement;
      ghost var bodyStarts: seq<nat>;
      body, bodyStarts := ParseBlockStatement();
      return FunctionLiteral(fnToken, parameters, body);
    }

    /** Parameter i is the identifier at token `open + 1 + 2 * i`, the token before
        each parameter after the first being a comma. */
    ghost predicate ParametersAt(parameters: seq<Expression>, open: nat) {
      forall i :: 0 <= i < |parameters| ==>
        open + 1 + 2 * i < |tokens| && parameters[i] == IdentifierOf(tokens[open + 1 + 2 * i])
        && (i > 0 ==> tokens[open + 2 * i].tokenType == COMMA)
    }

    /** A comma-separated list of names up to `)`. Whatever token follows `(` or a
        comma becomes a parameter; the list is empty (Go's nil) when `)` is missing. */
    method ParseFunctionParameters() returns (parameters: seq<Expression>)
      requires Valid() && curToken.tokenType == LPAREN
      modifies this`curIndex, this`curToken, this`peekToken, this`errors
      ensures Valid() && Advanced(old(curIndex) + 1, old(errors), old(hang))
      ensures errors == old(errors) ==> curToken.tokenType == RPAREN
      ensures errors != old(errors) ==>
                parameters == [] && errors == old(errors) + [UnexpectedPeek(RPAREN, peekToken.tokenType)]
      ensures old(peekToken).tokenType == RPAREN ==>
                parameters == [] && errors == old(errors) && curIndex == old(curIndex) + 1
      ensures |parameters| > 0 ==> curIndex == old(curIndex) + 2 * |parameters|
      ensures ParametersAt(parameters, old(curIndex))
      ensures errors == old(errors) ==> (parameters == [] <==> old(peekToken).tokenType == RPAREN)
    {
      if peekToken.tokenType == RPAREN {
        NextToken();
        return [];
      }
      NextToken();
      var identifiers := ParseIdentifierList();
      var ok := ExpectPeek(RPAREN);
      if !ok {
        return [];
      }
      return identifiers;
    }

    /** The identifiers of a parameter list from the current token on: that token,
        then the token after each comma that follows, up to the first token that
        is not followed by a comma. */
    method ParseIdentifierList() returns (identifiers: seq<Expression>)
      requires Valid()
      modifies this`curIndex, this`curToken, this`peekToken
      ensures Valid() && peekToken.tokenType != COMMA
      ensures |identifiers| > 0 && curIndex == old(curIndex) + 2 * |identifiers| - 2
      ensures forall i :: 0 <= i < |identifiers| ==> identifiers[i] == IdentifierOf(tokens[old(curIndex) + 2 * i])
      ensures forall i :: 0 < i < |identifiers| ==> tokens[old(curIndex) + 2 * i - 1].tokenType == COMMA
    {
      identifiers := [IdentifierOf(curToken)];
      while peekToken.tokenType == COMMA
        invariant Valid()
        invariant |identifiers| > 0 && curIndex == old(curIndex) + 2 * |identifiers| - 2
        invariant forall i :: 0 <= i < |identifiers| ==> identifiers[i] == IdentifierOf(tokens[old(curIndex) + 2 * i])
        invariant forall i :: 0 < i < |identifiers| ==> tokens[old(curIndex) + 2 * i - 1].tokenType == COMMA
        decreases |tokens| - curIndex
      {
        NextToken();
        NextToken();
        identifiers := identifiers + [IdentifierOf(curToken)];
      }
    }

    /** A call of `callee`: curToken is the `(` after it, and the arguments are
        those ParseCallArguments reads. */
    method ParseCallExpression(callee: Expression, ghost errors0: seq<ParseError>)
      returns (e: Expression, ghost starts: seq<nat>, ghost ends: seq<nat>)
      requires Valid() && curToken.tokenType == LPAREN
      requires errors0 <= errors && (|errors| > |errors0| || Complete(callee))
      modifies this
      decreases |tokens| - curIndex, 6
      ensures Valid() && Advanced(old(curIndex) + 1, old(errors), old(hang))
      ensures e.CallExpression? && e.token == old(curToken) && e.callee == callee
      ensures ArgumentSlices(old(curIndex), starts, ends) && |e.arguments| <= |ends|
      ensures old(peekToken).tokenType == RPAREN ==> ends == [] && e.arguments == [] && errors == old(errors)
      ensures old(peekToken).tokenType != RPAREN ==>
                |ends| > 0 && (|e.arguments| == |ends| <==> TokenAt(tokens, ends[|ends| - 1] + 1).tokenType == RPAREN)
      ensures (curToken.tokenType == RPAREN && ArgumentsSpelled(e.arguments, starts, ends))
                || |errors| > |old(errors)|
      ensures Complete(e) || |errors| > |errors0|
    {
      var callToken := curToken;
      var arguments;
      arguments, starts, ends := ParseCallArguments();
      if |errors| == |old(errors)| {
        forall i | 0 <= i < |arguments| ensures Complete(arguments[i]) {
          assert ArgumentSpelled(arguments, starts, ends, i);
        }
      }
      return CallExpression(callToken, callee, arguments), starts, ends;
    }

    /** Argument i read after the `(` at `open` runs from token `starts[i]` to token
        `ends[i]`: the first starts right after the `(`, and a comma separates each
        from the next. */
    ghost predicate ArgumentSpans(open: nat, starts: seq<nat>, ends: seq<nat>) {
      |starts| == |ends|
      && (|ends| > 0 ==> starts[0] == open + 1)
      && (forall i :: 0 <= i < |ends| ==> starts[i] <= ends[i] < |tokens|)
      && (forall i :: 0 < i < |ends| ==> CommaBefore(starts, ends, i))
    }

    /** Argument i starts two tokens after argument i - 1 ends, and the token
        between them is a comma. */
    ghost predicate CommaBefore(starts: seq<nat>, ends: seq<nat>, i: nat) {
      0 < i < |starts| && i <= |ends| && ends[i - 1] + 1 < |tokens|
      && starts[i] == ends[i - 1] + 2 && tokens[ends[i - 1] + 1].tokenType == COMMA
    }

    /** The argument spans of a whole list: no comma follows the last one. */
    ghost predicate ArgumentSlices(open: nat, starts: seq<nat>, ends: seq<nat>)
      requires |tokens| > 0
    {
      ArgumentSpans(open, starts, ends)
      && (|ends| > 0 ==> TokenAt(tokens, ends[|ends| - 1] + 1).tokenType != COMMA)
    }

    /** Each argument has no nil inside it and is the reading of its span. */
    ghost predicate ArgumentsSpelled(arguments: seq<Expression>, starts: seq<nat>, ends: seq<nat>) {
      |arguments| <= |starts| && |arguments| <= |ends|
      && forall i :: 0 <= i < |arguments| ==> ArgumentSpelled(arguments, starts, ends, i)
    }

    /** Argument i has no nil inside it and is the reading of its span. */
    ghost predicate ArgumentSpelled(arguments: seq<Expression>, starts: seq<nat>, ends: seq<nat>, i: nat) {
      i < |arguments| && i < |starts| && i < |ends|
      && Complete(arguments[i]) && Spells(tokens, arguments[i], starts[i], ends[i] + 1, LOWEST)
    }

    /** One more argument, spanning `start` to `end`, extends the spans. */
    lemma ArgumentSpansExtend(open: nat, starts: seq<nat>, ends: seq<nat>, start: nat, end: nat)
      requires ArgumentSpans(open, starts, ends)
      requires start <= end < |tokens|
      requires |ends| == 0 ==> start == open + 1
      requires |ends| > 0 ==> start == ends[|ends| - 1] + 2 && tokens[ends[|ends| - 1] + 1].tokenType == COMMA
      ensures ArgumentSpans(open, starts + [start], ends + [end])
    {
      var starts', ends' := starts + [start], ends + [end];
      forall i | 0 < i < |ends'|
        ensures CommaBefore(starts', ends', i)
      {
        if i < |ends| {
          assert CommaBefore(starts, ends, i);
        }
        assert ends'[i - 1] == ends[i - 1];
      }
    }

    /** One more argument that is the reading of its span extends the readings. */
    lemma ArgumentsSpelledExtend(arguments: seq<Expression>, starts: seq<nat>, ends: seq<nat>,
                                 argument: Expression, start: nat, end: nat, failed: bool)
      requires |arguments| == |starts| == |ends|
      requires (ArgumentsSpelled(arguments, starts, ends)
                 && Complete(argument) && Spells(tokens, argument, start, end + 1, LOWEST)) || failed
      ensures ArgumentsSpelled(arguments + [argument], starts + [start], ends + [end]) || failed
    {
      if !failed {
        var starts', ends', arguments' := starts + [start], ends + [end], arguments + [argument];
        forall i | 0 <= i < |arguments'|
          ensures ArgumentSpelled(arguments', starts', ends', i)
        {
          if i < |arguments| {
            assert ArgumentSpelled(arguments, starts, ends, i);
            assert arguments'[i] == arguments[i] && starts'[i] == starts[i] && ends'[i] == ends[i];
          }
        }
      }
    }

    /** One more argument, spanning `start` to `end`, extends both the spans and,
        unless `failed`, the readings. */
    lemma ArgumentExtend(open: nat, arguments: seq<Expression>, starts: seq<nat>, ends: seq<nat>,
                         argument: Expression, start: nat, end: nat, failed: bool)
      requires ArgumentSpans(open, starts, ends) && |arguments| == |ends|
      requires start <= end < |tokens|
      requires |ends| == 0 ==> start == open + 1
      requires |ends| > 0 ==> start == ends[|ends| - 1] + 2 && tokens[ends[|ends| - 1] + 1].tokenType == COMMA
      requires (ArgumentsSpelled(arguments, starts, ends)
                 && Complete(argument) && Spells(tokens, argument, start, end + 1, LOWEST)) || failed
      ensures ArgumentSpans(open, starts + [start], ends + [end])
      ensures ArgumentsSpelled(arguments + [argument], starts + [start], ends + [end]) || failed
    {
      ArgumentSpansExtend(open, starts, ends, start, end);
      ArgumentsSpelledExtend(arguments, starts, ends, argument, start, end, failed);
    }

    /** A comma-separated list of expressions up to `)`, spanning the tokens that
        ArgumentSlices describes. The list is empty (Go's nil), with an error, when
        `)` does not follow the last argument. */
    method ParseCallArguments() returns (arguments: seq<Expression>, ghost starts: seq<nat>, ghost ends: seq<nat>)
      requires Valid() && curToken.tokenType == LPAREN
      modifies this
      decreases |tokens| - curIndex, 5
      ensures Valid() && Advanced(old(curIndex) + 1, old(errors), old(hang))
      ensures ArgumentSlices(old(curIndex), starts, ends) && |arguments| <= |ends|
      ensures old(peekToken).tokenType == RPAREN ==>
                ends == [] && arguments == [] && errors == old(errors) && curIndex == old(curIndex) + 1
      ensures old(peekToken).tokenType != RPAREN ==> |ends| > 0
      ensures |ends| > 0 && TokenAt(tokens, ends[|ends| - 1] + 1).tokenType == RPAREN ==>
                |arguments| == |ends| && curIndex == ends[|ends| - 1] + 1
      ensures |ends| > 0 && TokenAt(tokens, ends[|ends| - 1] + 1).tokenType != RPAREN ==>
                arguments == [] && curIndex == ends[|ends| - 1] && |errors| > 0
                && errors[|errors| - 1] == UnexpectedPeek(RPAREN, TokenAt(tokens, ends[|ends| - 1] + 1).tokenType)
      ensures (curToken.tokenType == RPAREN && ArgumentsSpelled(arguments, starts, ends))
                || |errors| > |old(errors)|
    {
      if peekToken.tokenType == RPAREN {
        NextToken();
        return [], [], [];
      }
      NextToken();
      arguments, starts, ends := ParseClosedArgumentList(old(curIndex));
    }

    /** The arguments read from the current token (right after the `(` at `open`),
        then the `)` that must follow them: the list is emptied, with an error,
        when it does not. */
    method ParseClosedArgumentList(ghost open: nat) returns (arguments: seq<Expression>, ghost starts: seq<nat>, ghost ends: seq<nat>)
      requires Valid() && curIndex == open + 1
      modifies this
      decreases |tokens| - curIndex, 11
      ensures Valid() && Advanced(old(curIndex), old(errors), old(hang))
      ensures ArgumentSlices(open, starts, ends) && |ends| > 0
      ensures TokenAt(tokens, ends[|ends| - 1] + 1).tokenType == RPAREN ==>
                |arguments| == |ends| && curIndex == ends[|ends| - 1] + 1
      ensures TokenAt(tokens, ends[|ends| - 1] + 1).tokenType != RPAREN ==>
                arguments == [] && curIndex == ends[|ends| - 1] && |errors| > 0
                && errors[|errors| - 1] == UnexpectedPeek(RPAREN, TokenAt(tokens, ends[|ends| - 1] + 1).tokenType)
      ensures (curToken.tokenType == RPAREN && ArgumentsSpelled(arguments, starts, ends))
                || |errors| > |old(errors)|
    {
      arguments, starts, ends := ParseArgumentList(open);
      PeekIsNext();
      var ok := ExpectPeek(RPAREN);
      if !ok {
        arguments := [];
      }
    }

    /** The comma-separated expressions of an argument list, the first one starting
        at the current token (right after the `(` at `open`); stops at the first
        argument that no comma follows. */
    method ParseArgumentList(ghost open: nat) returns (arguments: seq<Expression>, ghost starts: seq<nat>, ghost ends: seq<nat>)
      requires Valid() && curIndex == open + 1
      modifies this
      decreases |tokens| - curIndex, 10
      ensures Valid() && Advanced(old(curIndex), old(errors), old(hang))
      ensures ArgumentSpans(open, starts, ends) && |arguments| == |ends| > 0
      ensures ends[|ends| - 1] == curIndex && peekToken.tokenType != COMMA
      ensures ArgumentsSpelled(arguments, starts, ends) || |errors| > |old(errors)|
    {
      var argument := ParseExpression(LOWEST);
      ArgumentExtend(open, [], [], [], argument, open + 1, curIndex, |errors| > |old(errors)|);
      arguments, starts, ends := ParseMoreArguments(open, [] + [argument], [] + [open + 1], [] + [curIndex], old(errors));
    }

    /** The arguments that follow a comma, appended to those read so far, the last
        of which ends at the current token. `errors0` is the error list from before
        the first argument. */
    method ParseMoreArguments(ghost open: nat, arguments0: seq<Expression>, ghost starts0: seq<nat>, ghost ends0: seq<nat>,
                              ghost errors0: seq<ParseError>)
      returns (arguments: seq<Expression>, ghost starts: seq<nat>, ghost ends: seq<nat>)
      requires Valid() && errors0 <= errors
      requires ArgumentSpans(open, starts0, ends0) && |arguments0| == |ends0| > 0 && ends0[|ends0| - 1] == curIndex
      requires ArgumentsSpelled(arguments0, starts0, ends0) || |errors| > |errors0|
      modifies this
      decreases |tokens| - curIndex, 9, 1
      ensures Valid() && Advanced(old(curIndex), old(errors), old(hang))
      ensures ArgumentSpans(open, starts, ends) && |arguments| == |ends| > 0
      ensures ends[|ends| - 1] == curIndex && peekToken.tokenType != COMMA
      ensures ArgumentsSpelled(arguments, starts, ends) || |errors| > |errors0|
    {
      arguments, starts, ends := arguments0, starts0, ends0;
      while peekToken.tokenType == COMMA
        invariant Valid() && Advanced(old(curIndex), old(errors), old(hang))
        invariant ArgumentSpans(open, starts, ends) && |arguments| == |ends| > 0
        invariant ends[|ends| - 1] == curIndex
        invariant ArgumentsSpelled(arguments, starts, ends) || |errors| > |errors0|
        decreases |tokens| - curIndex
      {
        ghost var start := curIndex + 2;
        var argument := ParseNextArgument();
        ArgumentExtend(open, arguments, starts, ends, argument, start, curIndex, |errors| > |errors0|);
        arguments, starts, ends := arguments + [argument], starts + [start], ends + [curIndex];
      }
    }

    /** Past the comma that is the next token, the argument that follows it. */
    method ParseNextArgument() returns (argument: Expression)
      requires Valid() && peekToken.tokenType == COMMA
      modifies this
      decreases |tokens| - curIndex, 9, 0
      ensures Valid() && Advanced(old(curIndex) + 2, old(errors), old(hang))
      ensures tokens[old(curIndex) + 1].tokenType == COMMA
      ensures (Complete(argument) && Spells(tokens, argument, old(curIndex) + 2, curIndex + 1, LOWEST))
                || |errors| > |old(errors)|
    {
      PeekIsNext();
      NextToken();
      NextToken();
      argument := ParseExpression(LOWEST);
    }

    /** `{` followed by statements up to `}` or EOF. As in ParseProgram, every
        statement parsed is kept, nil ones included, in source order. */
    method ParseBlockStatement() returns (block: BlockStatement, ghost starts: seq<nat>)
      requires Valid() && curToken.tokenType == LBRACE
      modifies this
      decreases |tokens| - curIndex, 4
      ensures Valid() && Advanced(old(curIndex) + 1, old(errors), old(hang))
      ensures block.token == old(curToken)
      ensures curToken.tokenType == RBRACE || curToken.tokenType == EOF
      ensures StatementsFrom(block.statements, starts, old(curIndex) + 1, curIndex, RBRACE)
      ensures CompleteBlock(block) || |errors| > |old(errors)|
    {
      var blockToken := curToken;
      var statements: seq<Statement> := [];
      starts := [];
      NextToken();
      while curToken.tokenType != RBRACE && curToken.tokenType != EOF
        invariant Valid() && Advanced(old(curIndex) + 1, old(errors), old(hang))
        invariant StatementsFrom(statements, starts, old(curIndex) + 1, curIndex, RBRACE)
        invariant |starts| == 0 ==> curIndex == old(curIndex) + 1
        invariant (forall i :: 0 <= i < |statements| ==> CompleteStatement(statements[i]))
                    || |errors| > |old(errors)|
        decreases |tokens| - curIndex
      {
        ghost var k := curIndex;
        var s := ParseStatement();
        NextToken();
        assert k < curIndex;
        StatementsFromExtend(statements, starts, old(curIndex) + 1, k, RBRACE, s, k, curIndex);
        starts := starts + [k];
        statements := statements + [s];
      }
      return BlockStatement(blockToken, statements), starts;
    }
  }
}
