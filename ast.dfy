/** The syntax tree the parser builds. Every node keeps the token it was built
    from. `Nil` stands for a nil Expression, and `NilLetStatement` for the nil
    *LetStatement that a failed `let` returns: stored in a Statement interface
    value it is not nil, so it is kept in the statement list. */
module Ast {
  import opened Common
  import opened Token

  datatype Expression =
    | Nil
    | Identifier(token: Token, value: string)
    | IntegerLiteral(token: Token, intValue: int)
    | Boolean(token: Token, boolValue: bool)
    | PrefixExpression(token: Token, operator: string, right: Expression)
    | InfixExpression(token: Token, left: Expression, operator: string, right: Expression)
    | IfExpression(token: Token, condition: Expression, consequence: BlockStatement, alternative: Option<BlockStatement>)
    | FunctionLiteral(token: Token, parameters: seq<Expression>, body: BlockStatement)
    | CallExpression(token: Token, callee: Expression, arguments: seq<Expression>)

  datatype Statement =
    | LetStatement(token: Token, name: Expression, value: Expression)
    | NilLetStatement
    | ReturnStatement(token: Token, returnValue: Expression)
    | ExpressionStatement(token: Token, expression: Expression)

  datatype BlockStatement = BlockStatement(token: Token, statements: seq<Statement>)

  datatype Program = Program(statements: seq<Statement>)

  /** The identifier node for a token: its value is the token's literal. */
  function IdentifierOf(tok: Token): (e: Expression)
    ensures e.Identifier? && e.token == tok && e.value == tok.literal
  {
    Identifier(tok, tok.literal)
  }

  /** An expression with no nil anywhere inside it. */
  predicate Complete(e: Expression)
    decreases e, 1
  {
    match e
    case Nil => false
    case Identifier(_, _) => true
    case IntegerLiteral(_, _) => true
    case Boolean(_, _) => true
    case PrefixExpression(_, _, right) => Complete(right)
    case InfixExpression(_, left, _, right) => Complete(left) && Complete(right)
    case IfExpression(_, condition, consequence, alternative) =>
      Complete(condition) && CompleteBlock(consequence)
      && (alternative.Some? ==> CompleteBlock(alternative.value))
    case FunctionLiteral(_, parameters, body) =>
      (forall i :: 0 <= i < |parameters| ==> Complete(parameters[i])) && CompleteBlock(body)
    case CallExpression(_, callee, arguments) =>
      Complete(callee) && forall i :: 0 <= i < |arguments| ==> Complete(arguments[i])
  }

  /** A statement with no nil anywhere inside it. */
  predicate CompleteStatement(s: Statement)
    decreases s, 1
  {
    match s
    case LetStatement(_, name, value) => Complete(name) && Complete(value)
    case NilLetStatement => false
    case ReturnStatement(_, returnValue) => Complete(returnValue)
    case ExpressionStatement(_, expression) => Complete(expression)
  }

  /** A block whose statements have no nil anywhere inside them. */
  predicate CompleteBlock(b: BlockStatement)
    decreases b, 0
  {
    forall i :: 0 <= i < |b.statements| ==> CompleteStatement(b.statements[i])
  }
}
