# zzz-lang front end and builtins, in Dafny

zzz-lang is a small interpreted language written in Go. Its source text goes through
three stages. The lexer reads the input one byte at a time and hands out tokens. The
parser is a Pratt parser: each token type that can start an expression has a prefix
parse function, and each operator has an infix parse function and a precedence. It
builds a syntax tree of `let`, `return` and expression statements. At run time, values
are objects that carry a type tag and render themselves as text. Three builtin
functions, `len`, `push` and `spit`, work on those objects.

This project models these parts:

- the token types, the keyword table and token construction (`Token`, token.dfy).
  Go's token types are string constants; here each is a number with the Go
  constant's name, and `Token.Name` gives the string it stands for;
- the lexer as a class over the input, proved to follow a functional description
  `Lex` of one `NextToken` call (`Lexer`, lexer.dfy);
- the parser as a class whose current and peek tokens and error list mirror the
  Go parser's, over the lexer's token stream (`Parser`, parser.dfy), building the
  syntax tree (`Ast`, ast.dfy);
- `strconv.ParseInt` as the parser uses it (`Strconv`, strconv.dfy);
- the precedence table, plus a description of the operator trees that respect it
  (`Precedence`, precedence.dfy);
- objects (`Object`, object.dfy) and the builtins (`Builtins`, builtins.dfy);
- two worked readings of expressions (`Readings`, readings.dfy);
- shared decimal and digit helpers (`Common`, common.dfy).

The central parser result is a precedence theorem, `Precedence.Spells`. Say
`ParseExpression` starts at token `lo`, records no error, and ends on token `hi - 1`.
Then three things hold:

- The token at `hi` stops the Go loop: it is `;`, or it binds no tighter than the
  precedence asked for.
- Suppose the operands and operators from `lo` on are followed by a token that ends
  every expression, such as `;`, `)`, `,`, `}` or EOF. Then the parse does not read
  past them.
- When the tokens read are all operands and operators, the tree spells exactly those
  tokens and respects the precedence table.

`Precedence.UniqueTree` shows that at most one tree does the last. On a run that such
a token closes, the three together fix both the end and the tree. `Readings.SumOfProductExample` shows that `a + b * c;`
reads as `(a + (b * c))`. `Readings.DifferencesExample` shows that `a - b - c;` reads
as `((a - b) - c)`. The same claim holds for the value of a `let` or `return`, an
expression statement, the operands of prefix and infix operators, the inside of
parentheses, an `if` condition and each call argument.

The model follows the code in these places:

- A NUL byte inside the input yields an EOF token, but lexing goes on after it. Only
  the end of the input makes EOF repeat (`Lexer.NulInsideInputIsNotTheEnd`).
- A `let` statement that fails returns a nil `*LetStatement`. Stored in a
  `Statement` it is a non-nil interface value, so it stays in the program as
  `NilLetStatement`.
- After its value, a `let` statement skips tokens until it finds `;`. Without a `;`
  the Go loop never ends. The model records this in the parser's `hang` flag.
- `return` moves one token further whenever the value does not end on `;`.
- A function parameter is whatever token follows `(` or a comma, not only an identifier.

## Model

| member | source | states |
|---|---|---|
| Token.NameRoundTrip | token/token.go:13-57 | `FromName` inverts `Name`: every token type's string constant reads back as that type |
| Token.NameInjective | token/token.go:13-57 | distinct token types have distinct string constants |
| Token.KeywordsInjective | token/token.go:60-68 | the keyword table maps distinct words to distinct types, and every type in it is one of the seven keyword types |
| Token.LookUpIndent | token/token.go:73-78 | a word is IDENT exactly when it is none of the seven keywords; each keyword gets its own type |
| Token.Name | token/token.go:13-57 | the string constant of each token type, which the parser's error messages print |
| Token.NewToken | token/token.go:81-83 | the token has the given type, and its literal is Go's `string(ch)`: the byte itself below 0x80, its two-byte UTF-8 encoding from 0x80 on; either way the literal decodes back to the byte |
| Token.EncodeByteRoundTrip | token/token.go:82 | decoding undoes `string(ch)` for every byte, so distinct bytes give distinct one-character literals |
| Lexer.CharAt | lexer/lexer.go:25-29 | the byte at a position of the input, or NUL (0) at and past its end |
| Lexer.IsLetter | lexer/lexer.go:137-139 | `a`-`z`, `A`-`Z` and `_` |
| Common.IsDigit | lexer/lexer.go:142-144 | `0`-`9` |
| Lexer.SkipWhitespace | lexer/lexer.go:61-65 | the first position at or after `i` that is not a space, tab, newline or carriage return; everything skipped is whitespace |
| Lexer.RunEnd | lexer/lexer.go:35-50 | the end of the maximal run of letters (or digits) that starts at `i` |
| Lexer.Lex | lexer/lexer.go:68-134 | a call always moves the cursor forward, and stays within the input while input remains |
| Lexer.LexSkipsWhitespace | lexer/lexer.go:68-134 | whitespace before a token is skipped, and no literal contains whitespace |
| Lexer.LexLiteralIsSlice | lexer/lexer.go:68-134 | EOF comes exactly from NUL or the end of input and has an empty literal; every other literal is non-empty, and when its first byte is below 0x80 it is exactly the slice of input it was read from |
| Lexer.LexTwoCharOperators | lexer/lexer.go:73-98 | `==` and `!=` are single two-byte tokens; a lone `=` is ASSIGN and a lone `!` is BANG |
| Lexer.LexMaximalRuns | lexer/lexer.go:118-126 | a token that starts with a letter is the maximal letter run, typed by the keyword table; one that starts with a digit is the maximal digit run, typed INT |
| Lexer.LexIllegal | lexer/lexer.go:127-129 | any other byte is an ILLEGAL token whose literal is `string(ch)` of that byte (the byte itself below 0x80), and the cursor moves one byte |
| Lexer.ExhaustedForever | lexer/lexer.go:24-32 | once only whitespace remains, this and every later call return `{EOF, ""}` |
| Lexer.Tokens | lexer/lexer.go:68-134 | the token stream of an input is finite and ends with `{EOF, ""}` |
| Lexer.TokensAreTheStream | lexer/lexer.go:68-134 | the k-th NextToken call returns the k-th token of `Tokens`, and the final EOF after it |
| Lexer.NulInsideInputIsNotTheEnd | lexer/lexer.go:115-117 | a NUL byte inside the input gives EOF, and the stream goes on with the tokens of the bytes after it |
| Lexer.NulInsideInputExample | lexer/lexer.go:115-117 | `"\0x"` lexes as EOF, `x`, EOF |
| Lexer.Lexer.constructor | lexer/lexer.go:17-21 | a lexer at position 0 with the first byte (or NUL) read |
| Lexer.Lexer.ReadChar | lexer/lexer.go:24-32 | the cursor moves one byte; past the end the byte is NUL |
| Lexer.Lexer.PeakChar | lexer/lexer.go:53-58 | returns the byte after the cursor (NUL past the end) without moving |
| Lexer.Lexer.ReadIdentifier | lexer/lexer.go:35-41 | stops at the end of the letter run and returns the slice it read |
| Lexer.Lexer.ReadNumber | lexer/lexer.go:44-50 | stops at the end of the digit run and returns the slice it read |
| Lexer.Lexer.EatWhitespace | lexer/lexer.go:61-65 | leaves the cursor at `SkipWhitespace` of where it was |
| Lexer.Lexer.NextToken | lexer/lexer.go:68-134 | returns the token `Lex` gives for the old cursor, and moves the cursor where `Lex` says |
| Strconv.ParseInt | parser/parser.go:224 | a result is a non-negative int64 read from a digit string; a decimal numeral parses to its value unless it is above the int64 maximum |
| Strconv.ParseIntDecimal | parser/parser.go:224 | every non-negative int64 reads back from its decimal text |
| Strconv.ParseIntOverflow | parser/parser.go:224-229 | a decimal literal above the int64 maximum is rejected |
| Strconv.ParseIntLeadingZero | parser/parser.go:224-229 | a leading `0` selects octal; an `8` or `9` after it is an error |
| Strconv.ParseIntOctalExamples | parser/parser.go:224-229 | `010` is eight and `09` is an error |
| Common.Decimal | object/object.go:23 | Go's `%d`: never empty, starting with `-` exactly for negatives and with a digit otherwise, `0` for zero (`Common.DecimalRoundTrip` reads it back) |
| Common.DecimalRoundTrip | object/object.go:23 | reading the rendering back gives the number, so distinct integers render differently |
| Precedence.PrecedenceOf | parser/parser.go:93-106 | precedences lie between LOWEST and CALL and are never PREFIX; the binary operators are exactly the types above LOWEST and at most PRODUCT; CALL belongs only to `(` |
| Precedence.PrecedenceOfTable | parser/parser.go:80-106 | a type has a table entry exactly when its precedence is above LOWEST, and the entry is its precedence |
| Precedence.PrecedenceLevels | parser/parser.go:68-90 | `==`/`!=` are EQUALS, `<`/`>` are LESSGREATER, `+`/`-` are SUM, `*`/`/` are PRODUCT, each in both directions |
| Precedence.WellNestedAtLevel | parser/parser.go:204-210 | only the root of a tree depends on the context's level |
| Precedence.InfixStep | parser/parser.go:261-273 | an infix node built from a correct left tree and a right tree read at the operator's level is itself correct and spells the joined tokens |
| Precedence.ReadOperand | parser/parser.go:216-233 | a leaf for token k is what token k alone reads as, and it binds tighter than any operator that may follow |
| Precedence.ReadBeyond | parser/parser.go:194-200 | a `(`, `if` or `fn` expression is outside the operator-expression claim, which therefore holds vacuously |
| Precedence.ReadInfix | parser/parser.go:261-273 | after an infix step, the new tree is what the parser has read so far |
| Precedence.ReadPrefix | parser/parser.go:236-245 | `!` or `-` with an operand read at PREFIX is the reading of its tokens |
| Precedence.ReadSoFarSpells | parser/parser.go:204-212 | once the next token is `;` or binds no tighter than the level, what the loop has read is what the parse spells |
| Precedence.OperatorRunIsRun | parser/parser.go:204-210 | the run of operands and operators from a position is all operands and operators, and the token that ends it is neither |
| Precedence.OperatorRunEndWithin | parser/parser.go:204-210 | a run seen from a later position inside it ends at the same place |
| Precedence.FlattenEnds | parser/parser.go:193-213 | a correct tree has tokens, ends with an operand, and starts with an operand or a prefix operator |
| Precedence.FlattenOperatorTokens | parser/parser.go:193-213 | every token of a correct tree is an operand or an operator |
| Precedence.BinaryAtConcat | parser/parser.go:193-213 | binary-operator positions of a joined token sequence are those of its parts |
| Precedence.BinaryAbove | parser/parser.go:193-213 | a binary-operator position in a correct tree belongs to an infix node that binds above the context level |
| Precedence.BinaryInLeft | parser/parser.go:204-210 | operators inside a left operand bind at least as tightly as the root (left associativity) |
| Precedence.BinaryInRight | parser/parser.go:261-273 | operators inside a right operand bind strictly tighter than the root |
| Precedence.RootIsBinary | parser/parser.go:261-273 | the root operator of an infix tree sits at a binary-operator position |
| Precedence.RootNotAfter | parser/parser.go:193-213 | of two correct readings of the same tokens, neither root operator lies after the other's |
| Precedence.UniqueOperand | parser/parser.go:236-245 | two correct non-infix trees over the same tokens are equal |
| Precedence.UniqueInfix | parser/parser.go:193-213 | two correct infix trees over the same tokens are equal |
| Precedence.UniqueTree | parser/parser.go:193-213 | a token sequence has at most one correct tree at a given level |
| Precedence.ReadingsUnique | parser/parser.go:193-213 | a slice of tokens has at most one reading, so the parser's tree is the reading |
| Readings.FiveTokenRun | parser/parser.go:204 | operand, operator, operand, operator, operand, `;`: the five form one run, and `;` closes it |
| Readings.ReadingEndsOnOperand | parser/parser.go:204-210 | a reading spells at least one token, and its last token is an operand |
| Readings.FiveTokenReading | parser/parser.go:193-213 | on operand, operator, operand, operator, operand, `;`, a parse at LOWEST reads exactly the five tokens, as their one correct tree |
| Readings.SumOfProductExample | parser/parser.go:193-213 | `a + b * c;` parses to `(a + (b * c))` and stops before the `;` |
| Readings.DifferencesExample | parser/parser.go:193-213 | `a - b - c;` parses to `((a - b) - c)` and stops before the `;` |
| Ast.IdentifierOf | parser/parser.go:216-218 | the identifier node keeps its token and takes the literal as value |
| Parser.PrefixParseFn | parser/parser.go:36-45 | exactly these nine token types have a prefix rule, each with the rule registered for it |
| Parser.InfixParseFn | parser/parser.go:47-56 | a type has an infix rule exactly when its precedence is above LOWEST; `(` has the call rule and the eight operators have the infix rule |
| Parser.PeekErrorMessage | parser/parser.go:434 | `expected next token to be of type <expected>, got <peek> instead`, with the types' string constants |
| Parser.NoPrefixMessage | parser/parser.go:440 | `no prefix parse function for <type> found` |
| Parser.IntegerErrorMessage | parser/parser.go:226 | `could not parse "<literal>" as integer`; `%q` of a digit string is the string in double quotes |
| Parser.Messages | parser/parser.go:427-430 | one message per recorded error, in order, each the one Go formats for that error |
| Parser.Parser.Errors | parser/parser.go:427-430 | Go's `Errors`: the recorded messages, one per error, oldest first |
| Parser.Parser.constructor | parser/parser.go:26-59 | a parser over the lexer's token stream, primed with the first two tokens, with no errors |
| Parser.Parser.NextToken | parser/parser.go:109-112 | current becomes peek, and peek becomes the next token (the final EOF repeats) |
| Parser.Parser.ExpectPeek | parser/parser.go:408-415 | advances exactly when the peek token has the expected type; otherwise it appends the "expected next token" error and moves nothing |
| Parser.Parser.PeekError | parser/parser.go:433-436 | appends exactly the "expected next token to be …" message |
| Parser.Parser.NoPrefixParseFnError | parser/parser.go:439-442 | appends exactly the "no prefix parse function for … found" message |
| Parser.Parser.StatementsFromExtend | parser/parser.go:119-125 | a statement that begins after all earlier ones, on a token that is not the closer, extends the in-order statement list |
| Parser.Parser.ParseProgram | parser/parser.go:115-127 | stops on EOF and keeps every statement parsed, nil `let`s included, in source order: statement i begins at token `starts[i]`, the starts ascend from the first token and lie before the final EOF, and each statement keeps its first token; an empty stream gives no statements and no errors; with no error every statement is complete; a well-formed `let` at any statement start with no `;` after it hangs |
| Parser.Parser.ParseStatement | parser/parser.go:130-139 | a `let` (or the nil `*LetStatement`) for LET, a `return` for RETURN, an expression statement otherwise, each keeping the first token |
| Parser.Parser.ParseLetStatement | parser/parser.go:142-164 | nil exactly when IDENT or `=` is missing, with the matching error and the cursor where it stopped; otherwise names the identifier, and with no error its value is read from the token after `=` to `valueEnd`, where the expression stops: the next token is `;` or binds no tighter than LOWEST, and no closed run of operands and operators is overrun; it hangs exactly when the value hung (`valueHang`, a nested `let` inside an `fn` or `if`, which can only happen when the value reaches the final EOF) or no `;` follows `valueEnd`, and otherwise ends on `;`; a nil `let` leaves the hang state as it was |
| Parser.Parser.SkipToSemicolon | parser/parser.go:159-161 | moves on until the current token is `;`, passing no `;` on the way; it hangs exactly when it was already hung or no `;` is left |
| Parser.Parser.ParseLetName | parser/parser.go:149-163 | from the name: nil with the expected-`=` error exactly when `=` does not follow; otherwise the `let` keeps the name, its value is read from the token after `=` to `valueEnd` and spells those tokens when no error is recorded; it hangs exactly when the value hung (only when it ends on the final EOF) or no `;` follows `valueEnd`, and otherwise ends on `;`; a nil `let` leaves the hang state as it was |
| Parser.Parser.ParseLetValue | parser/parser.go:155-163 | builds the `let` from the given `let` and name tokens; with no error the value is read from `valueStart`, the token after `=`, to `valueEnd` and spells those tokens; then skips to `;`: it hangs exactly when the value hung (`valueHang`, only when the value ends on the final EOF) or no `;` follows `valueEnd`, and otherwise ends on `;` |
| Parser.Parser.ParseReturnStatement | parser/parser.go:167-178 | with no error the value is read from the token after `return` to `valueEnd`, which is where the expression stops (the next token is `;` or binds no tighter than LOWEST); the statement ends there when that token is `;`, and one token further otherwise |
| Parser.Parser.ParseExpressionStatement | parser/parser.go:181-190 | reads an expression up to `valueEnd`, where it stops (the next token is `;` or binds no tighter than LOWEST), and consumes one optional `;` after it; with no error the expression is complete and spells the tokens read |
| Parser.Parser.ParseExpression | parser/parser.go:193-213 | with no prefix rule, nil plus the error; with no error the tree is complete, the next token is `;` or binds no tighter than `precedence`, a closed run of operands and operators is not overrun, and on such a run the tree is the one correct reading of the tokens consumed |
| Parser.Parser.ParseOperators | parser/parser.go:204-211 | the loop runs until the next token is `;` or binds no tighter than `precedence`, and keeps "the tree so far is the correct reading of the tokens so far, and no closed run is overrun" |
| Parser.Parser.ParseValue | parser/parser.go:155-157 | moves to the next token and reads the expression there at LOWEST; with no error it is complete and spells the tokens read |
| Parser.Parser.ApplyPrefixRule | parser/parser.go:194-200 | the prefix rule's result is a correct start of the expression |
| Parser.Parser.ApplyLeafRule | parser/parser.go:194-200 | an identifier, integer literal or boolean read by its prefix rule is a correct start of the expression, the operand alone |
| Parser.Parser.ApplyPrefixOperatorRule | parser/parser.go:194-200 | a `!` or `-` expression read by its prefix rule is a correct start of the expression |
| Parser.Parser.ApplyGroupedRule | parser/parser.go:200 | a grouped expression is a correct start of the expression (the claim is vacuous for it) |
| Parser.Parser.ApplyIfRule | parser/parser.go:200 | an `if` expression is a correct start of the expression (the claim is vacuous for it) |
| Parser.Parser.ApplyFunctionLiteralRule | parser/parser.go:200 | a function literal is a correct start of the expression (the claim is vacuous for it) |
| Parser.Parser.ApplyInfixRule | parser/parser.go:204-210 | one loop turn keeps "the tree so far is the reading of the tokens so far" |
| Parser.Parser.ApplyOperatorRule | parser/parser.go:209-210 | moving to a binary operator and reading its right operand keeps "the tree so far is the reading of the tokens so far" |
| Parser.Parser.ApplyCallRule | parser/parser.go:209-210 | moving to `(` and reading a call keeps the loop's claim (vacuously, as a call is not an operator expression) |
| Parser.Parser.ParseIdentifier | parser/parser.go:216-218 | the identifier node of the current token |
| Parser.Parser.ParseIntegerLiteral | parser/parser.go:221-233 | the literal's value when strconv accepts it; otherwise nil plus the "could not parse" error |
| Parser.Parser.ParsePrefixExpression | parser/parser.go:236-245 | a prefix node for the operator; with no error its operand is read from the next token at PREFIX, stops where the next token binds no tighter than PREFIX, and spells the tokens read |
| Parser.Parser.ParseGroupedExpression | parser/parser.go:248-258 | the inner expression, read from the token after `(` to `innerEnd`, when `)` follows it, ending on `)`; nil, with the expected-`)` error last, when it does not; with no error the inner expression is complete, stops at `innerEnd` as a parse at LOWEST stops, and spells its tokens |
| Parser.Parser.ParseParenthesised | parser/parser.go:249-253 | from `(`: the expression up to `innerEnd`, where a parse at LOWEST stops, and whether `)` follows it, ending on `)` if so and recording the expected-`)` error if not; with no error it is complete and spells its tokens |
| Parser.Parser.ParseInfixExpression | parser/parser.go:261-273 | an infix node for the operator with the given left operand; with no error the right operand is read from the next token at the operator's precedence, stops where the next token binds no tighter than that, and spells its tokens, and the node is what the loop has read so far |
| Parser.Parser.ParseRightOperand | parser/parser.go:268-270 | moves past the operator and reads the expression there at the given precedence; with no error it is complete, the next token is `;` or binds no tighter, and it spells the tokens read |
| Parser.Parser.ParseBoolean | parser/parser.go:276-278 | a boolean node that is true exactly for TRUE |
| Parser.Parser.ParseIfExpression | parser/parser.go:281-312 | nil, with that token's error last, when `(`, `)` after the condition or `{` is missing; otherwise the consequence runs from that `{` to `consequenceEnd`, on `}` or EOF, and the result is an if node on the `if` token exactly when an `else` after it is followed by `{` (nil with the expected-`{` error last when it is not), with an alternative exactly when `else` follows; with no error it is complete and the condition spells its tokens |
| Parser.Parser.ParseIfCondition | parser/parser.go:284-293 | `(` condition `)`: a missing `(` or `)` is reported and the condition is refused; with no error it is complete, is read from the token after `(` to `conditionEnd`, where a parse at LOWEST stops, spells those tokens, and the cursor is on the `)` after them |
| Parser.Parser.ParseIfBranches | parser/parser.go:295-311 | the consequence block up to `}` or EOF, then the alternative block when `else` follows; nil, with the expected-`{` error last, exactly when `else` is not followed by `{` |
| Parser.Parser.ParseAlternative | parser/parser.go:301-309 | no alternative and nothing moved when `else` does not follow; after `else`, an alternative block starting at the next token exactly when that token is `{`, and the expected-`{` error otherwise |
| Parser.Parser.ParseFunctionLiteral | parser/parser.go:315-331 | nil plus the error when `(` is missing, or when `{` does not follow the parameter list; otherwise a literal on the `fn` token whose parameter i is the token at position 2i+1 after `(`, comma-separated, and whose body starts at the `{` after `)`; with no error it is complete, `)` ends the parameter list, and there are no parameters exactly when `)` directly follows `(` |
| Parser.Parser.ParseFunctionBody | parser/parser.go:324-330 | nil plus the expected-`{` error when `{` does not follow; otherwise the literal keeps the `fn` token and the parameters, and its body starts at that `{` and ends on `}` or EOF |
| Parser.Parser.ParseFunctionRest | parser/parser.go:322-330 | from the `(`: the parameters lie at every second token after it, comma-separated, up to `parametersEnd`; nil with the expected-`{` error last when `{` does not follow; otherwise a literal on the `fn` token whose body starts at that `{`; with no error it is complete, `)` ends the parameter list, and there are no parameters exactly when `)` directly follows `(` |
| Parser.Parser.ParseFunctionParameters | parser/parser.go:334-358 | `()` gives no parameters and no error; otherwise the tokens at every second position, separated by commas, at least one of them; empty plus the error when `)` is missing; with no error the list is empty exactly when `)` directly follows `(` |
| Parser.Parser.ParseIdentifierList | parser/parser.go:344-352 | the current token, then the token after each following comma, as identifiers |
| Parser.Parser.ParseCallExpression | parser/parser.go:361-365 | a call node on the `(` token with the given callee and the arguments of ParseCallArguments, spanned by the same comma-separated slices, where no comma follows the last slice; with no error there is one argument per slice, each spells its slice and stops where a parse at LOWEST stops, and the call is complete |
| Parser.Parser.ParseCallArguments | parser/parser.go:368-389 | `()` gives no arguments and no error; otherwise the arguments span comma-separated slices starting after `(`, each ending where a parse at LOWEST stops and no comma following the last; when `)` follows the last slice there is one argument per slice and the call ends on `)`, and when it does not the list is empty with the expected-`)` error last; with no error each argument is complete and spells its slice |
| Parser.Parser.ParseClosedArgumentList | parser/parser.go:377-388 | the arguments span comma-separated slices starting after `(`, with no comma after the last; one argument per slice and the call ends on `)` when `)` follows the last slice; otherwise the list is empty with the expected-`)` error last; with no error each argument spells its slice and stops where a parse at LOWEST stops |
| Parser.Parser.ParseArgumentList | parser/parser.go:376-383 | the first argument starts after `(`, each next one two tokens after the previous one ends, past a comma; the list stops at the first argument that no comma follows; with no error each argument spells its slice and stops where a parse at LOWEST stops |
| Parser.Parser.ParseMoreArguments | parser/parser.go:379-383 | the loop over `, <expression>`: appends one argument per comma, each starting two tokens after the previous one ends, keeps the arguments before, and stops when no comma follows; with no error each new argument spells its slice |
| Parser.Parser.ParseNextArgument | parser/parser.go:380-382 | moves past the comma to the next token and reads one argument from there; with no error it is complete and spells its tokens |
| Parser.Parser.ArgumentExtend | parser/parser.go:379-382 | an argument that starts two tokens after the last one, past a comma, extends the slices, and when it spells its slice, the readings |
| Parser.Parser.ArgumentSpansExtend | parser/parser.go:379-382 | a slice starting two tokens after the last one, past a comma, extends the comma-separated slices |
| Parser.Parser.ArgumentsSpelledExtend | parser/parser.go:379-382 | an argument that spells its slice extends a list of arguments that spell theirs |
| Parser.Parser.ParseBlockStatement | parser/parser.go:392-405 | keeps the `{` token and every statement parsed up to `}` or EOF, in source order: statement i begins at token `starts[i]`, the starts ascend from the token after `{` and none holds `}` or EOF; with no error every statement is complete |
| Object.TypeNamesDistinct | object/object.go:7-11 | the type tags are distinct strings |
| Object.TypeName | object/object.go:7-11 | the string value of each object type tag |
| Object.Type | object/object.go:22-34 | each tag belongs to exactly one kind of object |
| Object.Inspect | object/object.go:23-35 | rendering is never empty; booleans render as `true`/`false`, and `null` only for Null |
| Object.InspectIntegerRoundTrip | object/object.go:23 | an integer's text reads back as its value, with a `-` exactly for negatives |
| Object.InspectInjective | object/object.go:23-35 | different objects render differently |
| Builtins.Len | evaluator/builtins.go:18-32 | the byte length of a string or the element count of an array; the wrong-count or unsupported-type error otherwise |
| Builtins.Push | evaluator/builtins.go:34-50 | a new array of the old elements followed by the new one; the wrong-count or must-be-ARRAY error otherwise |
| Builtins.PushElements | evaluator/builtins.go:44-49 | the copy-back writes the original's own values, so the original is unchanged and the fresh array equals `Push`'s result |
| Builtins.LenOfPush | evaluator/builtins.go:18-50 | `len` of `push(a, v)` is one more than `len(a)` |
| Builtins.Spit | evaluator/builtins.go:10-16 | returns nil for every argument list |
| Builtins.WrongArgumentCount | evaluator/builtins.go:21-37 | `wrong number of arguments. got=<n>, want=<m>`, with both numbers in decimal |
| Builtins.Lookup | evaluator/builtins.go:9-52 | exactly `len`, `push` and `spit` are registered |
| Builtins.Call | evaluator/builtins.go:9-52 | each name runs its own function; only `spit` returns nil |

## Left out

- The evaluator, apart from its builtins table, is not part of this model. Neither are the REPL, `main` or the syntax tree's `String` methods.
- `spit` prints each argument's rendering. That output is I/O and is left out; only its nil result is modelled.
- Input, literals and String objects are sequences of bytes, written as `char` values below 256. The one place Unicode enters is Go's `string(ch)` in `NewToken`, which turns a byte from 0x80 on into its two-byte UTF-8 encoding; the model writes that encoding out (`Token.EncodeByte`). For an identifier or number literal, which only ever holds ASCII bytes, the literal is the input slice itself.
- Integer objects hold an unbounded `int` rather than a Go `int64`. The only builtin that creates integers is `len`, and its results are lengths.
- Strconv.ParseInt: models `strconv.ParseInt(s, 0, 64)` only on strings of decimal digits. Those are the only literals the lexer produces, so hex, binary and sign prefixes never reach it.
- The String, Array and Error objects and `newError` are defined outside the files of this model. They appear only as far as the builtins need them, with `newError` as an Error object holding the formatted message.
- The Builtin and Function objects are not part of this model: `Object` has no variant for them, so `len(len)` or `push(fn(x){x}, 1)` cannot be written. Go answers both with the unsupported-type error naming the argument's tag (evaluator/builtins.go:29-30, 40-41); those tags are defined outside the files of this model.
- Parser.Parser.constructor: the parser holds the lexer's finished token stream (`Lexer.Tokens`) instead of a reference to a live lexer. `Lexer.TokensAreTheStream` connects the two.
- Parser.Parser.SkipToSemicolon: the endless loop at the end of input is modelled as the `hang` flag plus an exit. What the model returns after a hang is never returned by the Go code.
- Parser.Parser.ParseIfBranches: states only that the error list never shrinks, not that it grows by at most one message. The same holds for the other parse methods that report errors of nested parses.
- Parser.Parser.ParseProgram: states where each statement begins and that the starts ascend, not that each statement ends right before the next begins.
- Parser.Parser.ParseBlockStatement: likewise states where each statement of the block begins and that the starts ascend, not that each statement ends right before the next begins.
- Parser.Parser.ParseIfExpression: states where each block begins and that it ends on `}` or EOF, but not where the statements inside the blocks begin; that is ParseBlockStatement's contract. The same holds for ParseFunctionLiteral and its body.
- Parser.Parser.ParseExpression: with no error, the stop condition holds for every expression. The other two parts of the precedence claim (`Spells`) cover only runs of operands, `!`, `-` and binary operators. Suppose a `(`, `if` or `fn` comes before the token that closes the run: a grouped expression, an `if`, a function literal or a call. Then they say nothing about where the expression ends or which tree it is.
- Builtins.Len: the argument list is a `seq<Object>`, which cannot hold Go's nil. In Go a nil argument, such as the result of `spit` in `len(spit())`, falls to the default case and panics calling `Type()` on nil (evaluator/builtins.go:29-30); the model has no such input.
- Builtins.Push: likewise, a nil first argument, as in `push(spit(), 1)`, panics in Go at evaluator/builtins.go:40, and the model cannot express it.
- Builtins.PushElements: models `push` on a backing array that is not shared. The aliasing between `arr.Elements` and the appended slice, when its capacity allows, is not modelled; the element values written are the same either way.
- Some Go functions are split into several methods so that each can be proved on its own:
  - `parseLetStatement` into ParseLetStatement, ParseLetName (from the name on), ParseLetValue (from `=` on), ParseValue (the value) and SkipToSemicolon (the closing loop); `parseReturnStatement` reads its value with ParseValue too;
  - the loop of `parseExpression` into ParseOperators;
  - the right operand of `parseInfixExpression` into ParseRightOperand;
  - `parseIfExpression` into ParseIfExpression, ParseIfCondition, ParseIfBranches and ParseAlternative;
  - the `( <expression> )` steps shared by `parseGroupedExpression` and `parseIfExpression` into ParseParenthesised;
  - `parseFunctionLiteral` into ParseFunctionLiteral, ParseFunctionRest and ParseFunctionBody;
  - the loop of `parseFunctionParameters` into ParseIdentifierList;
  - `parseCallArguments` into ParseCallArguments, ParseClosedArgumentList (the part after the first argument begins), ParseArgumentList, ParseMoreArguments (the loop over commas) and ParseNextArgument (one turn of it);
  - the map lookups of `parseExpression` into ApplyPrefixRule and ApplyInfixRule, with one method for the leaf rules (ApplyLeafRule), one for the prefix operators (ApplyPrefixOperatorRule), one per compound prefix rule (ApplyGroupedRule, ApplyIfRule, ApplyFunctionLiteralRule) and per infix rule (ApplyOperatorRule, ApplyCallRule).
- The `curTokenIs`, `peekTokenIs`, `peakPrecedence` and `curPrecedence` helpers are inlined. `registerPrefix` and `registerInfix` become the tables `PrefixParseFn` and `InfixParseFn`.
- `Token.FromName` is an inverse added to state that token type names are distinct; the Go code has no such function.
