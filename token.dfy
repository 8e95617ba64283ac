/** Tokens: a (type, literal) pair, the closed set of token types, and the
    keyword table that separates keywords from identifiers. */
module Token {
  import opened Common

  /** The token types: one number per Go string constant, each named as in Go.
      Name gives the string a constant stands for; the constants are pairwise
      distinct strings (NameRoundTrip), so distinct numbers here are distinct
      constants there and comparing token types means the same in both. */
  newtype TokenType = x: int | 0 <= x < 27
  const ILLEGAL: TokenType := 0
  const EOF: TokenType := 1
  const IDENT: TokenType := 2
  const INT: TokenType := 3
  const ASSIGN: TokenType := 4
  const PLUS: TokenType := 5
  const MINUS: TokenType := 6
  const BANG: TokenType := 7
  const ASTERISK: TokenType := 8
  const SLASH: TokenType := 9
  const LT: TokenType := 10
  const GT: TokenType := 11
  const EQ: TokenType := 12
  const NOT_EQ: TokenType := 13
  const COMMA: TokenType := 14
  const SEMICOLON: TokenType := 15
  const LPAREN: TokenType := 16
  const RPAREN: TokenType := 17
  const LBRACE: TokenType := 18
  const RBRACE: TokenType := 19
  const FUNCTION: TokenType := 20
  const LET: TokenType := 21
  const IF: TokenType := 22
  const ELSE: TokenType := 23
  const RETURN: TokenType := 24
  const TRUE: TokenType := 25
  const FALSE: TokenType := 26

  datatype Token = Token(tokenType: TokenType, literal: string)

  /** The string value of each TokenType constant; error messages print it. */
  function Name(t: TokenType): string {
    if t == ILLEGAL then "ILLEGAL"
    else if t == EOF then "EOF"
    else if t == IDENT then "IDENT"
    else if t == INT then "INT"
    else if t == ASSIGN then "="
    else if t == PLUS then "+"
    else if t == MINUS then "-"
    else if t == BANG then "!"
    else if t == ASTERISK then "*"
    else if t == SLASH then "/"
    else if t == LT then "<"
    else if t == GT then ">"
    else if t == EQ then "=="
    else if t == NOT_EQ then "!="
    else if t == COMMA then ","
    else if t == SEMICOLON then ";"
    else if t == LPAREN then "("
    else if t == RPAREN then ")"
    else if t == LBRACE then "{"
    else if t == RBRACE then "}"
    else if t == FUNCTION then "FUNCTION"
    else if t == LET then "LET"
    else if t == IF then "IF"
    else if t == ELSE then "ELSE"
    else if t == RETURN then "RETURN"
    else if t == TRUE then "TRUE"
    else "FALSE"
  }

  /** The token type whose string value is `s`, if any. */
  function FromName(s: string): Option<TokenType> {
    match s
    case "ILLEGAL" => Some(ILLEGAL)
    case "EOF" => Some(EOF)
    case "IDENT" => Some(IDENT)
    case "INT" => Some(INT)
    case "=" => Some(ASSIGN)
    case "+" => Some(PLUS)
    case "-" => Some(MINUS)
    case "!" => Some(BANG)
    case "*" => Some(ASTERISK)
    case "/" => Some(SLASH)
    case "<" => Some(LT)
    case ">" => Some(GT)
    case "==" => Some(EQ)
    case "!=" => Some(NOT_EQ)
    case "," => Some(COMMA)
    case ";" => Some(SEMICOLON)
    case "(" => Some(LPAREN)
    case ")" => Some(RPAREN)
    case "{" => Some(LBRACE)
    case "}" => Some(RBRACE)
    case "FUNCTION" => Some(FUNCTION)
    case "LET" => Some(LET)
    case "IF" => Some(IF)
    case "ELSE" => Some(ELSE)
    case "RETURN" => Some(RETURN)
    case "TRUE" => Some(TRUE)
    case "FALSE" => Some(FALSE)
    case _ => None
  }

  /** Reading a type's printed name back gives the type. */
  lemma NameRoundTrip(a: TokenType)
    ensures FromName(Name(a)) == Some(a)
  {
  }

  /** The constants are pairwise distinct strings, so a printed type names one type. */
  lemma NameInjective(a: TokenType, b: TokenType)
    ensures Name(a) == Name(b) ==> a == b
  {
    NameRoundTrip(a);
    NameRoundTrip(b);
  }

  /** The keyword table: the seven reserved words and their types. */
  const Keywords: map<string, TokenType> := map[
    "fn" := FUNCTION,
    "let" := LET,
    "if" := IF,
    "else" := ELSE,
    "return" := RETURN,
    "true" := TRUE,
    "false" := FALSE
  ]

  predicate IsKeywordType(t: TokenType) {
    t == FUNCTION || t == LET || t == IF || t == ELSE || t == RETURN || t == TRUE || t == FALSE
  }

  /** Distinct keywords have distinct types, and every keyword type has exactly one spelling. */
  lemma KeywordsInjective(a: string, b: string)
    requires a in Keywords && b in Keywords
    ensures Keywords[a] == Keywords[b] ==> a == b
    ensures IsKeywordType(Keywords[a])
  {
  }

  /** Classifies a run of letters: its keyword type, or IDENT. */
  function LookUpIndent(ident: string): (t: TokenType)
    ensures t == IDENT <==> ident !in {"fn", "let", "if", "else", "return", "true", "false"}
    ensures t == IDENT || IsKeywordType(t)
    ensures ident == "fn" ==> t == FUNCTION
    ensures ident == "let" ==> t == LET
    ensures ident == "if" ==> t == IF
    ensures ident == "else" ==> t == ELSE
    ensures ident == "return" ==> t == RETURN
    ensures ident == "true" ==> t == TRUE
    ensures ident == "false" ==> t == FALSE
  {
    if ident in Keywords then Keywords[ident] else IDENT
  }

  /** The UTF-8 encoding of the code point `b`, which is what Go's `string(b)` gives
      for a byte: the byte itself below 0x80, a two-byte sequence from 0x80 on. */
  function EncodeByte(b: Byte): (s: seq<Byte>)
    ensures b as int < 0x80 ==> s == [b]
    ensures b as int >= 0x80 ==> |s| == 2 && forall i :: 0 <= i < 2 ==> s[i] as int >= 0x80
  {
    if b as int < 0x80 then [b]
    else [(0xC0 + b as int / 64) as char, (0x80 + b as int % 64) as char]
  }

  /** Decodes a one- or two-byte UTF-8 sequence whose code point is below 256. */
  function DecodeByte(s: string): Option<Byte> {
    if |s| == 1 && s[0] as int < 0x80 then Some(s[0])
    else if |s| == 2 && 0xC2 <= s[0] as int <= 0xC3 && 0x80 <= s[1] as int < 0xC0 then
      Some(((s[0] as int - 0xC0) * 64 + (s[1] as int - 0x80)) as char)
    else None
  }

  /** Decoding undoes the encoding, so distinct bytes give distinct literals. */
  lemma EncodeByteRoundTrip(b: Byte)
    ensures DecodeByte(EncodeByte(b)) == Some(b)
  {
    if b as int >= 0x80 {
      var s := EncodeByte(b);
      assert (s[0] as int - 0xC0) * 64 + (s[1] as int - 0x80) == b as int;
    }
  }

  /** A token whose literal is `string(ch)`: the byte, UTF-8 encoded as a code point. */
  function NewToken(tokenType: TokenType, ch: Byte): (tok: Token)
    ensures tok.tokenType == tokenType && DecodeByte(tok.literal) == Some(ch)
    ensures ch as int < 0x80 ==> tok.literal == [ch]
    ensures 0 < |tok.literal| <= 2
  {
    EncodeByteRoundTrip(ch);
    Token(tokenType, EncodeByte(ch))
  }

  /** The `k`-th token a source hands out when it repeats its last token forever
      (the lexer's behaviour once the input is exhausted). */
  function TokenAt(ts: seq<Token>, k: nat): Token
    requires |ts| > 0
  {
    if k < |ts| then ts[k] else ts[|ts| - 1]
  }
}
