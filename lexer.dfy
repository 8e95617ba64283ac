/** The byte-level lexer: a cursor over the input that hands out one token per
    NextToken call. The functions at the top say, for a cursor position, which
    token the next call returns and where the cursor ends up; the class below
    is the lexer itself, proved to follow them. */
module Lexer {
  import opened Common
  import opened Token

  /** The byte at `i`, or NUL past the end of the input (what readChar stores there). */
  function CharAt(input: seq<Byte>, i: nat): Byte {
    if i < |input| then input[i] else NUL
  }

  predicate IsLetter(c: char) {
    ('a' <= c <= 'z') || ('A' <= c <= 'Z') || c == '_'
  }

  predicate IsWhitespace(c: char) {
    c == ' ' || c == '\t' || c == '\n' || c == '\r'
  }

  /** The two kinds of run the lexer reads to their end. */
  datatype RunClass = Letters | Digits

  predicate InClass(c: char, cls: RunClass) {
    match cls
    case Letters => IsLetter(c)
    case Digits => IsDigit(c)
  }

  /** The first position at or after `i` that does not hold whitespace. */
  function SkipWhitespace(input: seq<Byte>, i: nat): (j: nat)
    ensures i <= j
    ensures forall k :: i <= k < j ==> IsWhitespace(CharAt(input, k))
    ensures !IsWhitespace(CharAt(input, j))
    ensures i <= |input| ==> j <= |input|
    decreases |input| - i
  {
    if IsWhitespace(CharAt(input, i)) then SkipWhitespace(input, i + 1) else i
  }

  /** The end of the maximal run of `cls` characters that starts at `i`. */
  function RunEnd(input: seq<Byte>, i: nat, cls: RunClass): (j: nat)
    ensures i <= j
    ensures forall k :: i <= k < j ==> InClass(CharAt(input, k), cls)
    ensures !InClass(CharAt(input, j), cls)
    ensures i <= |input| ==> j <= |input|
    decreases |input| - i
  {
    if InClass(CharAt(input, i), cls) then RunEnd(input, i + 1, cls) else i
  }

  /** The token NextToken returns when the cursor is at `pos`, and the cursor
      position after the call. */
  function Lex(input: seq<Byte>, pos: nat): (r: (Token, nat))
    ensures pos < r.1
    ensures SkipWhitespace(input, pos) < |input| ==> r.1 <= |input|
  {
    var p := SkipWhitespace(input, pos);
    var c := CharAt(input, p);
    match c
    case '=' =>
      if CharAt(input, p + 1) == '=' then (Token(EQ, "=="), p + 2) else (NewToken(ASSIGN, c), p + 1)
    case '+' => (NewToken(PLUS, c), p + 1)
    case '-' => (NewToken(MINUS, c), p + 1)
    case '*' => (NewToken(ASTERISK, c), p + 1)
    case '/' => (NewToken(SLASH, c), p + 1)
    case '!' =>
      if CharAt(input, p + 1) == '=' then (Token(NOT_EQ, "!="), p + 2) else (NewToken(BANG, c), p + 1)
    case '<' => (NewToken(LT, c), p + 1)
    case '>' => (NewToken(GT, c), p + 1)
    case ',' => (NewToken(COMMA, c), p + 1)
    case ';' => (NewToken(SEMICOLON, c), p + 1)
    case '(' => (NewToken(LPAREN, c), p + 1)
    case ')' => (NewToken(RPAREN, c), p + 1)
    case '{' => (NewToken(LBRACE, c), p + 1)
    case '}' => (NewToken(RBRACE, c), p + 1)
    case '\0' => (Token(EOF, ""), p + 1)
    case _ =>
      if IsLetter(c) then
        var e := RunEnd(input, p, Letters);
        (Token(LookUpIndent(input[p..e]), input[p..e]), e)
      else if IsDigit(c) then
        var e := RunEnd(input, p, Digits);
        (Token(INT, input[p..e]), e)
      else
        (NewToken(ILLEGAL, c), p + 1)
  }

  /** Whitespace before a token is skipped, and no literal contains whitespace. */
  lemma LexSkipsWhitespace(input: seq<Byte>, pos: nat)
    ensures forall k :: pos <= k < SkipWhitespace(input, pos) ==> IsWhitespace(CharAt(input, k))
    ensures var literal := Lex(input, pos).0.literal;
            forall i :: 0 <= i < |literal| ==> !IsWhitespace(literal[i])
  {
    var p := SkipWhitespace(input, pos);
    var c := CharAt(input, p);
    if IsLetter(c) {
      var e := RunEnd(input, p, Letters);
      forall i | 0 <= i < e - p ensures !IsWhitespace(input[p..e][i]) {
        assert input[p..e][i] == CharAt(input, p + i);
      }
    } else if IsDigit(c) {
      var e := RunEnd(input, p, Digits);
      forall i | 0 <= i < e - p ensures !IsWhitespace(input[p..e][i]) {
        assert input[p..e][i] == CharAt(input, p + i);
      }
    }
  }

  /** EOF comes exactly from a NUL byte (or the end of the input) and has an empty
      literal. Every other token has a non-empty literal; when it starts with an
      ASCII byte, the literal is the slice of the input between where the token
      starts and where the cursor ends up. (A byte from 0x80 on is an ILLEGAL token
      whose literal is its UTF-8 encoding: see LexIllegal.) */
  lemma LexLiteralIsSlice(input: seq<Byte>, pos: nat)
    ensures var (tok, next) := Lex(input, pos);
            var start := SkipWhitespace(input, pos);
            (tok.tokenType == EOF <==> CharAt(input, start) == NUL)
            && (tok.tokenType == EOF ==> tok.literal == "" && next == start + 1)
            && (tok.tokenType != EOF ==> start < next <= |input| && |tok.literal| > 0)
            && (tok.tokenType != EOF && CharAt(input, start) as int < 0x80 ==> tok.literal == input[start..next])
  {
    var p := SkipWhitespace(input, pos);
    var c := CharAt(input, p);
    if c == '=' || c == '!' {
      if CharAt(input, p + 1) == '=' {
        assert input[p..p + 2] == [c, '='];
        assert Lex(input, pos).0.literal == [c, '='];
      } else {
        assert input[p..p + 1] == [c];
      }
    }
  }

  /** `==` and `!=` are single two-character tokens; a lone `=` or `!` is ASSIGN or BANG. */
  lemma LexTwoCharOperators(input: seq<Byte>, pos: nat)
    ensures var (tok, next) := Lex(input, pos);
            var start := SkipWhitespace(input, pos);
            (CharAt(input, start) == '=' && CharAt(input, start + 1) == '=' ==> tok == Token(EQ, "==") && next == start + 2)
            && (CharAt(input, start) == '=' && CharAt(input, start + 1) != '=' ==> tok == Token(ASSIGN, "=") && next == start + 1)
            && (CharAt(input, start) == '!' && CharAt(input, start + 1) == '=' ==> tok == Token(NOT_EQ, "!=") && next == start + 2)
            && (CharAt(input, start) == '!' && CharAt(input, start + 1) != '=' ==> tok == Token(BANG, "!") && next == start + 1)
  {
  }

  /** A token that starts with a letter is the maximal run of letters there,
      classified by the keyword table; one that starts with a digit is the maximal
      run of digits, of type INT. The byte after the run is never of the same class. */
  lemma LexMaximalRuns(input: seq<Byte>, pos: nat)
    ensures var (tok, next) := Lex(input, pos);
            var start := SkipWhitespace(input, pos);
            (IsLetter(CharAt(input, start)) ==>
               |tok.literal| > 0 && (forall i :: 0 <= i < |tok.literal| ==> IsLetter(tok.literal[i]))
               && tok.tokenType == LookUpIndent(tok.literal) && !IsLetter(CharAt(input, next)))
            && (IsDigit(CharAt(input, start)) ==>
               |tok.literal| > 0 && AllDigits(tok.literal) && tok.tokenType == INT && !IsDigit(CharAt(input, next)))
  {
    var p := SkipWhitespace(input, pos);
    var c := CharAt(input, p);
    if IsLetter(c) {
      var e := RunEnd(input, p, Letters);
      forall i | 0 <= i < e - p ensures IsLetter(input[p..e][i]) {
        assert input[p..e][i] == CharAt(input, p + i);
      }
    } else if IsDigit(c) {
      var e := RunEnd(input, p, Digits);
      forall i | 0 <= i < e - p ensures IsDigit(input[p..e][i]) {
        assert input[p..e][i] == CharAt(input, p + i);
      }
    }
  }

  /** The bytes that begin a token of their own: operators, delimiters and NUL. */
  predicate IsTokenByte(c: char) {
    c in "=+-*/!<>,;(){}" || c == NUL
  }

  /** Any other byte that is neither a letter nor a digit is ILLEGAL, and the cursor
      moves exactly one byte past it. The literal is `string(c)`: the byte itself
      below 0x80, its two-byte UTF-8 encoding from 0x80 on; either way it decodes
      back to the byte. */
  lemma LexIllegal(input: seq<Byte>, pos: nat)
    ensures var (tok, next) := Lex(input, pos);
            var start := SkipWhitespace(input, pos);
            var c := CharAt(input, start);
            !IsTokenByte(c) && !IsLetter(c) && !IsDigit(c) ==>
              tok == Token(ILLEGAL, EncodeByte(c)) && DecodeByte(tok.literal) == Some(c)
              && (c as int < 0x80 ==> tok.literal == [c])
              && next == start + 1 && start < |input|
  {
  }

  /** The token handed out by the (k+1)-th NextToken call from cursor position `pos`. */
  function NthToken(input: seq<Byte>, pos: nat, k: nat): Token
    decreases k
  {
    var (tok, next) := Lex(input, pos);
    if k == 0 then tok else NthToken(input, next, k - 1)
  }

  /** Once only whitespace is left, every call returns `{EOF, ""}`, on this and every later call. */
  lemma {:induction false} ExhaustedForever(input: seq<Byte>, pos: nat, k: nat)
    requires SkipWhitespace(input, pos) >= |input|
    ensures NthToken(input, pos, k) == Token(EOF, "")
    decreases k
  {
    var (tok, next) := Lex(input, pos);
    if k > 0 {
      assert SkipWhitespace(input, next) == next;
      ExhaustedForever(input, next, k - 1);
    }
  }

  /** The whole token stream from `pos`: every token up to and including the EOF
      that is returned at the end of the input. */
  function Tokens(input: seq<Byte>, pos: nat): (ts: seq<Token>)
    ensures |ts| >= 1 && ts[|ts| - 1] == Token(EOF, "")
    decreases |input| - pos
  {
    var (tok, next) := Lex(input, pos);
    if SkipWhitespace(input, pos) >= |input| then [tok] else [tok] + Tokens(input, next)
  }

  /** The stream is what the lexer hands out: the k-th call returns the k-th token,
      and every call after the last one returns that final EOF again. */
  lemma {:induction false} TokensAreTheStream(input: seq<Byte>, pos: nat, k: nat)
    ensures NthToken(input, pos, k) == TokenAt(Tokens(input, pos), k)
    decreases k
  {
    var (tok, next) := Lex(input, pos);
    if SkipWhitespace(input, pos) >= |input| {
      ExhaustedForever(input, pos, k);
    } else if k > 0 {
      TokensAreTheStream(input, next, k - 1);
    }
  }

  /** A NUL byte inside the input yields EOF, but the cursor moves past it and
      the next call goes on lexing what follows: only the end of the input makes
      EOF repeat. */
  lemma NulInsideInputIsNotTheEnd(input: seq<Byte>, pos: nat)
    requires SkipWhitespace(input, pos) < |input| && input[SkipWhitespace(input, pos)] == NUL
    ensures Tokens(input, pos) == [Token(EOF, "")] + Tokens(input, SkipWhitespace(input, pos) + 1)
  {
  }

  /** An instance of NulInsideInputIsNotTheEnd: `"\0x"` lexes as EOF, `x`, EOF. */
  lemma NulInsideInputExample()
    ensures Tokens("\0x", 0) == [Token(EOF, ""), Token(IDENT, "x"), Token(EOF, "")]
  {
    var input: seq<Byte> := "\0x";
    assert SkipWhitespace(input, 0) == 0;
    assert Lex(input, 0) == (Token(EOF, ""), 1);
    assert SkipWhitespace(input, 1) == 1;
    assert RunEnd(input, 2, Letters) == 2;
    assert RunEnd(input, 1, Letters) == 2;
    assert input[1..2] == "x";
    assert Lex(input, 1) == (Token(IDENT, "x"), 2);
    assert SkipWhitespace(input, 2) == 2;
    assert Tokens(input, 2) == [Token(EOF, "")];
  }

  /** The lexer's state: the input, the cursor (`position`, `readPosition`)
      and the byte under the cursor. */
  class Lexer {
    const input: seq<Byte>
    var position: nat
    var readPosition: nat
    var ch: Byte

    /** `readPosition` is always one past `position`, and `ch` is the byte there. */
    ghost predicate Valid()
      reads this
    {
      readPosition == position + 1 && ch == CharAt(input, position)
    }

    /** A lexer over `input` with the first byte read. */
    constructor (input: seq<Byte>)
      ensures Valid() && this.input == input
      ensures position == 0 && ch == (if |input| == 0 then NUL else input[0])
    {
      this.input := input;
      position, readPosition, ch := 0, 0, NUL;
      new;
      ReadChar();
    }

    /** Moves the cursor one byte on; past the end of the input the byte is NUL. */
    method ReadChar()
      modifies this`position, this`readPosition, this`ch
      ensures position == old(readPosition) && readPosition == old(readPosition) + 1
      ensures ch == CharAt(input, old(readPosition))
      ensures Valid()
    {
      if readPosition >= |input| {
        ch := NUL;
      } else {
        ch := input[readPosition];
      }
      position := readPosition;
      readPosition := readPosition + 1;
    }

    /** The byte after the current one, without moving the cursor. */
    method PeakChar() returns (c: Byte)
      requires Valid()
      ensures c == CharAt(input, position + 1)
    {
      if readPosition >= |input| {
        return NUL;
      }
      return input[readPosition];
    }

    /** Reads the run of letters under the cursor and returns it. */
    method ReadIdentifier() returns (s: string)
      requires Valid() && position <= |input|
      modifies this`position, this`readPosition, this`ch
      ensures Valid()
      ensures position == RunEnd(input, old(position), Letters)
      ensures s == input[old(position)..position]
    {
      var start := position;
      while IsLetter(ch)
        invariant Valid() && start <= position <= |input|
        invariant RunEnd(input, position, Letters) == RunEnd(input, start, Letters)
        decreases |input| - position
      {
        ReadChar();
      }
      s := input[start..position];
    }

    /** Reads the run of digits under the cursor and returns it. */
    method ReadNumber() returns (s: string)
      requires Valid() && position <= |input|
      modifies this`position, this`readPosition, this`ch
      ensures Valid()
      ensures position == RunEnd(input, old(position), Digits)
      ensures s == input[old(position)..position]
    {
      var start := position;
      while IsDigit(ch)
        invariant Valid() && start <= position <= |input|
        invariant RunEnd(input, position, Digits) == RunEnd(input, start, Digits)
        decreases |input| - position
      {
        ReadChar();
      }
      s := input[start..position];
    }

    /** Moves the cursor past spaces, tabs, newlines and carriage returns. */
    method EatWhitespace()
      requires Valid()
      modifies this`position, this`readPosition, this`ch
      ensures Valid()
      ensures position == SkipWhitespace(input, old(position))
    {
      while IsWhitespace(ch)
        invariant Valid()
        invariant SkipWhitespace(input, position) == SkipWhitespace(input, old(position))
        decreases |input| - position
      {
        ReadChar();
      }
    }

    /** Returns the next token and moves the cursor past it. */
    method NextToken() returns (tok: Token)
      requires Valid()
      modifies this`position, this`readPosition, this`ch
      ensures Valid()
      ensures (tok, position) == Lex(input, old(position))
    {
      EatWhitespace();
      match ch {
      case '=' =>
        var next := PeakChar();
        if next == '=' {
          var first := ch;
          ReadChar();
          tok := Token(EQ, [first] + [ch]);
          assert tok.literal == "==";
        } else {
          tok := NewToken(ASSIGN, ch);
        }
      case '+' => tok := NewToken(PLUS, ch);
      case '-' => tok := NewToken(MINUS, ch);
      case '*' => tok := NewToken(ASTERISK, ch);
      case '/' => tok := NewToken(SLASH, ch);
      case '!' =>
        var next := PeakChar();
        if next == '=' {
          var first := ch;
          ReadChar();
          tok := Token(NOT_EQ, [first] + [ch]);
          assert tok.literal == "!=";
        } else {
          tok := NewToken(BANG, ch);
        }
      case '<' => tok := NewToken(LT, ch);
      case '>' => tok := NewToken(GT, ch);
      case ',' => tok := NewToken(COMMA, ch);
      case ';' => tok := NewToken(SEMICOLON, ch);
      case '(' => tok := NewToken(LPAREN, ch);
      case ')' => tok := NewToken(RPAREN, ch);
      case '{' => tok := NewToken(LBRACE, ch);
      case '}' => tok := NewToken(RBRACE, ch);
      case '\0' => tok := Token(EOF, "");
      case _ =>
        if IsLetter(ch) {
          var literal := ReadIdentifier();
          tok := Token(LookUpIndent(literal), literal);
          return;
        } else if IsDigit(ch) {
          var literal := ReadNumber();
          tok := Token(INT, literal);
          return;
        } else {
          tok := NewToken(ILLEGAL, ch);
        }
      }
      ReadChar();
    }
  }
}
