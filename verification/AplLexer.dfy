/**
  The lexer of the permission language, nexus/internal/apl/parser.go:10-222.

  `Lex` is what one call of NextToken returns when the lexer stands at a position; the class
  below is the lexer with the source's four fields, each method proved against these functions.
 */
module AplLexer {
  import opened Bytes

  datatype TokenType =
    | EOF | Ident | Str | Class | Implements | Namespace | This | Ctx | Subject | Related
    | Permits | Includes | Traverse | LBrace | RBrace | LParen | RParen | LBracket | RBracket
    | Colon | Semicolon | Comma | Equal | Arrow | Dot | OrOr | AndAnd | Error

  datatype Token = Token(kind: TokenType, literal: bytes)

  const ZERO_TOKEN := Token(EOF, [])

  /** The byte under the cursor: zero at and beyond the end of the input. */
  function At(s: bytes, p: nat): byte {
    if p < |s| then s[p] else NUL
  }

  predicate IsBlank(c: byte) {
    c == ' ' || c == '\t' || c == '\n' || c == '\r'
  }

  predicate IsLetter(c: byte) {
    'a' <= c <= 'z' || 'A' <= c <= 'Z' || c == '_'
  }

  predicate IsDigit(c: byte) {
    '0' <= c <= '9'
  }

  predicate OpensComment(s: bytes, p: nat) {
    At(s, p) == '/' && (At(s, p + 1) == '/' || At(s, p + 1) == '*')
  }

  function SkipBlanks(s: bytes, p: nat): (q: nat)
    ensures p <= q && (q == p || q <= |s|) && !IsBlank(At(s, q))
    decreases |s| - p
  {
    if IsBlank(At(s, p)) then SkipBlanks(s, p + 1) else p
  }

  function LineEnd(s: bytes, p: nat): (q: nat)
    ensures p <= q && (q == p || q <= |s|)
    decreases |s| - p
  {
    if At(s, p) != '\n' && At(s, p) != NUL then LineEnd(s, p + 1) else p
  }

  predicate ClosesBlock(s: bytes, p: nat) {
    At(s, p) == '*' && At(s, p + 1) == '/'
  }

  function BlockEnd(s: bytes, p: nat): (q: nat)
    ensures p <= q && (q == p || q <= |s|)
    decreases |s| - p
  {
    if !ClosesBlock(s, p) && At(s, p) != NUL then BlockEnd(s, p + 1) else p
  }

  function SkipComments(s: bytes, p: nat): (q: nat)
    ensures p <= q
    decreases |s| - p
  {
    if !OpensComment(s, p) then p
    else if At(s, p + 1) == '/' then SkipComments(s, SkipBlanks(s, LineEnd(s, p)))
    else SkipComments(s, SkipBlanks(s, BlockEnd(s, p + 2) + 2))
  }

  function Skip(s: bytes, p: nat): (q: nat)
    ensures p <= q
  {
    SkipComments(s, SkipBlanks(s, p))
  }

  function IdentEnd(s: bytes, p: nat): (q: nat)
    ensures p <= q && (q == p || q <= |s|)
    decreases |s| - p
  {
    if IsLetter(At(s, p)) || IsDigit(At(s, p)) then IdentEnd(s, p + 1) else p
  }

  function StringEnd(s: bytes, p: nat, quote: byte): (q: nat)
    ensures p <= q && (q == p || q <= |s|)
    decreases |s| - p
  {
    if At(s, p) == quote || At(s, p) == NUL then p else StringEnd(s, p + 1, quote)
  }

  function LookupIdent(ident: bytes): TokenType {
    if ident == "class" then Class
    else if ident == "implements" then Implements
    else if ident == "Namespace" then Namespace
    else if ident == "this" then This
    else if ident == "ctx" then Ctx
    else if ident == "subject" then Subject
    else if ident == "related" then Related
    else if ident == "permits" then Permits
    else if ident == "includes" then Includes
    else if ident == "traverse" then Traverse
    else Ident
  }

  /** Go's string(b) for a byte b: the UTF-8 encoding of the code point b. */
  function ByteString(c: byte): bytes {
    if c as int < 0x80 then [c]
    else [(0xC0 + c as int / 64) as char, (0x80 + c as int % 64) as char]
  }

  function Single(c: byte): Option<TokenType> {
    match c
    case '{' => Some(LBrace)
    case '}' => Some(RBrace)
    case '(' => Some(LParen)
    case ')' => Some(RParen)
    case '[' => Some(LBracket)
    case ']' => Some(RBracket)
    case ':' => Some(Colon)
    case ';' => Some(Semicolon)
    case ',' => Some(Comma)
    case '.' => Some(Dot)
    case _ => None
  }

  predicate IsQuote(c: byte) {
    c == '\'' || c == '"' || c == '`'
  }

  /** The token read at q, the first byte after blanks and comments, and the position after it. */
  function LexAt(s: bytes, q: nat): (r: (Token, nat))
    ensures r.1 > q
    ensures r.0.kind != EOF ==> q < |s|
  {
    var c := At(s, q);
    if Single(c).Some? then (Token(Single(c).value, ByteString(c)), q + 1)
    else if c == '=' then
      if At(s, q + 1) == '>' then (Token(Arrow, "=>"), q + 2) else (Token(Equal, "="), q + 1)
    else if c == '|' then
      if At(s, q + 1) == '|' then (Token(OrOr, "||"), q + 2) else (Token(Error, "|"), q + 1)
    else if c == '&' then
      if At(s, q + 1) == '&' then (Token(AndAnd, "&&"), q + 2) else (Token(Error, "&"), q + 1)
    else if IsQuote(c) then
      var e := StringEnd(s, q + 1, c);
      (Token(Str, s[q + 1..e]), e + 1)
    else if c == NUL then (Token(EOF, ""), q + 1)
    else if IsLetter(c) then
      var e := IdentEnd(s, q);
      (Token(LookupIdent(s[q..e]), s[q..e]), e)
    else (Token(Error, ByteString(c)), q + 1)
  }

  function Lex(s: bytes, p: nat): (r: (Token, nat))
    ensures r.1 > p
    ensures r.0.kind != EOF ==> p < |s|
  {
    LexAt(s, Skip(s, p))
  }

  class Lexer {
    const input: bytes
    var position: nat
    var readPosition: nat
    var ch: byte

    predicate Valid()
      reads this
    {
      readPosition == position + 1 && ch == At(input, position)
    }

    constructor (input: bytes)
      ensures Valid() && this.input == input && position == 0
    {
      this.input := input;
      position, readPosition, ch := 0, 0, NUL;
      new;
      ReadChar();
    }

    method ReadChar()
      modifies this
      ensures Valid() && position == old(readPosition)
    {
      if readPosition >= |input| {
        ch := NUL;
      } else {
        ch := input[readPosition];
      }
      position := readPosition;
      readPosition := readPosition + 1;
    }

    function PeekChar(): (c: byte)
      requires Valid()
      reads this
      ensures c == At(input, position + 1)
    {
      if readPosition >= |input| then NUL else input[readPosition]
    }

    method SkipBlankRun()
      requires Valid()
      modifies this
      ensures Valid() && position == SkipBlanks(input, old(position))
    {
      while IsBlank(ch)
        invariant Valid() && SkipBlanks(input, position) == SkipBlanks(input, old(position))
        decreases |input| - position
      {
        ReadChar();
      }
    }

    method SkipLineComment()
      requires Valid()
      modifies this
      ensures Valid() && position == LineEnd(input, old(position))
    {
      while ch != '\n' && ch != NUL
        invariant Valid() && LineEnd(input, position) == LineEnd(input, old(position))
        decreases |input| - position
      {
        ReadChar();
      }
    }

    method SkipBlockComment()
      requires Valid()
      modifies this
      ensures Valid() && position == BlockEnd(input, old(position) + 2) + 2
    {
      ReadChar();
      ReadChar();
      while !(ch == '*' && PeekChar() == '/') && ch != NUL
        invariant Valid() && BlockEnd(input, position) == BlockEnd(input, old(position) + 2)
        decreases |input| - position
      {
        ReadChar();
      }
      ReadChar();
      ReadChar();
    }

    method SkipWhitespace()
      requires Valid()
      modifies this
      ensures Valid() && position == Skip(input, old(position))
    {
      SkipBlankRun();
      while ch == '/' && (PeekChar() == '/' || PeekChar() == '*')
        invariant Valid() && SkipComments(input, position) == Skip(input, old(position))
        decreases |input| - position
      {
        if PeekChar() == '/' {
          SkipLineComment();
        } else {
          SkipBlockComment();
        }
        SkipBlankRun();
      }
    }

    method ReadIdentifier() returns (ident: bytes)
      requires Valid() && position < |input|
      modifies this
      ensures Valid() && position == IdentEnd(input, old(position))
      ensures ident == input[old(position)..position]
    {
      var start := position;
      while IsLetter(ch) || IsDigit(ch)
        invariant Valid() && start <= position <= |input|
        invariant IdentEnd(input, position) == IdentEnd(input, start)
        decreases |input| - position
      {
        ReadChar();
      }
      ident := input[start..position];
    }

    method ReadString(quote: byte) returns (content: bytes)
      requires Valid() && position < |input|
      modifies this
      ensures Valid() && position == StringEnd(input, old(position) + 1, quote)
      ensures content == input[old(position) + 1..position]
    {
      var start := position + 1;
      ReadChar();
      while !(ch == quote || ch == NUL)
        invariant Valid() && start <= position <= |input|
        invariant StringEnd(input, position, quote) == StringEnd(input, start, quote)
        decreases |input| - position
      {
        ReadChar();
      }
      content := input[start..position];
    }

    /** Reads the second byte of `=>`, `||` or `&&` if it is there. */
    method PairOr(second: byte, pair: TokenType, alone: TokenType) returns (tok: Token)
      requires Valid() && ch as int < 0x80
      modifies this
      ensures Valid()
      ensures if At(input, old(position) + 1) == second
              then position == old(position) + 1 && tok == Token(pair, ByteString(old(ch)) + ByteString(second))
              else position == old(position) && tok == Token(alone, ByteString(old(ch)))
    {
      if PeekChar() == second {
        var first := ch;
        ReadChar();
        tok := Token(pair, ByteString(first) + ByteString(ch));
      } else {
        tok := Token(alone, ByteString(ch));
      }
    }

    method NextToken() returns (tok: Token)
      requires Valid()
      modifies this
      ensures Valid()
      ensures (tok, position) == Lex(input, old(position))
    {
      SkipWhitespace();
      ghost var q := position;
      if Single(ch).Some? {
        tok := Token(Single(ch).value, ByteString(ch));
      } else if ch == '=' {
        tok := PairOr('>', Arrow, Equal);
        assert ByteString('=') + ByteString('>') == "=>";
      } else if ch == '|' {
        tok := PairOr('|', OrOr, Error);
        assert ByteString('|') + ByteString('|') == "||";
      } else if ch == '&' {
        tok := PairOr('&', AndAnd, Error);
        assert ByteString('&') + ByteString('&') == "&&";
      } else if IsQuote(ch) {
        var content := ReadString(ch);
        tok := Token(Str, content);
        assert tok == LexAt(input, q).0;
      } else if ch == NUL {
        tok := Token(EOF, "");
      } else if IsLetter(ch) {
        var ident := ReadIdentifier();
        tok := Token(LookupIdent(ident), ident);
        return;
      } else {
        tok := Token(Error, ByteString(ch));
      }
      ReadChar();
    }
  }
}
