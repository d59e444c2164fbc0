/**
  From tokens to bytes and back. A `Text` lays tokens out with blanks and comments of any kind
  between them; the lexer recovers exactly its tokens. With `Canonical`, which prints a
  normal-form tree with the fewest parentheses, this gives the round trip of the language.
 */
module AplText {
  import opened Bytes
  import opened AplLexer
  import opened AplParser
  import opened AplLeaf
  import opened AplGrammar
  import opened AplSource

  // ---------------------------------------------------------------- lexemes

  /** The bytes of names, digits not at the front. */
  predicate StartsName(c: byte) {
    'a' <= c <= 'z' || 'A' <= c <= 'Z' || c == '_'
  }

  predicate ContinuesName(c: byte) {
    StartsName(c) || '0' <= c <= '9'
  }

  /** A byte sequence that the lexer reads as one identifier or keyword. */
  predicate IsName(n: bytes) {
    |n| > 0 && StartsName(n[0]) && forall i :: 0 <= i < |n| ==> ContinuesName(n[i])
  }

  const KEYWORDS := {"class", "implements", "Namespace", "this", "ctx", "subject", "related", "permits", "includes", "traverse"}

  predicate IsWord(t: Token) {
    IsName(t.literal) && t == Word(t.literal)
  }

  const PUNCTUATION := {
    Token(LBrace, "{"), Token(RBrace, "}"), Token(LParen, "("), Token(RParen, ")"), Token(LBracket, "["), Token(RBracket, "]"),
    Token(Colon, ":"), Token(Semicolon, ";"), Token(Comma, ","), Token(Dot, "."),
    Token(Equal, "="), Token(Arrow, "=>"), Token(OrOr, "||"), Token(AndAnd, "&&")}

  predicate IsPunctuation(t: Token) {
    t in PUNCTUATION
  }

  /** A token that is written as its literal. */
  predicate IsLexeme(t: Token) {
    IsWord(t) || IsPunctuation(t)
  }

  predicate SpellsString(w: bytes, t: Token) {
    t.kind == Str && w != [] && w[0] in {'\'', '"', '`'} && w == [w[0]] + t.literal + [w[0]]
    && w[0] !in t.literal && NUL !in t.literal
  }

  /** A byte that starts no other token. */
  predicate IsStray(c: byte) {
    !StartsName(c) && c !in {' ', '\t', '\n', '\r', NUL, '\'', '"', '`', '='}
    && c !in {'{', '}', '(', ')', '[', ']', ':', ';', ',', '.'}
  }

  predicate SpellsStray(w: bytes, t: Token) {
    |w| == 1 && IsStray(w[0]) && t == Token(Error, ByteString(w[0]))
  }

  /** w is a way to write t. */
  predicate Spells(w: bytes, t: Token) {
    (IsLexeme(t) && w == t.literal) || SpellsString(w, t) || SpellsStray(w, t)
  }

  // --------------------------------------------------------------- layout

  datatype GapItem = Blank(c: byte) | LineComment(body: bytes) | BlockComment(body: bytes)

  predicate GapItemOk(g: GapItem) {
    match g
    case Blank(c) => c in {' ', '\t', '\n', '\r'}
    case LineComment(b) => forall i :: 0 <= i < |b| ==> b[i] != '\n' && b[i] != NUL
    case BlockComment(b) => CommentBody(b)
  }

  /** No NUL and no closing pair inside. */
  predicate CommentBody(b: bytes) {
    |b| > 0 ==> b[0] != NUL && !(b[0] == '*' && |b| > 1 && b[1] == '/') && CommentBody(b[1..])
  }

  predicate GapOk(gap: seq<GapItem>) {
    forall i :: 0 <= i < |gap| ==> GapItemOk(gap[i])
  }

  function RenderItem(g: GapItem): bytes {
    match g
    case Blank(c) => [c]
    case LineComment(b) => "//" + b + "\n"
    case BlockComment(b) => "/*" + b + "*/"
  }

  function RenderGap(gap: seq<GapItem>): bytes {
    if gap == [] then [] else RenderItem(gap[0]) + RenderGap(gap[1..])
  }

  /** Tokens with a gap before each, as they are written, and whatever bytes follow the last one. */
  datatype Text = End(remainder: bytes) | Piece(gap: seq<GapItem>, token: Token, written: bytes, rest: Text)

  function Render(t: Text): bytes {
    match t
    case End(remainder) => remainder
    case Piece(gap, _, written, rest) => RenderGap(gap) + (written + Render(rest))
  }

  function TokensOf(t: Text): Tokens {
    match t
    case End(_) => Nil
    case Piece(_, tok, _, rest) => Cons(tok, TokensOf(rest))
  }

  function Remainder(t: Text): bytes {
    match t
    case End(remainder) => remainder
    case Piece(_, _, _, rest) => Remainder(rest)
  }

  /** The bytes after a token must not make it longer, or make a stray byte something else. */
  predicate Separated(t: Token, written: bytes, after: bytes) {
    (IsWord(t) ==> !ContinuesName(At(after, 0)))
    && (t == EQUAL ==> At(after, 0) != '>')
    && (t.kind == Error ==>
          !(At(written, 0) in {'|', '&'} && At(after, 0) == At(written, 0))
          && !(At(written, 0) == '/' && At(after, 0) in {'/', '*'}))
  }

  predicate TextOk(t: Text) {
    t.Piece? ==>
      GapOk(t.gap) && Spells(t.written, t.token) && Separated(t.token, t.written, Render(t.rest)) && TextOk(t.rest)
  }

  // ------------------------------------------------ the lexer's own classes

  /** A byte as the literal of its token: itself in ASCII, else the two bytes of its code point in UTF-8. */
  lemma {:induction false} ByteStringIs(c: byte)
    ensures c as int <= 127 ==> ByteString(c) == [c]
    ensures c as int >= 128 ==>
              var u := ByteString(c);
              |u| == 2 && (u[0] as int == 0xC2 || u[0] as int == 0xC3) && 0x80 <= u[1] as int <= 0xBF
              && 64 * (u[0] as int - 0xC0) + (u[1] as int - 0x80) == c as int
  {
  }

  /** The lexer's classes of bytes and words are those listed above. */
  lemma {:induction false} ClassesAre(c: byte)
    ensures IsBlank(c) <==> c in {' ', '\t', '\n', '\r'}
    ensures IsLetter(c) <==> StartsName(c)
    ensures IsLetter(c) || IsDigit(c) <==> ContinuesName(c)
    ensures IsQuote(c) <==> c in {'\'', '"', '`'}
    ensures Single(c).Some? <==> c in {'{', '}', '(', ')', '[', ']', ':', ';', ',', '.'}
  {
  }

  /** Every other word is an identifier. */
  lemma {:induction false} WordsAre(n: bytes)
    ensures Word("class") == CLASS && Word("implements") == IMPLEMENTS && Word("Namespace") == NAMESPACE
    ensures Word("this") == THIS && Word("ctx") == CTX && Word("subject") == Token(Subject, "subject")
    ensures Word("related") == RELATED && Word("permits") == PERMITS
    ensures Word("includes") == Token(TokenType.Includes, "includes") && Word("traverse") == TRAVERSE
    ensures n !in KEYWORDS ==> Word(n) == Token(Ident, n)
    ensures n in KEYWORDS ==> Word(n).kind != Ident
  {
    KeywordsDiffer();
  }

  lemma {:induction false} KeywordsDiffer()
    ensures "subject" != "related" && "subject" != "permits" && "related" != "permits" && "includes" != "traverse"
    ensures "class" != "implements"
  {
    assert "subject"[0] != "related"[0] && "subject"[0] != "permits"[0] && "related"[0] != "permits"[0];
    assert "includes"[0] != "traverse"[0];
  }

  /** Skipping at a byte goes past it exactly when it is a blank or opens a comment. */
  lemma {:induction false} SkipsExactly(s: bytes, p: nat)
    requires p < |s|
    ensures Skip(s, p) > p <==>
            s[p] as int in {0x20, 0x09, 0x0A, 0x0D}
            || (s[p] == '/' && p + 1 < |s| && (s[p + 1] == '/' || s[p + 1] == '*'))
  {
    ClassesAre(s[p]);
    SkipMoves(s, p);
  }

  lemma {:induction false} SkipMoves(s: bytes, p: nat)
    requires p < |s|
    ensures Skip(s, p) > p <==> IsBlank(s[p]) || OpensComment(s, p)
  {
  }

  lemma {:induction false} StringEndFinds(s: bytes, p: nat, quote: byte)
    ensures var e := StringEnd(s, p, quote);
            (At(s, e) == quote || At(s, e) == NUL) && forall k :: p <= k < e ==> At(s, k) != quote && At(s, k) != NUL
    decreases |s| - p
  {
    if At(s, p) != quote && At(s, p) != NUL {
      StringEndFinds(s, p + 1, quote);
    }
  }

  /** The end of the text, or a NUL byte in it, is the end token, and one byte of the way. */
  lemma {:induction false} EndIs(s: bytes, q: nat)
    requires q >= |s| || s[q] as int == 0
    ensures LexAt(s, q) == (Token(EOF, ""), q + 1)
  {
    hide StringEnd, IdentEnd, LookupIdent;
  }

  /** A string goes to the next quote of its kind, or to the end of the input, and its bytes are kept. */
  lemma {:induction false} StringIs(s: bytes, q: nat) returns (e: nat)
    requires At(s, q) in {'\'', '"', '`'}
    ensures q < e <= |s| && (At(s, e) == At(s, q) || At(s, e) == NUL)
    ensures forall k :: q < k < e ==> At(s, k) != At(s, q) && At(s, k) != NUL
    ensures LexAt(s, q) == (Token(Str, s[q + 1..e]), e + 1)
  {
    StringEndFinds(s, q + 1, s[q]);
    e := StringEnd(s, q + 1, s[q]);
  }

  lemma {:induction false} LineEndFinds(s: bytes, p: nat)
    ensures var e := LineEnd(s, p);
            (At(s, e) == '\n' || At(s, e) == NUL) && forall k :: p <= k < e ==> At(s, k) != '\n' && At(s, k) != NUL
    decreases |s| - p
  {
    if At(s, p) != '\n' && At(s, p) != NUL {
      LineEndFinds(s, p + 1);
    }
  }

  lemma {:induction false} BlockEndFinds(s: bytes, p: nat)
    ensures var e := BlockEnd(s, p);
            ((At(s, e) == '*' && At(s, e + 1) == '/') || At(s, e) == NUL)
            && forall k :: p <= k < e ==> !(At(s, k) == '*' && At(s, k + 1) == '/') && At(s, k) != NUL
    decreases |s| - p
  {
    if !ClosesBlock(s, p) && At(s, p) != NUL {
      BlockEndFinds(s, p + 1);
    }
  }

  /** A comment is skipped with its end of line, or with its closing pair, or to the end of the input. */
  lemma {:induction false} CommentIs(s: bytes, p: nat) returns (e: nat)
    requires At(s, p) == '/' && (At(s, p + 1) == '/' || At(s, p + 1) == '*')
    ensures At(s, p + 1) == '/' ==>
              p <= e && (At(s, e) == '\n' || At(s, e) == NUL) && Skip(s, p) == Skip(s, e)
              && forall k :: p <= k < e ==> At(s, k) != '\n' && At(s, k) != NUL
    ensures At(s, p + 1) == '*' ==>
              p + 2 <= e && ((At(s, e) == '*' && At(s, e + 1) == '/') || At(s, e) == NUL) && Skip(s, p) == Skip(s, e + 2)
              && forall k :: p + 2 <= k < e ==> !(At(s, k) == '*' && At(s, k + 1) == '/') && At(s, k) != NUL
  {
    hide Skip, LineEnd, BlockEnd, At;
    if At(s, p + 1) == '/' {
      e := LineEnd(s, p);
      LineEndFinds(s, p);
      SkipsLine(s, p);
    } else {
      e := BlockEnd(s, p + 2);
      BlockEndFinds(s, p + 2);
      SkipsBlock(s, p);
    }
  }

  // ------------------------------------------------- the lexer reads it back

  /** t stands in s at position p. */
  predicate Stands(s: bytes, p: nat, t: bytes) {
    p <= |s| && s[p..] == t
  }

  lemma {:induction false} StandsAfter(s: bytes, p: nat, a: bytes, b: bytes)
    requires Stands(s, p, a + b)
    ensures Stands(s, p + |a|, b)
    ensures forall k :: p <= k < p + |a| ==> At(s, k) == a[k - p]
    ensures At(s, p + |a|) == At(b, 0)
  {
  }

  lemma {:induction false} LineEndIs(s: bytes, p: nat, e: nat)
    requires p <= e && forall k :: p <= k < e ==> At(s, k) != '\n' && At(s, k) != NUL
    requires At(s, e) == '\n'
    ensures LineEnd(s, p) == e
    decreases e - p
  {
    if p < e {
      LineEndIs(s, p + 1, e);
    }
  }

  lemma {:induction false} BlockEndIs(s: bytes, p: nat, body: bytes, after: bytes)
    requires CommentBody(body) && Stands(s, p, body + ("*/" + after))
    ensures BlockEnd(s, p) == p + |body|
    decreases |body|
  {
    var close := "*/" + after;
    if body == [] {
      StandsAfter(s, p, [], close);
      StandsAfter(s, p, "*/", after);
    } else {
      assert body + close == [body[0]] + (body[1..] + close);
      StandsAfter(s, p, [body[0]], body[1..] + close);
      BlockEndIs(s, p + 1, body[1..], after);
    }
  }

  lemma {:induction false} StandsAt(s: bytes, p: nat, t: bytes, k: nat)
    requires Stands(s, p, t)
    ensures At(s, p + k) == At(t, k)
  {
    if k < |t| {
      assert s[p..][k] == s[p + k];
    }
  }

  /** Skipping goes on behind a comment. */
  lemma {:induction false} SkipsLine(s: bytes, p: nat)
    requires At(s, p) == '/' && At(s, p + 1) == '/'
    ensures Skip(s, p) == Skip(s, LineEnd(s, p))
  {
    hide BlockEnd, LineEnd;
  }

  lemma {:induction false} SkipsBlock(s: bytes, p: nat)
    requires At(s, p) == '/' && At(s, p + 1) == '*'
    ensures Skip(s, p) == Skip(s, BlockEnd(s, p + 2) + 2)
  {
    hide LineEnd, BlockEnd;
  }

  lemma {:induction false} SkipsBlank(s: bytes, p: nat)
    requires IsBlank(At(s, p))
    ensures Skip(s, p) == Skip(s, p + 1)
  {
    hide SkipComments;
  }

  lemma {:induction false} LineCommentIsSkipped(s: bytes, p: nat, body: bytes, after: bytes)
    requires GapItemOk(LineComment(body)) && Stands(s, p, "//" + (body + ("\n" + after)))
    ensures Skip(s, p) == Skip(s, p + |body| + 3)
  {
    hide Stands, Skip, LineEnd;
    StandsAfter(s, p, "//", body + ("\n" + after));
    StandsAfter(s, p + 2, body, "\n" + after);
    var e := p + 2 + |body|;
    assert At(s, p) == '/' && At(s, p + 1) == '/' && At(s, e) == '\n';
    LineEndIs(s, p, e);
    SkipsLine(s, p);
    SkipsBlank(s, e);
  }

  lemma {:induction false} BlockCommentIsSkipped(s: bytes, p: nat, body: bytes, after: bytes)
    requires GapItemOk(BlockComment(body)) && Stands(s, p, "/*" + (body + ("*/" + after)))
    ensures Skip(s, p) == Skip(s, p + |body| + 4)
  {
    hide Stands, Skip, BlockEnd, CommentBody;
    StandsAfter(s, p, "/*", body + ("*/" + after));
    assert At(s, p) == '/' && At(s, p + 1) == '*';
    BlockEndIs(s, p + 2, body, after);
    SkipsBlock(s, p);
  }

  lemma {:induction false} RenderItemThen(item: GapItem, after: bytes)
    ensures RenderItem(item) + after ==
            match item
            case Blank(c) => [c] + after
            case LineComment(b) => "//" + (b + ("\n" + after))
            case BlockComment(b) => "/*" + (b + ("*/" + after))
    ensures |RenderItem(item)| ==
            match item
            case Blank(c) => 1
            case LineComment(b) => |b| + 3
            case BlockComment(b) => |b| + 4
  {
  }

  lemma {:induction false} BlankIsSkipped(s: bytes, p: nat, c: byte, after: bytes)
    requires IsBlank(c) && Stands(s, p, [c] + after)
    ensures Skip(s, p) == Skip(s, p + 1)
  {
    StandsAt(s, p, [c] + after, 0);
  }

  /** One blank or comment in front of the cursor does not change where skipping ends. */
  lemma {:induction false} ItemIsSkipped(s: bytes, p: nat, item: GapItem, after: bytes)
    requires GapItemOk(item) && Stands(s, p, RenderItem(item) + after)
    ensures Skip(s, p) == Skip(s, p + |RenderItem(item)|)
  {
    RenderItemThen(item, after);
    hide Skip, Stands, RenderItem;
    match item
    case Blank(c) => BlankIsSkipped(s, p, c, after);
    case LineComment(b) => LineCommentIsSkipped(s, p, b, after);
    case BlockComment(b) => BlockCommentIsSkipped(s, p, b, after);
  }

  lemma {:induction false} NothingIsSkipped(s: bytes, p: nat, after: bytes)
    requires Stands(s, p, after) && !IsBlank(At(after, 0)) && !OpensComment(after, 0)
    ensures Skip(s, p) == p
  {
    StandsAt(s, p, after, 0);
    StandsAt(s, p, after, 1);
  }

  lemma {:induction false} GapIsSkipped(s: bytes, p: nat, gap: seq<GapItem>, after: bytes)
    requires GapOk(gap) && Stands(s, p, RenderGap(gap) + after)
    requires !IsBlank(At(after, 0)) && !OpensComment(after, 0)
    ensures Skip(s, p) == p + |RenderGap(gap)|
    decreases |gap|
  {
    hide GapItemOk, RenderItem, Skip, OpensComment, IsBlank;
    if gap == [] {
      assert RenderGap(gap) + after == after;
      NothingIsSkipped(s, p, after);
    } else {
      var item := RenderItem(gap[0]);
      var more := RenderGap(gap[1..]) + after;
      assert RenderGap(gap) + after == item + more;
      ItemIsSkipped(s, p, gap[0], more);
      StandsAfter(s, p, item, more);
      GapIsSkipped(s, p + |item|, gap[1..], after);
    }
  }

  lemma {:induction false} IdentEndIs(s: bytes, p: nat, e: nat)
    requires p <= e && forall k :: p <= k < e ==> IsLetter(At(s, k)) || IsDigit(At(s, k))
    requires !IsLetter(At(s, e)) && !IsDigit(At(s, e))
    ensures IdentEnd(s, p) == e
    decreases e - p
  {
    if p < e {
      IdentEndIs(s, p + 1, e);
    }
  }

  /** The bytes of w, at a place where it stands, one by one and as a slice. */
  lemma {:induction false} WrittenAt(s: bytes, q: nat, w: bytes, after: bytes)
    requires Stands(s, q, w + after)
    ensures q + |w| <= |s| && s[q..q + |w|] == w && At(s, q + |w|) == At(after, 0)
    ensures forall k :: q <= k < q + |w| ==> At(s, k) == w[k - q]
  {
    StandsAfter(s, q, w, after);
    assert |s| - q >= |w|;
    hide Stands;
    var slice := s[q..q + |w|];
    forall k | 0 <= k < |w| ensures slice[k] == w[k] {
      assert slice[k] == s[q + k] == At(s, q + k);
    }
  }

  lemma {:induction false} LetterIsLexed(s: bytes, q: nat)
    requires IsLetter(At(s, q))
    ensures IdentEnd(s, q) <= |s|
    ensures var e := IdentEnd(s, q);
            LexAt(s, q) == (Token(LookupIdent(s[q..e]), s[q..e]), e)
  {
    hide LookupIdent, StringEnd;
  }

  /** Where a word stands, its letters and digits end with it. */
  lemma {:induction false} WordEnds(s: bytes, q: nat, w: bytes, after: bytes)
    requires IsName(w) && Stands(s, q, w + after) && !ContinuesName(At(after, 0))
    ensures IsLetter(At(s, q)) && IdentEnd(s, q) == q + |w| <= |s| && s[q..q + |w|] == w
  {
    hide Stands, IsLetter, IsDigit, StartsName, ContinuesName, At;
    WrittenAt(s, q, w, after);
    assert At(s, q) == w[0];
    ClassesAre(w[0]);
    ClassesAre(At(after, 0));
    forall k | q <= k < q + |w| ensures IsLetter(At(s, k)) || IsDigit(At(s, k)) {
      assert At(s, k) == w[k - q];
      ClassesAre(w[k - q]);
    }
    IdentEndIs(s, q, q + |w|);
  }

  lemma {:induction false} WordIsLexed(s: bytes, q: nat, t: Token, after: bytes)
    requires IsWord(t) && Separated(t, t.literal, after) && Stands(s, q, t.literal + after)
    ensures LexAt(s, q) == (t, q + |t.literal|)
  {
    hide LookupIdent, Stands, LexAt, IsLetter, ContinuesName, At, IsName, IdentEnd;
    WordEnds(s, q, t.literal, after);
    LetterIsLexed(s, q);
  }

  lemma {:induction false} PunctuationIsLexed(s: bytes, q: nat, t: Token, after: bytes)
    requires IsPunctuation(t) && Separated(t, t.literal, after) && Stands(s, q, t.literal + after)
    ensures LexAt(s, q) == (t, q + |t.literal|)
  {
    StandsAfter(s, q, t.literal, after);
    assert At(s, q) == t.literal[0];
    if t in {ARROW, OR, AND} {
      assert At(s, q + 1) == t.literal[1];
    } else if t != EQUAL {
      assert t.literal == [t.literal[0]];
    }
  }

  lemma {:induction false} StringEndIs(s: bytes, p: nat, quote: byte, e: nat)
    requires p <= e && forall k :: p <= k < e ==> At(s, k) != quote && At(s, k) != NUL
    requires At(s, e) == quote
    ensures StringEnd(s, p, quote) == e
    decreases e - p
  {
    if p < e {
      StringEndIs(s, p + 1, quote, e);
    }
  }

  /** The bytes between the quotes, at a place where the string stands. */
  lemma {:induction false} BetweenQuotes(s: bytes, q: nat, body: bytes, quote: byte, after: bytes)
    requires Stands(s, q, ([quote] + body + [quote]) + after)
    ensures q + 1 + |body| < |s| && s[q + 1..q + 1 + |body|] == body
    ensures forall k :: q + 1 <= k < q + 1 + |body| ==> At(s, k) == body[k - q - 1]
    ensures At(s, q) == quote && At(s, q + 1 + |body|) == quote
  {
    var w := [quote] + body + [quote];
    StandsAfter(s, q, w, after);
    assert |s| - q >= |w|;
    hide Stands;
    forall k | q + 1 <= k < q + 1 + |body| ensures At(s, k) == body[k - q - 1] {
      assert At(s, k) == w[k - q] == body[k - q - 1];
    }
    assert At(s, q) == w[0] && At(s, q + 1 + |body|) == w[|body| + 1];
    var slice := s[q + 1..q + 1 + |body|];
    forall k | 0 <= k < |body| ensures slice[k] == body[k] {
      assert slice[k] == s[q + 1 + k] == At(s, q + 1 + k);
    }
  }

  lemma {:induction false} StringIsLexed(s: bytes, q: nat, t: Token, w: bytes, after: bytes)
    requires SpellsString(w, t) && Stands(s, q, w + after)
    ensures LexAt(s, q) == (t, q + |w|)
  {
    hide Stands;
    var body := t.literal;
    BetweenQuotes(s, q, body, w[0], after);
    forall k | q + 1 <= k < q + 1 + |body| ensures At(s, k) != w[0] && At(s, k) != NUL {
      assert At(s, k) == body[k - q - 1];
    }
    StringEndIs(s, q + 1, w[0], q + 1 + |body|);
  }

  lemma {:induction false} StrayIsLexed(s: bytes, q: nat, t: Token, w: bytes, after: bytes)
    requires SpellsStray(w, t) && Separated(t, w, after) && Stands(s, q, w + after)
    ensures LexAt(s, q) == (t, q + 1)
  {
    StandsAfter(s, q, w, after);
    assert At(s, q) == w[0];
  }

  lemma {:induction false} SpellingOpens(t: Token, w: bytes, after: bytes)
    requires Spells(w, t) && Separated(t, w, after)
    ensures |w| > 0 && !IsBlank(At(w + after, 0)) && !OpensComment(w + after, 0)
  {
  }

  /** The first token of a laid-out text, and where the rest begins. */
  lemma {:induction false} PieceIsLexed(s: bytes, p: nat, gap: seq<GapItem>, t: Token, w: bytes, after: bytes)
    requires GapOk(gap) && Spells(w, t) && Separated(t, w, after)
    requires Stands(s, p, RenderGap(gap) + (w + after))
    ensures Lex(s, p).0 == t && Stands(s, Lex(s, p).1, after)
  {
    hide LookupIdent, IsPunctuation, IsWord, Separated, LexAt, Skip, RenderGap, GapOk, Stands, SpellsString, SpellsStray;
    SpellingOpens(t, w, after);
    StandsAfter(s, p, RenderGap(gap), w + after);
    GapIsSkipped(s, p, gap, w + after);
    var q := p + |RenderGap(gap)|;
    if SpellsString(w, t) {
      StringIsLexed(s, q, t, w, after);
    } else if SpellsStray(w, t) {
      StrayIsLexed(s, q, t, w, after);
    } else if IsWord(t) {
      WordIsLexed(s, q, t, after);
    } else {
      PunctuationIsLexed(s, q, t, after);
    }
    StandsAfter(s, q, w, after);
    assert LexAt(s, q) == (t, q + |w|) by {
      if SpellsStray(w, t) { StrayLength(w, t); }
    }
  }

  lemma {:induction false} StrayLength(w: bytes, t: Token)
    requires SpellsStray(w, t)
    ensures |w| == 1
  {
  }

  // ----------------------------------------------------------- import words

  /** The tokens in front of the first import; from there on nothing is read. */
  function Truncate(toks: Tokens): Tokens {
    match toks
    case Cons(t, more) => if IsImport(t) then Cut else Cons(t, Truncate(more))
    case _ => toks
  }

  /** No token is the word import. */
  predicate NoImports(toks: Tokens) {
    Truncate(toks) == toks
  }

  predicate NoSemicolons(toks: Tokens) {
    toks.Cons? ==> toks.head.kind != Semicolon && toks.head.kind != EOF && NoSemicolons(toks.tail)
  }

  /** No semicolon ends the first import statement. */
  predicate ImportIsOpen(toks: Tokens) {
    toks.Cons? ==> if IsImport(toks.head) then NoSemicolons(toks.tail) else ImportIsOpen(toks.tail)
  }

  /** No byte that ends an import statement or the input. */
  predicate Quiet(remainder: bytes) {
    ';' !in remainder && NUL !in remainder
  }

  lemma {:induction false} LexQuiet(s: bytes, p: nat)
    requires forall k :: p <= k < |s| ==> s[k] != ';' && s[k] != NUL
    ensures var (t, q) := Lex(s, p);
            t.kind != Semicolon && (t.kind == EOF ==> t.literal == [] && q > |s|)
  {
    hide Skip, StringEnd, IdentEnd;
  }

  lemma {:induction false} QuietIsDead(s: bytes, p: nat)
    requires forall k :: p <= k < |s| ==> s[k] != ';' && s[k] != NUL
    ensures Dead(s, p)
    decreases |s| - p
  {
    LexQuiet(s, p);
    hide Lex;
    if Lex(s, p).0.kind != EOF {
      QuietIsDead(s, Lex(s, p).1);
    }
  }

  lemma {:induction false} TextIsDead(s: bytes, p: nat, t: Text)
    requires TextOk(t) && Stands(s, p, Render(t)) && NoSemicolons(TokensOf(t)) && Quiet(Remainder(t))
    ensures Dead(s, p)
    decreases t
  {
    if t.Piece? {
      hide Separated, Lex, RenderGap, GapOk, Stands, Spells;
      PieceIsLexed(s, p, t.gap, t.token, t.written, Render(t.rest));
      TextIsDead(s, Lex(s, p).1, t.rest);
    } else {
      QuietIsDead(s, p);
    }
  }

  /**
    A laid-out text is lexed to exactly its tokens, whatever follows it. If it holds an import that
    no semicolon ends, the tokens before that are read and then nothing.
   */
  lemma {:induction false} TextIsLexed(s: bytes, p: nat, t: Text)
    requires TextOk(t) && Stands(s, p, Render(t))
    requires NoImports(TokensOf(t)) || (ImportIsOpen(TokensOf(t)) && Quiet(Remainder(t)))
    ensures Ahead(s, p, Truncate(TokensOf(t)))
    decreases t
  {
    hide Separated, Lex, RenderGap, GapOk, IsImport, Stands, Spells;
    if t.Piece? {
      PieceIsLexed(s, p, t.gap, t.token, t.written, Render(t.rest));
      if IsImport(t.token) {
        TextIsDead(s, Lex(s, p).1, t.rest);
      } else {
        TextIsLexed(s, Lex(s, p).1, t.rest);
      }
    }
  }

  /**
    Any layout of a source file parses to exactly its relations: blanks and comments anywhere
    between tokens, redundant parentheses, and any bytes after the closing brace.
   */
  lemma {:induction false} LaidOutSourceIsParsed(src: Source, text: Text, turns: nat)
    requires SourceOk(src) && TextOk(text) && TokensOf(text) == SourceTokens(src)
    requires NoImports(SourceTokens(src)) && turns >= |src.members|
    ensures ParseNamespace(Render(text), turns) == Schema(src.name, CollectMembers(src.members, map[]))
  {
    TextIsLexed(Render(text), 0, text);
    SourceIsParsed(Render(text), src, turns);
  }

  // ----------------------------------------------------- printing a schema

  predicate IsIdent(n: bytes) {
    IsName(n) && LookupIdent(n) == Ident
  }

  /** Every name in the tree can be written, keywords and `import` included. */
  predicate NamesFit(t: Tree) {
    match t
    case Union(cs) => forall i :: 0 <= i < |cs| ==> NamesFit(cs[i])
    case Intersection(cs) => forall i :: 0 <= i < |cs| ==> NamesFit(cs[i])
    case ComputedUserset(r) => IsName(r)
    case TupleToUserset(ts, c) => IsName(ts) && IsName(c)
  }

  predicate Printable(t: Tree) {
    NormalForm(t) && NamesFit(t)
  }

  predicate NoImportIn(t: Tree) {
    match t
    case Union(cs) => forall i :: 0 <= i < |cs| ==> NoImportIn(cs[i])
    case Intersection(cs) => forall i :: 0 <= i < |cs| ==> NoImportIn(cs[i])
    case ComputedUserset(r) => r != "import"
    case TupleToUserset(ts, c) => ts != "import" && c != "import"
  }

  function TraverseText(ts: bytes, c: bytes): LeafText {
    LeafText(Word(ts), Suffix.Traverse(TRAVERSE, InParens(PARAM, None), Some(PARAM), Word(c)))
  }

  /** The expression printed for a tree: children in parentheses only where needed. */
  function Canonical(t: Tree): Expr
    requires NormalForm(t)
    decreases t, 0
  {
    match t
    case Union(cs) => OrChain(t, |cs|)
    case Intersection(cs) => AndChain(t, |cs|)
    case ComputedUserset(r) => Leaf(LeafText(Word(r), Bare))
    case TupleToUserset(ts, c) => Leaf(TraverseText(ts, c))
  }

  function OrOperand(t: Tree): Expr
    requires NormalForm(t)
    decreases t, 1
  {
    if t.Union? then Paren(Canonical(t)) else Canonical(t)
  }

  function AndOperand(t: Tree): Expr
    requires NormalForm(t)
    decreases t, 1
  {
    if t.Union? || t.Intersection? then Paren(Canonical(t)) else Canonical(t)
  }

  function OrChain(t: Tree, n: nat): Expr
    requires t.Union? && NormalForm(t) && 1 <= n <= |t.children|
    decreases t, 0, n
  {
    var last := OrOperand(t.children[n - 1]);
    if n == 1 then last else Or(OrChain(t, n - 1), last)
  }

  function AndChain(t: Tree, n: nat): Expr
    requires t.Intersection? && NormalForm(t) && 1 <= n <= |t.children|
    decreases t, 0, n
  {
    var last := AndOperand(t.children[n - 1]);
    if n == 1 then last else And(AndChain(t, n - 1), last)
  }

  /** The leaf is one that `Canonical` writes: a relation, or traverse with a parenthesised parameter. */
  predicate LeafPrinted(l: LeafText) {
    l.relation == Word(l.relation.literal) && IsName(l.relation.literal)
    && match l.suffix
       case Bare => true
       case Traverse(_, _, _, c) => l == TraverseText(l.relation.literal, c.literal) && IsName(c.literal)
       case _ => false
  }

  predicate LeavesPrinted(e: Expr) {
    match e
    case Leaf(l) => LeafPrinted(l)
    case Paren(inner) => LeavesPrinted(inner)
    case Or(l, r) => LeavesPrinted(l) && LeavesPrinted(r)
    case And(l, r) => LeavesPrinted(l) && LeavesPrinted(r)
  }

  predicate LeafClean(l: LeafText) {
    l.relation.literal != "import" && (l.suffix.Traverse? ==> l.suffix.computed.literal != "import")
  }

  predicate Clean(e: Expr) {
    match e
    case Leaf(l) => LeafClean(l)
    case Paren(inner) => Clean(inner)
    case Or(l, r) => Clean(l) && Clean(r)
    case And(l, r) => Clean(l) && Clean(r)
  }

  /** What is promised of a printed expression: it builds the tree, and is clean when the tree is. */
  predicate Prints(e: Expr, t: Tree) {
    LeavesPrinted(e) && Build(e) == t && (Clean(e) <==> NoImportIn(t))
  }

  lemma {:induction false} CanonicalPrints(t: Tree)
    requires Printable(t)
    ensures Prints(Canonical(t), t) && IsOr(Canonical(t))
    ensures !t.Union? ==> IsAnd(Canonical(t))
    ensures !t.Union? && !t.Intersection? ==> IsPrimary(Canonical(t))
    decreases t, 0
  {
    match t
    case Union(cs) =>
      OrChainPrints(t, |cs|);
      assert cs[..|cs|] == cs;
    case Intersection(cs) =>
      AndChainPrints(t, |cs|);
      assert cs[..|cs|] == cs;
    case _ =>
  }

  lemma {:induction false} OrOperandPrints(t: Tree)
    requires Printable(t)
    ensures Prints(OrOperand(t), t) && IsAnd(OrOperand(t))
    decreases t, 1
  {
    CanonicalPrints(t);
  }

  lemma {:induction false} AndOperandPrints(t: Tree)
    requires Printable(t)
    ensures Prints(AndOperand(t), t) && IsPrimary(AndOperand(t))
    decreases t, 1
  {
    CanonicalPrints(t);
  }

  lemma {:induction false} OneMoreClean(cs: seq<Tree>, last: Tree)
    ensures (forall i :: 0 <= i < |cs| + 1 ==> NoImportIn((cs + [last])[i])) <==>
            (forall i :: 0 <= i < |cs| ==> NoImportIn(cs[i])) && NoImportIn(last)
  {
    var all := cs + [last];
    if forall i :: 0 <= i < |all| ==> NoImportIn(all[i]) {
      assert NoImportIn(all[|cs|]);
      forall i | 0 <= i < |cs| ensures NoImportIn(cs[i]) {
        assert NoImportIn(all[i]);
      }
    }
  }

  lemma {:induction false} OrChainPrints(t: Tree, n: nat)
    requires t.Union? && Printable(t) && 1 <= n <= |t.children|
    ensures IsOr(OrChain(t, n))
    ensures Prints(OrChain(t, n), if n == 1 then t.children[0] else Union(t.children[..n]))
    decreases t, 0, n
  {
    assert Printable(t.children[n - 1]);
    OrOperandPrints(t.children[n - 1]);
    hide Printable, NormalForm, NamesFit, LeafPrinted, LeafClean;
    if n > 1 {
      OrChainPrints(t, n - 1);
      OneMoreClean(t.children[..n - 1], t.children[n - 1]);
      assert t.children[..n] == t.children[..n - 1] + [t.children[n - 1]];
      if n == 2 {
        assert t.children[..2] == [t.children[0], t.children[1]];
        assert t.children[..1][0] == t.children[0];
      }
    }
  }

  lemma {:induction false} AndChainPrints(t: Tree, n: nat)
    requires t.Intersection? && Printable(t) && 1 <= n <= |t.children|
    ensures IsAnd(AndChain(t, n))
    ensures Prints(AndChain(t, n), if n == 1 then t.children[0] else Intersection(t.children[..n]))
    decreases t, 0, n
  {
    assert Printable(t.children[n - 1]);
    AndOperandPrints(t.children[n - 1]);
    hide Printable, NormalForm, NamesFit, LeafPrinted, LeafClean;
    if n > 1 {
      AndChainPrints(t, n - 1);
      OneMoreClean(t.children[..n - 1], t.children[n - 1]);
      assert t.children[..n] == t.children[..n - 1] + [t.children[n - 1]];
      if n == 2 {
        assert t.children[..2] == [t.children[0], t.children[1]];
        assert t.children[..1][0] == t.children[0];
      }
    }
  }

  type Listing = seq<(bytes, Tree)>

  predicate ListingOk(rels: Listing) {
    forall i :: 0 <= i < |rels| ==> IsIdent(rels[i].0) && Printable(rels[i].1)
  }

  /** No class, permission or relation is called import. */
  predicate NoImportNames(name: bytes, rels: Listing) {
    name != "import" && forall i :: 0 <= i < |rels| ==> rels[i].0 != "import" && NoImportIn(rels[i].1)
  }

  /** rels names every relation of m, and only with m's tree. */
  predicate Lists(rels: Listing, m: Relations) {
    (forall i :: 0 <= i < |rels| ==> rels[i].0 in m && m[rels[i].0] == rels[i].1)
    && forall n :: n in m ==> exists i :: 0 <= i < |rels| && rels[i].0 == n
  }

  /** `name: (ctx) => expression,` */
  function PrintEntry(name: bytes, t: Tree): Entry
    requires NormalForm(t)
  {
    Entry(name, true, Parenthesised([CTX]), None, Canonical(t), CommaSeparator)
  }

  function PrintEntries(rels: Listing): (es: seq<Entry>)
    requires ListingOk(rels)
  {
    if rels == [] then [] else [PrintEntry(rels[0].0, rels[0].1)] + PrintEntries(rels[1..])
  }

  /** The shape of a printed permission. */
  predicate EntryPrinted(e: Entry) {
    IsIdent(e.name) && e.colon && e.arguments == Parenthesised([CTX]) && e.answers == None
    && e.separator == CommaSeparator && IsOr(e.body) && LeavesPrinted(e.body)
  }

  lemma {:induction false} PrintEntryOk(name: bytes, t: Tree)
    requires IsIdent(name) && Printable(t)
    ensures var e := PrintEntry(name, t);
            EntryPrinted(e) && Build(e.body) == t && (Clean(e.body) <==> NoImportIn(t))
  {
    CanonicalPrints(t);
    hide IsOr, LeavesPrinted, Canonical, IsIdent, Build, Clean, NoImportIn;
  }

  predicate EntriesPrint(es: seq<Entry>, rels: Listing) {
    |es| == |rels| && forall i :: 0 <= i < |rels| ==> EntryPrints(es[i], rels[i])
  }

  predicate EntryPrints(e: Entry, rel: (bytes, Tree)) {
    EntryPrinted(e) && e.name == rel.0 && Build(e.body) == rel.1 && (Clean(e.body) <==> NoImportIn(rel.1))
  }

  lemma {:induction false} PrintEntriesOk(rels: Listing)
    requires ListingOk(rels)
    ensures EntriesPrint(PrintEntries(rels), rels)
  {
    if rels != [] {
      PrintEntryOk(rels[0].0, rels[0].1);
      PrintEntriesOk(rels[1..]);
      hide PrintEntry, EntryPrinted, Build, Clean, NoImportIn, Printable, IsIdent;
    }
  }

  /** `class name implements Namespace { permits = { ... } }` */
  function PrintSchema(name: bytes, rels: Listing): (src: Source)
    requires IsIdent(name) && ListingOk(rels)
    ensures SourceOk(src)
  {
    PrintEntriesOk(rels);
    Source(name, true, [PermitsBlock(PrintEntries(rels), false)])
  }

  // ------------------------------------------------ printed tokens, imports

  /** The tokens that a list of items gives exactly. */
  function ExactTokens(items: Items): set<Token> {
    match items
    case Done => {}
    case Then(item, rest) => (if item.Exact? then {item.token} else {}) + ExactTokens(rest)
  }

  lemma {:induction false} BodyExacts(computed: Token)
    ensures ExactTokens(BodyItems(Some(PARAM), computed)) == {PARAM, computed}
  {
    var close := Then(Exact(computed, Loose), Then(Fixed(RParen, Loose), Done));
    assert ExactTokens(close) == {computed};
    assert ExactTokens(Then(Fixed(Related, Loose), Then(Fixed(Dot, Loose), close))) == {computed};
    assert ExactTokens(TargetItems(computed)) == {computed};
    assert ExactTokens(Then(Exact(PARAM, Loose), TargetItems(computed))) == {PARAM, computed};
  }

  lemma {:induction false} TraverseExacts(computed: Token)
    ensures ExactTokens(MethodItems(Suffix.Traverse(TRAVERSE, InParens(PARAM, None), Some(PARAM), computed)))
         == {TRAVERSE, PARAM, computed}
  {
    BodyExacts(computed);
    hide BodyItems;
    var body := BodyItems(Some(PARAM), computed);
    assert ExactTokens(Then(Exact(PARAM, Loose), Then(Fixed(RParen, Loose), body))) == {PARAM, computed};
    assert ExactTokens(ParameterThen(InParens(PARAM, None), body)) == {PARAM, computed};
    assert ExactTokens(Then(Fixed(LParen, Loose), ParameterThen(InParens(PARAM, None), body))) == {PARAM, computed};
  }

  /** A printed leaf holds its names, the method and the parameter of traverse, and nothing else. */
  lemma {:induction false} LeafExacts(l: LeafText)
    requires LeafPrinted(l)
    ensures ExactTokens(LeafItems(l)) ==
            if l.suffix.Traverse? then {l.relation, TRAVERSE, PARAM, l.suffix.computed} else {l.relation}
  {
    if l.suffix.Traverse? {
      TraverseExacts(l.suffix.computed);
    }
    hide MethodItems, LookupIdent, IsName;
    var use := UseItems(l);
    if l.suffix.Traverse? {
      assert ExactTokens(Then(Fixed(Dot, Loose), MethodItems(l.suffix))) == ExactTokens(MethodItems(l.suffix));
    } else {
      assert ExactTokens(use) == {l.relation};
    }
    hide UseItems;
    var related := Then(Fixed(Related, Tight), Then(Fixed(Dot, Loose), use));
    assert ExactTokens(related) == ExactTokens(use);
    assert ExactTokens(LeafItems(l)) == ExactTokens(related);
  }

  lemma {:induction false} TruncateItems(items: Items, rest: Tokens)
    requires forall t :: t in ExactTokens(items) ==> !IsImport(t)
    ensures Truncate(ItemsThen(items, rest)) == ItemsThen(items, Truncate(rest))
    decreases items
  {
    if items.Then? {
      TruncateItems(items.rest, rest);
    }
  }

  lemma {:induction false} WordImport(n: bytes)
    ensures IsImport(Word(n)) <==> n == "import"
  {
  }

  lemma {:induction false} TruncateLeaf(l: LeafText, rest: Tokens)
    requires LeafPrinted(l) && LeafClean(l)
    ensures Truncate(ItemsThen(LeafItems(l), rest)) == ItemsThen(LeafItems(l), Truncate(rest))
  {
    LeafExacts(l);
    WordImport(l.relation.literal);
    if l.suffix.Traverse? {
      WordImport(l.suffix.computed.literal);
    }
    assert !IsImport(TRAVERSE) && !IsImport(PARAM);
    hide LeafItems, IsImport, LookupIdent, IsName, ExactTokens;
    TruncateItems(LeafItems(l), rest);
  }

  lemma {:induction false} TruncateExpr(e: Expr, rest: Tokens)
    requires LeavesPrinted(e) && Clean(e)
    ensures Truncate(ExprThen(e, rest)) == ExprThen(e, Truncate(rest))
    decreases e
  {
    hide LeafPrinted, LeafClean;
    match e
    case Leaf(l) => TruncateLeaf(l, rest);
    case Paren(inner) => TruncateExpr(inner, Cons(RPAREN, rest));
    case Or(l, r) =>
      TruncateExpr(l, Cons(OR, ExprThen(r, rest)));
      TruncateExpr(r, rest);
    case And(l, r) =>
      TruncateExpr(l, Cons(AND, ExprThen(r, rest)));
      TruncateExpr(r, rest);
  }

  /** What follows a printed permission's name, up to its body. */
  lemma {:induction false} TruncateSignature(e: Entry, after: Tokens)
    requires EntryPrinted(e) && e.name != "import"
    ensures Truncate(SignatureThen(e, after)) == SignatureThen(e, Truncate(after))
  {
    hide IsOr, LeavesPrinted;
    assert [CTX][1..] == [];
    var arguments := ArgumentsThen(e.arguments, after);
    assert SeqThen([CTX], Cons(RPAREN, after)) == Cons(CTX, Cons(RPAREN, after));
    assert SeqThen([CTX], Cons(RPAREN, Truncate(after))) == Cons(CTX, Cons(RPAREN, Truncate(after)));
    assert Truncate(Cons(CTX, Cons(RPAREN, after))) == Cons(CTX, Cons(RPAREN, Truncate(after)));
    assert Truncate(arguments) == ArgumentsThen(e.arguments, Truncate(after));
  }

  predicate EntryClean(e: Entry) {
    e.name != "import" && Clean(e.body)
  }

  lemma {:induction false} TruncateEntry(e: Entry, rest: Tokens)
    requires EntryPrinted(e) && EntryClean(e)
    ensures Truncate(EntryThen(e, rest)) == EntryThen(e, Truncate(rest))
  {
    TruncateExpr(e.body, Cons(COMMA, rest));
    TruncateSignature(e, BodyThen(e, rest));
    hide SignatureThen, IsOr, LeavesPrinted, Clean, ExprThen;
  }

  lemma {:induction false} TruncateEntries(es: seq<Entry>, rest: Tokens)
    requires forall i :: 0 <= i < |es| ==> EntryOk(es[i])
    requires forall i :: 0 <= i < |es| ==> EntryPrinted(es[i]) && EntryClean(es[i])
    ensures Truncate(EntriesThen(es, rest)) == EntriesThen(es, Truncate(rest))
    decreases |es|
  {
    hide EntryClean, EntryPrinted, EntryOk, EntryThen;
    if es != [] {
      TruncateEntries(es[1..], rest);
      TruncateEntry(es[0], EntriesThen(es[1..], rest));
    }
  }

  const CLOSE := Cons(RBRACE, Cons(RBRACE, Nil))

  /** The tokens of a printed schema: header, opening of the block, permissions, closing braces. */
  function PrintedTokens(name: bytes, es: seq<Entry>): Tokens
    requires forall i :: 0 <= i < |es| ==> EntryOk(es[i])
  {
    HeaderThen(Source(name, true, []), Cons(PERMITS, Cons(EQUAL, Cons(LBRACE, EntriesThen(es, CLOSE)))))
  }

  lemma {:induction false} PrintedTokensAre(name: bytes, rels: Listing)
    requires IsIdent(name) && ListingOk(rels)
    ensures EntriesPrint(PrintEntries(rels), rels)
    ensures forall i :: 0 <= i < |rels| ==> EntryOk(PrintEntries(rels)[i])
    ensures SourceTokens(PrintSchema(name, rels)) == PrintedTokens(name, PrintEntries(rels))
  {
    PrintEntriesOk(rels);
    var src := PrintSchema(name, rels);
    hide IsOr, LeavesPrinted, EntriesThen, PrintEntries;
    assert src.members[1..] == [];
    assert MembersThen(src.members, Cons(RBRACE, Nil)) == MemberThen(src.members[0], Cons(RBRACE, Nil));
  }

  lemma {:induction false} PrintedEntriesAreClean(name: bytes, rels: Listing)
    requires ListingOk(rels) && NoImportNames(name, rels)
    ensures |PrintEntries(rels)| == |rels|
    ensures forall i :: 0 <= i < |rels| ==> EntryPrinted(PrintEntries(rels)[i]) && EntryClean(PrintEntries(rels)[i])
  {
    PrintEntriesOk(rels);
    var es := PrintEntries(rels);
    hide PrintEntries, EntryPrinted, Clean, NoImportIn, Build, ListingOk;
    forall i | 0 <= i < |es| ensures EntryPrinted(es[i]) && EntryClean(es[i]) {
      assert EntryPrints(es[i], rels[i]);
    }
  }

  lemma {:induction false} CloseIsWhole()
    ensures Truncate(CLOSE) == CLOSE
  {
  }

  lemma {:induction false} CleanTokensHaveNoImports(name: bytes, es: seq<Entry>)
    requires name != "import" && forall i :: 0 <= i < |es| ==> EntryOk(es[i])
    requires forall i :: 0 <= i < |es| ==> EntryPrinted(es[i]) && EntryClean(es[i])
    ensures NoImports(PrintedTokens(name, es))
  {
    WordImport(name);
    CloseIsWhole();
    hide Truncate, IsImport, LookupIdent, HeaderThen, EntryOk, EntryPrinted, EntryClean, EntriesThen;
    TruncateEntries(es, CLOSE);
    HeaderHasNoImports(name, EntriesThen(es, CLOSE));
  }

  lemma {:induction false} PrintedHasNoImports(name: bytes, rels: Listing)
    requires IsIdent(name) && ListingOk(rels) && NoImportNames(name, rels)
    ensures NoImports(SourceTokens(PrintSchema(name, rels)))
  {
    PrintedTokensAre(name, rels);
    PrintedEntriesAreClean(name, rels);
    hide PrintEntries, PrintSchema, SourceTokens, EntriesPrint, EntryOk, EntryPrinted, EntryClean, ListingOk, IsIdent,
         NoImports, PrintedTokens;
    CleanTokensHaveNoImports(name, PrintEntries(rels));
  }

  lemma {:induction false} NoImportsCons(t: Token, rest: Tokens)
    requires !IsImport(t) && NoImports(rest)
    ensures NoImports(Cons(t, rest))
  {
  }

  lemma {:induction false} HeaderHasNoImports(name: bytes, entries: Tokens)
    requires NoImports(entries) && !IsImport(Word(name))
    ensures NoImports(HeaderThen(Source(name, true, []), Cons(PERMITS, Cons(EQUAL, Cons(LBRACE, entries)))))
  {
    hide Truncate, NoImports, LookupIdent;
    var inner := Cons(LBRACE, entries);
    var block := Cons(PERMITS, Cons(EQUAL, inner));
    var body := Cons(LBRACE, block);
    NoImportsCons(LBRACE, entries);
    NoImportsCons(EQUAL, inner);
    NoImportsCons(PERMITS, Cons(EQUAL, inner));
    NoImportsCons(LBRACE, block);
    NoImportsCons(NAMESPACE, body);
    NoImportsCons(IMPLEMENTS, Cons(NAMESPACE, body));
    NoImportsCons(Word(name), Cons(IMPLEMENTS, Cons(NAMESPACE, body)));
    NoImportsCons(CLASS, Cons(Word(name), Cons(IMPLEMENTS, Cons(NAMESPACE, body))));
  }

  // ------------------------------------------------------------ round trip

  lemma {:induction false} CollectGivesMap(es: seq<Entry>, before: Relations, m: Relations)
    requires forall i :: 0 <= i < |es| ==> es[i].name in m && m[es[i].name] == Build(es[i].body)
    requires forall n :: n in before ==> n in m && m[n] == before[n]
    requires forall n :: n in m ==> n in before || exists i :: 0 <= i < |es| && es[i].name == n
    ensures Collect(es, before) == m
    decreases |es|
  {
    if es != [] {
      var next := before[es[0].name := Build(es[0].body)];
      forall n | n in m && n !in next ensures exists i :: 0 <= i < |es[1..]| && es[1..][i].name == n {
        var i :| 0 <= i < |es| && es[i].name == n;
        assert es[1..][i - 1].name == n;
      }
      CollectGivesMap(es[1..], next, m);
    }
  }

  lemma {:induction false} PrintedEntriesGiveMap(m: Relations, rels: Listing)
    requires ListingOk(rels) && Lists(rels, m)
    ensures Collect(PrintEntries(rels), map[]) == m
  {
    PrintEntriesOk(rels);
    var es := PrintEntries(rels);
    hide EntryPrinted, Clean, NoImportIn, Build, ListingOk, PrintEntries;
    forall i | 0 <= i < |es| ensures es[i].name in m && m[es[i].name] == Build(es[i].body) {
      assert EntryPrints(es[i], rels[i]);
    }
    forall n | n in m ensures exists i :: 0 <= i < |es| && es[i].name == n {
      var i :| 0 <= i < |rels| && rels[i].0 == n;
      assert EntryPrints(es[i], rels[i]);
    }
    CollectGivesMap(es, map[], m);
  }

  /**
    Round trip from text. Take a schema whose trees are in normal form and in which nothing is
    called import, list its relations in any order, lay the printed tokens out in any way, with
    anything after the closing brace: parsing gives back exactly the schema.
   */
  lemma {:induction false} RoundTrip(name: bytes, m: Relations, rels: Listing, text: Text, turns: nat)
    requires IsIdent(name) && ListingOk(rels) && Lists(rels, m) && NoImportNames(name, rels) && turns >= 1
    requires TextOk(text) && TokensOf(text) == SourceTokens(PrintSchema(name, rels))
    ensures ParseNamespace(Render(text), turns) == Schema(name, m)
  {
    PrintedHasNoImports(name, rels);
    PrintedEntriesGiveMap(m, rels);
    hide TextOk, TokensOf, SourceTokens, Render, ParseNamespace, NoImports, NoImportNames, ListingOk, Lists, IsIdent;
    var src := PrintSchema(name, rels);
    LaidOutSourceIsParsed(src, text, turns);
    assert src.members[1..] == [];
    assert CollectMembers(src.members, map[]) == Collect(PrintEntries(rels), map[]);
  }

  // ------------------------------------------------------ neat text

  /** A token that is written as its literal and does not end an import statement. */
  predicate IsWritten(t: Token) {
    IsLexeme(t) && t.kind != Semicolon && t.kind != EOF
  }

  /** A complete list of such tokens. */
  predicate Lexemes(toks: Tokens) {
    match toks
    case Nil => true
    case Cut => false
    case Cons(t, more) => IsWritten(t) && Lexemes(more)
  }

  lemma {:induction false} LexCons(t: Token, rest: Tokens)
    requires IsWritten(t) && Lexemes(rest)
    ensures Lexemes(Cons(t, rest))
  {
  }

  lemma {:induction false} PunctuationLex(t: Token)
    requires t in {LPAREN, RPAREN, LBRACE, RBRACE, DOT, COLON, COMMA, EQUAL, ARROW, OR, AND}
    ensures IsWritten(t)
  {
  }

  lemma {:induction false} KeywordLex(t: Token)
    requires t in {THIS, CTX, CLASS, RELATED, PERMITS}
    ensures IsWritten(t)
  {
    assert IsName("this") && IsName("ctx") && IsName("class") && IsName("related") && IsName("permits");
    assert "subject"[0] != "related"[0] && "subject"[0] != "permits"[0] && "related"[0] != "permits"[0];
  }

  lemma {:induction false} LongWordsLex()
    ensures IsWritten(IMPLEMENTS) && IsWritten(NAMESPACE) && IsWritten(TRAVERSE) && IsWritten(PARAM)
  {
    hide IsWritten;
    ClassWordsLex();
    TraverseWordsLex();
  }

  lemma {:induction false} ClassWordsLex()
    ensures IsWritten(IMPLEMENTS) && IsWritten(NAMESPACE)
  {
    assert IsName("implements") && IsName("Namespace");
  }

  lemma {:induction false} TraverseWordsLex()
    ensures IsWritten(TRAVERSE) && IsWritten(PARAM)
  {
    assert IsName("traverse") && IsName("p");
    assert "includes"[0] != "traverse"[0];
  }

  lemma {:induction false} WordLex(n: bytes)
    requires IsName(n)
    ensures IsWritten(Word(n))
  {
  }

  lemma {:induction false} FixedLex(kind: TokenType, after: After)
    requires kind in {This, Related, LParen, RParen, Arrow, Colon, Dot}
    ensures IsWritten(TokenOf(Fixed(kind, after)))
  {
    var t := TokenOf(Fixed(kind, after));
    if t == THIS || t == RELATED {
      KeywordLex(t);
    } else {
      PunctuationLex(t);
    }
  }

  lemma {:induction false} ItemsAreLexemes(items: Items, rest: Tokens)
    requires (forall t :: t in ExactTokens(items) ==> IsWritten(t)) && KindsOk(items) && Lexemes(rest)
    ensures Lexemes(ItemsThen(items, rest))
    decreases items
  {
    if items.Then? {
      if items.item.Fixed? {
        FixedLex(items.item.kind, items.item.after);
      }
      hide IsWritten;
      ItemsAreLexemes(items.rest, rest);
    }
  }

  lemma {:induction false} NamesLex(l: LeafText)
    requires LeafPrinted(l)
    ensures IsWritten(l.relation) && (l.suffix.Traverse? ==> IsWritten(l.suffix.computed))
  {
    hide IsWritten, LookupIdent, IsName;
    WordLex(l.relation.literal);
    if l.suffix.Traverse? {
      WordLex(l.suffix.computed.literal);
    }
  }

  lemma {:induction false} LeafTokensLex(l: LeafText)
    requires LeafPrinted(l)
    ensures forall t :: t in ExactTokens(LeafItems(l)) ==> IsWritten(t)
  {
    hide LeafItems, IsWritten, LeafPrinted, ExactTokens;
    LeafExacts(l);
    LongWordsLex();
    NamesLex(l);
  }

  lemma {:induction false} LeafLex(l: LeafText, rest: Tokens)
    requires LeafPrinted(l) && Lexemes(rest)
    ensures Lexemes(ItemsThen(LeafItems(l), rest))
  {
    LeafTokensLex(l);
    LeafItemsOk(l);
    hide LeafPrinted, LeafItems, IsWritten, ExactTokens, KindsOk, DotsLast, Lexemes, ItemsThen;
    ItemsAreLexemes(LeafItems(l), rest);
  }

  lemma {:induction false} ExprLex(e: Expr, rest: Tokens)
    requires LeavesPrinted(e) && Lexemes(rest)
    ensures Lexemes(ExprThen(e, rest))
    decreases e
  {
    hide IsWritten, LeafPrinted, Lexemes;
    match e
    case Leaf(l) => LeafLex(l, rest);
    case Paren(inner) =>
      PunctuationLex(RPAREN);
      LexCons(RPAREN, rest);
      ExprLex(inner, Cons(RPAREN, rest));
      PunctuationLex(LPAREN);
      LexCons(LPAREN, ExprThen(inner, Cons(RPAREN, rest)));
    case Or(l, r) =>
      ExprLex(r, rest);
      PunctuationLex(OR);
      LexCons(OR, ExprThen(r, rest));
      ExprLex(l, Cons(OR, ExprThen(r, rest)));
    case And(l, r) =>
      ExprLex(r, rest);
      PunctuationLex(AND);
      LexCons(AND, ExprThen(r, rest));
      ExprLex(l, Cons(AND, ExprThen(r, rest)));
  }

  lemma {:induction false} EntryLex(e: Entry, rest: Tokens)
    requires EntryPrinted(e) && Lexemes(rest)
    ensures Lexemes(EntryThen(e, rest))
  {
    hide IsWritten, IsOr, LookupIdent, IsName, LeavesPrinted, ExprThen, Lexemes;
    PunctuationLex(COMMA);
    LexCons(COMMA, rest);
    ExprLex(e.body, Cons(COMMA, rest));
    PunctuationLex(ARROW);
    LexCons(ARROW, ExprThen(e.body, Cons(COMMA, rest)));
    SignatureLex(e, BodyThen(e, rest));
  }

  lemma {:induction false} SignatureLex(e: Entry, body: Tokens)
    requires EntryPrinted(e) && Lexemes(body)
    ensures Lexemes(SignatureThen(e, body))
  {
    WordLex(e.name);
    PunctuationLex(RPAREN);
    KeywordLex(CTX);
    PunctuationLex(LPAREN);
    PunctuationLex(COLON);
    hide IsWritten, IsOr, LookupIdent, IsName, LeavesPrinted, Lexemes;
    assert [CTX][1..] == [];
    var close := Cons(RPAREN, body);
    assert SeqThen([CTX], close) == Cons(CTX, close);
    var open := Cons(LPAREN, Cons(CTX, close));
    LexCons(RPAREN, body);
    LexCons(CTX, close);
    LexCons(LPAREN, Cons(CTX, close));
    LexCons(COLON, open);
    LexCons(Word(e.name), Cons(COLON, open));
  }

  lemma {:induction false} EntriesLex(es: seq<Entry>, rest: Tokens)
    requires forall i :: 0 <= i < |es| ==> EntryOk(es[i])
    requires (forall i :: 0 <= i < |es| ==> EntryPrinted(es[i])) && Lexemes(rest)
    ensures Lexemes(EntriesThen(es, rest))
    decreases |es|
  {
    hide EntryPrinted, EntryOk, EntryThen, Lexemes;
    if es != [] {
      EntriesLex(es[1..], rest);
      EntryLex(es[0], EntriesThen(es[1..], rest));
    }
  }

  lemma {:induction false} HeaderLex(name: bytes, entries: Tokens)
    requires IsName(name) && Lexemes(entries)
    ensures Lexemes(HeaderThen(Source(name, true, []), Cons(PERMITS, Cons(EQUAL, Cons(LBRACE, entries)))))
  {
    WordLex(name);
    LongWordsLex();
    KeywordLex(CLASS);
    KeywordLex(PERMITS);
    PunctuationLex(EQUAL);
    PunctuationLex(LBRACE);
    hide IsWritten, LookupIdent, IsName, Lexemes;
    var inner := Cons(LBRACE, entries);
    var block := Cons(PERMITS, Cons(EQUAL, inner));
    var body := Cons(LBRACE, block);
    LexCons(LBRACE, entries);
    LexCons(EQUAL, inner);
    LexCons(PERMITS, Cons(EQUAL, inner));
    LexCons(LBRACE, block);
    LexCons(NAMESPACE, body);
    LexCons(IMPLEMENTS, Cons(NAMESPACE, body));
    LexCons(Word(name), Cons(IMPLEMENTS, Cons(NAMESPACE, body)));
    LexCons(CLASS, Cons(Word(name), Cons(IMPLEMENTS, Cons(NAMESPACE, body))));
  }

  lemma {:induction false} PrintedLex(name: bytes, rels: Listing)
    requires IsIdent(name) && ListingOk(rels)
    ensures Lexemes(SourceTokens(PrintSchema(name, rels)))
  {
    PrintedTokensAre(name, rels);
    var es := PrintEntries(rels);
    assert Lexemes(CLOSE) by {
      PunctuationLex(RBRACE);
      LexCons(RBRACE, Nil);
      LexCons(RBRACE, Cons(RBRACE, Nil));
    }
    hide PrintEntries, PrintSchema, SourceTokens, IsWritten, ListingOk, EntryOk, LookupIdent, IsName, Lexemes, HeaderThen,
         EntriesThen, EntryPrinted;
    forall i | 0 <= i < |es| ensures EntryPrinted(es[i]) {
      assert EntryPrints(es[i], rels[i]);
    }
    EntriesLex(es, CLOSE);
    HeaderLex(name, EntriesThen(es, CLOSE));
  }

  /** No blank is written between these two tokens. */
  predicate Glued(a: Token, b: Token) {
    a in {DOT, LPAREN} || b in {DOT, RPAREN, COMMA, COLON}
  }

  function GapBetween(a: Token, b: Token): seq<GapItem> {
    if Glued(a, b) then [] else [Blank(' ')]
  }

  /** The tokens written after prev. */
  function NeatAfter(prev: Token, toks: Tokens): Text
    decreases toks
  {
    if toks.Cons? then Piece(GapBetween(prev, toks.head), toks.head, toks.head.literal, NeatAfter(toks.head, toks.tail))
    else End([])
  }

  /** The tokens as a person would write them on one line. */
  function Neat(toks: Tokens): Text
    requires toks.Cons?
  {
    Piece([], toks.head, toks.head.literal, NeatAfter(toks.head, toks.tail))
  }

  /** What is written for t after prev. */
  function Lead(prev: Token, t: Token): bytes {
    if Glued(prev, t) then t.literal else " " + t.literal
  }

  lemma {:induction false} OneBlank()
    ensures RenderGap([Blank(' ')]) == " " && GapOk([Blank(' ')]) && RenderGap([]) == "" && GapOk([])
  {
    assert RenderGap([Blank(' ')]) == [' '] + RenderGap([Blank(' ')][1..]);
  }

  lemma {:induction false} GapLeads(a: Token, b: Token, after: bytes)
    ensures GapOk(GapBetween(a, b)) && RenderGap(GapBetween(a, b)) + (b.literal + after) == Lead(a, b) + after
  {
    OneBlank();
    hide Glued, GapOk, RenderGap;
    if Glued(a, b) {
      assert "" + (b.literal + after) == b.literal + after;
    } else {
      assert " " + (b.literal + after) == " " + b.literal + after;
    }
  }

  lemma {:induction false} NeatStep(prev: Token, t: Token, rest: Tokens)
    ensures Render(NeatAfter(prev, Cons(t, rest))) == Lead(prev, t) + Render(NeatAfter(t, rest))
  {
    GapLeads(prev, t, Render(NeatAfter(t, rest)));
    hide Lead, RenderGap, GapBetween;
  }

  /** The first byte written after prev. */
  lemma {:induction false} LeadHead(prev: Token, t: Token, after: bytes)
    requires IsWritten(t)
    ensures At(Lead(prev, t) + after, 0) == if Glued(prev, t) then t.literal[0] else ' '
  {
    hide Glued;
  }

  lemma {:induction false} LexemeIsSeparate(t: Token, after: bytes)
    requires IsWritten(t) && (t in {DOT, LPAREN} || At(after, 0) in {' ', NUL, '.', ')', ',', ':'})
    ensures Separated(t, t.literal, after) && Spells(t.literal, t)
  {
  }

  lemma {:induction false} NeatIsSeparate(t: Token, rest: Tokens)
    requires IsWritten(t) && Lexemes(rest)
    ensures Separated(t, t.literal, Render(NeatAfter(t, rest))) && Spells(t.literal, t)
  {
    if rest.Cons? {
      NeatStep(t, rest.head, rest.tail);
      LeadHead(t, rest.head, Render(NeatAfter(rest.head, rest.tail)));
    }
    hide IsWritten, Separated, Spells, Lead;
    LexemeIsSeparate(t, Render(NeatAfter(t, rest)));
  }

  lemma {:induction false} NeatAfterOk(prev: Token, toks: Tokens)
    requires Lexemes(toks)
    ensures var text := NeatAfter(prev, toks);
            TextOk(text) && TokensOf(text) == toks && Remainder(text) == []
    decreases toks
  {
    hide IsWritten, Separated, Spells, GapBetween, GapOk;
    if toks.Cons? {
      NeatAfterOk(toks.head, toks.tail);
      NeatIsSeparate(toks.head, toks.tail);
      GapLeads(prev, toks.head, []);
    }
  }

  lemma {:induction false} NeatOk(toks: Tokens)
    requires toks.Cons? && Lexemes(toks)
    ensures TextOk(Neat(toks)) && TokensOf(Neat(toks)) == toks && Remainder(Neat(toks)) == []
    ensures Render(Neat(toks)) == toks.head.literal + Render(NeatAfter(toks.head, toks.tail))
  {
    hide IsWritten, Separated, Spells;
    NeatAfterOk(toks.head, toks.tail);
    NeatIsSeparate(toks.head, toks.tail);
    OneBlank();
    var after := toks.head.literal + Render(NeatAfter(toks.head, toks.tail));
    assert "" + after == after;
  }

  /** The text of a schema on one line. */
  function Print(name: bytes, rels: Listing): bytes
    requires IsIdent(name) && ListingOk(rels)
  {
    Render(Neat(SourceTokens(PrintSchema(name, rels))))
  }

  lemma {:induction false} StartsWithClass(name: bytes, rels: Listing)
    requires IsIdent(name) && ListingOk(rels)
    ensures var toks := SourceTokens(PrintSchema(name, rels));
            toks.head == CLASS && toks.tail.Cons? && toks.tail.head == Word(name)
  {
    PrintedTokensAre(name, rels);
    hide PrintSchema, SourceTokens, PrintEntries, EntriesThen, EntryOk, EntriesPrint, IsIdent, ListingOk, LookupIdent;
  }

  lemma {:induction false} ClassThenBlank(name: bytes, rest: bytes)
    ensures "class " <= "class" + (" " + name + rest)
  {
    assert "class" + (" " + name + rest) == "class " + (name + rest);
  }

  lemma {:induction false} NeatStartsWithClass(toks: Tokens, name: bytes)
    requires Lexemes(toks) && toks.Cons? && toks.head == CLASS && toks.tail.Cons? && toks.tail.head == Word(name)
    ensures "class " <= Render(Neat(toks))
  {
    NeatOk(toks);
    NeatStep(CLASS, Word(name), toks.tail.tail);
    assert Lead(CLASS, Word(name)) == " " + name;
    ClassThenBlank(name, Render(NeatAfter(Word(name), toks.tail.tail)));
    hide Lexemes, Neat, NeatAfter, Render, Lead;
  }

  lemma {:induction false} PrintIsNeat(name: bytes, rels: Listing)
    requires IsIdent(name) && ListingOk(rels)
    ensures var toks := SourceTokens(PrintSchema(name, rels));
            TextOk(Neat(toks)) && TokensOf(Neat(toks)) == toks && Remainder(Neat(toks)) == []
            && "class " <= Print(name, rels)
  {
    PrintedLex(name, rels);
    StartsWithClass(name, rels);
    hide PrintSchema, IsIdent, ListingOk, Lexemes, TextOk, SourceTokens, Neat, NeatAfter, Render, TokensOf, Remainder;
    NeatOk(SourceTokens(PrintSchema(name, rels)));
    NeatStartsWithClass(SourceTokens(PrintSchema(name, rels)), name);
  }

  /** Parse drops what stands before the first "class ". */
  lemma {:induction false} PreambleIsCut(before: bytes, s: bytes)
    requires "class " <= s
    requires forall k :: 0 <= k < |before| ==> !("class " <= (before + s)[k..])
    ensures ClassText(before + s) == s
  {
    var whole := before + s;
    assert whole[|before|..] == s;
    var idx := IndexFrom(whole, "class ", 0);
    assert idx.Some? && idx.value <= |before|;
    assert "class " <= whole[idx.value..] by {
      assert whole[idx.value..][..6] == whole[idx.value..idx.value + 6];
    }
  }

  lemma {:induction false} ClassTextFromStart(s: bytes)
    requires "class " <= s
    ensures ClassText(s) == s
  {
    PreambleIsCut([], s);
    assert [] + s == s;
  }

  /**
    The round trip through Parse: the same for any laid-out text that starts with "class ", also
    behind a preamble such as import lines, as long as "class " does not occur earlier.
   */
  lemma {:induction false} ParseIsRoundTrip(before: bytes, name: bytes, m: Relations, rels: Listing, text: Text, turns: nat)
    requires IsIdent(name) && ListingOk(rels) && Lists(rels, m) && NoImportNames(name, rels) && turns >= 1
    requires TextOk(text) && TokensOf(text) == SourceTokens(PrintSchema(name, rels))
    requires "class " <= Render(text)
    requires forall k :: 0 <= k < |before| ==> !("class " <= (before + Render(text))[k..])
    ensures Parse(before + Render(text), turns) == Schema(name, m)
  {
    hide TextOk, TokensOf, SourceTokens, Render, ParseNamespace, PrintSchema, NoImportNames, ListingOk, Lists, IsIdent;
    RoundTrip(name, m, rels, text, turns);
    PreambleIsCut(before, Render(text));
  }
}
