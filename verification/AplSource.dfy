/**
  Whole source files of the permission language as abstract syntax with their token lists, and
  the proof that the parser, run on any text with those tokens, returns the promised schema.
 */
module AplSource {
  import opened Bytes
  import opened AplLexer
  import opened AplParser
  import opened AplLeaf
  import opened AplGrammar

  // --------------------------------------------------------------- tokens

  function Word(n: bytes): Token {
    Token(LookupIdent(n), n)
  }

  const THIS := Token(This, "this")
  const RELATED := Token(Related, "related")
  const TRAVERSE := Token(TokenType.Traverse, "traverse")
  const CTX := Token(Ctx, "ctx")
  const CLASS := Token(Class, "class")
  const IMPLEMENTS := Token(Implements, "implements")
  const NAMESPACE := Token(Namespace, "Namespace")
  const PERMITS := Token(Permits, "permits")
  const LPAREN := Token(LParen, "(")
  const RPAREN := Token(RParen, ")")
  const LBRACE := Token(LBrace, "{")
  const RBRACE := Token(RBrace, "}")
  const DOT := Token(Dot, ".")
  const COLON := Token(Colon, ":")
  const SEMICOLON := Token(Semicolon, ";")
  const COMMA := Token(Comma, ",")
  const EQUAL := Token(Equal, "=")
  const ARROW := Token(Arrow, "=>")
  const OR := Token(OrOr, "||")
  const AND := Token(AndAnd, "&&")
  const PARAM := Token(Ident, "p")

  /** `Cut` ends a list in front of an import that no semicolon follows. */
  datatype Tokens = Nil | Cut | Cons(head: Token, tail: Tokens)

  /** The token written for an item. */
  function TokenOf(item: Item): Token {
    match item
    case Exact(t, _) => t
    case Fixed(kind, _) =>
      match kind
      case This => THIS
      case Related => RELATED
      case LParen => LPAREN
      case RParen => RPAREN
      case Arrow => ARROW
      case Colon => COLON
      case _ => DOT
  }

  function ItemsThen(items: Items, rest: Tokens): (toks: Tokens)
    ensures rest.Cons? ==> toks.Cons?
  {
    match items
    case Done => rest
    case Then(item, more) => Cons(TokenOf(item), ItemsThen(more, rest))
  }

  function ExprThen(e: Expr, rest: Tokens): (toks: Tokens)
    ensures toks.Cons? && toks.head in {THIS, LPAREN}
    decreases e
  {
    match e
    case Leaf(l) => ItemsThen(LeafItems(l), rest)
    case Paren(inner) => Cons(LPAREN, ExprThen(inner, Cons(RPAREN, rest)))
    case Or(l, r) => ExprThen(l, Cons(OR, ExprThen(r, rest)))
    case And(l, r) => ExprThen(l, Cons(AND, ExprThen(r, rest)))
  }

  // ------------------------------------------------- following the tokens

  /** From position p on the lexer yields no semicolon, only tokens and then EOF for ever. */
  predicate Dead(s: bytes, p: nat)
    decreases |s| - p
  {
    var (t, q) := Lex(s, p);
    if t.kind == EOF then t.literal == [] && q > |s| else t.kind != Semicolon && Dead(s, q)
  }

  /** Successive calls of the lexer from position p yield these tokens, none of them `import`. */
  predicate Ahead(s: bytes, p: nat, toks: Tokens)
    decreases toks
  {
    match toks
    case Nil => true
    case Cut => IsImport(Lex(s, p).0) && Dead(s, Lex(s, p).1)
    case Cons(t, more) => Lex(s, p).0 == t && !IsImport(t) && Ahead(s, Lex(s, p).1, more)
  }

  /** The parser stands at the first of these tokens; the others are in the window and ahead. */
  predicate Sees(s: bytes, st: PState, toks: Tokens) {
    toks.Cons? && st.cur == toks.head
    && match toks.tail
       case Nil => true
       case Cut => IsImport(st.peek) && Dead(s, st.pos)
       case Cons(t, more) => st.peek == t && !IsImport(t) && Ahead(s, st.pos, more)
  }

  lemma {:induction false} Advances(s: bytes, st: PState, toks: Tokens)
    requires Sees(s, st, toks) && toks.tail.Cons?
    ensures Sees(s, Next(s, st), toks.tail)
  {
  }

  lemma {:induction false} StartSees(s: bytes, toks: Tokens)
    requires toks.Cons? && Ahead(s, 0, toks)
    ensures Sees(s, Start(s), toks)
  {
  }

  /** The tokens from the first one of the given kind (or EOF) on. */
  function DropTo(toks: Tokens, kind: TokenType): Tokens {
    if !toks.Cons? || toks.head.kind == kind || toks.head.kind == EOF then toks
    else DropTo(toks.tail, kind)
  }

  lemma {:induction false} SkipsTo(s: bytes, st: PState, toks: Tokens, kind: TokenType)
    requires Sees(s, st, toks) && DropTo(toks, kind).Cons?
    ensures Sees(s, SkipTo(s, st, kind), DropTo(toks, kind))
    decreases toks
  {
    if toks.head.kind != kind && toks.head.kind != EOF {
      Advances(s, st, toks);
      SkipsTo(s, Next(s, st), toks.tail, kind);
    }
  }

  // ---------------------------------------------------------- expressions

  /** A token that no dot may follow comes last. */
  predicate DotsLast(items: Items) {
    items.Then? ==> (items.item.after == NoDot ==> items.rest.Done?) && DotsLast(items.rest)
  }

  /** The kinds that `TokenOf` knows how to write. */
  predicate KindsOk(items: Items) {
    items.Then? ==>
      (items.item.Fixed? ==> items.item.kind in {This, Related, LParen, RParen, Arrow, Colon, Dot})
      && KindsOk(items.rest)
  }

  lemma {:induction false} ExactsOk(ts: seq<Token>, rest: Items)
    requires DotsLast(rest) && KindsOk(rest)
    ensures DotsLast(ExactsThen(ts, rest)) && KindsOk(ExactsThen(ts, rest))
  {
    if ts != [] {
      ExactsOk(ts[1..], rest);
    }
  }

  lemma {:induction false} MethodItemsOk(x: Suffix)
    requires !x.Bare?
    ensures DotsLast(MethodItems(x)) && KindsOk(MethodItems(x))
  {
    match x
    case Call(_) =>
    case Includes(skipped, close) => ExactsOk(skipped, Then(Exact(close, Loose), Done));
    case Traverse(_, p, binder, computed) =>
      BodyItemsOk(binder, computed);
      var body := BodyItems(binder, computed);
      hide BodyItems;
      assert DotsLast(Then(Fixed(RParen, Loose), body)) && KindsOk(Then(Fixed(RParen, Loose), body));
      if p.InParens? && p.type_.Some? {
        var typed := Then(Exact(p.type_.value, Loose), Then(Fixed(RParen, Loose), body));
        assert DotsLast(typed) && KindsOk(typed);
        assert DotsLast(Then(Fixed(Colon, Loose), typed)) && KindsOk(Then(Fixed(Colon, Loose), typed));
      }
      assert DotsLast(ParameterThen(p, body)) && KindsOk(ParameterThen(p, body));
  }

  lemma {:induction false} BodyItemsOk(binder: Option<Token>, computed: Token)
    ensures DotsLast(BodyItems(binder, computed)) && KindsOk(BodyItems(binder, computed))
  {
    var close := Then(Exact(computed, Loose), Then(Fixed(RParen, Loose), Done));
    assert DotsLast(close) && KindsOk(close);
    assert DotsLast(TargetItems(computed)) && KindsOk(TargetItems(computed));
  }

  lemma {:induction false} LeafItemsOk(l: LeafText)
    ensures DotsLast(LeafItems(l)) && KindsOk(LeafItems(l))
  {
    if !l.suffix.Bare? {
      MethodItemsOk(l.suffix);
    }
    hide MethodItems;
    var use := UseItems(l);
    assert DotsLast(use) && KindsOk(use);
    hide UseItems;
    assert DotsLast(Then(Fixed(Related, Tight), Then(Fixed(Dot, Loose), use)));
    assert KindsOk(Then(Fixed(Related, Tight), Then(Fixed(Dot, Loose), use)));
  }

  lemma {:induction false} ItemsAreRead(s: bytes, st: PState, items: Items, rest: Tokens)
    requires Sees(s, st, ItemsThen(items, rest)) && rest.Cons? && rest.head.kind != Dot
    requires DotsLast(items) && KindsOk(items)
    ensures var r := ReadItems(s, items, st);
            r.Some? && Sees(s, r.value, rest)
    decreases items
  {
    if items.Then? {
      Advances(s, st, ItemsThen(items, rest));
      ItemFits(s, st, items, rest);
      ItemsAreRead(s, Next(s, st), items.rest, rest);
      hide Next, Ahead, Sees, Fits;
    }
  }

  lemma {:induction false} ItemFits(s: bytes, st: PState, items: Items, rest: Tokens)
    requires items.Then? && Sees(s, st, ItemsThen(items, rest)) && rest.Cons? && rest.head.kind != Dot
    requires DotsLast(items) && KindsOk(items)
    ensures Fits(items.item, st)
  {
    hide Ahead;
  }

  /** A text with the tokens of derivation e is read by e, whatever follows it but a dot. */
  lemma {:induction false} ExprIsRead(s: bytes, st: PState, e: Expr, rest: Tokens)
    requires Sees(s, st, ExprThen(e, rest)) && rest.Cons? && rest.head.kind != Dot
    ensures var r := Reads(s, e, st);
            r.Some? && Sees(s, r.value, rest)
    decreases e
  {
    hide Next, Ahead;
    match e
    case Leaf(l) =>
      LeafItemsOk(l);
      ItemsAreRead(s, st, LeafItems(l), rest);
    case Paren(inner) =>
      Advances(s, st, ExprThen(e, rest));
      ExprIsRead(s, Next(s, st), inner, Cons(RPAREN, rest));
      Advances(s, Reads(s, inner, Next(s, st)).value, Cons(RPAREN, rest));
    case Or(l, r) =>
      var after := Cons(OR, ExprThen(r, rest));
      ExprIsRead(s, st, l, after);
      var m := Reads(s, l, st).value;
      Advances(s, m, after);
      ExprIsRead(s, Next(s, m), r, rest);
    case And(l, r) =>
      var after := Cons(AND, ExprThen(r, rest));
      ExprIsRead(s, st, l, after);
      var m := Reads(s, l, st).value;
      Advances(s, m, after);
      ExprIsRead(s, Next(s, m), r, rest);
  }

  lemma {:induction false} ExprIsParsed(s: bytes, st: PState, e: Expr, rest: Tokens)
    requires IsOr(e) && Sees(s, st, ExprThen(e, rest))
    requires rest.Cons? && rest.head.kind !in {Dot, OrOr, AndAnd}
    ensures var r := ParseOr(s, st);
            r.Ok? && r.tree == Build(e) && Sees(s, r.st, rest)
  {
    ExprIsRead(s, st, e, rest);
    OrIsParsed(s, e, st);
    hide Next, Size, Ahead, ParseOr, Reads, Build, ExprThen;
  }

  // ---------------------------------------------------------- class bodies

  datatype Separator = NoSeparator | CommaSeparator | SemicolonSeparator

  datatype Arguments = Parenthesised(tokens: seq<Token>) | OneArgument(token: Token) | Absent

  /** `name: arguments: answers => body` and what separates it from the next one. */
  datatype Entry = Entry(name: bytes, colon: bool, arguments: Arguments, answers: Option<Token>,
                         body: Expr, separator: Separator)

  datatype Member =
    | RelatedBlock(content: seq<Token>, separator: Separator)
    | PermitsBlock(entries: seq<Entry>, semicolon: bool)

  datatype Source = Source(name: bytes, implements: bool, members: seq<Member>)

  /** The tokens that a block skipped up to `close` may contain. */
  predicate AllInside(ts: seq<Token>, close: TokenType) {
    forall i :: 0 <= i < |ts| ==> ts[i].kind != close && ts[i].kind != EOF
  }

  predicate ArgumentsOk(a: Arguments) {
    match a
    case Parenthesised(ts) => AllInside(ts, RParen)
    case OneArgument(t) => t.kind == Ctx || t.kind == Ident
    case Absent => true
  }

  /** Without arguments an answer type needs the colon after the name. */
  predicate EntryOk(e: Entry) {
    LookupIdent(e.name) == Ident && ArgumentsOk(e.arguments) && IsOr(e.body)
    && (e.arguments.Absent? && e.answers.Some? ==> e.colon)
  }

  predicate MemberOk(m: Member) {
    match m
    case RelatedBlock(content, _) => AllInside(content, RBrace)
    case PermitsBlock(entries, _) => forall i :: 0 <= i < |entries| ==> EntryOk(entries[i])
  }

  predicate SourceOk(src: Source) {
    LookupIdent(src.name) == Ident && forall i :: 0 <= i < |src.members| ==> MemberOk(src.members[i])
  }

  function SeqThen(ts: seq<Token>, rest: Tokens): (toks: Tokens)
    ensures rest.Cons? ==> toks.Cons?
  {
    if ts == [] then rest else Cons(ts[0], SeqThen(ts[1..], rest))
  }

  function SeparatorThen(sep: Separator, rest: Tokens): Tokens {
    match sep
    case NoSeparator => rest
    case CommaSeparator => Cons(COMMA, rest)
    case SemicolonSeparator => Cons(SEMICOLON, rest)
  }

  function ArgumentsThen(a: Arguments, rest: Tokens): (toks: Tokens)
    ensures rest.Cons? ==> toks.Cons?
  {
    match a
    case Parenthesised(ts) => Cons(LPAREN, SeqThen(ts, Cons(RPAREN, rest)))
    case OneArgument(t) => Cons(t, rest)
    case Absent => rest
  }

  function AnswersThen(answers: Option<Token>, rest: Tokens): (toks: Tokens)
    ensures rest.Cons? ==> toks.Cons?
  {
    if answers.Some? then Cons(COLON, Cons(answers.value, rest)) else rest
  }

  /** Everything of a permission before its arrow. */
  function SignatureThen(e: Entry, rest: Tokens): Tokens {
    var arguments := ArgumentsThen(e.arguments, AnswersThen(e.answers, rest));
    Cons(Word(e.name), if e.colon then Cons(COLON, arguments) else arguments)
  }

  function BodyThen(e: Entry, rest: Tokens): Tokens {
    Cons(ARROW, ExprThen(e.body, SeparatorThen(e.separator, rest)))
  }

  function EntryThen(e: Entry, rest: Tokens): (toks: Tokens)
    requires EntryOk(e)
    ensures toks.Cons? && toks.head.kind == Ident
  {
    SignatureThen(e, BodyThen(e, rest))
  }

  function EntriesThen(es: seq<Entry>, rest: Tokens): (toks: Tokens)
    requires forall i :: 0 <= i < |es| ==> EntryOk(es[i])
    ensures rest.Cons? ==> toks.Cons? && (toks.head.kind == Ident || toks.head == rest.head)
  {
    if es == [] then rest else EntryThen(es[0], EntriesThen(es[1..], rest))
  }

  function MemberThen(m: Member, rest: Tokens): (toks: Tokens)
    requires MemberOk(m)
    ensures toks.Cons? && toks.head in {RELATED, PERMITS}
  {
    match m
    case RelatedBlock(content, sep) =>
      Cons(RELATED, Cons(COLON, Cons(LBRACE, SeqThen(content, Cons(RBRACE, SeparatorThen(sep, rest))))))
    case PermitsBlock(entries, semicolon) =>
      Cons(PERMITS, Cons(EQUAL, Cons(LBRACE, EntriesThen(entries,
        Cons(RBRACE, if semicolon then Cons(SEMICOLON, rest) else rest)))))
  }

  function MembersThen(ms: seq<Member>, rest: Tokens): (toks: Tokens)
    requires forall i :: 0 <= i < |ms| ==> MemberOk(ms[i])
    ensures rest.Cons? ==> toks.Cons? && toks.head in {RELATED, PERMITS, rest.head}
  {
    if ms == [] then rest else MemberThen(ms[0], MembersThen(ms[1..], rest))
  }

  /** The class header, up to the opening brace. */
  function HeaderThen(src: Source, rest: Tokens): (toks: Tokens)
    ensures toks.Cons?
  {
    var body := Cons(LBRACE, rest);
    Cons(CLASS, Cons(Word(src.name), if src.implements then Cons(IMPLEMENTS, Cons(NAMESPACE, body)) else body))
  }

  function SourceTokens(src: Source): (toks: Tokens)
    requires SourceOk(src)
    ensures toks.Cons?
  {
    HeaderThen(src, MembersThen(src.members, Cons(RBRACE, Nil)))
  }

  /** The relations a list of permissions defines, later ones replacing earlier ones. */
  function Collect(es: seq<Entry>, before: Relations): Relations {
    if es == [] then before else Collect(es[1..], before[es[0].name := Build(es[0].body)])
  }

  function CollectMembers(ms: seq<Member>, before: Relations): Relations {
    if ms == [] then before
    else CollectMembers(ms[1..], if ms[0].PermitsBlock? then Collect(ms[0].entries, before) else before)
  }

  // ------------------------------------------------- class bodies are read

  lemma {:induction false} SeqDrops(ts: seq<Token>, close: Token, rest: Tokens)
    requires AllInside(ts, close.kind)
    ensures DropTo(SeqThen(ts, Cons(close, rest)), close.kind) == Cons(close, rest)
  {
    if ts != [] {
      SeqDrops(ts[1..], close, rest);
    }
  }

  lemma {:induction false} BlockIsSkipped(s: bytes, st: PState, ts: seq<Token>, close: Token, rest: Tokens)
    requires AllInside(ts, close.kind) && rest.Cons?
    requires Sees(s, st, SeqThen(ts, Cons(close, rest)))
    ensures Sees(s, Next(s, SkipTo(s, st, close.kind)), rest)
  {
    SeqDrops(ts, close, rest);
    SkipsTo(s, st, SeqThen(ts, Cons(close, rest)), close.kind);
    Advances(s, SkipTo(s, st, close.kind), Cons(close, rest));
  }

  lemma {:induction false} SeparatorIsSkipped(s: bytes, st: PState, sep: Separator, rest: Tokens)
    requires Sees(s, st, SeparatorThen(sep, rest)) && rest.Cons? && rest.head.kind !in {Comma, Semicolon}
    ensures Sees(s, SkipSeparator(s, st), rest)
  {
  }

  /** From the first argument token on, up to the colon or the arrow. */
  lemma {:induction false} ArgumentsAreSkipped(s: bytes, b: PState, a: Arguments, rest: Tokens)
    requires ArgumentsOk(a) && Sees(s, b, ArgumentsThen(a, rest)) && rest.Cons? && rest.head.kind in {Colon, Arrow}
    ensures var c := if b.cur.kind == LParen then Next(s, SkipTo(s, b, RParen))
                     else if b.cur.kind == Ctx || b.cur.kind == Ident then Next(s, b)
                     else b;
            Sees(s, c, rest)
  {
    hide Next, Size, Ahead;
    match a
    case Absent =>
    case OneArgument(t) => Advances(s, b, ArgumentsThen(a, rest));
    case Parenthesised(ts) =>
      var inside := [LPAREN] + ts;
      assert inside[1..] == ts;
      assert SeqThen(inside, Cons(RPAREN, rest)) == ArgumentsThen(a, rest);
      BlockIsSkipped(s, b, inside, RPAREN, rest);
  }

  lemma {:induction false} AnswersAreSkipped(s: bytes, c: PState, answers: Option<Token>, rest: Tokens)
    requires Sees(s, c, AnswersThen(answers, rest)) && rest.Cons? && rest.head.kind == Arrow
    ensures Sees(s, if c.cur.kind == Colon then Next(s, Next(s, c)) else c, rest)
  {
    hide Next, Size, Ahead;
    if answers.Some? {
      Advances(s, c, AnswersThen(answers, rest));
      Advances(s, Next(s, c), Cons(answers.value, rest));
    }
  }

  lemma {:induction false} SignatureIsSkipped(s: bytes, st: PState, e: Entry, rest: Tokens)
    requires EntryOk(e) && Sees(s, st, SignatureThen(e, rest)) && rest.Cons? && rest.head == ARROW
    ensures st.cur == Word(e.name) && st.cur.kind == Ident
    ensures Sees(s, SkipSignature(s, st), rest)
  {
    hide Next, Size, Ahead, IsOr, SkipTo, ArgumentsOk, AnswersThen, LookupIdent;
    var answers := AnswersThen(e.answers, rest);
    var arguments := ArgumentsThen(e.arguments, answers);
    var a := if e.colon then Next(s, st) else st;
    AnswersHead(e.answers, rest);
    if e.colon {
      Advances(s, st, SignatureThen(e, rest));
      Advances(s, a, Cons(COLON, arguments));
    } else {
      ArgumentsHead(e, rest);
      Advances(s, st, SignatureThen(e, rest));
    }
    var b := Next(s, a);
    ArgumentsAreSkipped(s, b, e.arguments, answers);
    hide ArgumentsThen;
    var c := if b.cur.kind == LParen then Next(s, SkipTo(s, b, RParen))
             else if b.cur.kind == Ctx || b.cur.kind == Ident then Next(s, b)
             else b;
    AnswersAreSkipped(s, c, e.answers, rest);
  }

  lemma {:induction false} AnswersHead(answers: Option<Token>, rest: Tokens)
    requires rest.Cons? && rest.head == ARROW
    ensures AnswersThen(answers, rest).Cons? && AnswersThen(answers, rest).head.kind in {Colon, Arrow}
  {
  }

  /** Without the colon after the name, no colon follows it. */
  lemma {:induction false} ArgumentsHead(e: Entry, rest: Tokens)
    requires EntryOk(e) && rest.Cons? && rest.head == ARROW && !e.colon
    ensures ArgumentsThen(e.arguments, AnswersThen(e.answers, rest)).head.kind != Colon
  {
  }

  /** A permission in any of its written forms defines its name, with the tree of its body. */
  lemma {:induction false} EntryIsRead(s: bytes, st: PState, e: Entry, rest: Tokens, before: Relations)
    requires EntryOk(e) && Sees(s, st, EntryThen(e, rest))
    requires rest.Cons? && rest.head.kind in {Ident, RBrace}
    ensures st.cur == Word(e.name) && st.cur.kind == Ident
    ensures var r := PermitsEntry(s, st, before);
            r.Parsed? && r.relations == before[e.name := Build(e.body)] && Sees(s, r.st, rest)
  {
    hide Next, Size, Ahead, Build, IsOr, ExprThen;
    SignatureIsSkipped(s, st, e, BodyThen(e, rest));
    var a := SkipSignature(s, st);
    var after := SeparatorThen(e.separator, rest);
    Advances(s, a, BodyThen(e, rest));
    ExprIsParsed(s, Next(s, a), e.body, after);
    SeparatorIsSkipped(s, ParseOr(s, Next(s, a)).st, e.separator, rest);
  }

  lemma {:induction false} EntriesAreRead(s: bytes, st: PState, es: seq<Entry>, rest: Tokens, before: Relations)
    requires forall i :: 0 <= i < |es| ==> EntryOk(es[i])
    requires rest.Cons? && rest.head == RBRACE && Sees(s, st, EntriesThen(es, rest))
    ensures var r := PermitsLoop(s, st, before);
            r.Parsed? && r.relations == Collect(es, before) && Sees(s, r.st, rest)
    decreases |es|
  {
    hide Next, Size, Ahead, Build, IsOr, ExprThen, EntryOk, PermitsEntry;
    if es != [] {
      EntryIsRead(s, st, es[0], EntriesThen(es[1..], rest), before);
      var entry := PermitsEntry(s, st, before);
      EntriesAreRead(s, entry.st, es[1..], rest, entry.relations);
    }
  }

  lemma {:induction false} PermitsIsOpened(s: bytes, st: PState, rest: Tokens)
    requires Sees(s, st, Cons(PERMITS, Cons(EQUAL, Cons(LBRACE, rest)))) && rest.Cons?
    ensures OpenPermits(s, st).Parsed? && Sees(s, OpenPermits(s, st).st, rest)
  {
    hide Next, Size, Ahead;
    var toks := Cons(PERMITS, Cons(EQUAL, Cons(LBRACE, rest)));
    Advances(s, st, toks);
    var a := Next(s, st);
    Advances(s, a, toks.tail);
    Advances(s, Next(s, a), toks.tail.tail);
  }

  lemma {:induction false} PermitsIsRead(s: bytes, c: ClassState, m: Member, rest: Tokens)
    requires MemberOk(m) && m.PermitsBlock? && Sees(s, c.st, MemberThen(m, rest))
    requires rest.Cons? && rest.head in {RELATED, PERMITS, RBRACE}
    ensures c.st.cur == PERMITS
    ensures var r := ParsePermits(s, c.st, c.relations);
            r.Parsed? && r.relations == Collect(m.entries, c.relations) && Sees(s, r.st, rest)
  {
    hide Next, Size, Ahead, EntryOk, OpenPermits, PermitsLoop;
    var close := Cons(RBRACE, if m.semicolon then Cons(SEMICOLON, rest) else rest);
    PermitsIsOpened(s, c.st, EntriesThen(m.entries, close));
    var body := OpenPermits(s, c.st).st;
    EntriesAreRead(s, body, m.entries, close, c.relations);
    var r := PermitsLoop(s, body, c.relations);
    Advances(s, r.st, close);
    if m.semicolon {
      Advances(s, Next(s, r.st), close.tail);
    }
  }

  lemma {:induction false} RelatedIsRead(s: bytes, st: PState, m: Member, rest: Tokens)
    requires MemberOk(m) && m.RelatedBlock? && Sees(s, st, MemberThen(m, rest))
    requires rest.Cons? && rest.head in {RELATED, PERMITS, RBRACE}
    ensures st.cur == RELATED
    ensures var r := ParseRelated(s, st);
            r.1 == [] && Sees(s, r.0, rest)
  {
    hide Size, Ahead;
    var toks := MemberThen(m, rest);
    Advances(s, st, toks);
    var a := Next(s, st);
    Advances(s, a, toks.tail);
    var b := Next(s, a);
    Advances(s, b, toks.tail.tail);
    BlockIsSkipped(s, Next(s, b), m.content, RBRACE, SeparatorThen(m.separator, rest));
    SeparatorIsSkipped(s, Next(s, SkipTo(s, Next(s, b), RBrace)), m.separator, rest);
  }

  lemma {:induction false} MemberIsRead(s: bytes, c: ClassState, m: Member, rest: Tokens)
    requires MemberOk(m) && Sees(s, c.st, MemberThen(m, rest))
    requires rest.Cons? && rest.head in {RELATED, PERMITS, RBRACE}
    ensures !AtBlockEnd(c.st)
    ensures var step := ClassStep(s, c);
            step.Go? && Sees(s, step.state.st, rest) && step.state.errors == c.errors
            && step.state.relations == if m.PermitsBlock? then Collect(m.entries, c.relations) else c.relations
  {
    hide Next, Size, Ahead, Build, IsOr, ExprThen, ParsePermits, ParseRelated, MemberOk, Collect;
    if m.PermitsBlock? {
      PermitsIsRead(s, c, m, rest);
    } else {
      RelatedIsRead(s, c.st, m, rest);
    }
  }

  lemma {:induction false} MembersAreRead(s: bytes, name: bytes, c: ClassState, ms: seq<Member>, turns: nat)
    requires forall i :: 0 <= i < |ms| ==> MemberOk(ms[i])
    requires Sees(s, c.st, MembersThen(ms, Cons(RBRACE, Nil))) && c.errors == [] && turns >= |ms|
    ensures ClassLoop(s, name, c, turns) == Schema(name, CollectMembers(ms, c.relations))
    decreases |ms|
  {
    hide Next, Size, Ahead, Build, ClassStep, MemberOk, Collect, ExprThen;
    if ms != [] {
      MemberIsRead(s, c, ms[0], MembersThen(ms[1..], Cons(RBRACE, Nil)));
      MembersAreRead(s, name, ClassStep(s, c).state, ms[1..], turns - 1);
    }
  }

  lemma {:induction false} HeaderIsRead(s: bytes, st: PState, src: Source, rest: Tokens)
    requires LookupIdent(src.name) == Ident && Sees(s, st, HeaderThen(src, rest)) && rest.Cons?
    ensures var h := ParseHeader(s, st);
            h.Opened? && h.name == src.name && Sees(s, h.st, rest)
  {
    hide Next, Size, Ahead;
    var toks := HeaderThen(src, rest);
    var a := Next(s, st);
    Advances(s, st, toks);
    if src.implements {
      Advances(s, a, toks.tail);
      Advances(s, Next(s, a), toks.tail.tail);
      var b := Next(s, Next(s, a));
      Advances(s, b, toks.tail.tail.tail);
      Advances(s, Next(s, b), toks.tail.tail.tail.tail);
    } else {
      Advances(s, a, toks.tail);
      Advances(s, Next(s, a), toks.tail.tail);
    }
  }

  /** Any text with the tokens of a source file parses to that file's relations, with no error. */
  lemma {:induction false} SourceIsParsed(s: bytes, src: Source, turns: nat)
    requires SourceOk(src) && Ahead(s, 0, SourceTokens(src)) && turns >= |src.members|
    ensures ParseNamespace(s, turns) == Schema(src.name, CollectMembers(src.members, map[]))
  {
    StartSees(s, SourceTokens(src));
    HeaderIsRead(s, Start(s), src, MembersThen(src.members, Cons(RBRACE, Nil)));
    var h := ParseHeader(s, Start(s));
    MembersAreRead(s, h.name, ClassState(h.st, map[], []), src.members, turns);
  }
}
