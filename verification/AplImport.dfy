/**
  What the word `import` does to a schema, nexus/internal/apl/parser.go:245-255. The parser drops
  everything from it to the next semicolon, and a printed schema holds none, so it reads nothing
  more. The theorems say that a printed schema comes back if and only if nothing in it is called
  import, and what comes back otherwise when the loss is silent.
 */
module AplImport {
  import opened Bytes
  import opened AplLexer
  import opened AplParser
  import opened AplLeaf
  import opened AplGrammar
  import opened AplSource
  import opened AplText

  // ------------------------------------------------------------- the end

  /** Nothing is left: every further token is EOF. */
  predicate AtEnd(s: bytes, st: PState) {
    st.cur == Token(EOF, []) && st.peek == Token(EOF, []) && st.pos > |s|
  }

  lemma {:induction false} EndStays(s: bytes, st: PState)
    requires AtEnd(s, st)
    ensures AtEnd(s, Next(s, st))
  {
    assert Lex(s, st.pos).0 == Token(EOF, []);
  }

  /** The rest of the input, seen from a token and the position behind it, holds no semicolon. */
  predicate Dying(s: bytes, t: Token, p: nat) {
    if t.kind == EOF then t.literal == [] && p > |s| else t.kind != Semicolon && Dead(s, p)
  }

  lemma {:induction false} DyingEnds(s: bytes, st: PState)
    requires st.cur.kind != Semicolon && st.cur.kind != EOF && Dying(s, st.peek, st.pos)
    ensures AtEnd(s, ToSemicolon(s, st))
    decreases Size(s, st)
  {
    var a := Shift(s, st);
    assert Dying(s, a.peek, a.pos);
    if a.cur.kind != EOF {
      DyingEnds(s, a);
    }
  }

  /** In front of an import that no semicolon ends, the next token is EOF. */
  lemma {:induction false} CutEnds(s: bytes, st: PState, t: Token)
    requires Sees(s, st, Cons(t, Cut))
    ensures AtEnd(s, Next(s, st))
  {
    var a := Shift(s, st);
    assert Dying(s, a.peek, a.pos);
    DyingEnds(s, a);
  }

  // ---------------------------------------------------------- expressions

  /** The tree holds a relation without a name, as the parser makes at the end of its input. */
  predicate HasBlank(t: Tree) {
    match t
    case Union(cs) => exists i :: 0 <= i < |cs| && HasBlank(cs[i])
    case Intersection(cs) => exists i :: 0 <= i < |cs| && HasBlank(cs[i])
    case ComputedUserset(r) => r == []
    case TupleToUserset(_, _) => false
  }

  lemma {:induction false} JoinKeepsBlank(a: Tree, b: Tree)
    requires HasBlank(b)
    ensures HasBlank(JoinUnion(a, b)) && HasBlank(JoinIntersection(a, b))
  {
    var u, i := JoinUnion(a, b), JoinIntersection(a, b);
    assert HasBlank(u.children[|u.children| - 1]);
    assert HasBlank(i.children[|i.children| - 1]);
  }

  lemma {:induction false} PrintableHasNoBlank(t: Tree)
    requires NamesFit(t)
    ensures !HasBlank(t)
    decreases t
  {
    match t
    case Union(cs) =>
      forall i | 0 <= i < |cs| ensures !HasBlank(cs[i]) { PrintableHasNoBlank(cs[i]); }
    case Intersection(cs) =>
      forall i | 0 <= i < |cs| ensures !HasBlank(cs[i]) { PrintableHasNoBlank(cs[i]); }
    case _ =>
  }

  /**
    The tree made of an expression that is cut off in front of its first import, or None for an
    error. A relation called import becomes one without a name; an open parenthesis or the body of
    traverse cannot end there.
   */
  function CutTree(e: Expr): Option<Tree> {
    match e
    case Leaf(l) => if l.relation.literal == "import" then Some(ComputedUserset([])) else None
    case Paren(_) => None
    case Or(l, r) =>
      if !Clean(l) then CutTree(l)
      else if CutTree(r).None? then None else Some(JoinUnion(Build(l), CutTree(r).value))
    case And(l, r) =>
      if !Clean(l) then CutTree(l)
      else if CutTree(r).None? then None else Some(JoinIntersection(Build(l), CutTree(r).value))
  }

  lemma {:induction false} CutTreeHasBlank(e: Expr)
    requires CutTree(e).Some?
    ensures HasBlank(CutTree(e).value)
    decreases e
  {
    match e
    case Leaf(_) =>
    case Or(l, r) =>
      if !Clean(l) {
        CutTreeHasBlank(l);
      } else {
        CutTreeHasBlank(r);
        JoinKeepsBlank(Build(l), CutTree(r).value);
      }
    case And(l, r) =>
      if !Clean(l) {
        CutTreeHasBlank(l);
      } else {
        CutTreeHasBlank(r);
        JoinKeepsBlank(Build(l), CutTree(r).value);
      }
  }

  /** A parse that ends as the cut says: with an error, or with that tree at the end of the input. */
  predicate CutOff(s: bytes, r: ExprResult, t: Option<Tree>) {
    if t.None? then r.Err? else r.Ok? && r.tree == t.value && AtEnd(s, r.st)
  }

  lemma {:induction false} RelationCut(s: bytes, st: PState)
    requires Sees(s, st, Cons(THIS, Cons(DOT, Cons(RELATED, Cons(DOT, Cut)))))
    ensures st.cur.kind == This && ParseLeaf(s, st).Ok?
    ensures ParseLeaf(s, st).tree == ComputedUserset([]) && AtEnd(s, ParseLeaf(s, st).st)
  {
    var st1 := Next(s, st);
    var st2 := Next(s, st1);
    var st3 := Next(s, st2);
    Advances(s, st, Cons(THIS, Cons(DOT, Cons(RELATED, Cons(DOT, Cut)))));
    Advances(s, st1, Cons(DOT, Cons(RELATED, Cons(DOT, Cut))));
    Advances(s, st2, Cons(RELATED, Cons(DOT, Cut)));
    CutEnds(s, st3, DOT);
    EndStays(s, Next(s, st3));
    hide Next, Size, Ahead;
  }

  /** The tokens of `=> p.related.` in front of the cut. */
  function BodyHead(): Tokens {
    Cons(ARROW, Cons(PARAM, Cons(DOT, Cons(RELATED, Cons(DOT, Cut)))))
  }

  lemma {:induction false} BodyCut(s: bytes, rel: bytes, b: PState)
    requires Sees(s, b, BodyHead())
    ensures ParseTraverseBody(s, rel, b).Err?
  {
    var toks := BodyHead();
    var c := Next(s, b);
    var d := Next(s, c);
    var e := Next(s, d);
    var f := Next(s, e);
    Advances(s, b, toks);
    Advances(s, c, toks.tail);
    Advances(s, d, toks.tail.tail);
    Advances(s, e, toks.tail.tail.tail);
    CutEnds(s, f, DOT);
    EndStays(s, Next(s, f));
    hide Next, Size, Ahead;
  }

  /** The tokens of a traverse call up to its body. */
  function CallThen(rest: Tokens): Tokens {
    Cons(TRAVERSE, Cons(LPAREN, Cons(LPAREN, Cons(PARAM, Cons(RPAREN, rest)))))
  }

  lemma {:induction false} CallIsRead(s: bytes, rel: bytes, m: PState, rest: Tokens)
    requires Sees(s, m, CallThen(rest)) && rest.Cons?
    ensures exists b :: Sees(s, b, rest) && ParseMethodCall(s, rel, m) == ParseTraverseBody(s, rel, b)
  {
    var toks := CallThen(rest);
    var m1 := Next(s, m);
    var a := Next(s, m1);
    var a1 := Next(s, a);
    var a2 := Next(s, a1);
    Advances(s, m, toks);
    Advances(s, m1, toks.tail);
    Advances(s, a, toks.tail.tail);
    Advances(s, a1, toks.tail.tail.tail);
    Advances(s, a2, toks.tail.tail.tail.tail);
    assert m.cur == TRAVERSE && "traverse"[0] != "includes"[0];
    hide Next, Size, Ahead, ParseTraverseBody;
    assert ParseTraverseParam(s, a) == Param(true, Next(s, a2));
  }

  /** `this.related.r.` with the call of traverse cut off in its body. */
  lemma {:induction false} ComputedCut(s: bytes, st: PState, r: Token)
    requires Sees(s, st, Cons(THIS, Cons(DOT, Cons(RELATED, Cons(DOT, Cons(r, Cons(DOT, CallThen(BodyHead()))))))))
    ensures st.cur.kind == This && ParseLeaf(s, st).Err?
  {
    var call := CallThen(BodyHead());
    var toks := Cons(THIS, Cons(DOT, Cons(RELATED, Cons(DOT, Cons(r, Cons(DOT, call))))));
    hide BodyHead, CallThen;
    var st1 := Next(s, st);
    var st2 := Next(s, st1);
    var st3 := Next(s, st2);
    var use := Next(s, st3);
    var dot := Next(s, use);
    Advances(s, st, toks);
    Advances(s, st1, toks.tail);
    Advances(s, st2, toks.tail.tail);
    Advances(s, st3, toks.tail.tail.tail);
    Advances(s, use, toks.tail.tail.tail.tail);
    CallHead(BodyHead());
    Advances(s, dot, toks.tail.tail.tail.tail.tail);
    CallIsRead(s, r.literal, Next(s, dot), BodyHead());
    var b :| Sees(s, b, BodyHead())
             && ParseMethodCall(s, r.literal, Next(s, dot)) == ParseTraverseBody(s, r.literal, b);
    BodyCut(s, r.literal, b);
    hide Next, Size, Ahead, ParseTraverseBody, ParseMethodCall;
  }

  lemma {:induction false} CallHead(rest: Tokens)
    ensures CallThen(rest).Cons? && BodyHead().Cons?
  {
  }

  lemma {:induction false} TruncateThen(item: Item, more: Items, rest: Tokens)
    requires item.Fixed? || !IsImport(item.token)
    ensures Truncate(ItemsThen(Then(item, more), rest)) == Cons(TokenOf(item), Truncate(ItemsThen(more, rest)))
  {
  }

  /** The tokens in front of the import of a leaf. */
  lemma {:induction false} LeafTokensCut(l: LeafText, rest: Tokens)
    requires LeafPrinted(l) && !LeafClean(l)
    ensures Truncate(ItemsThen(LeafItems(l), rest)) ==
            if l.relation.literal == "import" then Cons(THIS, Cons(DOT, Cons(RELATED, Cons(DOT, Cut))))
            else Cons(THIS, Cons(DOT, Cons(RELATED, Cons(DOT, Cons(l.relation, Cons(DOT, CallThen(BodyHead())))))))
  {
    UseCut(l, rest);
    var use := UseItems(l);
    var dot := Then(Fixed(Dot, Loose), use);
    var related := Then(Fixed(Related, Tight), dot);
    hide UseItems, CallThen, BodyHead, IsImport, LookupIdent, IsName, Truncate, ItemsThen;
    TruncateThen(Fixed(Dot, Loose), use, rest);
    TruncateThen(Fixed(Related, Tight), dot, rest);
    TruncateThen(Fixed(Dot, Tight), related, rest);
    TruncateThen(Fixed(This, Tight), Then(Fixed(Dot, Tight), related), rest);
  }

  lemma {:induction false} UseCut(l: LeafText, rest: Tokens)
    requires LeafPrinted(l) && !LeafClean(l)
    ensures Truncate(ItemsThen(UseItems(l), rest)) ==
            if l.relation.literal == "import" then Cut else Cons(l.relation, Cons(DOT, CallThen(BodyHead())))
  {
    WordImport(l.relation.literal);
    if l.relation.literal != "import" {
      WordImport(l.suffix.computed.literal);
      TraverseTokensCut(l.suffix.computed, rest);
      hide MethodItems, CallThen, BodyHead, IsImport, LookupIdent, IsName, Truncate, ItemsThen;
      var method_ := MethodItems(l.suffix);
      TruncateThen(Fixed(Dot, Loose), method_, rest);
      TruncateThen(Exact(l.relation, Tight), Then(Fixed(Dot, Loose), method_), rest);
    }
  }

  lemma {:induction false} BodyTokensCut(computed: Token, rest: Tokens)
    requires IsImport(computed)
    ensures Truncate(ItemsThen(BodyItems(Some(PARAM), computed), rest)) == BodyHead()
  {
    var close := Then(Exact(computed, Loose), Then(Fixed(RParen, Loose), Done));
    assert Truncate(ItemsThen(close, rest)) == Cut;
    assert !IsImport(PARAM);
    hide IsImport, Truncate, ItemsThen;
    var dot := Then(Fixed(Dot, Loose), close);
    var related := Then(Fixed(Related, Loose), dot);
    var target := Then(Fixed(Dot, Loose), related);
    TruncateThen(Fixed(Dot, Loose), close, rest);
    TruncateThen(Fixed(Related, Loose), dot, rest);
    TruncateThen(Fixed(Dot, Loose), related, rest);
    TruncateThen(Exact(PARAM, Loose), target, rest);
    TruncateThen(Fixed(Arrow, Loose), Then(Exact(PARAM, Loose), target), rest);
  }

  lemma {:induction false} NotImports()
    ensures !IsImport(PARAM) && !IsImport(TRAVERSE)
  {
  }

  lemma {:induction false} MethodIs(computed: Token)
    ensures MethodItems(Suffix.Traverse(TRAVERSE, InParens(PARAM, None), Some(PARAM), computed)) ==
            Then(Exact(TRAVERSE, Tight), Then(Fixed(LParen, Loose), Then(Fixed(LParen, Loose), Then(Exact(PARAM, Loose),
              Then(Fixed(RParen, Loose), BodyItems(Some(PARAM), computed))))))
  {
    hide BodyItems;
  }

  lemma {:induction false} CallCut(t: Token, p: Token, body: Items, rest: Tokens)
    requires !IsImport(t) && !IsImport(p)
    ensures Truncate(ItemsThen(Then(Exact(t, Tight), Then(Fixed(LParen, Loose), Then(Fixed(LParen, Loose),
              Then(Exact(p, Loose), Then(Fixed(RParen, Loose), body))))), rest))
         == Cons(t, Cons(LPAREN, Cons(LPAREN, Cons(p, Cons(RPAREN, Truncate(ItemsThen(body, rest)))))))
  {
    hide IsImport, Truncate, ItemsThen;
    var close := Then(Fixed(RParen, Loose), body);
    var parameter := Then(Exact(p, Loose), close);
    TruncateThen(Fixed(RParen, Loose), body, rest);
    TruncateThen(Exact(p, Loose), close, rest);
    TruncateThen(Fixed(LParen, Loose), parameter, rest);
    TruncateThen(Fixed(LParen, Loose), Then(Fixed(LParen, Loose), parameter), rest);
    TruncateThen(Exact(t, Tight), Then(Fixed(LParen, Loose), Then(Fixed(LParen, Loose), parameter)), rest);
  }

  lemma {:induction false} TraverseTokensCut(computed: Token, rest: Tokens)
    requires IsImport(computed)
    ensures Truncate(ItemsThen(MethodItems(Suffix.Traverse(TRAVERSE, InParens(PARAM, None), Some(PARAM), computed)), rest))
         == CallThen(BodyHead())
  {
    NotImports();
    BodyTokensCut(computed, rest);
    MethodIs(computed);
    hide IsImport, Truncate, ItemsThen, BodyItems, BodyHead, MethodItems;
    CallCut(TRAVERSE, PARAM, BodyItems(Some(PARAM), computed), rest);
  }

  lemma {:induction false} LeafCut(s: bytes, st: PState, l: LeafText, rest: Tokens)
    requires LeafPrinted(l) && !LeafClean(l) && Sees(s, st, Truncate(ItemsThen(LeafItems(l), rest)))
    ensures st.cur.kind == This && CutOff(s, ParseLeaf(s, st), CutTree(Leaf(l)))
  {
    LeafTokensCut(l, rest);
    hide LeafItems, LeafPrinted, LeafClean, CallThen, BodyHead;
    if l.relation.literal == "import" {
      RelationCut(s, st);
    } else {
      ComputedCut(s, st, l.relation);
    }
  }

  lemma {:induction false} TruncatedHead(e: Expr, rest: Tokens)
    ensures Truncate(ExprThen(e, rest)).Cons? && Truncate(ExprThen(e, rest)).head in {THIS, LPAREN}
  {
  }

  lemma {:induction false} PrimaryCut(s: bytes, st: PState, e: Expr, rest: Tokens)
    requires IsPrimary(e) && LeavesPrinted(e) && !Clean(e) && Sees(s, st, Truncate(ExprThen(e, rest)))
    ensures CutOff(s, ParsePrimary(s, st), CutTree(e))
    decreases e, 0
  {
    hide Next, Size, Ahead, LeafPrinted, LeafClean, LeafItems;
    match e
    case Leaf(l) => LeafCut(s, st, l, rest);
    case Paren(inner) =>
      TruncatedHead(inner, Cons(RPAREN, rest));
      Advances(s, st, Cons(LPAREN, Truncate(ExprThen(inner, Cons(RPAREN, rest)))));
      OrCut(s, Next(s, st), inner, Cons(RPAREN, rest));
  }

  lemma {:induction false} AndCut(s: bytes, st: PState, e: Expr, rest: Tokens)
    requires IsAnd(e) && LeavesPrinted(e) && !Clean(e) && Sees(s, st, Truncate(ExprThen(e, rest)))
    ensures CutOff(s, ParseAnd(s, st), CutTree(e))
    decreases e, 1
  {
    hide Next, Size, Ahead, LeafPrinted, LeafClean, LeafItems, HasBlank;
    if !e.And? {
      PrimaryCut(s, st, e, rest);
    } else if !Clean(e.left) {
      AndCut(s, st, e.left, Cons(AND, ExprThen(e.right, rest)));
    } else {
      var m := LeftIsRead(s, st, e.left, AND, e.right, rest);
      AndPrefixIsParsed(s, e.left, st);
      PrimaryCut(s, Next(s, m), e.right, rest);
    }
  }

  lemma {:induction false} OrCut(s: bytes, st: PState, e: Expr, rest: Tokens)
    requires IsOr(e) && LeavesPrinted(e) && !Clean(e) && Sees(s, st, Truncate(ExprThen(e, rest)))
    ensures CutOff(s, ParseOr(s, st), CutTree(e))
    decreases e, 2
  {
    hide Next, Size, Ahead, LeafPrinted, LeafClean, LeafItems, HasBlank;
    if !e.Or? {
      AndCut(s, st, e, rest);
    } else if !Clean(e.left) {
      OrCut(s, st, e.left, Cons(OR, ExprThen(e.right, rest)));
    } else {
      var m := LeftIsRead(s, st, e.left, OR, e.right, rest);
      OrPrefixIsParsed(s, e.left, st);
      AndCut(s, Next(s, m), e.right, rest);
    }
  }

  /** A clean left operand is read whole, and the parser stands in front of the cut right one. */
  lemma {:induction false} LeftIsRead(s: bytes, st: PState, left: Expr, op: Token, right: Expr, rest: Tokens)
    returns (m: PState)
    requires LeavesPrinted(left) && Clean(left) && op in {OR, AND}
    requires Sees(s, st, Truncate(ExprThen(left, Cons(op, ExprThen(right, rest)))))
    ensures Reads(s, left, st) == Some(m) && m.cur == op && Sees(s, Next(s, m), Truncate(ExprThen(right, rest)))
  {
    TruncateExpr(left, Cons(op, ExprThen(right, rest)));
    TruncatedHead(right, rest);
    var after := Cons(op, Truncate(ExprThen(right, rest)));
    hide Next, Size, Ahead, LeavesPrinted, Clean, ExprThen;
    assert Truncate(Cons(op, ExprThen(right, rest))) == after;
    ExprIsRead(s, st, left, after);
    m := Reads(s, left, st).value;
    Advances(s, m, after);
  }

  // --------------------------------------------------------------- permissions

  /** A printed permission up to its body, whatever becomes of that. */
  lemma {:induction false} EntryOpens(s: bytes, st: PState, e: Entry, body: Tokens) returns (b: PState)
    requires EntryOk(e) && body.Cons? && Sees(s, st, SignatureThen(e, Cons(ARROW, body)))
    ensures st.cur == Word(e.name) && st.cur.kind == Ident && Sees(s, b, body) && EntryRule(s, st) == ParseOr(s, b)
  {
    hide Next, Size, Ahead, EntryOk, SignatureThen, ParseOr, SkipSignature;
    SignatureIsSkipped(s, st, e, Cons(ARROW, body));
    var a := SkipSignature(s, st);
    Advances(s, a, Cons(ARROW, body));
    b := Next(s, a);
  }

  /** A permission whose body is cut off. */
  lemma {:induction false} EntryCut(s: bytes, st: PState, e: Entry, rest: Tokens, before: Relations)
    requires EntryPrinted(e) && EntryOk(e) && e.name != "import" && !Clean(e.body)
    requires Sees(s, st, Truncate(EntryThen(e, rest)))
    ensures st.cur.kind == Ident
    ensures var r := PermitsEntry(s, st, before);
            if CutTree(e.body).None? then r.Rejected?
            else r.Parsed? && r.relations == before[e.name := CutTree(e.body).value] && AtEnd(s, r.st)
  {
    hide Next, Size, Ahead, Sees, EntryOk, SignatureThen, BodyThen, ExprThen, ParseOr, EntryRule, Truncate, Clean, CutTree,
         LeavesPrinted, IsOr, IsIdent;
    TruncateSignature(e, BodyThen(e, rest));
    TruncatedHead(e.body, Cons(COMMA, rest));
    BodyTruncated(e, rest);
    var body := Truncate(ExprThen(e.body, Cons(COMMA, rest)));
    var b := EntryOpens(s, st, e, body);
    OrCut(s, b, e.body, Cons(COMMA, rest));
  }

  lemma {:induction false} BodyTruncated(e: Entry, rest: Tokens)
    requires EntryPrinted(e)
    ensures Truncate(BodyThen(e, rest)) == Cons(ARROW, Truncate(ExprThen(e.body, Cons(COMMA, rest))))
  {
  }

  /** A permission in front of one that is called import. */
  lemma {:induction false} EntryBeforeCut(s: bytes, st: PState, e: Entry, before: Relations)
    requires EntryPrinted(e) && EntryOk(e) && Sees(s, st, EntryThen(e, Cut))
    ensures st.cur.kind == Ident
    ensures var r := PermitsEntry(s, st, before);
            r.Parsed? && r.relations == before[e.name := Build(e.body)] && AtEnd(s, r.st)
  {
    var after := Cons(COMMA, Cut);
    hide Next, Size, Ahead, EntryOk, SignatureThen, ExprThen, ParseOr, EntryRule, LeavesPrinted, IsOr, Build;
    var b := EntryOpens(s, st, e, ExprThen(e.body, after));
    ExprIsParsed(s, b, e.body, after);
    CutEnds(s, ParseOr(s, b).st, COMMA);
  }

  /** The relations that are left of printed permissions, or None for an error. */
  function Kept(es: seq<Entry>, before: Relations): Option<Relations> {
    if es == [] || es[0].name == "import" then Some(before)
    else if Clean(es[0].body) then Kept(es[1..], before[es[0].name := Build(es[0].body)])
    else if CutTree(es[0].body).None? then None
    else Some(before[es[0].name := CutTree(es[0].body).value])
  }

  predicate AllPrinted(es: seq<Entry>) {
    forall i :: 0 <= i < |es| ==> EntryPrinted(es[i]) && EntryOk(es[i])
  }

  predicate AllClean(es: seq<Entry>) {
    forall i :: 0 <= i < |es| ==> EntryClean(es[i])
  }

  lemma {:induction false} TruncateFirst(es: seq<Entry>, rest: Tokens)
    requires AllPrinted(es) && es != [] && EntryClean(es[0])
    ensures Truncate(EntriesThen(es, rest)) == EntryThen(es[0], Truncate(EntriesThen(es[1..], rest)))
  {
    hide EntryPrinted, EntryOk, EntryClean, EntryThen;
    assert EntryPrinted(es[0]);
    TruncateEntry(es[0], EntriesThen(es[1..], rest));
  }

  lemma {:induction false} TruncatedEntries(es: seq<Entry>, rest: Tokens)
    requires AllPrinted(es) && es != []
    ensures var toks := Truncate(EntriesThen(es, rest));
            if es[0].name == "import" then toks == Cut else toks.Cons? && toks.head.kind == Ident
  {
    WordImport(es[0].name);
    assert EntryPrinted(es[0]);
    hide IsOr, LeavesPrinted, BodyThen, LookupIdent, IsName;
  }

  lemma {:induction false} LoopAtEnd(s: bytes, st: PState, before: Relations)
    requires AtEnd(s, st)
    ensures PermitsLoop(s, st, before) == Parsed(before, st)
  {
  }

  lemma {:induction false} LoopTurn(s: bytes, st: PState, before: Relations)
    requires st.cur.kind == Ident
    ensures var entry := PermitsEntry(s, st, before);
            PermitsLoop(s, st, before) ==
            if entry.Rejected? then entry else PermitsLoop(s, entry.st, entry.relations)
  {
  }

  /** Permissions of which the first is cut off. */
  lemma {:induction false} FirstCut(s: bytes, st: PState, es: seq<Entry>, rest: Tokens, before: Relations)
    requires AllPrinted(es) && es != [] && es[0].name != "import" && !Clean(es[0].body)
    requires Sees(s, st, Truncate(EntriesThen(es, rest)))
    ensures var r := PermitsLoop(s, st, before);
            if Kept(es, before).None? then r.Rejected?
            else r.Parsed? && r.relations == Kept(es, before).value && AtEnd(s, r.st)
  {
    assert EntryPrinted(es[0]) && EntryOk(es[0]);
    hide Next, Size, Ahead, Sees, AtEnd, EntryPrinted, EntryOk, EntryThen, PermitsEntry, PermitsLoop, Clean, CutTree, Build,
         Truncate;
    EntryCut(s, st, es[0], EntriesThen(es[1..], rest), before);
    LoopTurn(s, st, before);
    var entry := PermitsEntry(s, st, before);
    if entry.Parsed? {
      LoopAtEnd(s, entry.st, entry.relations);
    }
  }

  lemma {:induction false} KeptNext(es: seq<Entry>, before: Relations)
    requires es != [] && es[0].name != "import" && Clean(es[0].body)
    ensures Kept(es, before) == Kept(es[1..], before[es[0].name := Build(es[0].body)])
  {
    hide Clean, Build, CutTree;
  }

  lemma {:induction false} NothingKept(es: seq<Entry>, before: Relations)
    requires es != [] && es[0].name == "import"
    ensures Kept(es, before) == Some(before)
  {
  }

  lemma {:induction false} EntriesCut(s: bytes, st: PState, es: seq<Entry>, rest: Tokens, before: Relations)
    requires AllPrinted(es) && !AllClean(es) && es[0].name != "import"
    requires Sees(s, st, Truncate(EntriesThen(es, rest)))
    ensures var r := PermitsLoop(s, st, before);
            if Kept(es, before).None? then r.Rejected?
            else r.Parsed? && r.relations == Kept(es, before).value && AtEnd(s, r.st)
    decreases |es|
  {
    assert EntryPrinted(es[0]) && EntryOk(es[0]);
    if !Clean(es[0].body) {
      hide EntryPrinted, EntryOk, PermitsLoop, Clean, Kept, Sees, AtEnd;
      FirstCut(s, st, es, rest, before);
    } else {
      TruncateFirst(es, rest);
      OthersAreDirty(es);
      TruncatedEntries(es[1..], rest);
      KeptNext(es, before);
      hide Next, Size, Ahead, Sees, AtEnd, EntryPrinted, EntryOk, EntryThen, PermitsEntry, PermitsLoop, Clean, CutTree, Build,
           Truncate, Kept, AllPrinted, AllClean;
      LoopTurn(s, st, before);
      var more := Truncate(EntriesThen(es[1..], rest));
      var entry := PermitsEntry(s, st, before);
      if es[1].name == "import" {
        NothingKept(es[1..], before[es[0].name := Build(es[0].body)]);
        EntryBeforeCut(s, st, es[0], before);
        LoopAtEnd(s, entry.st, entry.relations);
      } else {
        EntryIsRead(s, st, es[0], more, before);
        EntriesCut(s, entry.st, es[1..], rest, entry.relations);
      }
    }
  }

  lemma {:induction false} OthersAreDirty(es: seq<Entry>)
    requires AllPrinted(es) && !AllClean(es) && EntryClean(es[0])
    ensures es[1..] != [] && AllPrinted(es[1..]) && !AllClean(es[1..]) && es[1..][0] == es[1]
  {
    hide EntryPrinted, EntryOk, EntryClean;
    var i :| 0 <= i < |es| && !EntryClean(es[i]);
    assert es[1..][i - 1] == es[i];
  }

  lemma {:induction false} CleanIsKept(es: seq<Entry>, before: Relations)
    requires AllClean(es)
    ensures Kept(es, before) == Some(Collect(es, before))
    decreases |es|
  {
    hide Clean, Build, CutTree;
    if es != [] {
      assert EntryClean(es[0]);
      CleanIsKept(es[1..], before[es[0].name := Build(es[0].body)]);
    }
  }

  // --------------------------------------------------------------- the schema

  lemma {:induction false} BlockOpens(s: bytes, st: PState, rest: Tokens)
    requires Sees(s, st, Cons(PERMITS, Cons(EQUAL, Cons(LBRACE, rest))))
    ensures st.cur.kind == Permits && Sees(s, Next(s, Next(s, st)), Cons(LBRACE, rest))
    ensures OpenPermits(s, st) == Parsed(map[], Next(s, Next(s, Next(s, st))))
  {
    var toks := Cons(PERMITS, Cons(EQUAL, Cons(LBRACE, rest)));
    Advances(s, st, toks);
    Advances(s, Next(s, st), toks.tail);
    hide Next, Size, Ahead;
  }

  /** The block of permissions, up to the end of the input. */
  lemma {:induction false} BlockCut(s: bytes, st: PState, es: seq<Entry>, before: Relations)
    requires AllPrinted(es) && !AllClean(es)
    requires Sees(s, st, Cons(PERMITS, Cons(EQUAL, Cons(LBRACE, Truncate(EntriesThen(es, CLOSE))))))
    ensures st.cur.kind == Permits
    ensures var r := ParsePermits(s, st, before);
            if Kept(es, before).None? then r.Rejected?
            else r.Parsed? && r.relations == Kept(es, before).value && AtEnd(s, r.st)
  {
    var rest := Truncate(EntriesThen(es, CLOSE));
    NotEmpty(es);
    TruncatedEntries(es, CLOSE);
    assert es[0].name == "import" ==> Kept(es, before) == Some(before);
    hide Next, Size, Ahead, EntriesThen, PermitsLoop, AllPrinted, AllClean, OpenPermits, Kept, Truncate;
    BlockOpens(s, st, rest);
    var b := Next(s, Next(s, st));
    var c := Next(s, b);
    if es[0].name == "import" {
      CutEnds(s, b, LBRACE);
      LoopAtEnd(s, c, before);
    } else {
      Advances(s, b, Cons(LBRACE, rest));
      EntriesCut(s, c, es, CLOSE, before);
    }
    var body := PermitsLoop(s, c, before);
    if body.Parsed? {
      EndStays(s, body.st);
    }
  }

  lemma {:induction false} NotEmpty(es: seq<Entry>)
    requires !AllClean(es)
    ensures es != []
  {
  }

  /** The tokens of a printed schema, its class not called import, in front of the first import. */
  lemma {:induction false} TruncateHeader(name: bytes, es: seq<Entry>)
    requires AllPrinted(es) && name != "import"
    ensures Truncate(PrintedTokens(name, es))
         == HeaderThen(Source(name, true, []), Cons(PERMITS, Cons(EQUAL, Cons(LBRACE, Truncate(EntriesThen(es, CLOSE))))))
  {
    WordImport(name);
    var entries := EntriesThen(es, CLOSE);
    var inner := Cons(LBRACE, entries);
    var block := Cons(PERMITS, Cons(EQUAL, inner));
    var body := Cons(LBRACE, block);
    hide IsImport, LookupIdent, EntriesThen;
    assert PlainToken(LBRACE) && PlainToken(EQUAL) && PlainToken(PERMITS) && PlainToken(NAMESPACE)
        && PlainToken(IMPLEMENTS) && PlainToken(CLASS);
    hide Truncate, PlainToken;
    TruncateCons(LBRACE, entries);
    TruncateCons(EQUAL, inner);
    TruncateCons(PERMITS, Cons(EQUAL, inner));
    TruncateCons(LBRACE, block);
    TruncateCons(NAMESPACE, body);
    TruncateCons(IMPLEMENTS, Cons(NAMESPACE, body));
    TruncateWord(name, Cons(IMPLEMENTS, Cons(NAMESPACE, body)));
    TruncateCons(CLASS, Cons(Word(name), Cons(IMPLEMENTS, Cons(NAMESPACE, body))));
  }

  predicate PlainToken(t: Token) {
    t.kind != Ident
  }

  lemma {:induction false} TruncateCons(t: Token, rest: Tokens)
    requires PlainToken(t)
    ensures Truncate(Cons(t, rest)) == Cons(t, Truncate(rest))
  {
  }

  lemma {:induction false} TruncateWord(name: bytes, rest: Tokens)
    requires name != "import"
    ensures Truncate(Cons(Word(name), rest)) == Cons(Word(name), Truncate(rest))
  {
  }

  /** What Parse owes for a printed schema: None for an error, else the relations that are left. */
  function Left(name: bytes, es: seq<Entry>): Option<Relations> {
    if name == "import" then None else Kept(es, map[])
  }

  predicate IsOutcome(out: Outcome, name: bytes, left: Option<Relations>) {
    if left.None? then out.Failed? else out == Schema(name, left.value)
  }

  lemma {:induction false} DirtyClassFails(s: bytes, turns: nat)
    requires Ahead(s, 0, Cons(CLASS, Cut))
    ensures ParseNamespace(s, turns).Failed?
  {
    hide Next, Size, Ahead, Start, ClassLoop;
    StartSees(s, Cons(CLASS, Cut));
    var st := Start(s);
    CutEnds(s, st, CLASS);
    assert SkipImports(s, st) == st;
    hide SkipImports;
    assert ParseHeader(s, st).Refused?;
  }

  /** The last block of a class that ends with the input. */
  lemma {:induction false} LastBlock(s: bytes, name: bytes, c: ClassState, turns: nat)
    requires c.st.cur.kind == Permits && c.errors == [] && turns >= 1
    ensures var r := ParsePermits(s, c.st, c.relations);
            if r.Rejected? then ClassLoop(s, name, c, turns).Failed?
            else AtEnd(s, r.st) ==> ClassLoop(s, name, c, turns) == Schema(name, r.relations)
  {
    hide ParsePermits, ParseRelated, Next, Size;
    var r := ParsePermits(s, c.st, c.relations);
    if r.Parsed? && AtEnd(s, r.st) {
      var next := c.(st := r.st, relations := r.relations);
      assert ClassStep(s, c) == Go(next);
      assert ClassLoop(s, name, next, turns - 1) == Finish(name, next);
    }
  }

  lemma {:induction false} DirtyBlockIsCut(s: bytes, name: bytes, es: seq<Entry>, turns: nat)
    requires AllPrinted(es) && !AllClean(es) && IsIdent(name) && name != "import" && turns >= 1
    requires Ahead(s, 0, Truncate(PrintedTokens(name, es)))
    ensures IsOutcome(ParseNamespace(s, turns), name, Left(name, es))
  {
    hide EntriesThen, Truncate, AllClean, Next, Size, Ahead, Sees, Kept, IsName, LookupIdent, Start, HeaderThen,
         PrintedTokens, ParseHeader, ParsePermits, ClassLoop, EntryOk, EntryPrinted;
    TruncateHeader(name, es);
    var block := Cons(PERMITS, Cons(EQUAL, Cons(LBRACE, Truncate(EntriesThen(es, CLOSE)))));
    var src := Source(name, true, []);
    StartSees(s, HeaderThen(src, block));
    HeaderIsRead(s, Start(s), src, block);
    var c := ClassState(ParseHeader(s, Start(s)).st, map[], []);
    BlockCut(s, c.st, es, map[]);
    LastBlock(s, name, c, turns);
  }

  // ------------------------------------------------------------- the theorems

  lemma {:induction false} EntriesArePrinted(rels: Listing)
    requires ListingOk(rels)
    ensures AllPrinted(PrintEntries(rels))
  {
    PrintEntriesOk(rels);
    var es := PrintEntries(rels);
    hide EntryPrinted, PrintEntries, Build, Clean, NoImportIn, LeavesPrinted, IsOr, IsIdent;
    forall i | 0 <= i < |es| ensures EntryPrinted(es[i]) && EntryOk(es[i]) {
      assert EntryPrints(es[i], rels[i]);
      PrintedIsOk(es[i]);
    }
  }

  lemma {:induction false} PrintedIsOk(e: Entry)
    requires EntryPrinted(e)
    ensures EntryOk(e)
  {
  }

  lemma {:induction false} LexemesHaveNoSemicolons(toks: Tokens)
    requires Lexemes(toks)
    ensures NoSemicolons(toks) && ImportIsOpen(toks)
    decreases toks
  {
    hide IsLexeme;
    if toks.Cons? {
      LexemesHaveNoSemicolons(toks.tail);
    }
  }

  lemma {:induction false} TruncatedClass(es: seq<Entry>)
    requires AllPrinted(es)
    ensures Truncate(PrintedTokens("import", es)) == Cons(CLASS, Cut)
  {
    WordImport("import");
    var body := Cons(IMPLEMENTS, Cons(NAMESPACE, Cons(LBRACE, Cons(PERMITS, Cons(EQUAL, Cons(LBRACE, EntriesThen(es, CLOSE)))))));
    hide EntriesThen, AllPrinted, LookupIdent, IsImport;
    assert Truncate(Cons(Word("import"), body)) == Cut;
    assert PlainToken(CLASS);
    hide Truncate;
    TruncateCons(CLASS, Cons(Word("import"), body));
  }

  lemma {:induction false} OneBlock(name: bytes, rels: Listing)
    requires IsIdent(name) && ListingOk(rels)
    ensures var src := PrintSchema(name, rels);
            src.name == name && |src.members| == 1 && CollectMembers(src.members, map[]) == Collect(PrintEntries(rels), map[])
  {
    hide ListingOk, IsIdent, PrintEntries, Collect, EntryOk;
    var src := PrintSchema(name, rels);
    assert src.members[1..] == [];
  }

  lemma {:induction false} CleanSchemaIsWhole(name: bytes, rels: Listing, text: Text, turns: nat)
    requires IsIdent(name) && ListingOk(rels) && turns >= 1 && name != "import" && AllClean(PrintEntries(rels))
    requires AllPrinted(PrintEntries(rels))
    requires TextOk(text) && TokensOf(text) == SourceTokens(PrintSchema(name, rels))
    ensures IsOutcome(ParseNamespace(Render(text), turns), name, Left(name, PrintEntries(rels)))
  {
    hide TextOk, TokensOf, SourceTokens, Render, ParseNamespace, NoImports, ListingOk, IsIdent, PrintEntries, EntryPrinted,
         EntryOk, EntryClean, PrintedTokens, PrintSchema, Collect, CollectMembers, Kept;
    var es := PrintEntries(rels);
    CleanIsKept(es, map[]);
    OneBlock(name, rels);
    PrintedTokensAre(name, rels);
    CleanTokensHaveNoImports(name, es);
    LaidOutSourceIsParsed(PrintSchema(name, rels), text, turns);
  }

  lemma {:induction false} ImportedClassFails(es: seq<Entry>, out: Outcome)
    requires out.Failed?
    ensures IsOutcome(out, "import", Left("import", es))
  {
  }

  lemma {:induction false} DirtySchemaIsCut(s: bytes, name: bytes, es: seq<Entry>, turns: nat)
    requires AllPrinted(es) && IsIdent(name) && (name == "import" || !AllClean(es)) && turns >= 1
    requires Ahead(s, 0, Truncate(PrintedTokens(name, es)))
    ensures IsOutcome(ParseNamespace(s, turns), name, Left(name, es))
  {
    hide AllClean, Ahead, ParseNamespace, IsIdent, Truncate, PrintedTokens, AllPrinted, Kept;
    if name != "import" {
      DirtyBlockIsCut(s, name, es, turns);
    } else {
      TruncatedClass(es);
      DirtyClassFails(s, turns);
      ImportedClassFails(es, ParseNamespace(s, turns));
    }
  }

  lemma {:induction false} PrintedIsAhead(name: bytes, rels: Listing, text: Text)
    requires IsIdent(name) && ListingOk(rels)
    requires TextOk(text) && TokensOf(text) == SourceTokens(PrintSchema(name, rels)) && Quiet(Remainder(text))
    ensures AllPrinted(PrintEntries(rels))
    ensures Ahead(Render(text), 0, Truncate(PrintedTokens(name, PrintEntries(rels))))
  {
    EntriesArePrinted(rels);
    hide TextOk, TokensOf, ListingOk, IsIdent, PrintEntries, SourceTokens, EntriesPrint, EntryOk,
         PrintSchema, PrintedTokens, Truncate, Ahead, Lexemes, Remainder, Quiet, Render, EntryPrinted, NoSemicolons, ImportIsOpen;
    PrintedTokensAre(name, rels);
    PrintedLex(name, rels);
    LexemesHaveNoSemicolons(PrintedTokens(name, PrintEntries(rels)));
    TextIsLexed(Render(text), 0, text);
  }

  /**
    What comes back of a printed schema, its tokens laid out in any way, with no semicolon behind
    them: `Left` says whether that is an error, the whole schema, or the part that is left.
   */
  lemma {:induction false} PrintedOutcome(name: bytes, rels: Listing, text: Text, turns: nat)
    requires IsIdent(name) && ListingOk(rels) && turns >= 1
    requires TextOk(text) && TokensOf(text) == SourceTokens(PrintSchema(name, rels)) && Quiet(Remainder(text))
    ensures IsOutcome(ParseNamespace(Render(text), turns), name, Left(name, PrintEntries(rels)))
  {
    hide TextOk, TokensOf, Render, ParseNamespace, ListingOk, IsIdent, PrintEntries, AllPrinted, AllClean, SourceTokens,
         PrintSchema, PrintedTokens, Truncate, Left, IsOutcome, Ahead, Remainder, Quiet;
    PrintedIsAhead(name, rels, text);
    if name != "import" && AllClean(PrintEntries(rels)) {
      CleanSchemaIsWhole(name, rels, text, turns);
    } else {
      DirtySchemaIsCut(Render(text), name, PrintEntries(rels), turns);
    }
  }

  /** Permissions that are not all kept do not give the map they were printed from. */
  lemma {:induction false} DirtyIsLost(es: seq<Entry>, rels: Listing, before: Relations, m: Relations)
    requires AllPrinted(es) && !AllClean(es) && EntriesPrint(es, rels) && "import" !in before
    requires forall i :: 0 <= i < |rels| ==> rels[i].0 in m && m[rels[i].0] == rels[i].1 && Printable(rels[i].1)
    ensures Kept(es, before) != Some(m)
    decreases |es|
  {
    assert EntryPrints(es[0], rels[0]);
    hide EntryPrinted, EntryOk, CutTree, Build, NormalForm, NamesFit, HasBlank, NoImportIn, Clean;
    if es[0].name == "import" {
      assert rels[0].0 == "import";
    } else if Clean(es[0].body) {
      OthersAreDirty(es);
      DirtyIsLost(es[1..], rels[1..], before[es[0].name := Build(es[0].body)], m);
    } else if CutTree(es[0].body).Some? {
      CutTreeHasBlank(es[0].body);
      PrintableHasNoBlank(rels[0].1);
    }
  }

  lemma {:induction false} DirtyNames(name: bytes, rels: Listing, es: seq<Entry>)
    requires EntriesPrint(es, rels)
    ensures NoImportNames(name, rels) <==> name != "import" && AllClean(es)
  {
    hide EntryPrinted, Build, NoImportIn, Clean;
    assert forall i :: 0 <= i < |rels| ==>
        EntryPrints(es[i], rels[i]) && (EntryClean(es[i]) <==> rels[i].0 != "import" && NoImportIn(rels[i].1));
  }

  lemma {:induction false} DirtySchemaIsLost(name: bytes, m: Relations, rels: Listing)
    requires ListingOk(rels) && Lists(rels, m) && !NoImportNames(name, rels)
    ensures Left(name, PrintEntries(rels)) != Some(m)
  {
    var es := PrintEntries(rels);
    EntriesArePrinted(rels);
    PrintEntriesOk(rels);
    hide AllPrinted, EntriesPrint, EntryPrinted, Printable, IsIdent, NoImportNames, AllClean, Kept;
    DirtyNames(name, rels, es);
    if name != "import" {
      DirtyIsLost(es, rels, map[], m);
    }
  }

  /**
    A printed schema comes back if and only if neither its class nor a permission nor a relation in
    a tree is called import. The other names may be any that the lexer reads as one word.
   */
  lemma {:induction false} RoundTripIff(name: bytes, m: Relations, rels: Listing, text: Text, turns: nat)
    requires IsIdent(name) && ListingOk(rels) && Lists(rels, m) && turns >= 1
    requires TextOk(text) && TokensOf(text) == SourceTokens(PrintSchema(name, rels)) && Quiet(Remainder(text))
    ensures ParseNamespace(Render(text), turns) == Schema(name, m) <==> NoImportNames(name, rels)
  {
    hide TextOk, TokensOf, Render, ParseNamespace, IsIdent, PrintEntries, SourceTokens, PrintSchema, Remainder, Quiet,
         NoImportNames, Printable, Lists, ListingOk, Left;
    if NoImportNames(name, rels) {
      RoundTrip(name, m, rels, text, turns);
    } else {
      PrintedOutcome(name, rels, text, turns);
      DirtySchemaIsLost(name, m, rels);
    }
  }

  /** What Parse makes of the text of `Print`. */
  lemma {:induction false} PrintOutcome(name: bytes, rels: Listing, turns: nat)
    requires IsIdent(name) && ListingOk(rels) && turns >= 1
    ensures IsOutcome(Parse(Print(name, rels), turns), name, Left(name, PrintEntries(rels)))
  {
    hide TextOk, TokensOf, Render, ParseNamespace, IsIdent, PrintEntries, SourceTokens, PrintSchema, Remainder,
         ListingOk, Neat, ClassText, IsOutcome, Left;
    PrintIsNeat(name, rels);
    ClassTextFromStart(Print(name, rels));
    PrintedOutcome(name, rels, Neat(SourceTokens(PrintSchema(name, rels))), turns);
  }

  /** The same for Parse on the text of `Print`. */
  lemma {:induction false} ParseUndoesPrintIff(name: bytes, m: Relations, rels: Listing, turns: nat)
    requires IsIdent(name) && ListingOk(rels) && Lists(rels, m) && turns >= 1
    ensures Parse(Print(name, rels), turns) == Schema(name, m) <==> NoImportNames(name, rels)
  {
    hide TextOk, TokensOf, Render, ParseNamespace, IsIdent, PrintEntries, SourceTokens, PrintSchema, Remainder,
         NoImportNames, ListingOk, Lists, Neat, ClassText;
    PrintIsNeat(name, rels);
    ClassTextFromStart(Print(name, rels));
    RoundTripIff(name, m, rels, Neat(SourceTokens(PrintSchema(name, rels))), turns);
  }
}
