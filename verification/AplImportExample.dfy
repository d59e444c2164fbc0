/**
  One text on which the word `import` loses a relation and the parser says nothing, laid out as a
  person would write it. AplImport.dfy has the general statement.
 */
module AplImportExample {
  import opened Bytes
  import opened AplLexer
  import opened AplParser
  import opened AplLeaf
  import opened AplGrammar
  import opened AplSource
  import opened AplText
  import opened AplImport

  const SCHEMA_HEAD: bytes := "class A implements Namespace {"
  const OPEN: bytes := " permits = {"
  const FIRST: bytes := " a: (ctx) => this.related.import,"
  const LAST: bytes := " b: (ctx) => this.related.x, } }"

  const RELATIONS: Listing := [("a", ComputedUserset("import")), ("b", ComputedUserset("x"))]

  lemma {:induction false} NamesFitIn()
    ensures IsIdent("A") && IsIdent("a") && IsIdent("b") && ListingOk(RELATIONS)
  {
    assert IsName("x") && IsName("import");
  }

  // ---------------------------------------------------- what the printer writes

  lemma {:induction false} Six(a: bytes, b: bytes, c: bytes, d: bytes, e: bytes, f: bytes, rest: bytes)
    ensures a + (b + (c + (d + (e + (f + rest))))) == (a + (b + (c + (d + (e + f))))) + rest
  {
    Associate(e, f, rest);
    Associate(d, e + f, rest);
    Associate(c, d + (e + f), rest);
    Associate(b, c + (d + (e + f)), rest);
    Associate(a, b + (c + (d + (e + f))), rest);
  }

  lemma {:induction false} Associate(a: bytes, b: bytes, rest: bytes)
    ensures a + (b + rest) == (a + b) + rest
  {
  }

  function SignatureBytes(name: bytes): bytes {
    " " + name + (":" + (" (" + ("ctx" + (")" + " =>"))))
  }

  function RelationBytes(relation: bytes): bytes {
    " this" + ("." + ("related" + ("." + (relation + ","))))
  }

  /** `name: (ctx) =>` */
  lemma {:induction false} SignatureIsWritten(prev: Token, name: bytes, rest: Tokens)
    requires !Glued(prev, Word(name)) && LookupIdent(name) == Ident
    ensures Render(NeatAfter(prev, Cons(Word(name), Cons(COLON, Cons(LPAREN, Cons(CTX, Cons(RPAREN, Cons(ARROW, rest))))))))
         == SignatureBytes(name) + Render(NeatAfter(ARROW, rest))
  {
    var t5 := Cons(ARROW, rest);
    var t4 := Cons(RPAREN, t5);
    var t3 := Cons(CTX, t4);
    var t2 := Cons(LPAREN, t3);
    NeatStep(RPAREN, ARROW, rest);
    NeatStep(CTX, RPAREN, t5);
    NeatStep(LPAREN, CTX, t4);
    NeatStep(COLON, LPAREN, t3);
    NeatStep(Word(name), COLON, t2);
    NeatStep(prev, Word(name), Cons(COLON, t2));
    assert " " + "(" == " (" && " " + "=>" == " =>";
    hide NeatAfter, Render, LookupIdent;
    Six(" " + name, ":", " (", "ctx", ")", " =>", Render(NeatAfter(ARROW, rest)));
  }

  /** `this.related.relation,` */
  lemma {:induction false} RelationIsWritten(relation: bytes, rest: Tokens)
    requires LookupIdent(relation) == Ident
    ensures Render(NeatAfter(ARROW, Cons(THIS, Cons(DOT, Cons(RELATED, Cons(DOT, Cons(Word(relation), Cons(COMMA, rest))))))))
         == RelationBytes(relation) + Render(NeatAfter(COMMA, rest))
  {
    var t5 := Cons(COMMA, rest);
    var t4 := Cons(Word(relation), t5);
    var t3 := Cons(DOT, t4);
    var t2 := Cons(RELATED, t3);
    NeatStep(Word(relation), COMMA, rest);
    NeatStep(DOT, Word(relation), t5);
    NeatStep(RELATED, DOT, t4);
    NeatStep(DOT, RELATED, t3);
    NeatStep(THIS, DOT, t2);
    NeatStep(ARROW, THIS, Cons(DOT, t2));
    assert " " + "this" == " this";
    hide NeatAfter, Render, LookupIdent;
    Six(" this", ".", "related", ".", relation, ",", Render(NeatAfter(COMMA, rest)));
  }

  /** `class name implements Namespace {` and ` permits = {` */
  lemma {:induction false} HeaderIsWritten(name: bytes, rest: Tokens)
    requires LookupIdent(name) == Ident
    ensures var toks := HeaderThen(Source(name, true, []), Cons(PERMITS, Cons(EQUAL, Cons(LBRACE, rest))));
            var after := Render(NeatAfter(LBRACE, rest));
            Render(Neat(toks)) ==
            "class" + (" " + name + (" implements" + (" Namespace" + (" {" + (" permits" + (" =" + (" {" + after)))))))
  {
    var t6 := Cons(LBRACE, rest);
    var t5 := Cons(EQUAL, t6);
    var t4 := Cons(PERMITS, t5);
    var t3 := Cons(LBRACE, t4);
    var t2 := Cons(NAMESPACE, t3);
    NeatStep(EQUAL, LBRACE, rest);
    NeatStep(PERMITS, EQUAL, t6);
    NeatStep(LBRACE, PERMITS, t5);
    NeatStep(NAMESPACE, LBRACE, t4);
    NeatStep(IMPLEMENTS, NAMESPACE, t3);
    NeatStep(Word(name), IMPLEMENTS, t2);
    NeatStep(CLASS, Word(name), Cons(IMPLEMENTS, t2));
    HeaderLeads();
    assert Lead(CLASS, Word(name)) == " " + name;
    hide NeatAfter, LookupIdent, Lead;
  }

  lemma {:induction false} HeaderLeads()
    ensures Lead(EQUAL, LBRACE) == Lead(NAMESPACE, LBRACE) == " {"
    ensures Lead(PERMITS, EQUAL) == " =" && Lead(LBRACE, PERMITS) == " permits"
    ensures Lead(IMPLEMENTS, NAMESPACE) == " Namespace"
    ensures forall n :: Lead(Word(n), IMPLEMENTS) == " implements"
  {
  }

  // --------------------------------------------------------------- the tokens

  function RelationTokens(relation: bytes, rest: Tokens): Tokens {
    Cons(THIS, Cons(DOT, Cons(RELATED, Cons(DOT, Cons(Word(relation), Cons(COMMA, rest))))))
  }

  function EntryTokens(name: bytes, relation: bytes, rest: Tokens): Tokens {
    Cons(Word(name), Cons(COLON, Cons(LPAREN, Cons(CTX, Cons(RPAREN, Cons(ARROW, RelationTokens(relation, rest)))))))
  }

  lemma {:induction false} BareUse(relation: Token)
    ensures UseItems(LeafText(relation, Bare)) == Then(Exact(relation, NoDot), Done)
  {
  }

  lemma {:induction false} RelationTokensAre(relation: bytes, rest: Tokens)
    ensures ItemsThen(LeafItems(LeafText(Word(relation), Bare)), Cons(COMMA, rest)) == RelationTokens(relation, rest)
  {
    BareUse(Word(relation));
    hide LookupIdent, UseItems;
    var use := Then(Exact(Word(relation), NoDot), Done);
    var after := Cons(COMMA, rest);
    assert ItemsThen(use, after) == Cons(Word(relation), after);
    var related := Then(Fixed(Related, Tight), Then(Fixed(Dot, Loose), use));
    assert ItemsThen(related, after) == Cons(RELATED, Cons(DOT, Cons(Word(relation), after)));
  }

  lemma {:induction false} EntryTokensAre(name: bytes, relation: bytes, rest: Tokens)
    requires EntryOk(PrintEntry(name, ComputedUserset(relation)))
    ensures EntryThen(PrintEntry(name, ComputedUserset(relation)), rest) == EntryTokens(name, relation, rest)
  {
    hide LookupIdent, LeafItems;
    var e := PrintEntry(name, ComputedUserset(relation));
    RelationTokensAre(relation, rest);
    assert BodyThen(e, rest) == Cons(ARROW, RelationTokens(relation, rest));
    hide BodyThen, ExprThen;
    assert [CTX][1..] == [];
    assert SeqThen([CTX], Cons(RPAREN, BodyThen(e, rest))) == Cons(CTX, Cons(RPAREN, BodyThen(e, rest)));
  }

  lemma {:induction false} EntriesAre()
    requires ListingOk(RELATIONS)
    ensures PrintEntries(RELATIONS) == [PrintEntry("a", ComputedUserset("import")), PrintEntry("b", ComputedUserset("x"))]
  {
    assert RELATIONS[1..] == [("b", ComputedUserset("x"))];
    assert RELATIONS[1..][1..] == [];
    hide IsIdent, IsName, LookupIdent, PrintEntry;
  }

  lemma {:induction false} TwoEntries(e: Entry, f: Entry, rest: Tokens)
    requires EntryOk(e) && EntryOk(f)
    ensures EntriesThen([e, f], rest) == EntryThen(e, EntryThen(f, rest))
  {
    hide EntryOk, EntryThen;
    assert [e, f][1..] == [f] && [f][1..] == [];
    assert EntriesThen([], rest) == rest;
    assert EntriesThen([f], rest) == EntryThen(f, rest);
  }

  lemma {:induction false} TokensAre()
    requires IsIdent("A") && ListingOk(RELATIONS)
    ensures SourceTokens(PrintSchema("A", RELATIONS)) ==
            HeaderThen(Source("A", true, []), Cons(PERMITS, Cons(EQUAL, Cons(LBRACE,
              EntryTokens("a", "import", EntryTokens("b", "x", CLOSE))))))
  {
    EntriesAre();
    PrintedTokensAre("A", RELATIONS);
    var e := PrintEntry("a", ComputedUserset("import"));
    var f := PrintEntry("b", ComputedUserset("x"));
    hide IsIdent, LookupIdent, SourceTokens, PrintSchema, PrintEntries, PrintEntry, EntryOk, EntryThen, EntryTokens,
         EntriesThen, ListingOk, EntriesPrint;
    assert EntryOk(PrintEntries(RELATIONS)[0]) && EntryOk(PrintEntries(RELATIONS)[1]);
    EntryTokensAre("a", "import", EntryThen(f, CLOSE));
    EntryTokensAre("b", "x", CLOSE);
    TwoEntries(e, f, CLOSE);
  }

  // --------------------------------------------------------------- the bytes

  lemma {:induction false} CloseIsWritten()
    ensures Render(NeatAfter(COMMA, CLOSE)) == " }" + (" }" + "")
  {
    NeatStep(RBRACE, RBRACE, Nil);
    NeatStep(COMMA, RBRACE, Cons(RBRACE, Nil));
    assert Lead(RBRACE, RBRACE) == Lead(COMMA, RBRACE) == " }";
    hide Lead;
  }

  lemma {:induction false} HeaderBytes(after: bytes)
    ensures "class" + (" A" + (" implements" + (" Namespace" + (" {" + (" permits" + (" =" + (" {" + after)))))))
         == SCHEMA_HEAD + (OPEN + after)
  {
    assert " permits" + (" =" + " {") == OPEN;
    assert "class" + (" A" + (" implements" + (" Namespace" + " {"))) == SCHEMA_HEAD;
    hide OPEN, SCHEMA_HEAD;
    Associate(" =", " {", after);
    Associate(" permits", " =" + " {", after);
    Associate(" Namespace", " {", OPEN + after);
    Associate(" implements", " Namespace" + " {", OPEN + after);
    Associate(" A", " implements" + (" Namespace" + " {"), OPEN + after);
    Associate("class", " A" + (" implements" + (" Namespace" + " {")), OPEN + after);
  }

  lemma {:induction false} FirstBytes()
    ensures SignatureBytes("a") + RelationBytes("import") == FIRST
  {
    assert " " + "a" == " a";
    FirstLiteral();
  }

  lemma {:induction false} FirstLiteral()
    ensures " a: (ctx) => this.related.import," ==
            (" a" + (":" + (" (" + ("ctx" + (")" + " =>"))))) + (" this" + ("." + ("related" + ("." + ("import" + ",")))))
  {
  }

  lemma {:induction false} LastBytes()
    ensures SignatureBytes("b") + (RelationBytes("x") + (" }" + (" }" + ""))) == LAST
  {
    assert " " + "b" == " b";
    LastLiteral();
  }

  lemma {:induction false} LastLiteral()
    ensures " b: (ctx) => this.related.x, } }" ==
            (" b" + (":" + (" (" + ("ctx" + (")" + " =>")))))
            + ((" this" + ("." + ("related" + ("." + ("x" + ","))))) + (" }" + (" }" + "")))
  {
  }

  lemma {:induction false} EntryIsWritten(prev: Token, name: bytes, relation: bytes, rest: Tokens)
    requires !Glued(prev, Word(name)) && LookupIdent(name) == LookupIdent(relation) == Ident
    ensures Render(NeatAfter(prev, EntryTokens(name, relation, rest)))
         == SignatureBytes(name)
            + (RelationBytes(relation) + Render(NeatAfter(COMMA, rest)))
  {
    SignatureIsWritten(prev, name, RelationTokens(relation, rest));
    hide LookupIdent;
    RelationIsWritten(relation, rest);
    hide NeatAfter, Render;
  }

  lemma {:induction false} NamesAreIdents()
    ensures LookupIdent("a") == LookupIdent("b") == LookupIdent("x") == LookupIdent("import") == Ident
  {
  }

  lemma {:induction false} LastIsWritten()
    ensures Render(NeatAfter(COMMA, EntryTokens("b", "x", CLOSE))) == LAST
  {
    CloseIsWritten();
    LastBytes();
    NamesAreIdents();
    hide NeatAfter, Render, EntryTokens, LookupIdent, LAST, SignatureBytes, RelationBytes;
    EntryIsWritten(COMMA, "b", "x", CLOSE);
  }

  lemma {:induction false} FirstIsWritten(rest: Tokens)
    ensures Render(NeatAfter(LBRACE, EntryTokens("a", "import", rest))) == FIRST + Render(NeatAfter(COMMA, rest))
  {
    FirstBytes();
    NamesAreIdents();
    hide NeatAfter, Render, EntryTokens, LookupIdent, FIRST, SignatureBytes, RelationBytes;
    EntryIsWritten(LBRACE, "a", "import", rest);
    Associate(SignatureBytes("a"), RelationBytes("import"), Render(NeatAfter(COMMA, rest)));
  }

  /** The tokens of the example, from the header on. */
  function ExampleTokens(entries: Tokens): Tokens {
    HeaderThen(Source("A", true, []), Cons(PERMITS, Cons(EQUAL, Cons(LBRACE, entries))))
  }

  lemma {:induction false} HeadIsWritten(entries: Tokens)
    ensures ExampleTokens(entries).Cons?
    ensures Render(Neat(ExampleTokens(entries))) == SCHEMA_HEAD + (OPEN + Render(NeatAfter(LBRACE, entries)))
  {
    assert LookupIdent("A") == Ident && " " + "A" == " A";
    hide NeatAfter, Render, LookupIdent, Neat, SCHEMA_HEAD, OPEN;
    HeaderIsWritten("A", entries);
    HeaderBytes(Render(NeatAfter(LBRACE, entries)));
  }

  lemma {:induction false} PrintIs()
    requires IsIdent("A") && ListingOk(RELATIONS)
    ensures Print("A", RELATIONS) == SCHEMA_HEAD + (OPEN + (FIRST + LAST))
  {
    TokensAre();
    LastIsWritten();
    hide NeatAfter, Render, EntryTokens, LookupIdent, PrintSchema, SourceTokens, ListingOk, Neat, FIRST, LAST,
         SCHEMA_HEAD, OPEN;
    var last := EntryTokens("b", "x", CLOSE);
    FirstIsWritten(last);
    HeadIsWritten(EntryTokens("a", "import", last));
  }

  // --------------------------------------------------------------- the outcome

  lemma {:induction false} OneIsLeft()
    ensures Left("A", [PrintEntry("a", ComputedUserset("import")), PrintEntry("b", ComputedUserset("x"))])
         == Some(map["a" := ComputedUserset("")])
  {
  }

  /** Two relations are written, one comes back, with a relation without a name, and no error. */
  lemma {:induction false} ImportIsLostSilently(turns: nat)
    requires turns >= 1
    ensures Parse(SCHEMA_HEAD + (OPEN + (FIRST + LAST)), turns) == Schema("A", map["a" := ComputedUserset("")])
  {
    NamesFitIn();
    EntriesAre();
    OneIsLeft();
    PrintIs();
    hide IsIdent, ListingOk, PrintEntries, PrintEntry, Print, Parse, Left, SCHEMA_HEAD, OPEN, FIRST, LAST;
    PrintOutcome("A", RELATIONS, turns);
  }
}
