/**
  When parsing halts. The functions of AplParser.dfy are total, so every loop but one halts on
  every input. The loop over a class body halts on all inputs except those on which it meets
  `related` without a colon: from there it repeats for ever without consuming a token.
 */
module AplTermination {
  import opened Bytes
  import opened AplLexer
  import opened AplParser
  import opened AplSource
  import opened AplText

  /** In the stuck state a turn changes nothing but the growing error list. */
  lemma {:induction false} StuckTurn(s: bytes, c: ClassState)
    requires Stuck(c.st)
    ensures !AtBlockEnd(c.st)
    ensures ClassStep(s, c) == Go(c.(errors := c.errors + [PeekError(Colon, c.st.peek)]))
  {
  }

  /** Every other turn consumes input. */
  lemma {:induction false} TurnConsumes(s: bytes, c: ClassState)
    requires !AtBlockEnd(c.st) && !Stuck(c.st) && ClassStep(s, c).Go?
    ensures Size(s, ClassStep(s, c).state.st) < Size(s, c.st)
  {
  }

  /** Whether the loop, run from c, comes to a class-level `related` whose next token is no colon. */
  predicate MeetsStuck(s: bytes, c: ClassState)
    decreases Size(s, c.st)
  {
    if AtBlockEnd(c.st) then false
    else if Stuck(c.st) then true
    else
      var step := ClassStep(s, c);
      step.Go? && (TurnConsumes(s, c); MeetsStuck(s, step.state))
  }

  lemma {:induction false} TurnConsumesIfGo(s: bytes, c: ClassState)
    requires !AtBlockEnd(c.st) && !MeetsStuck(s, c)
    ensures Size(s, c.st) > 0
    ensures ClassStep(s, c).Go? ==>
              Size(s, ClassStep(s, c).state.st) < Size(s, c.st) && !MeetsStuck(s, ClassStep(s, c).state)
  {
  }

  lemma {:induction false} StuckRunsForever(s: bytes, name: bytes, c: ClassState, turns: nat)
    requires MeetsStuck(s, c)
    ensures ClassLoop(s, name, c, turns) == Running
    decreases turns
  {
    if turns > 0 {
      if Stuck(c.st) {
        StuckTurn(s, c);
      }
      StuckRunsForever(s, name, ClassStep(s, c).state, turns - 1);
    }
  }

  lemma {:induction false} OthersHalt(s: bytes, name: bytes, c: ClassState, turns: nat)
    requires !MeetsStuck(s, c) && turns >= Size(s, c.st)
    ensures ClassLoop(s, name, c, turns) != Running
    decreases turns
  {
    hide Next, ClassStep;
    if !AtBlockEnd(c.st) {
      if ClassStep(s, c).Go? {
        TurnConsumes(s, c);
        OthersHalt(s, name, ClassStep(s, c).state, turns - 1);
      }
    }
  }

  /** The loop, one turn unrolled. */
  lemma {:induction false} LoopOnce(s: bytes, name: bytes, c: ClassState, turns: nat)
    ensures AtBlockEnd(c.st) ==> ClassLoop(s, name, c, turns) == Finish(name, c)
    ensures !AtBlockEnd(c.st) && turns > 0 ==>
              ClassLoop(s, name, c, turns) ==
              if ClassStep(s, c).Stop? then Failed(ClassStep(s, c).why)
              else ClassLoop(s, name, ClassStep(s, c).state, turns - 1)
  {
    hide ClassStep, Finish;
  }

  lemma {:induction false} LoopStops(s: bytes, name: bytes, c: ClassState)
    requires !AtBlockEnd(c.st)
    ensures ClassLoop(s, name, c, 0) == Running
  {
  }

  /** A result once reached does not depend on how many more turns are allowed. */
  lemma {:induction false} ResultIsStable(s: bytes, name: bytes, c: ClassState, turns: nat, more: nat)
    requires turns <= more && ClassLoop(s, name, c, turns) != Running
    ensures ClassLoop(s, name, c, more) == ClassLoop(s, name, c, turns)
    decreases turns
  {
    hide Next, Size, ClassStep;
    if !AtBlockEnd(c.st) && ClassStep(s, c).Go? {
      ResultIsStable(s, name, ClassStep(s, c).state, turns - 1, more - 1);
    }
  }

  /** The one way parsing can hang, decided by running the header and scanning the class body. */
  predicate HangsOn(s: bytes) {
    var header := ParseHeader(s, Start(s));
    header.Opened? && MeetsStuck(s, ClassState(header.st, map[], []))
  }

  predicate Hangs(input: bytes) {
    HangsOn(ClassText(input))
  }

  /** Enough turns for any input that does not hang. */
  function TurnBound(input: bytes): nat {
    2 * |input| + 4
  }

  lemma {:induction false} SizeIsBounded(s: bytes)
    ensures Size(s, Start(s)) <= 2 * |s| + 4
  {
  }

  /** The class body starts within the same bound. */
  lemma {:induction false} HeaderSize(s: bytes)
    ensures ParseHeader(s, Start(s)).Opened? ==> Size(s, ParseHeader(s, Start(s)).st) <= TurnBound(s)
  {
    SizeIsBounded(s);
  }

  /** Parse returns if and only if the input does not hang, and then within TurnBound turns. */
  lemma {:induction false} HaltsIffNotStuck(input: bytes)
    ensures (exists turns: nat :: Parse(input, turns) != Running) <==> !Hangs(input)
    ensures !Hangs(input) ==> forall turns: nat :: turns >= TurnBound(input) ==> Parse(input, turns) != Running
  {
    var s := ClassText(input);
    var header := ParseHeader(s, Start(s));
    if header.Opened? {
      var c := ClassState(header.st, map[], []);
      if MeetsStuck(s, c) {
        forall turns: nat ensures Parse(input, turns) == Running {
          StuckRunsForever(s, header.name, c, turns);
        }
      } else {
        SizeIsBounded(s);
        forall turns: nat | turns >= TurnBound(input) ensures Parse(input, turns) != Running {
          OthersHalt(s, header.name, c, turns);
        }
        assert Parse(input, TurnBound(input)) != Running;
      }
    } else {
      assert Parse(input, TurnBound(input)) != Running;
    }
  }

  /** `class N { related` and then no colon: nothing after it is ever looked at. */
  lemma {:induction false} RelatedWithoutColonHangs(s: bytes, name: bytes, after: Token, turns: nat)
    requires Word(name).kind == Ident && !IsImport(Word(name)) && after.kind != Colon && !IsImport(after)
    requires Ahead(s, 0, Cons(CLASS, Cons(Word(name), Cons(LBRACE, Cons(RELATED, Cons(after, Nil))))))
    ensures ParseNamespace(s, turns) == Running
  {
    hide Next, Size, Ahead, Start;
    var toks := Cons(CLASS, Cons(Word(name), Cons(LBRACE, Cons(RELATED, Cons(after, Nil)))));
    StartSees(s, toks);
    var st := Start(s);
    Advances(s, st, toks);
    Advances(s, Next(s, st), toks.tail);
    Advances(s, Next(s, Next(s, st)), toks.tail.tail);
    StuckRunsForever(s, name, ClassState(Next(s, Next(s, Next(s, st))), map[], []), turns);
  }

  /** The tokens of `class A { related }`. */
  const HANGING := Cons(CLASS, Cons(Word("A"), Cons(LBRACE, Cons(RELATED, Cons(RBRACE, Nil)))))

  lemma {:induction false} HangingLex()
    ensures Lexemes(HANGING) && NoImports(HANGING) && Word("A").kind == Ident
  {
    KeywordLex(CLASS);
    KeywordLex(RELATED);
    PunctuationLex(LBRACE);
    PunctuationLex(RBRACE);
    assert IsName("A");
    WordLex("A");
    hide IsWritten, IsName;
    LexCons(RELATED, Cons(RBRACE, Nil));
    LexCons(Word("A"), Cons(LBRACE, Cons(RELATED, Cons(RBRACE, Nil))));
  }

  lemma {:induction false} HangingText()
    requires Lexemes(HANGING)
    ensures Render(Neat(HANGING)) == "class A { related }"
  {
    NeatStep(RELATED, RBRACE, Nil);
    NeatStep(LBRACE, RELATED, Cons(RBRACE, Nil));
    NeatStep(Word("A"), LBRACE, Cons(RELATED, Cons(RBRACE, Nil)));
    NeatStep(CLASS, Word("A"), HANGING.tail.tail);
    NeatOk(HANGING);
    HangingLeads();
    HangingBytes();
    hide NeatAfter, Render, Neat, Lexemes, Lead, LookupIdent;
  }

  lemma {:induction false} HangingLeads()
    ensures Lead(CLASS, Word("A")) == " A" && Lead(Word("A"), LBRACE) == " {"
    ensures Lead(LBRACE, RELATED) == " related" && Lead(RELATED, RBRACE) == " }"
  {
  }

  lemma {:induction false} HangingBytes()
    ensures "class" + (" A" + (" {" + (" related" + (" }" + "")))) == "class A { related }"
  {
  }

  /** A member of the hanging family. */
  lemma {:induction false} HangExample(turns: nat)
    ensures Parse("class A { related }", turns) == Running
  {
    HangingLex();
    HangingText();
    hide HANGING, Lexemes, TextOk, TokensOf, Ahead, ParseNamespace, Render, Neat, NoImports, Truncate, ClassText, LookupIdent;
    NeatOk(HANGING);
    var s := Render(Neat(HANGING));
    TextIsLexed(s, 0, Neat(HANGING));
    StartsWithIt();
    ClassTextFromStart(s);
    HangingRuns(s, turns);
  }

  lemma {:induction false} HangingRuns(s: bytes, turns: nat)
    requires NoImports(HANGING) && Word("A").kind == Ident && Ahead(s, 0, Truncate(HANGING))
    ensures ParseNamespace(s, turns) == Running
  {
    hide ParseNamespace, Ahead;
    RelatedWithoutColonHangs(s, "A", RBRACE, turns);
  }

  lemma {:induction false} StartsWithIt()
    ensures "class " <= "class A { related }"
  {
  }
}
