/**
  When the parser of nexus/internal/apl/parser.go:282-578 gives up, and what it says then. Every failure
  names a token that really is missing where the parser stands.
 */
module AplErrors {
  import opened Bytes
  import opened AplLexer
  import opened AplParser

  /** What is wrong at this state, for each failure of an expression or a permission. */
  predicate Fits(why: Failure, st: PState) {
    match why
    case UnexpectedToken(literal) => st.cur.kind !in {LParen, This} && st.cur.literal == literal
    case WantedRParen => st.cur.kind != RParen
    case WantedDotAfterThis => st.cur.kind == This && st.peek.kind != Dot
    case WantedRelated => st.peek.kind != Related
    case WantedDotAfterRelated => st.peek.kind != Dot
    case WantedTraverseParen => st.cur.literal == "traverse" && st.peek.kind != LParen
    case WantedTraverseParamEnd => st.cur.kind != RParen
    case WantedTraverseArrow => st.cur.kind != Arrow
    case WantedTraverseDot => st.cur.kind != Dot
    case WantedTraverseRelated => st.cur.kind != Related
    case WantedTraverseSecondDot => st.cur.kind != Dot
    case WantedTraverseEnd => st.cur.kind != RParen
    case WantedPermitsEqual => st.cur.kind == Permits && st.peek.kind != Equal
    case WantedPermitsBrace => st.peek.kind != LBrace
    case WantedRuleArrow(_, literal) => st.cur.kind != Arrow && st.cur.literal == literal
    case _ => false
  }

  lemma {:induction false} LeafErrors(s: bytes, st: PState)
    requires st.cur.kind == This && ParseLeaf(s, st).Err?
    ensures Fits(ParseLeaf(s, st).why, ParseLeaf(s, st).st)
  {
    hide Next, Size, ToSemicolon;
  }

  lemma {:induction false} PrimaryErrors(s: bytes, st: PState)
    requires ParsePrimary(s, st).Err?
    ensures Fits(ParsePrimary(s, st).why, ParsePrimary(s, st).st)
    decreases Size(s, st), 0
  {
    hide Next, Size, Fits;
    if st.cur.kind == LParen {
      var inner := ParseOr(s, Next(s, st));
      if inner.Err? {
        OrErrors(s, Next(s, st));
      } else {
        NoRParen(inner.st);
      }
    } else if st.cur.kind == This {
      LeafErrors(s, st);
    } else {
      NoPrimary(st);
    }
  }

  lemma {:induction false} NoRParen(st: PState)
    ensures st.cur.kind != RParen ==> Fits(WantedRParen, st)
  {
  }

  lemma {:induction false} NoPrimary(st: PState)
    ensures st.cur.kind !in {LParen, This} ==> Fits(UnexpectedToken(st.cur.literal), st)
  {
  }

  lemma {:induction false} AndTailErrors(s: bytes, left: Tree, st: PState)
    requires AndTail(s, left, st).Err?
    ensures Fits(AndTail(s, left, st).why, AndTail(s, left, st).st)
    decreases Size(s, st), 1
  {
    hide Next, Size, Fits, JoinIntersection;
    var right := ParsePrimary(s, Next(s, st));
    if right.Err? {
      PrimaryErrors(s, Next(s, st));
    } else {
      AndTailErrors(s, JoinIntersection(left, right.tree), right.st);
    }
  }

  lemma {:induction false} AndErrors(s: bytes, st: PState)
    requires ParseAnd(s, st).Err?
    ensures Fits(ParseAnd(s, st).why, ParseAnd(s, st).st)
    decreases Size(s, st), 2
  {
    hide Next, Size, Fits;
    var left := ParsePrimary(s, st);
    if left.Err? {
      PrimaryErrors(s, st);
    } else {
      AndTailErrors(s, left.tree, left.st);
    }
  }

  lemma {:induction false} OrTailErrors(s: bytes, left: Tree, st: PState)
    requires OrTail(s, left, st).Err?
    ensures Fits(OrTail(s, left, st).why, OrTail(s, left, st).st)
    decreases Size(s, st), 3
  {
    hide Next, Size, Fits, JoinUnion;
    var right := ParseAnd(s, Next(s, st));
    if right.Err? {
      AndErrors(s, Next(s, st));
    } else {
      OrTailErrors(s, JoinUnion(left, right.tree), right.st);
    }
  }

  /** An expression is given up only for a token that is not what the failure says it should be. */
  lemma {:induction false} OrErrors(s: bytes, st: PState)
    requires ParseOr(s, st).Err?
    ensures Fits(ParseOr(s, st).why, ParseOr(s, st).st)
    decreases Size(s, st), 4
  {
    hide Next, Size, Fits;
    var left := ParseAnd(s, st);
    if left.Err? {
      AndErrors(s, st);
    } else {
      OrTailErrors(s, left.tree, left.st);
    }
  }

  /** A permission without its arrow is named, with what stands there instead. */
  lemma {:induction false} EntryErrors(s: bytes, st: PState)
    requires st.cur.kind == Ident && EntryRule(s, st).Err?
    ensures Fits(EntryRule(s, st).why, EntryRule(s, st).st)
    ensures var a := SkipSignature(s, st);
            a.cur.kind != Arrow ==> EntryRule(s, st) == Err(WantedRuleArrow(st.cur.literal, a.cur.literal), a)
  {
    hide Next, Size, SkipSignature, ParseOr;
    if SkipSignature(s, st).cur.kind == Arrow {
      OrErrors(s, Next(s, SkipSignature(s, st)));
    }
  }

  lemma {:induction false} LoopErrors(s: bytes, st: PState, relations: Relations)
    requires PermitsLoop(s, st, relations).Rejected?
    ensures Fits(PermitsLoop(s, st, relations).why, PermitsLoop(s, st, relations).st)
    decreases Size(s, st)
  {
    hide Next, Size, EntryRule, Fits;
    if st.cur.kind == Ident {
      var entry := PermitsEntry(s, st, relations);
      if entry.Rejected? {
        EntryErrors(s, st);
      } else {
        LoopErrors(s, entry.st, entry.relations);
      }
    } else {
      LoopErrors(s, Next(s, st), relations);
    }
  }

  /** The block of permissions is given up only for a token that is not what the failure says. */
  lemma {:induction false} PermitsErrors(s: bytes, st: PState, relations: Relations)
    requires st.cur.kind == Permits && ParsePermits(s, st, relations).Rejected?
    ensures Fits(ParsePermits(s, st, relations).why, ParsePermits(s, st, relations).st)
  {
    hide Next, Size, PermitsLoop;
    var open := OpenPermits(s, st);
    if open.Parsed? {
      LoopErrors(s, open.st, relations);
    }
  }

  /** And so is the class header, by the first token of it that is missing. */
  lemma {:induction false} HeaderErrors(s: bytes, start: PState)
    requires ParseHeader(s, start).Refused?
    ensures var st := SkipImports(s, start);
            var named := Next(s, st);
            var open := if named.peek.kind == Implements then Next(s, Next(s, named)) else named;
            match ParseHeader(s, start).why
            case WantedClass(literal) => st.cur.kind != Class && literal == st.cur.literal
            case WantedClassName => st.cur.kind == Class && st.peek.kind != Ident
            case WantedNamespace => st.peek.kind == Ident && named.peek.kind == Implements && Next(s, named).peek.kind != Namespace
            case WantedClassBrace => st.peek.kind == Ident && open.peek.kind != LBrace
            case _ => false
  {
    hide Next, Size, SkipImports;
  }

  // ------------------------------------------------------- what is not given up

  /** A block of permissions is opened by `=` and `{`, and by nothing else. */
  lemma {:induction false} PermitsOpen(s: bytes, st: PState)
    requires st.cur.kind == Permits
    ensures OpenPermits(s, st).Parsed? <==> st.peek.kind == Equal && Next(s, st).peek.kind == LBrace
    ensures OpenPermits(s, st).Parsed? ==> OpenPermits(s, st).st == Next(s, Next(s, Next(s, st)))
  {
    hide Next;
  }

  /** A related block takes `:` and `{`; for the first of them that is missing one error is recorded. */
  lemma {:induction false} RelatedOpen(s: bytes, st: PState)
    ensures var (after, errors) := ParseRelated(s, st);
            if st.peek.kind != Colon then after == st && errors == [PeekError(Colon, st.peek)]
            else if Next(s, st).peek.kind != LBrace then
              after == Next(s, st) && errors == [PeekError(LBrace, Next(s, st).peek)]
            else errors == []
  {
    hide Next;
  }

  /** The class header is accepted exactly when its tokens stand there in order, and names the class by the second. */
  lemma {:induction false} HeaderOpens(s: bytes, start: PState)
    ensures var st := SkipImports(s, start);
            var named := Next(s, st);
            var open := if named.peek.kind == Implements then Next(s, Next(s, named)) else named;
            ParseHeader(s, start) ==
            if st.cur.kind == Class && st.peek.kind == Ident
               && (named.peek.kind != Implements || Next(s, named).peek.kind == Namespace) && open.peek.kind == LBrace
            then Opened(named.cur.literal, Next(s, Next(s, open)))
            else Refused(ParseHeader(s, start).why)
  {
    hide Next, SkipImports;
  }

  /** A class body is finished at its brace or at the end, with the errors recorded up to there if there are any. */
  lemma {:induction false} BodyEnds(s: bytes, name: bytes, c: ClassState, turns: nat)
    requires c.st.cur.kind in {RBrace, EOF}
    ensures c.errors == [] ==> ClassLoop(s, name, c, turns) == Schema(name, c.relations)
    ensures c.errors != [] ==> ClassLoop(s, name, c, turns) == Failed(Recorded(c.errors))
  {
    hide ClassStep;
  }
}
