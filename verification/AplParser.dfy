/**
  What the parser of nexus/internal/apl/parser.go:224-579 computes, as functions from parser
  state to parser state. The state is the two-token window and the lexer position. `Size` is the
  termination measure: no call of nextToken raises it, and a call made while the current token is
  not EOF lowers it. AplMachine.dfy proves the source's own loops and classes against this file.
 */
module AplParser {
  import opened Bytes
  import opened AplLexer

  datatype Tree =
    | ComputedUserset(relation: bytes)
    | TupleToUserset(tupleset: bytes, computed: bytes)
    | Union(children: seq<Tree>)
    | Intersection(children: seq<Tree>)

  datatype PState = PState(cur: Token, peek: Token, pos: nat)

  datatype Failure =
    | UnexpectedToken(literal: bytes)
    | WantedRParen
    | WantedDotAfterThis | WantedRelated | WantedDotAfterRelated
    | WantedTraverseParen | WantedTraverseParamEnd | WantedTraverseArrow
    | WantedTraverseDot | WantedTraverseRelated | WantedTraverseSecondDot | WantedTraverseEnd
    | WantedPermitsEqual | WantedPermitsBrace | WantedRuleArrow(relation: bytes, literal: bytes)
    | WantedClass(literal: bytes) | WantedClassName | WantedNamespace | WantedClassBrace
    | Recorded(errors: seq<PeekError>)

  /** One entry of the parser's error list: the token type wanted and the token found. */
  datatype PeekError = PeekError(wanted: TokenType, got: Token)

  datatype ExprResult = Ok(tree: Tree, st: PState) | Err(why: Failure, st: PState)

  // ---------------------------------------------------------------- tokens

  function Weight(t: Token): nat {
    if t.kind == EOF then 0 else 1
  }

  function Size(s: bytes, st: PState): nat {
    2 * (if st.pos <= |s| then |s| - st.pos + 1 else 0) + Weight(st.peek) + Weight(st.cur)
  }

  /** Shifts the window by one token: the two assignments that open nextToken. */
  function Shift(s: bytes, st: PState): (r: PState)
    ensures Size(s, r) <= Size(s, st)
    ensures st.cur.kind != EOF ==> Size(s, r) < Size(s, st)
  {
    var (tok, pos) := Lex(s, st.pos);
    PState(st.peek, tok, pos)
  }

  predicate IsImport(t: Token) {
    t.kind == Ident && t.literal == "import"
  }

  function ToSemicolon(s: bytes, st: PState): (r: PState)
    ensures Size(s, r) <= Size(s, st)
    decreases Size(s, st)
  {
    if st.cur.kind != Semicolon && st.cur.kind != EOF then ToSemicolon(s, Shift(s, st)) else st
  }

  /** nextToken: shift, and drop everything up to the next `;` when the new token is `import`. */
  function Next(s: bytes, st: PState): (r: PState)
    ensures Size(s, r) <= Size(s, st)
    ensures st.cur.kind != EOF ==> Size(s, r) < Size(s, st)
  {
    var a := Shift(s, st);
    if IsImport(a.cur) then
      var b := ToSemicolon(s, a);
      if b.cur.kind == Semicolon then Shift(s, b) else b
    else a
  }

  function Start(s: bytes): PState {
    Next(s, Next(s, PState(ZERO_TOKEN, ZERO_TOKEN, 0)))
  }

  /** Skips tokens until the current one has the given kind or is EOF. */
  function SkipTo(s: bytes, st: PState, kind: TokenType): (r: PState)
    ensures Size(s, r) <= Size(s, st)
    ensures r.cur.kind == kind || r.cur.kind == EOF
    decreases Size(s, st)
  {
    if st.cur.kind != kind && st.cur.kind != EOF then SkipTo(s, Next(s, st), kind) else st
  }

  function SkipIf(s: bytes, st: PState, kind: TokenType): (r: PState)
    ensures Size(s, r) <= Size(s, st)
  {
    if st.cur.kind == kind then Next(s, st) else st
  }

  // ----------------------------------------------------------- expressions

  /** Appends to the left tree when it already has the operator's type, else makes a new node. */
  function JoinUnion(left: Tree, right: Tree): Tree {
    if left.Union? then Union(left.children + [right]) else Union([left, right])
  }

  function JoinIntersection(left: Tree, right: Tree): Tree {
    if left.Intersection? then Intersection(left.children + [right]) else Intersection([left, right])
  }

  function ParseTraverse(s: bytes, relName: bytes, st: PState): (r: ExprResult)
    ensures r.Ok? ==> Size(s, r.st) <= Size(s, st) && r.tree.TupleToUserset?
  {
    if st.peek.kind != LParen then Err(WantedTraverseParen, st)
    else
      var param := ParseTraverseParam(s, Next(s, Next(s, st)));
      if !param.found then Err(WantedTraverseParamEnd, param.st)
      else ParseTraverseBody(s, relName, param.st)
  }

  datatype Param = Param(found: bool, st: PState)

  /** The parameter of the function passed to traverse: `p`, `(p)`, `(p: Type)` or nothing. */
  function ParseTraverseParam(s: bytes, a: PState): (r: Param)
    ensures Size(s, r.st) <= Size(s, a)
  {
    if a.cur.kind == Ident then Param(true, Next(s, a))
    else if a.cur.kind == LParen then
      var d := Next(s, Next(s, a));
      var e := if d.cur.kind == Colon then Next(s, Next(s, d)) else d;
      if e.cur.kind != RParen then Param(false, e) else Param(true, Next(s, e))
    else Param(true, a)
  }

  function ParseTraverseBody(s: bytes, relName: bytes, b: PState): (r: ExprResult)
    ensures r.Ok? ==> Size(s, r.st) <= Size(s, b) && r.tree.TupleToUserset?
  {
    if b.cur.kind != Arrow then Err(WantedTraverseArrow, b)
    else
      var d := SkipIf(s, Next(s, b), Ident);
      if d.cur.kind != Dot then Err(WantedTraverseDot, d)
      else
        var e := Next(s, d);
        if e.cur.kind != Related then Err(WantedTraverseRelated, e)
        else
          var f := Next(s, e);
          if f.cur.kind != Dot then Err(WantedTraverseSecondDot, f)
          else
            var g := Next(s, f);
            var h := Next(s, g);
            if h.cur.kind != RParen then Err(WantedTraverseEnd, h)
            else Ok(TupleToUserset(relName, g.cur.literal), Next(s, h))
  }

  /** `this.related.R`, alone or followed by a method call. */
  function ParseLeaf(s: bytes, st: PState): (r: ExprResult)
    requires st.cur.kind == This
    ensures r.Ok? ==> Size(s, r.st) < Size(s, st)
    ensures r.Ok? ==> r.tree.ComputedUserset? || r.tree.TupleToUserset?
  {
    if st.peek.kind != Dot then Err(WantedDotAfterThis, st)
    else
      var st1 := Next(s, st);
      if st1.peek.kind != Related then Err(WantedRelated, st1)
      else
        var st2 := Next(s, st1);
        if st2.peek.kind != Dot then Err(WantedDotAfterRelated, st2)
        else ParseRelationUse(s, Next(s, Next(s, st2)))
  }

  /** From the relation name after `this.related.` to the end of the leaf. */
  function ParseRelationUse(s: bytes, st: PState): (r: ExprResult)
    ensures r.Ok? ==> Size(s, r.st) <= Size(s, st)
    ensures r.Ok? ==> r.tree.ComputedUserset? || r.tree.TupleToUserset?
  {
    if st.peek.kind != Dot then Ok(ComputedUserset(st.cur.literal), Next(s, st))
    else ParseMethodCall(s, st.cur.literal, Next(s, Next(s, st)))
  }

  function ParseMethodCall(s: bytes, relName: bytes, m: PState): (r: ExprResult)
    ensures r.Ok? ==> Size(s, r.st) <= Size(s, m)
    ensures r.Ok? ==> r.tree.ComputedUserset? || r.tree.TupleToUserset?
  {
    if m.cur.literal == "includes" then Ok(ComputedUserset(relName), Next(s, SkipTo(s, m, RParen)))
    else if m.cur.literal == "traverse" then ParseTraverse(s, relName, m)
    else Ok(ComputedUserset(relName), Next(s, m))
  }

  function ParsePrimary(s: bytes, st: PState): (r: ExprResult)
    ensures r.Ok? ==> Size(s, r.st) < Size(s, st)
    decreases Size(s, st), 0
  {
    if st.cur.kind == LParen then
      var inner := ParseOr(s, Next(s, st));
      if inner.Err? then inner
      else if inner.st.cur.kind != RParen then Err(WantedRParen, inner.st)
      else Ok(inner.tree, Next(s, inner.st))
    else if st.cur.kind == This then ParseLeaf(s, st)
    else Err(UnexpectedToken(st.cur.literal), st)
  }

  function AndTail(s: bytes, left: Tree, st: PState): (r: ExprResult)
    ensures r.Ok? ==> Size(s, r.st) <= Size(s, st)
    decreases Size(s, st), 1
  {
    if st.cur.kind != AndAnd then Ok(left, st)
    else
      var right := ParsePrimary(s, Next(s, st));
      if right.Err? then right else AndTail(s, JoinIntersection(left, right.tree), right.st)
  }

  function ParseAnd(s: bytes, st: PState): (r: ExprResult)
    ensures r.Ok? ==> Size(s, r.st) < Size(s, st)
    decreases Size(s, st), 2
  {
    var left := ParsePrimary(s, st);
    if left.Err? then left else AndTail(s, left.tree, left.st)
  }

  function OrTail(s: bytes, left: Tree, st: PState): (r: ExprResult)
    ensures r.Ok? ==> Size(s, r.st) <= Size(s, st)
    decreases Size(s, st), 3
  {
    if st.cur.kind != OrOr then Ok(left, st)
    else
      var right := ParseAnd(s, Next(s, st));
      if right.Err? then right else OrTail(s, JoinUnion(left, right.tree), right.st)
  }

  function ParseOr(s: bytes, st: PState): (r: ExprResult)
    ensures r.Ok? ==> Size(s, r.st) < Size(s, st)
    decreases Size(s, st), 4
  {
    var left := ParseAnd(s, st);
    if left.Err? then left else OrTail(s, left.tree, left.st)
  }

  // ----------------------------------------------------------- class bodies

  type Relations = map<bytes, Tree>

  datatype BlockResult = Parsed(relations: Relations, st: PState) | Rejected(why: Failure, st: PState)

  /** Everything between a permission's name and its `=>`. */
  function SkipSignature(s: bytes, st: PState): (r: PState)
    requires st.cur.kind == Ident
    ensures Size(s, r) < Size(s, st)
  {
    var a := if st.peek.kind == Colon then Next(s, st) else st;
    var b := Next(s, a);
    var c := if b.cur.kind == LParen then Next(s, SkipTo(s, b, RParen))
             else if b.cur.kind == Ctx || b.cur.kind == Ident then Next(s, b)
             else b;
    if c.cur.kind == Colon then Next(s, Next(s, c)) else c
  }

  function SkipSeparator(s: bytes, st: PState): (r: PState)
    ensures Size(s, r) <= Size(s, st)
  {
    if st.cur.kind == Comma || st.cur.kind == Semicolon then Next(s, st) else st
  }

  predicate AtBlockEnd(st: PState) {
    st.cur.kind == RBrace || st.cur.kind == EOF
  }

  /** The expression of one permission, `name (args) => expression`. */
  function EntryRule(s: bytes, st: PState): (r: ExprResult)
    requires st.cur.kind == Ident
    ensures r.Ok? ==> Size(s, r.st) < Size(s, st)
  {
    var a := SkipSignature(s, st);
    if a.cur.kind != Arrow then Err(WantedRuleArrow(st.cur.literal, a.cur.literal), a)
    else ParseOr(s, Next(s, a))
  }

  /** One permission and the separator after it. */
  function PermitsEntry(s: bytes, st: PState, relations: Relations): (r: BlockResult)
    requires st.cur.kind == Ident
    ensures r.Parsed? ==> Size(s, r.st) < Size(s, st)
  {
    var rule := EntryRule(s, st);
    if rule.Err? then Rejected(rule.why, rule.st)
    else Parsed(relations[st.cur.literal := rule.tree], SkipSeparator(s, rule.st))
  }

  /** The loop of parsePermits, inside the braces. */
  function PermitsLoop(s: bytes, st: PState, relations: Relations): (r: BlockResult)
    ensures r.Parsed? ==> Size(s, r.st) <= Size(s, st)
    decreases Size(s, st)
  {
    if AtBlockEnd(st) then Parsed(relations, st)
    else if st.cur.kind == Ident then
      var entry := PermitsEntry(s, st, relations);
      if entry.Rejected? then entry else PermitsLoop(s, entry.st, entry.relations)
    else PermitsLoop(s, Next(s, st), relations)
  }

  /** The tokens `permits = {`. */
  function OpenPermits(s: bytes, st: PState): (r: BlockResult)
    requires st.cur.kind == Permits
    ensures r.Parsed? ==> Size(s, r.st) < Size(s, st) && r.relations == map[]
  {
    if st.peek.kind != Equal then Rejected(WantedPermitsEqual, st)
    else
      var a := Next(s, st);
      if a.peek.kind != LBrace then Rejected(WantedPermitsBrace, a)
      else Parsed(map[], Next(s, Next(s, a)))
  }

  function ParsePermits(s: bytes, st: PState, relations: Relations): (r: BlockResult)
    requires st.cur.kind == Permits
    ensures r.Parsed? ==> Size(s, r.st) < Size(s, st)
  {
    var open := OpenPermits(s, st);
    if open.Rejected? then open
    else
      var body := PermitsLoop(s, open.st, relations);
      if body.Rejected? then body
      else Parsed(body.relations, SkipIf(s, Next(s, body.st), Semicolon))
  }

  /** parseRelated: the new state and the errors it records. */
  function ParseRelated(s: bytes, st: PState): (r: (PState, seq<PeekError>))
    ensures Size(s, r.0) <= Size(s, st)
    ensures st.cur.kind != EOF && st.peek.kind == Colon ==> Size(s, r.0) < Size(s, st)
    ensures st.peek.kind != Colon ==> r == (st, [PeekError(Colon, st.peek)])
  {
    if st.peek.kind != Colon then (st, [PeekError(Colon, st.peek)])
    else
      var a := Next(s, st);
      if a.peek.kind != LBrace then (a, [PeekError(LBrace, a.peek)])
      else (SkipSeparator(s, Next(s, SkipTo(s, Next(s, Next(s, a)), RBrace))), [])
  }

  datatype ClassState = ClassState(st: PState, relations: Relations, errors: seq<PeekError>)

  datatype Step = Go(state: ClassState) | Stop(why: Failure)

  /** One turn of the loop over a class body. */
  function ClassStep(s: bytes, c: ClassState): Step {
    if c.st.cur.kind == Related then
      var (st, errors) := ParseRelated(s, c.st);
      Go(c.(st := st, errors := c.errors + errors))
    else if c.st.cur.kind == Permits then
      var body := ParsePermits(s, c.st, c.relations);
      if body.Rejected? then Stop(body.why) else Go(c.(st := body.st, relations := body.relations))
    else Go(c.(st := Next(s, c.st)))
  }

  /** A class-level `related` whose next token is not a colon. */
  predicate Stuck(st: PState) {
    st.cur.kind == Related && st.peek.kind != Colon
  }

  datatype Outcome = Schema(name: bytes, relations: Relations) | Failed(why: Failure) | Running

  function Finish(name: bytes, c: ClassState): Outcome {
    if |c.errors| > 0 then Failed(Recorded(c.errors)) else Schema(name, c.relations)
  }

  /** At most `turns` turns of the loop over the class body. */
  function ClassLoop(s: bytes, name: bytes, c: ClassState, turns: nat): Outcome
    decreases turns
  {
    if AtBlockEnd(c.st) then Finish(name, c)
    else if turns == 0 then Running
    else
      var step := ClassStep(s, c);
      if step.Stop? then Failed(step.why) else ClassLoop(s, name, step.state, turns - 1)
  }

  function SkipImports(s: bytes, st: PState): (r: PState)
    ensures Size(s, r) <= Size(s, st)
    decreases Size(s, st)
  {
    if IsImport(st.cur) then SkipImports(s, Next(s, st)) else st
  }

  datatype Header = Opened(name: bytes, st: PState) | Refused(why: Failure)

  function SkipImplements(s: bytes, a: PState): (r: Param)
    ensures Size(s, r.st) <= Size(s, a)
  {
    if a.peek.kind != Implements then Param(true, a)
    else
      var b := Next(s, a);
      if b.peek.kind == Namespace then Param(true, Next(s, b)) else Param(false, b)
  }

  function ParseHeader(s: bytes, start: PState): (r: Header)
    ensures r.Opened? ==> Size(s, r.st) <= Size(s, start)
  {
    var st := SkipImports(s, start);
    if st.cur.kind != Class then Refused(WantedClass(st.cur.literal))
    else if st.peek.kind != Ident then Refused(WantedClassName)
    else
      var a := Next(s, st);
      var b := SkipImplements(s, a);
      if !b.found then Refused(WantedNamespace)
      else if b.st.peek.kind != LBrace then Refused(WantedClassBrace)
      else Opened(a.cur.literal, Next(s, Next(s, b.st)))
  }

  /** ParseNamespace on a fresh parser, its class loop cut off after `turns` turns. */
  function ParseNamespace(s: bytes, turns: nat): Outcome {
    var header := ParseHeader(s, Start(s));
    if header.Refused? then Failed(header.why)
    else ClassLoop(s, header.name, ClassState(header.st, map[], []), turns)
  }

  /** What Parse hands to the lexer: the input from the first "class " on, if there is one. */
  function ClassText(input: bytes): bytes {
    var idx := IndexFrom(input, "class ", 0);
    if idx.Some? then input[idx.value..] else input
  }

  function Parse(input: bytes, turns: nat): Outcome {
    ParseNamespace(ClassText(input), turns)
  }

  // -------------------------------------------------- import statements, said outright

  /** The window after k shifts: its current token is the k-th of the input from there, imports included. */
  function ShiftBy(s: bytes, st: PState, k: nat): PState
    decreases k
  {
    if k == 0 then st else ShiftBy(s, Shift(s, st), k - 1)
  }

  lemma {:induction false} ToSemicolonIs(s: bytes, st: PState) returns (k: nat)
    ensures ToSemicolon(s, st) == ShiftBy(s, st, k) && ShiftBy(s, st, k).cur.kind in {Semicolon, EOF}
    ensures forall j :: 0 <= j < k ==> ShiftBy(s, st, j).cur.kind !in {Semicolon, EOF}
    decreases Size(s, st)
  {
    hide Shift;
    if st.cur.kind == Semicolon || st.cur.kind == EOF {
      k := 0;
    } else {
      var rest := ToSemicolonIs(s, Shift(s, st));
      k := rest + 1;
      forall j | 0 <= j < k ensures ShiftBy(s, st, j).cur.kind !in {Semicolon, EOF} {
        if j > 0 {
          assert ShiftBy(s, st, j) == ShiftBy(s, Shift(s, st), j - 1);
        }
      }
    }
  }

  lemma {:induction false} ShiftOneMore(s: bytes, st: PState, k: nat)
    ensures ShiftBy(s, st, k + 1) == Shift(s, ShiftBy(s, st, k))
    decreases k
  {
    hide Shift;
    if k > 0 {
      ShiftOneMore(s, Shift(s, st), k - 1);
    }
  }

  /**
    The parser moves on to the next token; if that is the identifier `import`, to the one behind
    the first semicolon from there, or to the end when there is none.
   */
  lemma {:induction false} NextIs(s: bytes, st: PState) returns (k: nat)
    ensures var first := ShiftBy(s, st, 1);
            if first.cur == Token(Ident, "import") then
              k > 1
              && (forall j :: 1 < j < k ==> ShiftBy(s, st, j).cur.kind !in {Semicolon, EOF})
              && (ShiftBy(s, st, k).cur.kind == Semicolon ==> Next(s, st) == ShiftBy(s, st, k + 1))
              && (ShiftBy(s, st, k).cur.kind == EOF ==> Next(s, st) == ShiftBy(s, st, k))
              && ShiftBy(s, st, k).cur.kind in {Semicolon, EOF}
            else Next(s, st) == first
  {
    hide Shift, ToSemicolon;
    var first := Shift(s, st);
    assert ShiftBy(s, st, 1) == ShiftBy(s, first, 0);
    if IsImport(first.cur) {
      var rest := ToSemicolonIs(s, first);
      k := rest + 1;
      assert rest > 0;
      forall j | 1 < j <= k ensures ShiftBy(s, st, j) == ShiftBy(s, first, j - 1) {
      }
      ShiftOneMore(s, st, k);
    } else {
      k := 1;
    }
  }

  /** The header starts at the first token that is not `import`, where import statements stand one after another. */
  lemma {:induction false} ImportsAreSkipped(s: bytes, st: PState)
    ensures SkipImports(s, st).cur != Token(Ident, "import")
    ensures st.cur != Token(Ident, "import") ==> SkipImports(s, st) == st
    ensures st.cur == Token(Ident, "import") ==> SkipImports(s, st) == SkipImports(s, Next(s, st))
    decreases Size(s, st)
  {
    hide Next;
    if IsImport(st.cur) {
      ImportsAreSkipped(s, Next(s, st));
    }
  }
}
