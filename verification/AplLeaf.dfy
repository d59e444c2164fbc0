/**
  The leaves of permission expressions as a language of tokens, nexus/internal/apl/parser.go:477-575:
  every form the parser accepts, tolerant ones included, and no other. The theorems say that the
  parser reads a leaf exactly when the tokens are one of these forms, and what tree it makes of it.
 */
module AplLeaf {
  import opened Bytes
  import opened AplLexer
  import opened AplParser

  /** What must hold behind a token: nothing, that no import statement follows, or that no dot does. */
  datatype After = Loose | Tight | NoDot

  /** A token given by its kind, or a particular token. */
  datatype Item = Fixed(kind: TokenType, after: After) | Exact(token: Token, after: After)

  datatype Items = Done | Then(item: Item, rest: Items)

  /** The parameter of the function passed to traverse. */
  datatype Parameter = NoParameter | Named(name: Token) | InParens(name: Token, type_: Option<Token>)

  datatype Suffix =
    | Bare
    | Call(method_: Token)
    | Includes(skipped: seq<Token>, close: Token)
    | Traverse(method_: Token, parameter: Parameter, binder: Option<Token>, computed: Token)

  /** `this.related.relation` and what follows it. */
  datatype LeafText = LeafText(relation: Token, suffix: Suffix)

  function LeafTree(l: LeafText): Tree {
    match l.suffix
    case Traverse(_, _, _, computed) => TupleToUserset(l.relation.literal, computed.literal)
    case _ => ComputedUserset(l.relation.literal)
  }

  predicate ParameterOk(p: Parameter) {
    p.Named? ==> p.name.kind == Ident
  }

  predicate EndsSkip(t: Token) {
    t.kind == RParen || t.kind == EOF
  }

  predicate SuffixOk(x: Suffix) {
    match x
    case Bare => true
    case Call(m) => m.literal != "includes" && m.literal != "traverse"
    case Includes(skipped, close) =>
      (forall i :: 0 <= i < |skipped| ==> !EndsSkip(skipped[i])) && EndsSkip(close)
      && (skipped + [close])[0].literal == "includes"
    case Traverse(m, p, binder, _) =>
      m.literal == "traverse" && ParameterOk(p) && (binder.Some? ==> binder.value.kind == Ident)
  }

  predicate LeafOk(l: LeafText) {
    SuffixOk(l.suffix)
  }

  // ----------------------------------------------------------- token lists

  function ExactsThen(ts: seq<Token>, rest: Items): Items {
    if ts == [] then rest else Then(Exact(ts[0], Loose), ExactsThen(ts[1..], rest))
  }

  function ParameterThen(p: Parameter, rest: Items): Items {
    match p
    case NoParameter => rest
    case Named(x) => Then(Exact(x, Loose), rest)
    case InParens(x, t) =>
      var close := Then(Fixed(RParen, Loose), rest);
      Then(Fixed(LParen, Loose), Then(Exact(x, Loose),
        if t.Some? then Then(Fixed(Colon, Loose), Then(Exact(t.value, Loose), close)) else close))
  }

  /** `=> p.related.computed )` */
  function BodyItems(binder: Option<Token>, computed: Token): Items {
    var target := Then(Fixed(Dot, Loose), Then(Fixed(Related, Loose), Then(Fixed(Dot, Loose),
                    Then(Exact(computed, Loose), Then(Fixed(RParen, Loose), Done)))));
    Then(Fixed(Arrow, Loose), if binder.Some? then Then(Exact(binder.value, Loose), target) else target)
  }

  /** From the name of the method on. */
  function MethodItems(x: Suffix): Items
    requires !x.Bare?
  {
    match x
    case Call(m) => Then(Exact(m, Loose), Done)
    case Includes(skipped, close) => ExactsThen(skipped, Then(Exact(close, Loose), Done))
    case Traverse(m, p, binder, computed) =>
      Then(Exact(m, Tight), Then(Fixed(LParen, Loose), ParameterThen(p, BodyItems(binder, computed))))
  }

  /** From the relation on. */
  function UseItems(l: LeafText): Items {
    if l.suffix.Bare? then Then(Exact(l.relation, NoDot), Done)
    else Then(Exact(l.relation, Tight), Then(Fixed(Dot, Loose), MethodItems(l.suffix)))
  }

  function LeafItems(l: LeafText): Items {
    Then(Fixed(This, Tight), Then(Fixed(Dot, Tight), Then(Fixed(Related, Tight), Then(Fixed(Dot, Loose), UseItems(l)))))
  }

  // ---------------------------------------------------------------- reading

  predicate Fits(item: Item, st: PState) {
    (match item
     case Fixed(k, _) => st.cur.kind == k
     case Exact(t, _) => st.cur == t)
    && (match item.after
        case Loose => true
        case Tight => !IsImport(st.peek)
        case NoDot => st.peek.kind != Dot)
  }

  /** The state after these tokens, if they are what the parser stands at. */
  function ReadItems(s: bytes, items: Items, st: PState): Option<PState>
    decreases items
  {
    match items
    case Done => Some(st)
    case Then(item, rest) => if Fits(item, st) then ReadItems(s, rest, Next(s, st)) else None
  }

  /** A tight token is followed by the raw next token. */
  lemma {:induction false} TightNext(s: bytes, st: PState, kind: TokenType)
    requires kind != Ident
    ensures st.peek.kind == kind <==> !IsImport(st.peek) && Next(s, st).cur.kind == kind
  {
  }

  lemma {:induction false} ReadThen(s: bytes, item: Item, rest: Items, st: PState)
    ensures ReadItems(s, Then(item, rest), st) == if Fits(item, st) then ReadItems(s, rest, Next(s, st)) else None
  {
  }

  lemma {:induction false} LeafOpens(s: bytes, st: PState, l: LeafText)
    ensures ReadItems(s, LeafItems(l), st) ==
            if st.cur.kind == This && st.peek.kind == Dot && Next(s, st).peek.kind == Related
               && Next(s, Next(s, st)).peek.kind == Dot
            then ReadItems(s, UseItems(l), Next(s, Next(s, Next(s, Next(s, st))))) else None
  {
    var st1 := Next(s, st);
    var st2 := Next(s, st1);
    var st3 := Next(s, st2);
    TightNext(s, st, Dot);
    TightNext(s, st1, Related);
    TightNext(s, st2, Dot);
    hide Next, UseItems, ReadItems, IsImport;
    var i3 := Then(Fixed(Dot, Loose), UseItems(l));
    var i2 := Then(Fixed(Related, Tight), i3);
    var i1 := Then(Fixed(Dot, Tight), i2);
    ReadThen(s, Fixed(This, Tight), i1, st);
    ReadThen(s, Fixed(Dot, Tight), i2, st1);
    ReadThen(s, Fixed(Related, Tight), i3, st2);
    ReadThen(s, Fixed(Dot, Loose), UseItems(l), st3);
  }

  lemma {:induction false} MethodOpens(s: bytes, use: PState, l: LeafText)
    requires !l.suffix.Bare?
    ensures ReadItems(s, UseItems(l), use) ==
            if use.cur == l.relation && use.peek.kind == Dot
            then ReadItems(s, MethodItems(l.suffix), Next(s, Next(s, use))) else None
  {
    TightNext(s, use, Dot);
    hide Next, MethodItems, ReadItems, IsImport;
    var after := MethodItems(l.suffix);
    ReadThen(s, Exact(l.relation, Tight), Then(Fixed(Dot, Loose), after), use);
    ReadThen(s, Fixed(Dot, Loose), after, Next(s, use));
  }

  // ------------------------------------------------ the parser and the forms

  lemma {:induction false} SkipIsParsed(s: bytes, st: PState, skipped: seq<Token>, close: Token)
    requires forall i :: 0 <= i < |skipped| ==> !EndsSkip(skipped[i])
    requires EndsSkip(close) && ReadItems(s, ExactsThen(skipped, Then(Exact(close, Loose), Done)), st).Some?
    ensures st.cur == (skipped + [close])[0]
    ensures ReadItems(s, ExactsThen(skipped, Then(Exact(close, Loose), Done)), st) == Some(Next(s, SkipTo(s, st, RParen)))
    decreases |skipped|
  {
    hide Next, Size;
    var last := Then(Exact(close, Loose), Done);
    if skipped == [] {
      ReadThen(s, Exact(close, Loose), Done, st);
    } else {
      ReadThen(s, Exact(skipped[0], Loose), ExactsThen(skipped[1..], last), st);
      SkipIsParsed(s, Next(s, st), skipped[1..], close);
    }
  }

  lemma {:induction false} SkipHasTokens(s: bytes, st: PState) returns (skipped: seq<Token>, close: Token)
    ensures forall i :: 0 <= i < |skipped| ==> !EndsSkip(skipped[i])
    ensures EndsSkip(close) && st.cur == (skipped + [close])[0]
    ensures ReadItems(s, ExactsThen(skipped, Then(Exact(close, Loose), Done)), st) == Some(Next(s, SkipTo(s, st, RParen)))
    decreases Size(s, st)
  {
    if EndsSkip(st.cur) {
      skipped, close := [], st.cur;
      ReadThen(s, Exact(close, Loose), Done, st);
    } else {
      var more, c := SkipHasTokens(s, Next(s, st));
      skipped, close := [st.cur] + more, c;
      assert skipped[1..] == more;
      ReadThen(s, Exact(st.cur, Loose), ExactsThen(more, Then(Exact(close, Loose), Done)), st);
    }
  }

  lemma {:induction false} ParameterIsParsed(s: bytes, a: PState, p: Parameter, rest: Items)
    requires ParameterOk(p) && rest.Then? && rest.item.Fixed? && rest.item.kind == Arrow
    requires ReadItems(s, ParameterThen(p, rest), a).Some?
    ensures var r := ParseTraverseParam(s, a);
            r.found && ReadItems(s, rest, r.st) == ReadItems(s, ParameterThen(p, rest), a)
  {
    hide Next, Size;
    if p.InParens? {
      var b := Next(s, a);
      var c := Next(s, b);
      var close := Then(Fixed(RParen, Loose), rest);
      if p.type_.Some? {
        var typed := Then(Exact(p.type_.value, Loose), close);
        assert ReadItems(s, ParameterThen(p, rest), a) == ReadItems(s, Then(Fixed(Colon, Loose), typed), c);
        assert ReadItems(s, Then(Fixed(Colon, Loose), typed), c) == ReadItems(s, close, Next(s, Next(s, c)));
      } else {
        assert ReadItems(s, ParameterThen(p, rest), a) == ReadItems(s, close, c);
      }
    }
  }

  lemma {:induction false} ParameterHasForm(s: bytes, a: PState) returns (p: Parameter)
    requires ParseTraverseParam(s, a).found
    ensures ParameterOk(p)
    ensures forall rest :: ReadItems(s, ParameterThen(p, rest), a) == ReadItems(s, rest, ParseTraverseParam(s, a).st)
  {
    hide Next, Size;
    if a.cur.kind == Ident {
      p := Named(a.cur);
    } else if a.cur.kind == LParen {
      var b := Next(s, a);
      var c := Next(s, b);
      p := InParens(b.cur, if c.cur.kind == Colon then Some(Next(s, c).cur) else None);
      forall rest
        ensures ReadItems(s, ParameterThen(p, rest), a) == ReadItems(s, rest, ParseTraverseParam(s, a).st)
      {
        var close := Then(Fixed(RParen, Loose), rest);
        if p.type_.Some? {
          var typed := Then(Exact(p.type_.value, Loose), close);
          assert ReadItems(s, ParameterThen(p, rest), a) == ReadItems(s, Then(Fixed(Colon, Loose), typed), c);
          assert ReadItems(s, Then(Fixed(Colon, Loose), typed), c) == ReadItems(s, close, Next(s, Next(s, c)));
        } else {
          assert ReadItems(s, ParameterThen(p, rest), a) == ReadItems(s, close, c);
        }
      }
    } else {
      p := NoParameter;
    }
  }

  function TargetItems(computed: Token): Items {
    Then(Fixed(Dot, Loose), Then(Fixed(Related, Loose), Then(Fixed(Dot, Loose),
      Then(Exact(computed, Loose), Then(Fixed(RParen, Loose), Done)))))
  }

  /** `.related.computed )` from a state on. */
  lemma {:induction false} TargetOpens(s: bytes, d: PState, computed: Token)
    ensures var e := Next(s, d);
            var f := Next(s, e);
            var g := Next(s, f);
            var h := Next(s, g);
            ReadItems(s, TargetItems(computed), d) ==
            if d.cur.kind == Dot && e.cur.kind == Related && f.cur.kind == Dot && g.cur == computed && h.cur.kind == RParen
            then Some(Next(s, h)) else None
  {
    hide Next, Size;
    var e := Next(s, d);
    var f := Next(s, e);
    var g := Next(s, f);
    var h := Next(s, g);
    var close := Then(Fixed(RParen, Loose), Done);
    var name := Then(Exact(computed, Loose), close);
    assert ReadItems(s, close, h) == if h.cur.kind == RParen then Some(Next(s, h)) else None;
    assert ReadItems(s, name, g) == if g.cur == computed then ReadItems(s, close, h) else None;
    assert ReadItems(s, Then(Fixed(Dot, Loose), name), f) == if f.cur.kind == Dot then ReadItems(s, name, g) else None;
  }

  lemma {:induction false} BodyIsParsed(s: bytes, rel: bytes, b: PState, binder: Option<Token>, computed: Token)
    requires binder.Some? ==> binder.value.kind == Ident
    requires ReadItems(s, BodyItems(binder, computed), b).Some?
    ensures ParseTraverseBody(s, rel, b)
         == Ok(TupleToUserset(rel, computed.literal), ReadItems(s, BodyItems(binder, computed), b).value)
  {
    hide Next, Size;
    var d := Next(s, b);
    TargetOpens(s, if binder.Some? then Next(s, d) else d, computed);
    assert BodyItems(binder, computed)
        == Then(Fixed(Arrow, Loose), if binder.Some? then Then(Exact(binder.value, Loose), TargetItems(computed))
                                     else TargetItems(computed));
    hide TargetItems;
  }

  lemma {:induction false} BodyHasForm(s: bytes, rel: bytes, b: PState) returns (binder: Option<Token>, computed: Token)
    requires ParseTraverseBody(s, rel, b).Ok?
    ensures binder.Some? ==> binder.value.kind == Ident
    ensures ParseTraverseBody(s, rel, b).tree == TupleToUserset(rel, computed.literal)
    ensures ReadItems(s, BodyItems(binder, computed), b) == Some(ParseTraverseBody(s, rel, b).st)
  {
    hide Next, Size;
    var d := Next(s, b);
    binder := if d.cur.kind == Ident then Some(d.cur) else None;
    var start := if binder.Some? then Next(s, d) else d;
    computed := Next(s, Next(s, Next(s, start))).cur;
    TargetOpens(s, start, computed);
    assert BodyItems(binder, computed)
        == Then(Fixed(Arrow, Loose), if binder.Some? then Then(Exact(binder.value, Loose), TargetItems(computed))
                                     else TargetItems(computed));
    hide TargetItems;
  }

  lemma {:induction false} TraverseOpens(s: bytes, m: PState, x: Suffix)
    requires x.Traverse?
    ensures ReadItems(s, MethodItems(x), m) ==
            if m.cur == x.method_ && m.peek.kind == LParen
            then ReadItems(s, ParameterThen(x.parameter, BodyItems(x.binder, x.computed)), Next(s, Next(s, m))) else None
  {
    TightNext(s, m, LParen);
    hide Next, ParameterThen, BodyItems, ReadItems, IsImport;
    var after := ParameterThen(x.parameter, BodyItems(x.binder, x.computed));
    ReadThen(s, Exact(x.method_, Tight), Then(Fixed(LParen, Loose), after), m);
    ReadThen(s, Fixed(LParen, Loose), after, Next(s, m));
  }

  lemma {:induction false} MethodIsTraverse(s: bytes, rel: bytes, m: PState)
    requires m.cur.literal == "traverse"
    ensures ParseMethodCall(s, rel, m) == ParseTraverse(s, rel, m)
  {
    assert "traverse"[0] != "includes"[0];
    hide ParseTraverse, Next, Size;
  }

  lemma {:induction false} TraverseIsParsed(s: bytes, rel: bytes, m: PState, x: Suffix)
    requires SuffixOk(x) && x.Traverse? && ReadItems(s, MethodItems(x), m).Some?
    ensures var r := ParseMethodCall(s, rel, m);
            r.Ok? && ReadItems(s, MethodItems(x), m) == Some(r.st) && r.tree == TupleToUserset(rel, x.computed.literal)
  {
    TraverseOpens(s, m, x);
    hide Next, Size, ParseTraverseBody, ParseTraverseParam, MethodItems, BodyItems, ReadItems, ParameterThen, ParseMethodCall;
    MethodIsTraverse(s, rel, m);
    var a := Next(s, Next(s, m));
    ParameterIsParsed(s, a, x.parameter, BodyItems(x.binder, x.computed));
    BodyIsParsed(s, rel, ParseTraverseParam(s, a).st, x.binder, x.computed);
  }

  lemma {:induction false} MethodIsParsed(s: bytes, rel: bytes, m: PState, x: Suffix)
    requires SuffixOk(x) && !x.Bare? && ReadItems(s, MethodItems(x), m).Some?
    ensures var r := ParseMethodCall(s, rel, m);
            r.Ok? && ReadItems(s, MethodItems(x), m) == Some(r.st)
            && r.tree == if x.Traverse? then TupleToUserset(rel, x.computed.literal) else ComputedUserset(rel)
  {
    hide Next, Size, ParseTraverse, BodyItems, ParameterThen;
    match x
    case Call(t) =>
      assert ReadItems(s, Done, Next(s, m)) == Some(Next(s, m));
    case Includes(skipped, close) =>
      SkipIsParsed(s, m, skipped, close);
    case Traverse(_, _, _, _) =>
      TraverseIsParsed(s, rel, m, x);
  }

  lemma {:induction false} MethodHasForm(s: bytes, rel: bytes, m: PState) returns (x: Suffix)
    requires ParseMethodCall(s, rel, m).Ok?
    ensures SuffixOk(x) && !x.Bare? && ReadItems(s, MethodItems(x), m) == Some(ParseMethodCall(s, rel, m).st)
    ensures ParseMethodCall(s, rel, m).tree
         == if x.Traverse? then TupleToUserset(rel, x.computed.literal) else ComputedUserset(rel)
  {
    hide Next, Size, ParseTraverseBody, ParseTraverseParam;
    if m.cur.literal == "includes" {
      var skipped, close := SkipHasTokens(s, m);
      x := Suffix.Includes(skipped, close);
    } else if m.cur.literal == "traverse" {
      var a := Next(s, Next(s, m));
      var p := ParameterHasForm(s, a);
      var binder, computed := BodyHasForm(s, rel, ParseTraverseParam(s, a).st);
      x := Suffix.Traverse(m.cur, p, binder, computed);
      TraverseOpens(s, m, x);
    } else {
      x := Call(m.cur);
      assert ReadItems(s, Done, Next(s, m)) == Some(Next(s, m));
    }
  }

  /** Tokens of one of the forms are parsed to the tree of that form. */
  lemma {:induction false} LeafIsParsed(s: bytes, st: PState, l: LeafText)
    requires LeafOk(l) && ReadItems(s, LeafItems(l), st).Some?
    ensures st.cur.kind == This
    ensures ParseLeaf(s, st) == Ok(LeafTree(l), ReadItems(s, LeafItems(l), st).value)
  {
    LeafOpens(s, st, l);
    hide Next, Size, LeafItems, ParseMethodCall, MethodItems;
    var use := Next(s, Next(s, Next(s, Next(s, st))));
    if l.suffix.Bare? {
      assert ReadItems(s, Done, Next(s, use)) == Some(Next(s, use));
    } else {
      MethodOpens(s, use, l);
      MethodIsParsed(s, l.relation.literal, Next(s, Next(s, use)), l.suffix);
    }
  }

  lemma {:induction false} UseHasForm(s: bytes, use: PState) returns (l: LeafText)
    requires ParseRelationUse(s, use).Ok?
    ensures LeafOk(l) && LeafTree(l) == ParseRelationUse(s, use).tree
    ensures ReadItems(s, UseItems(l), use) == Some(ParseRelationUse(s, use).st)
  {
    hide Next, Size, MethodItems, ParseMethodCall;
    if use.peek.kind != Dot {
      l := LeafText(use.cur, Bare);
      assert ReadItems(s, Done, Next(s, use)) == Some(Next(s, use));
    } else {
      var x := MethodHasForm(s, use.cur.literal, Next(s, Next(s, use)));
      l := LeafText(use.cur, x);
      MethodOpens(s, use, l);
    }
  }

  /** A leaf that is parsed begins as every leaf, and the rest decides. */
  lemma {:induction false} LeafBegins(s: bytes, st: PState)
    requires st.cur.kind == This && ParseLeaf(s, st).Ok?
    ensures st.peek.kind == Dot && Next(s, st).peek.kind == Related && Next(s, Next(s, st)).peek.kind == Dot
    ensures ParseLeaf(s, st) == ParseRelationUse(s, Next(s, Next(s, Next(s, Next(s, st)))))
  {
    hide Next, Size, ParseRelationUse;
  }

  /** Whatever is parsed as a leaf has one of the forms. */
  lemma {:induction false} LeafHasForm(s: bytes, st: PState) returns (l: LeafText)
    requires st.cur.kind == This && ParseLeaf(s, st).Ok?
    ensures LeafOk(l) && LeafTree(l) == ParseLeaf(s, st).tree
    ensures ReadItems(s, LeafItems(l), st) == Some(ParseLeaf(s, st).st)
  {
    hide Next, Size, ParseLeaf, ParseRelationUse, ReadItems, LeafItems, UseItems;
    LeafBegins(s, st);
    l := UseHasForm(s, Next(s, Next(s, Next(s, Next(s, st)))));
    LeafOpens(s, st, l);
  }
}
