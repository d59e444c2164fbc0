/**
  The language of permission expressions, given by a grammar:

      or      ::= or `||` and | and
      and     ::= and `&&` primary | primary
      primary ::= `(` or `)` | leaf

  with the leaves of AplLeaf.dfy. An `Expr` is a derivation in this grammar. `Reads` says which
  tokens it covers, `Meaning` what it means, `Build` which tree the source promises for it. The
  theorems say that the parser accepts exactly the derivable inputs and returns exactly the tree
  of the derivation.
 */
module AplGrammar {
  import opened Bytes
  import opened AplLexer
  import opened AplParser
  import opened AplLeaf

  datatype Expr =
    | Leaf(leaf: LeafText)
    | Paren(inner: Expr)
    | Or(left: Expr, right: Expr)
    | And(left: Expr, right: Expr)

  predicate IsPrimary(e: Expr)
    decreases e, 0
  {
    match e
    case Leaf(l) => LeafOk(l)
    case Paren(inner) => IsOr(inner)
    case _ => false
  }

  predicate IsAnd(e: Expr)
    decreases e, 1
  {
    match e
    case And(l, r) => IsAnd(l) && IsPrimary(r)
    case _ => IsPrimary(e)
  }

  predicate IsOr(e: Expr)
    decreases e, 2
  {
    match e
    case Or(l, r) => IsOr(l) && IsAnd(r)
    case _ => IsAnd(e)
  }

  /** The state after the tokens of e, if they are what follows st. */
  function Reads(s: bytes, e: Expr, st: PState): Option<PState> {
    match e
    case Leaf(l) => ReadItems(s, LeafItems(l), st)
    case Paren(inner) =>
      if st.cur.kind != LParen then None
      else
        var m := Reads(s, inner, Next(s, st));
        if m.Some? && m.value.cur.kind == RParen then Some(Next(s, m.value)) else None
    case Or(l, r) =>
      var m := Reads(s, l, st);
      if m.Some? && m.value.cur.kind == OrOr then Reads(s, r, Next(s, m.value)) else None
    case And(l, r) =>
      var m := Reads(s, l, st);
      if m.Some? && m.value.cur.kind == AndAnd then Reads(s, r, Next(s, m.value)) else None
  }

  function Build(e: Expr): Tree {
    match e
    case Leaf(l) => LeafTree(l)
    case Paren(inner) => Build(inner)
    case Or(l, r) => JoinUnion(Build(l), Build(r))
    case And(l, r) => JoinIntersection(Build(l), Build(r))
  }

  // -------------------------------------------------------------- meaning

  /** Which of the leaves, as named by a permission, hold for the request at hand. */
  type Facts = Tree -> bool

  predicate Holds(t: Tree, facts: Facts) {
    match t
    case Union(cs) => exists i :: 0 <= i < |cs| && Holds(cs[i], facts)
    case Intersection(cs) => forall i :: 0 <= i < |cs| ==> Holds(cs[i], facts)
    case _ => facts(t)
  }

  predicate Meaning(e: Expr, facts: Facts) {
    match e
    case Leaf(l) => facts(LeafTree(l))
    case Paren(inner) => Meaning(inner, facts)
    case Or(l, r) => Meaning(l, facts) || Meaning(r, facts)
    case And(l, r) => Meaning(l, facts) && Meaning(r, facts)
  }

  lemma {:induction false} JoinUnionHolds(a: Tree, b: Tree, facts: Facts)
    ensures Holds(JoinUnion(a, b), facts) <==> Holds(a, facts) || Holds(b, facts)
  {
    var j := JoinUnion(a, b);
    if Holds(b, facts) {
      assert Holds(j.children[|j.children| - 1], facts);
    }
    if Holds(a, facts) {
      if a.Union? {
        var i :| 0 <= i < |a.children| && Holds(a.children[i], facts);
        assert Holds(j.children[i], facts);
      } else {
        assert Holds(j.children[0], facts);
      }
    }
  }

  lemma {:induction false} JoinIntersectionHolds(a: Tree, b: Tree, facts: Facts)
    ensures Holds(JoinIntersection(a, b), facts) <==> Holds(a, facts) && Holds(b, facts)
  {
    var j := JoinIntersection(a, b);
    if Holds(j, facts) {
      assert Holds(j.children[|j.children| - 1], facts);
      if a.Intersection? {
        forall i | 0 <= i < |a.children| ensures Holds(a.children[i], facts) {
          assert Holds(j.children[i], facts);
        }
      } else {
        assert Holds(j.children[0], facts);
      }
    }
  }

  /** Every leaf of e has one of the forms; the operators may be nested in any way. */
  predicate LeavesAreLeaves(e: Expr) {
    match e
    case Leaf(l) => LeafOk(l)
    case Paren(inner) => LeavesAreLeaves(inner)
    case Or(l, r) => LeavesAreLeaves(l) && LeavesAreLeaves(r)
    case And(l, r) => LeavesAreLeaves(l) && LeavesAreLeaves(r)
  }

  lemma {:induction false} PrimaryLeaves(e: Expr)
    requires IsPrimary(e)
    ensures LeavesAreLeaves(e)
    decreases e, 0
  {
    if e.Paren? { OrLeaves(e.inner); }
  }

  lemma {:induction false} AndLeaves(e: Expr)
    requires IsAnd(e)
    ensures LeavesAreLeaves(e)
    decreases e, 1
  {
    if e.And? {
      AndLeaves(e.left);
      PrimaryLeaves(e.right);
    } else {
      PrimaryLeaves(e);
    }
  }

  lemma {:induction false} OrLeaves(e: Expr)
    requires IsOr(e)
    ensures LeavesAreLeaves(e)
    decreases e, 2
  {
    if e.Or? {
      OrLeaves(e.left);
      AndLeaves(e.right);
    } else {
      AndLeaves(e);
    }
  }

  /** Flattening chains into the left node keeps the boolean function of the expression. */
  lemma {:induction false} BuildKeepsMeaning(e: Expr, facts: Facts)
    requires LeavesAreLeaves(e)
    ensures Holds(Build(e), facts) <==> Meaning(e, facts)
    decreases e
  {
    match e
    case Leaf(_) =>
    case Paren(inner) =>
      BuildKeepsMeaning(inner, facts);
    case Or(l, r) =>
      BuildKeepsMeaning(l, facts);
      BuildKeepsMeaning(r, facts);
      JoinUnionHolds(Build(l), Build(r), facts);
    case And(l, r) =>
      BuildKeepsMeaning(l, facts);
      BuildKeepsMeaning(r, facts);
      JoinIntersectionHolds(Build(l), Build(r), facts);
  }

  // ---------------------------------------------------------- normal form

  /** What the parser's trees look like: at least two children, the first not of the node's type. */
  predicate NormalForm(t: Tree) {
    match t
    case Union(cs) => |cs| >= 2 && !cs[0].Union? && forall i :: 0 <= i < |cs| ==> NormalForm(cs[i])
    case Intersection(cs) =>
      |cs| >= 2 && !cs[0].Intersection? && forall i :: 0 <= i < |cs| ==> NormalForm(cs[i])
    case _ => true
  }

  lemma {:induction false} BuildIsNormal(e: Expr)
    requires LeavesAreLeaves(e)
    ensures NormalForm(Build(e))
    decreases e
  {
    match e
    case Leaf(_) =>
    case Paren(inner) =>
      BuildIsNormal(inner);
    case Or(l, r) =>
      BuildIsNormal(l);
      BuildIsNormal(r);
    case And(l, r) =>
      BuildIsNormal(l);
      BuildIsNormal(r);
  }

  // ------------------------------------------- the parser finds derivations

  lemma {:induction false} PrimaryHasDerivation(s: bytes, st: PState) returns (e: Expr)
    requires ParsePrimary(s, st).Ok?
    ensures IsPrimary(e) && Build(e) == ParsePrimary(s, st).tree
    ensures Reads(s, e, st) == Some(ParsePrimary(s, st).st)
    decreases Size(s, st), 0
  {
    if st.cur.kind == LParen {
      var inner := OrHasDerivation(s, Next(s, st));
      e := Paren(inner);
    } else {
      var l := LeafHasForm(s, st);
      e := Leaf(l);
    }
  }

  lemma {:induction false} AndTailHasDerivation(s: bytes, start: PState, left: Expr, st: PState) returns (e: Expr)
    requires IsAnd(left) && Reads(s, left, start) == Some(st) && AndTail(s, Build(left), st).Ok?
    ensures IsAnd(e) && Build(e) == AndTail(s, Build(left), st).tree
    ensures Reads(s, e, start) == Some(AndTail(s, Build(left), st).st)
    ensures AndTail(s, Build(left), st).st.cur.kind != AndAnd
    decreases Size(s, st), 1
  {
    if st.cur.kind != AndAnd {
      e := left;
    } else {
      var right := PrimaryHasDerivation(s, Next(s, st));
      var both := And(left, right);
      assert Reads(s, both, start) == Reads(s, right, Next(s, st));
      e := AndTailHasDerivation(s, start, both, ParsePrimary(s, Next(s, st)).st);
    }
  }

  lemma {:induction false} AndHasDerivation(s: bytes, st: PState) returns (e: Expr)
    requires ParseAnd(s, st).Ok?
    ensures IsAnd(e) && Build(e) == ParseAnd(s, st).tree
    ensures Reads(s, e, st) == Some(ParseAnd(s, st).st)
    ensures ParseAnd(s, st).st.cur.kind != AndAnd
    decreases Size(s, st), 2
  {
    var first := PrimaryHasDerivation(s, st);
    e := AndTailHasDerivation(s, st, first, ParsePrimary(s, st).st);
  }

  lemma {:induction false} OrTailHasDerivation(s: bytes, start: PState, left: Expr, st: PState) returns (e: Expr)
    requires IsOr(left) && Reads(s, left, start) == Some(st) && OrTail(s, Build(left), st).Ok?
    requires st.cur.kind != AndAnd
    ensures IsOr(e) && Build(e) == OrTail(s, Build(left), st).tree
    ensures Reads(s, e, start) == Some(OrTail(s, Build(left), st).st)
    ensures OrTail(s, Build(left), st).st.cur.kind !in {OrOr, AndAnd}
    decreases Size(s, st), 3
  {
    if st.cur.kind != OrOr {
      e := left;
    } else {
      var right := AndHasDerivation(s, Next(s, st));
      var both := Or(left, right);
      assert Reads(s, both, start) == Reads(s, right, Next(s, st));
      e := OrTailHasDerivation(s, start, both, ParseAnd(s, Next(s, st)).st);
    }
  }

  lemma {:induction false} OrHasDerivation(s: bytes, st: PState) returns (e: Expr)
    requires ParseOr(s, st).Ok?
    ensures IsOr(e) && Build(e) == ParseOr(s, st).tree
    ensures Reads(s, e, st) == Some(ParseOr(s, st).st)
    ensures ParseOr(s, st).st.cur.kind !in {OrOr, AndAnd}
    decreases Size(s, st), 4
  {
    var first := AndHasDerivation(s, st);
    e := OrTailHasDerivation(s, st, first, ParseAnd(s, st).st);
  }

  // -------------------------------------------- derivations find the parser

  lemma {:induction false} PrimaryIsParsed(s: bytes, e: Expr, st: PState)
    requires IsPrimary(e) && Reads(s, e, st).Some?
    ensures ParsePrimary(s, st) == Ok(Build(e), Reads(s, e, st).value)
    decreases e, 0
  {
    if e.Paren? {
      OrIsParsed(s, e.inner, Next(s, st));
    } else {
      LeafIsParsed(s, st, e.leaf);
    }
  }

  /** Reading a prefix of an `&&` chain leaves the loop of parseAndExpr with the prefix's tree. */
  lemma {:induction false} AndPrefixIsParsed(s: bytes, e: Expr, st: PState)
    requires IsAnd(e) && Reads(s, e, st).Some?
    ensures ParseAnd(s, st) == AndTail(s, Build(e), Reads(s, e, st).value)
    decreases e, 1
  {
    if e.And? {
      AndPrefixIsParsed(s, e.left, st);
      var m := Reads(s, e.left, st).value;
      PrimaryIsParsed(s, e.right, Next(s, m));
    } else {
      PrimaryIsParsed(s, e, st);
    }
  }

  lemma {:induction false} OrPrefixIsParsed(s: bytes, e: Expr, st: PState)
    requires IsOr(e) && Reads(s, e, st).Some? && Reads(s, e, st).value.cur.kind != AndAnd
    ensures ParseOr(s, st) == OrTail(s, Build(e), Reads(s, e, st).value)
    decreases e, 2
  {
    if e.Or? {
      OrPrefixIsParsed(s, e.left, st);
      var m := Reads(s, e.left, st).value;
      AndPrefixIsParsed(s, e.right, Next(s, m));
    } else {
      AndPrefixIsParsed(s, e, st);
    }
  }

  lemma {:induction false} OrIsParsed(s: bytes, e: Expr, st: PState)
    requires IsOr(e) && Reads(s, e, st).Some? && Reads(s, e, st).value.cur.kind !in {OrOr, AndAnd}
    ensures ParseOr(s, st) == Ok(Build(e), Reads(s, e, st).value)
    decreases e, 3
  {
    OrPrefixIsParsed(s, e, st);
  }

  /**
    The parser is the grammar: it returns tree t and stops at `after` exactly when some derivation
    covers the tokens from st to `after`, no operator follows, and t is that derivation's tree.
   */
  lemma {:induction false} ParserIsGrammar(s: bytes, st: PState, t: Tree, after: PState)
    ensures ParseOr(s, st) == Ok(t, after) <==>
            after.cur.kind !in {OrOr, AndAnd}
            && exists e :: IsOr(e) && Reads(s, e, st) == Some(after) && Build(e) == t
  {
    if ParseOr(s, st) == Ok(t, after) {
      var e := OrHasDerivation(s, st);
    }
    if after.cur.kind !in {OrOr, AndAnd} {
      forall e | IsOr(e) && Reads(s, e, st) == Some(after) && Build(e) == t
        ensures ParseOr(s, st) == Ok(t, after)
      {
        OrIsParsed(s, e, st);
      }
    }
  }

  /** Every returned tree is in normal form and means what any derivation of the same text means. */
  lemma {:induction false} ParsedTreeIsRight(s: bytes, st: PState, e: Expr, facts: Facts)
    requires ParseOr(s, st).Ok?
    requires IsOr(e) && Reads(s, e, st) == Some(ParseOr(s, st).st)
    ensures NormalForm(ParseOr(s, st).tree)
    ensures Holds(ParseOr(s, st).tree, facts) <==> Meaning(e, facts)
  {
    var d := OrHasDerivation(s, st);
    OrIsParsed(s, e, st);
    OrLeaves(e);
    BuildIsNormal(e);
    BuildKeepsMeaning(e, facts);
  }

  lemma {:induction false} ParsedTreeIsNormal(s: bytes, st: PState)
    requires ParseOr(s, st).Ok?
    ensures NormalForm(ParseOr(s, st).tree)
  {
    var e := OrHasDerivation(s, st);
    OrLeaves(e);
    BuildIsNormal(e);
  }

  // -------------------------------------------------------------- schemas

  predicate AllNormal(m: Relations) {
    forall n :: n in m ==> NormalForm(m[n])
  }

  lemma {:induction false} PermitsEntryIsNormal(s: bytes, st: PState, relations: Relations)
    requires st.cur.kind == Ident
    requires AllNormal(relations) && PermitsEntry(s, st, relations).Parsed?
    ensures AllNormal(PermitsEntry(s, st, relations).relations)
  {
    ParsedTreeIsNormal(s, Next(s, SkipSignature(s, st)));
  }

  lemma {:induction false} PermitsLoopIsNormal(s: bytes, st: PState, relations: Relations)
    requires AllNormal(relations) && PermitsLoop(s, st, relations).Parsed?
    ensures AllNormal(PermitsLoop(s, st, relations).relations)
    decreases Size(s, st)
  {
    if AtBlockEnd(st) {
    } else if st.cur.kind == Ident {
      PermitsEntryIsNormal(s, st, relations);
      var entry := PermitsEntry(s, st, relations);
      PermitsLoopIsNormal(s, entry.st, entry.relations);
    } else {
      PermitsLoopIsNormal(s, Next(s, st), relations);
    }
  }

  lemma {:induction false} ClassLoopIsNormal(s: bytes, name: bytes, c: ClassState, turns: nat)
    requires AllNormal(c.relations) && ClassLoop(s, name, c, turns).Schema?
    ensures AllNormal(ClassLoop(s, name, c, turns).relations)
    decreases turns
  {
    hide Next, Size, OpenPermits, PermitsLoop, ParseRelated, NormalForm;
    if !AtBlockEnd(c.st) {
      if c.st.cur.kind == Permits && OpenPermits(s, c.st).Parsed? {
        PermitsLoopIsNormal(s, OpenPermits(s, c.st).st, c.relations);
      }
      ClassLoopIsNormal(s, name, ClassStep(s, c).state, turns - 1);
    }
  }

  /** No returned schema holds a tree outside the normal form. */
  lemma {:induction false} SchemaIsNormal(input: bytes, turns: nat)
    requires Parse(input, turns).Schema?
    ensures AllNormal(Parse(input, turns).relations)
  {
    var s := ClassText(input);
    var header := ParseHeader(s, Start(s));
    ClassLoopIsNormal(s, header.name, ClassState(header.st, map[], []), turns);
  }
}
