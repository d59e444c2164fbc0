/**
  The parser as the source writes it: an object whose methods update the token window, build tree
  nodes on the heap and extend the left node of a chain in place. Every method is proved to
  compute what AplParser.dfy says.
 */
module AplMachine {
  import opened Bytes
  import opened AplLexer
  import opened AplParser
  import opened AplTermination

  datatype RuleType = ComputedUsersetRule | TupleToUsersetRule | UnionRule | IntersectionRule

  /** A tree node. `tree` is the value it stands for, `repr` the nodes reachable from it. */
  class RewriteRule {
    var kind: RuleType
    var relation: bytes
    var tuplesetRelation: bytes
    var computedRelation: bytes
    var children: seq<RewriteRule>
    ghost var tree: Tree
    ghost var repr: set<RewriteRule>

    ghost predicate Valid()
      reads this, repr
      decreases repr
    {
      this in repr
      && (forall c :: c in children ==> c in repr && c.repr <= repr && this !in c.repr && c.Valid())
      && (forall i, j :: 0 <= i < j < |children| ==> children[i].repr !! children[j].repr)
      && match kind
         case ComputedUsersetRule => tree == ComputedUserset(relation)
         case TupleToUsersetRule => tree == TupleToUserset(tuplesetRelation, computedRelation)
         case UnionRule => tree.Union? && ChildrenAre(tree.children)
         case IntersectionRule => tree.Intersection? && ChildrenAre(tree.children)
    }

    ghost predicate ChildrenAre(trees: seq<Tree>)
      reads this, children
    {
      |trees| == |children| && forall i :: 0 <= i < |children| ==> trees[i] == children[i].tree
    }

    constructor Computed(relation: bytes)
      ensures Valid() && fresh(repr) && tree == ComputedUserset(relation)
    {
      kind, this.relation, children := ComputedUsersetRule, relation, [];
      tuplesetRelation, computedRelation := [], [];
      tree, repr := ComputedUserset(relation), {this};
    }

    constructor TupleTo(tupleset: bytes, computed: bytes)
      ensures Valid() && fresh(repr) && tree == TupleToUserset(tupleset, computed)
    {
      kind, relation, children := TupleToUsersetRule, [], [];
      tuplesetRelation, computedRelation := tupleset, computed;
      tree, repr := TupleToUserset(tupleset, computed), {this};
    }

    constructor Pair(kind: RuleType, left: RewriteRule, right: RewriteRule)
      requires kind == UnionRule || kind == IntersectionRule
      requires left.Valid() && right.Valid() && left.repr !! right.repr
      ensures Valid() && fresh(repr - left.repr - right.repr)
      ensures tree == if kind == UnionRule then Union([left.tree, right.tree]) else Intersection([left.tree, right.tree])
    {
      this.kind, relation, children := kind, [], [left, right];
      tuplesetRelation, computedRelation := [], [];
      tree := if kind == UnionRule then Union([left.tree, right.tree]) else Intersection([left.tree, right.tree]);
      repr := {this} + left.repr + right.repr;
    }

    /** One more operand, written into the node that the caller already holds. */
    method Append(right: RewriteRule)
      requires Valid() && right.Valid() && repr !! right.repr
      requires kind == UnionRule || kind == IntersectionRule
      modifies this
      ensures Valid() && repr == old(repr) + right.repr
      ensures tree == if kind == UnionRule then Union(old(tree).children + [right.tree])
                      else Intersection(old(tree).children + [right.tree])
      ensures kind == old(kind)
    {
      children := children + [right];
      repr := repr + right.repr;
      tree := if kind == UnionRule then Union(tree.children + [right.tree])
              else Intersection(tree.children + [right.tree]);
    }
  }

  /** The schema under construction: `value` is what its relation map stands for. */
  class NamespaceSchema {
    var name: bytes
    var relations: map<bytes, RewriteRule>
    ghost var value: Relations
    ghost var nodes: set<RewriteRule>

    ghost predicate Valid()
      reads this, nodes
    {
      relations.Keys == value.Keys
      && forall n :: n in relations ==> RootIs(relations[n], value[n])
    }

    ghost predicate RootIs(rule: RewriteRule, t: Tree)
      reads this, nodes
    {
      rule in nodes && rule.repr <= nodes && rule.Valid() && rule.tree == t
    }

    constructor ()
      ensures Valid() && name == [] && value == map[] && nodes == {}
    {
      name, relations := [], map[];
      value, nodes := map[], {};
    }

    /** The tree of one relation, in the place of any earlier one of that name. */
    method Define(relName: bytes, rule: RewriteRule)
      requires Valid() && rule.Valid()
      modifies this
      ensures Valid() && value == old(value)[relName := rule.tree] && name == old(name)
      ensures relations == old(relations)[relName := rule] && nodes == old(nodes) + rule.repr
    {
      relations := relations[relName := rule];
      value := value[relName := rule.tree];
      nodes := nodes + rule.repr;
      forall n | n in relations ensures RootIs(relations[n], value[n]) {
        if n != relName {
          assert old(RootIs(relations[n], value[n]));
        }
      }
    }
  }

  class Parser {
    const l: Lexer
    var curToken: Token
    var peekToken: Token
    var errors: seq<PeekError>

    ghost predicate Valid()
      reads this, l
    {
      l.Valid()
    }

    ghost function State(): PState
      reads this, l
    {
      PState(curToken, peekToken, l.position)
    }

    constructor (l: Lexer)
      requires l.Valid() && l.position == 0
      modifies l
      ensures Valid() && this.l == l && State() == Start(l.input) && errors == []
    {
      this.l, errors := l, [];
      curToken, peekToken := ZERO_TOKEN, ZERO_TOKEN;
      new;
      NextToken();
      NextToken();
    }

    method ShiftToken()
      requires Valid()
      modifies this, l
      ensures Valid() && State() == Shift(l.input, old(State())) && errors == old(errors)
    {
      curToken := peekToken;
      peekToken := l.NextToken();
    }

    method NextToken()
      requires Valid()
      modifies this, l
      ensures Valid() && State() == Next(l.input, old(State())) && errors == old(errors)
    {
      ShiftToken();
      if curToken.kind == Ident && curToken.literal == "import" {
        while curToken.kind != Semicolon && curToken.kind != EOF
          invariant Valid() && errors == old(errors)
          invariant ToSemicolon(l.input, State()) == ToSemicolon(l.input, Shift(l.input, old(State())))
          decreases Size(l.input, State())
        {
          ShiftToken();
        }
        if curToken.kind == Semicolon {
          ShiftToken();
        }
      }
    }

    method ExpectPeek(t: TokenType) returns (ok: bool)
      requires Valid()
      modifies this, l
      ensures Valid() && ok == (old(peekToken).kind == t)
      ensures ok ==> State() == Next(l.input, old(State())) && errors == old(errors)
      ensures !ok ==> State() == old(State()) && errors == old(errors) + [PeekError(t, old(peekToken))]
    {
      if peekToken.kind == t {
        NextToken();
        return true;
      }
      errors := errors + [PeekError(t, peekToken)];
      return false;
    }

    method SkipUntil(kind: TokenType)
      requires Valid()
      modifies this, l
      ensures Valid() && State() == SkipTo(l.input, old(State()), kind) && errors == old(errors)
    {
      while curToken.kind != kind && curToken.kind != EOF
        invariant Valid() && errors == old(errors)
        invariant SkipTo(l.input, State(), kind) == SkipTo(l.input, old(State()), kind)
        decreases Size(l.input, State())
      {
        NextToken();
      }
    }

    // ----------------------------------------------------------- expressions

    /** What a method of the expression parser must deliver when the functions say r. */
    ghost predicate Delivers(r: ExprResult, rule: RewriteRule?, err: Option<Failure>)
      reads this, l
      reads if rule == null then {} else {rule} + rule.repr
    {
      Valid() && State() == r.st
      && match r
         case Ok(t, _) => err.None? && rule != null && rule.Valid() && rule.tree == t
         case Err(why, _) => err == Some(why) && rule == null
    }

    method ParseOrExpr() returns (rule: RewriteRule?, err: Option<Failure>)
      requires Valid()
      modifies this, l
      ensures Delivers(ParseOr(l.input, old(State())), rule, err)
      ensures rule != null ==> fresh(rule.repr) && errors == old(errors)
      decreases Size(l.input, State()), 4
    {
      hide Next, Size, ParseAnd;
      var left, err1 := ParseAndExpr();
      if err1.Some? {
        return null, err1;
      }
      while curToken.kind == OrOr
        invariant Valid() && left != null && left.Valid() && fresh(left.repr) && errors == old(errors)
        invariant OrTail(l.input, left.tree, State()) == ParseOr(l.input, old(State()))
        invariant Size(l.input, State()) < Size(l.input, old(State()))
        decreases Size(l.input, State())
      {
        NextToken();
        var right, err2 := ParseAndExpr();
        if err2.Some? {
          return null, err2;
        }
        if left.kind == UnionRule {
          left.Append(right);
        } else {
          left := new RewriteRule.Pair(UnionRule, left, right);
        }
      }
      return left, None;
    }

    method ParseAndExpr() returns (rule: RewriteRule?, err: Option<Failure>)
      requires Valid()
      modifies this, l
      ensures Delivers(ParseAnd(l.input, old(State())), rule, err)
      ensures rule != null ==> fresh(rule.repr) && errors == old(errors)
      decreases Size(l.input, State()), 2
    {
      hide Next, Size, ParsePrimary;
      var left, err1 := ParsePrimaryExpr();
      if err1.Some? {
        return null, err1;
      }
      while curToken.kind == AndAnd
        invariant Valid() && left != null && left.Valid() && fresh(left.repr) && errors == old(errors)
        invariant AndTail(l.input, left.tree, State()) == ParseAnd(l.input, old(State()))
        invariant Size(l.input, State()) < Size(l.input, old(State()))
        decreases Size(l.input, State())
      {
        NextToken();
        var right, err2 := ParsePrimaryExpr();
        if err2.Some? {
          return null, err2;
        }
        if left.kind == IntersectionRule {
          left.Append(right);
        } else {
          left := new RewriteRule.Pair(IntersectionRule, left, right);
        }
      }
      return left, None;
    }

    method ParsePrimaryExpr() returns (rule: RewriteRule?, err: Option<Failure>)
      requires Valid()
      modifies this, l
      ensures Delivers(ParsePrimary(l.input, old(State())), rule, err)
      ensures rule != null ==> fresh(rule.repr) && errors == old(errors)
      decreases Size(l.input, State()), 0
    {
      if curToken.kind == LParen {
        NextToken();
        var expr, err1 := ParseOrExpr();
        if err1.Some? {
          return null, err1;
        }
        if curToken.kind != RParen {
          return null, Some(WantedRParen);
        }
        NextToken();
        return expr, None;
      }
      if curToken.kind == This {
        rule, err := ParseThis();
        return;
      }
      return null, Some(UnexpectedToken(curToken.literal));
    }

    method ParseThis() returns (rule: RewriteRule?, err: Option<Failure>)
      requires Valid() && curToken.kind == This
      modifies this, l
      ensures Delivers(ParseLeaf(l.input, old(State())), rule, err)
      ensures rule != null ==> fresh(rule.repr) && errors == old(errors)
    {
      if peekToken.kind != Dot {
        return null, Some(WantedDotAfterThis);
      }
      NextToken();
      if peekToken.kind != Related {
        return null, Some(WantedRelated);
      }
      NextToken();
      if peekToken.kind != Dot {
        return null, Some(WantedDotAfterRelated);
      }
      NextToken();
      NextToken();
      rule, err := ParseUse();
    }

    method ParseUse() returns (rule: RewriteRule?, err: Option<Failure>)
      requires Valid()
      modifies this, l
      ensures Delivers(ParseRelationUse(l.input, old(State())), rule, err)
      ensures rule != null ==> fresh(rule.repr) && errors == old(errors)
    {
      var relName := curToken.literal;
      if peekToken.kind == Dot {
        NextToken();
        NextToken();
        var methodName := curToken.literal;
        if methodName == "includes" {
          SkipUntil(RParen);
          NextToken();
          rule := new RewriteRule.Computed(relName);
          return rule, None;
        } else if methodName == "traverse" {
          rule, err := ParseTraverseCall(relName);
          return;
        }
      }
      NextToken();
      rule := new RewriteRule.Computed(relName);
      return rule, None;
    }

    method ParseTraverseCall(relName: bytes) returns (rule: RewriteRule?, err: Option<Failure>)
      requires Valid()
      modifies this, l
      ensures Delivers(ParseTraverse(l.input, relName, old(State())), rule, err)
      ensures rule != null ==> fresh(rule.repr) && errors == old(errors)
    {
      var ok := ExpectPeek(LParen);
      if !ok {
        return null, Some(WantedTraverseParen);
      }
      NextToken();
      ok := SkipTraverseParam();
      if !ok {
        return null, Some(WantedTraverseParamEnd);
      }
      rule, err := ParseTraverseTarget(relName);
    }

    method SkipTraverseParam() returns (ok: bool)
      requires Valid()
      modifies this, l
      ensures Valid() && Param(ok, State()) == ParseTraverseParam(l.input, old(State())) && errors == old(errors)
    {
      if curToken.kind == Ident {
        NextToken();
      } else if curToken.kind == LParen {
        NextToken();
        NextToken();
        if curToken.kind == Colon {
          NextToken();
          NextToken();
        }
        if curToken.kind != RParen {
          return false;
        }
        NextToken();
      }
      return true;
    }

    method ParseTraverseTarget(relName: bytes) returns (rule: RewriteRule?, err: Option<Failure>)
      requires Valid()
      modifies this, l
      ensures Delivers(ParseTraverseBody(l.input, relName, old(State())), rule, err)
      ensures rule != null ==> fresh(rule.repr) && errors == old(errors)
    {
      if curToken.kind != Arrow {
        return null, Some(WantedTraverseArrow);
      }
      NextToken();
      if curToken.kind == Ident {
        NextToken();
      }
      if curToken.kind != Dot {
        return null, Some(WantedTraverseDot);
      }
      NextToken();
      if curToken.kind != Related {
        return null, Some(WantedTraverseRelated);
      }
      NextToken();
      if curToken.kind != Dot {
        return null, Some(WantedTraverseSecondDot);
      }
      NextToken();
      var computedRel := curToken.literal;
      NextToken();
      if curToken.kind != RParen {
        return null, Some(WantedTraverseEnd);
      }
      NextToken();
      rule := new RewriteRule.TupleTo(relName, computedRel);
      return rule, None;
    }

    // ---------------------------------------------------------- class bodies

    method ParseRelatedBlock()
      requires Valid() && curToken.kind == Related
      modifies this, l
      ensures Valid() && ParseRelated(l.input, old(State())).0 == State()
      ensures errors == old(errors) + ParseRelated(l.input, old(State())).1
    {
      hide Next, Size, SkipTo;
      var ok := ExpectPeek(Colon);
      if !ok {
        return;
      }
      ok := ExpectPeek(LBrace);
      if !ok {
        return;
      }
      NextToken();
      SkipUntil(RBrace);
      NextToken();
      if curToken.kind == Semicolon || curToken.kind == Comma {
        NextToken();
      }
    }

    method SkipArguments()
      requires Valid() && curToken.kind == Ident
      modifies this, l
      ensures Valid() && State() == SkipSignature(l.input, old(State())) && errors == old(errors)
    {
      if peekToken.kind == Colon {
        NextToken();
      }
      NextToken();
      if curToken.kind == LParen {
        SkipUntil(RParen);
        NextToken();
      } else if curToken.kind == Ctx || curToken.kind == Ident {
        NextToken();
      }
      if curToken.kind == Colon {
        NextToken();
        NextToken();
      }
    }

    /** What a method that fills the schema must deliver when the functions say r. */
    ghost predicate Fills(r: BlockResult, ns: NamespaceSchema, err: Option<Failure>)
      reads this, l, ns, ns.nodes
    {
      Valid() && ns.Valid() && State() == r.st
      && match r
         case Parsed(m, _) => err.None? && ns.value == m
         case Rejected(why, _) => err == Some(why)
    }

    method ParseEntryRule() returns (rule: RewriteRule?, err: Option<Failure>)
      requires Valid() && curToken.kind == Ident
      modifies this, l
      ensures Delivers(EntryRule(l.input, old(State())), rule, err)
      ensures rule != null ==> fresh(rule.repr) && errors == old(errors)
    {
      hide Next, Size, SkipTo, ParseOr, SkipSignature;
      var relName := curToken.literal;
      SkipArguments();
      if curToken.kind != Arrow {
        return null, Some(WantedRuleArrow(relName, curToken.literal));
      }
      NextToken();
      rule, err := ParseOrExpr();
    }

    /** One permission: its tree becomes a relation of the schema. */
    method ParsePermission(ns: NamespaceSchema) returns (err: Option<Failure>)
      requires Valid() && curToken.kind == Ident && ns.Valid()
      modifies this, l, ns
      ensures Fills(PermitsEntry(l.input, old(State()), old(ns.value)), ns, err)
      ensures ns.name == old(ns.name) && (err.None? ==> errors == old(errors))
      ensures fresh(ns.nodes - old(ns.nodes))
    {
      hide Next, Size, EntryRule;
      var relName := curToken.literal;
      var rule, err1 := ParseEntryRule();
      if err1.Some? {
        return err1;
      }
      ns.Define(relName, rule);
      if curToken.kind == Comma || curToken.kind == Semicolon {
        NextToken();
      }
      return None;
    }

    method ParsePermissions(ns: NamespaceSchema) returns (err: Option<Failure>)
      requires Valid() && ns.Valid()
      modifies this, l, ns
      ensures Fills(PermitsLoop(l.input, old(State()), old(ns.value)), ns, err)
      ensures ns.name == old(ns.name) && (err.None? ==> errors == old(errors))
      ensures fresh(ns.nodes - old(ns.nodes))
    {
      hide Next, Size, PermitsEntry;
      while curToken.kind != RBrace && curToken.kind != EOF
        invariant Valid() && ns.Valid() && errors == old(errors) && ns.name == old(ns.name)
        invariant fresh(ns.nodes - old(ns.nodes))
        invariant PermitsLoop(l.input, State(), ns.value) == PermitsLoop(l.input, old(State()), old(ns.value))
        decreases Size(l.input, State())
      {
        if curToken.kind == Ident {
          var err1 := ParsePermission(ns);
          if err1.Some? {
            return err1;
          }
        } else {
          NextToken();
        }
      }
      return None;
    }

    method OpenPermitsBlock() returns (err: Option<Failure>)
      requires Valid() && curToken.kind == Permits
      modifies this, l
      ensures Valid() && State() == OpenPermits(l.input, old(State())).st
      ensures match OpenPermits(l.input, old(State()))
              case Parsed(_, _) => err.None? && errors == old(errors)
              case Rejected(why, _) => err == Some(why)
    {
      hide Next, Size;
      var ok := ExpectPeek(Equal);
      if !ok {
        return Some(WantedPermitsEqual);
      }
      ok := ExpectPeek(LBrace);
      if !ok {
        return Some(WantedPermitsBrace);
      }
      NextToken();
      return None;
    }

    method ClosePermitsBlock()
      requires Valid()
      modifies this, l
      ensures Valid() && State() == SkipIf(l.input, Next(l.input, old(State())), Semicolon) && errors == old(errors)
    {
      NextToken();
      if curToken.kind == Semicolon {
        NextToken();
      }
    }

    method ParsePermitsBlock(ns: NamespaceSchema) returns (err: Option<Failure>)
      requires Valid() && curToken.kind == Permits && ns.Valid()
      modifies this, l, ns
      ensures Fills(ParsePermits(l.input, old(State()), old(ns.value)), ns, err)
      ensures ns.name == old(ns.name) && (err.None? ==> errors == old(errors))
      ensures fresh(ns.nodes - old(ns.nodes))
    {
      hide Next, Size, PermitsLoop, OpenPermits, NamespaceSchema.Valid;
      err := OpenPermitsBlock();
      if err.Some? {
        return;
      }
      err := ParsePermissions(ns);
      if err.Some? {
        return;
      }
      ClosePermitsBlock();
    }

    method SkipImportLines()
      requires Valid()
      modifies this, l
      ensures Valid() && State() == SkipImports(l.input, old(State())) && errors == old(errors)
    {
      while curToken.kind == Ident && curToken.literal == "import"
        invariant Valid() && errors == old(errors)
        invariant SkipImports(l.input, State()) == SkipImports(l.input, old(State()))
        decreases Size(l.input, State())
      {
        NextToken();
      }
    }

    method SkipImplementsClause() returns (ok: bool)
      requires Valid()
      modifies this, l
      ensures Valid() && Param(ok, State()) == SkipImplements(l.input, old(State()))
      ensures ok ==> errors == old(errors)
    {
      ok := true;
      if peekToken.kind == Implements {
        NextToken();
        ok := ExpectPeek(Namespace);
      }
    }

    /** The part of ParseNamespace before the class body; it yields the class name. */
    method ParseClassHeader() returns (name: bytes, err: Option<Failure>)
      requires Valid()
      modifies this, l
      ensures Valid()
      ensures match ParseHeader(l.input, old(State()))
              case Opened(n, st) => err.None? && name == n && State() == st && errors == old(errors)
              case Refused(why) => err == Some(why)
    {
      hide Next, Size, SkipImports, SkipImplements;
      SkipImportLines();
      if curToken.kind != Class {
        return [], Some(WantedClass(curToken.literal));
      }
      var ok := ExpectPeek(Ident);
      if !ok {
        return [], Some(WantedClassName);
      }
      name := curToken.literal;
      ok := SkipImplementsClause();
      if !ok {
        return name, Some(WantedNamespace);
      }
      ok := ExpectPeek(LBrace);
      if !ok {
        return name, Some(WantedClassBrace);
      }
      NextToken();
      return name, None;
    }

    /** One turn of the loop over the class body. */
    method ParseMember(ns: NamespaceSchema) returns (err: Option<Failure>)
      requires Valid() && ns.Valid() && !AtBlockEnd(State())
      modifies this, l, ns
      ensures Valid() && ns.Valid() && ns.name == old(ns.name)
      ensures match ClassStep(l.input, old(ClassState(State(), ns.value, errors)))
              case Go(c) => err.None? && c == ClassState(State(), ns.value, errors)
              case Stop(why) => err == Some(why)
    {
      hide Next, Size, ParsePermits, ParseRelated;
      if curToken.kind == Related {
        ParseRelatedBlock();
      } else if curToken.kind == Permits {
        err := ParsePermitsBlock(ns);
        return;
      } else {
        NextToken();
      }
      return None;
    }

    /**
      ParseNamespace on a fresh parser. The source's loop over the class body has no bound; it is
      cut off after `turns` turns here, and AplTermination.dfy says when the bound can be dropped.
     */
    method ParseNamespaceIn(turns: nat) returns (ns: NamespaceSchema, err: Option<Failure>, halted: bool)
      requires Valid() && State() == Start(l.input) && errors == []
      modifies this, l
      ensures match ParseNamespace(l.input, turns)
              case Schema(name, m) => halted && err.None? && ns.Valid() && ns.name == name && ns.value == m
              case Failed(why) => halted && err == Some(why)
              case Running => !halted
    {
      hide Next, Size, ParseHeader, ClassStep, Start, ClassLoop, RewriteRule.Valid;
      ns := new NamespaceSchema();
      var name, err1 := ParseClassHeader();
      if err1.Some? {
        return ns, err1, true;
      }
      ns.name := name;
      ghost var start := ClassState(State(), ns.value, errors);
      var left := turns;
      while curToken.kind != RBrace && curToken.kind != EOF
        invariant Valid() && ns.Valid() && fresh(ns)
        invariant ClassLoop(l.input, ns.name, ClassState(State(), ns.value, errors), left)
               == ClassLoop(l.input, ns.name, start, turns)
        invariant ns.name == ParseHeader(l.input, old(State())).name
        decreases left
      {
        if left == 0 {
          LoopStops(l.input, ns.name, ClassState(State(), ns.value, errors));
          return ns, None, false;
        }
        LoopOnce(l.input, ns.name, ClassState(State(), ns.value, errors), left);
        left := left - 1;
        err := ParseMember(ns);
        if err.Some? {
          return ns, err, true;
        }
      }
      LoopOnce(l.input, ns.name, ClassState(State(), ns.value, errors), left);
      if |errors| > 0 {
        return ns, Some(Recorded(errors)), true;
      }
      return ns, None, true;
    }

    /**
      ParseNamespace as it stands, with no bound on the loop over the class body. It ends because
      the loop never comes to a class-level `related` without a colon; `turns` is for the record.
     */
    method ParseNamespaceToEnd(ghost turns: nat) returns (ns: NamespaceSchema, err: Option<Failure>)
      requires Valid() && State() == Start(l.input) && errors == []
      requires !HangsOn(l.input) && turns >= TurnBound(l.input)
      modifies this, l
      ensures match ParseNamespace(l.input, turns)
              case Schema(name, m) => err.None? && ns.Valid() && ns.name == name && ns.value == m
              case Failed(why) => err == Some(why)
              case Running => false
    {
      hide Next, Size, ParseHeader, ClassStep, Start, ClassLoop, MeetsStuck, RewriteRule.Valid;
      ns := new NamespaceSchema();
      HeaderSize(l.input);
      var name, err1 := ParseClassHeader();
      if err1.Some? {
        return ns, err1;
      }
      ns.name := name;
      ghost var start := ClassState(State(), ns.value, errors);
      ghost var left := turns;
      while curToken.kind != RBrace && curToken.kind != EOF
        invariant Valid() && ns.Valid() && fresh(ns) && ns.name == name
        invariant !MeetsStuck(l.input, ClassState(State(), ns.value, errors)) && left >= Size(l.input, State())
        invariant ClassLoop(l.input, name, ClassState(State(), ns.value, errors), left)
               == ClassLoop(l.input, name, start, turns)
        decreases Size(l.input, State())
      {
        TurnConsumesIfGo(l.input, ClassState(State(), ns.value, errors));
        LoopOnce(l.input, name, ClassState(State(), ns.value, errors), left);
        left := left - 1;
        err := ParseMember(ns);
        if err.Some? {
          return ns, err;
        }
      }
      LoopOnce(l.input, name, ClassState(State(), ns.value, errors), left);
      if |errors| > 0 {
        return ns, Some(Recorded(errors));
      }
      return ns, None;
    }
  }

  /** Parse on an input that does not hang: the source's own loops, unbounded, come to an end. */
  method ParseTextToEnd(input: bytes) returns (ns: NamespaceSchema, err: Option<Failure>)
    requires !Hangs(input)
    ensures match Parse(input, TurnBound(input))
            case Schema(name, m) => err.None? && ns.Valid() && ns.name == name && ns.value == m
            case Failed(why) => err == Some(why)
            case Running => false
  {
    var l := new Lexer(ClassText(input));
    var p := new Parser(l);
    ns, err := p.ParseNamespaceToEnd(TurnBound(input));
  }

  /** Parse: cut the input at the first "class ", then lex and parse. */
  method ParseText(input: bytes, turns: nat) returns (ns: NamespaceSchema, err: Option<Failure>, halted: bool)
    ensures match Parse(input, turns)
            case Schema(name, m) => halted && err.None? && ns.Valid() && ns.name == name && ns.value == m
            case Failed(why) => halted && err == Some(why)
            case Running => !halted
  {
    var l := new Lexer(ClassText(input));
    var p := new Parser(l);
    ns, err, halted := p.ParseNamespaceIn(turns);
  }
}
