/**
  Rules and their compiled matcher, aegis/internal/core/models.go and
  aegis/internal/rule/matcher.go:13-96. Regular expressions are abstract: a compile function that
  may fail and a match function.
 */
module RuleMatcher {
  import opened Bytes

  datatype HandlerConfig = HandlerConfig(handler: bytes, config: bytes)

  datatype Upstream = Upstream(url: bytes, stripPrefix: bytes, rewrite: bytes)

  datatype Rule = Rule(id: bytes, description: string, orderIdx: int, url: bytes, methods: seq<bytes>,
                       authenticators: seq<HandlerConfig>, authorizer: HandlerConfig,
                       mutators: seq<HandlerConfig>, upstream: Upstream)

  /** regexp.Compile, MatchString, ReplaceAllString and strings.ToUpper. */
  datatype Lib = Lib(compile: bytes -> Option<nat>, matches: (nat, bytes) -> bool,
                     replaceAll: (nat, bytes, bytes) -> bytes, upper: bytes -> bytes)

  datatype CompiledRule = CompiledRule(rule: Rule, regex: nat, methods: set<bytes>)

  type Matcher = seq<CompiledRule>

  /** `<` and `>` of a URL template become parentheses. */
  function Parenthesise(s: bytes): (t: bytes)
    ensures |t| == |s|
  {
    if s == [] then []
    else [if s[0] == '<' then '(' else if s[0] == '>' then ')' else s[0]] + Parenthesise(s[1..])
  }

  /** The anchored regular expression of a URL template. */
  function Pattern(url: bytes): bytes {
    var a := if HasPrefix(url, "^") then url else "^" + url;
    var b := if HasSuffix(a, "$") then a else a + "$";
    Parenthesise(b)
  }

  lemma {:induction false} ParenthesiseAt(s: bytes, i: nat)
    requires i < |s|
    ensures Parenthesise(s)[i] == if s[i] == '<' then '(' else if s[i] == '>' then ')' else s[i]
  {
    if i > 0 {
      ParenthesiseAt(s[1..], i - 1);
    }
  }

  /** The pattern starts with `^`, ends with `$` and holds no angle bracket. */
  lemma {:induction false} PatternIsFramed(url: bytes)
    ensures var p := Pattern(url);
            |p| > 0 && p[0] == '^' && p[|p| - 1] == '$' && '<' !in p && '>' !in p
  {
    var a := if HasPrefix(url, "^") then url else "^" + url;
    var b := if HasSuffix(a, "$") then a else a + "$";
    hide Parenthesise;
    assert b[0] == '^' && b[|b| - 1] == '$' && Pattern(url) == Parenthesise(b);
    hide Pattern, HasPrefix, HasSuffix;
    ParenthesiseAt(b, 0);
    ParenthesiseAt(b, |b| - 1);
    forall i | 0 <= i < |b| ensures Parenthesise(b)[i] != '<' && Parenthesise(b)[i] != '>' {
      ParenthesiseAt(b, i);
    }
  }

  lemma {:induction false} ParenthesiseConcat(a: bytes, b: bytes)
    ensures Parenthesise(a + b) == Parenthesise(a) + Parenthesise(b)
  {
    if a == [] {
      assert a + b == b;
    } else {
      assert (a + b)[1..] == a[1..] + b;
      ParenthesiseConcat(a[1..], b);
    }
  }

  lemma {:induction false} AnchorsStay()
    ensures Parenthesise("^") == "^" && Parenthesise("$") == "$" && Parenthesise("|") == "|"
    ensures Parenthesise("\\$") == "\\$"
  {
    assert "^"[1..] == "$"[1..] == "|"[1..] == "" && "\\$"[1..] == "$";
  }

  lemma {:induction false} Ends(s: bytes)
    ensures HasPrefix(s, "^") <==> s != [] && s[0] == '^'
    ensures HasSuffix(s, "$") <==> s != [] && s[|s| - 1] == '$'
  {
    if s != [] {
      assert s[|s| - 1..] == [s[|s| - 1]];
    }
  }

  /** A template without anchors of its own gets both. */
  lemma {:induction false} PatternAddsAnchors(url: bytes)
    requires !HasPrefix(url, "^") && !HasSuffix(url, "$")
    ensures Pattern(url) == "^" + Parenthesise(url) + "$"
  {
    var a := "^" + url;
    Ends(a);
    Ends(url);
    hide Parenthesise;
    ParenthesiseConcat(a, "$");
    ParenthesiseConcat("^", url);
    AnchorsStay();
  }

  /**
    The anchors are put around the template without a group. In a template that is an alternation
    the first one binds to the first alternative only and the last one to the last.
   */
  lemma {:induction false} AlternationIsHalfAnchored(l: bytes, r: bytes)
    requires !HasPrefix(l, "^") && !HasSuffix(r, "$")
    ensures Pattern(l + "|" + r) == ("^" + Parenthesise(l)) + "|" + (Parenthesise(r) + "$")
  {
    NoAnchors(l, r);
    hide HasPrefix, HasSuffix, Pattern, Parenthesise;
    PatternAddsAnchors(l + "|" + r);
    ParenthesiseConcat(l + "|", r);
    ParenthesiseConcat(l, "|");
    AnchorsStay();
    Regroup(Parenthesise(l), Parenthesise(r));
  }

  lemma {:induction false} NoAnchors(l: bytes, r: bytes)
    requires !HasPrefix(l, "^") && !HasSuffix(r, "$")
    ensures !HasPrefix(l + "|" + r, "^") && !HasSuffix(l + "|" + r, "$")
  {
    var url := l + "|" + r;
    assert url[0] == if l == [] then '|' else l[0];
    assert url[|url| - 1] == if r == [] then '|' else r[|r| - 1];
    Ends(l);
    Ends(r);
    Ends(url);
    hide HasPrefix, HasSuffix;
  }

  lemma {:induction false} Regroup(a: bytes, b: bytes)
    ensures "^" + (a + "|" + b) + "$" == ("^" + a) + "|" + (b + "$")
  {
  }

  lemma {:induction false} EscapedEnds(l: bytes)
    requires !HasPrefix(l, "^")
    ensures !HasPrefix(l + "\\$", "^") && HasSuffix("^" + (l + "\\$"), "$")
  {
    var url := l + "\\$";
    assert url[|url| - 1] == '$';
    assert url[0] == if l == [] then '\\' else l[0];
    Ends(l);
    Ends(url);
    Ends("^" + url);
    hide HasPrefix, HasSuffix;
  }

  /** A template that ends with an escaped dollar sign gets no anchor at its end. */
  lemma {:induction false} EscapedDollarIsNoAnchor(l: bytes)
    requires !HasPrefix(l, "^")
    ensures Pattern(l + "\\$") == "^" + Parenthesise(l) + "\\$"
  {
    hide HasPrefix, HasSuffix, Parenthesise;
    EscapedEnds(l);
    ParenthesiseConcat("^", l + "\\$");
    ParenthesiseConcat(l, "\\$");
    AnchorsStay();
    Join(Parenthesise(l));
  }

  lemma {:induction false} Join(l: bytes)
    ensures "^" + (l + "\\$") == "^" + l + "\\$"
  {
  }

  function MethodSet(lib: Lib, methods: seq<bytes>): set<bytes> {
    set m | m in methods :: lib.upper(m)
  }

  function CompileRule(lib: Lib, r: Rule): Option<CompiledRule> {
    var reg := lib.compile(Pattern(r.url));
    if reg.None? then None else Some(CompiledRule(r, reg.value, MethodSet(lib, r.methods)))
  }

  predicate Compiles(lib: Lib, rules: seq<Rule>) {
    forall i :: 0 <= i < |rules| ==> CompileRule(lib, rules[i]).Some?
  }

  /** m is the matcher of these rules, one entry a rule, in order. */
  predicate IsMatcherOf(lib: Lib, m: Matcher, rules: seq<Rule>) {
    |m| == |rules| && forall i :: 0 <= i < |rules| ==> CompileRule(lib, rules[i]) == Some(m[i])
  }

  method BuildPattern(url: bytes) returns (pattern: bytes)
    ensures pattern == Pattern(url)
  {
    pattern := url;
    if !HasPrefix(pattern, "^") {
      pattern := "^" + pattern;
    }
    if !HasSuffix(pattern, "$") {
      pattern := pattern + "$";
    }
    pattern := Parenthesise(pattern);
  }

  method UpperMethods(lib: Lib, names: seq<bytes>) returns (methods: set<bytes>)
    ensures methods == MethodSet(lib, names)
  {
    methods := {};
    for j := 0 to |names|
      invariant methods == MethodSet(lib, names[..j])
    {
      methods := methods + {lib.upper(names[j])};
      assert names[..j + 1] == names[..j] + [names[j]];
    }
    assert names[..|names|] == names;
  }

  method CompileOne(lib: Lib, r: Rule) returns (c: Option<CompiledRule>)
    ensures c == CompileRule(lib, r)
  {
    var pattern := BuildPattern(r.url);
    var reg := lib.compile(pattern);
    if reg.None? {
      return None;
    }
    var methods := UpperMethods(lib, r.methods);
    return Some(CompiledRule(r, reg.value, methods));
  }

  method CompileRules(lib: Lib, rules: seq<Rule>) returns (m: Option<Matcher>)
    ensures m.Some? <==> Compiles(lib, rules)
    ensures m.Some? ==> IsMatcherOf(lib, m.value, rules)
  {
    hide CompileRule;
    var compiled: Matcher := [];
    for i := 0 to |rules|
      invariant |compiled| == i && forall j :: 0 <= j < i ==> CompileRule(lib, rules[j]) == Some(compiled[j])
    {
      var c := CompileOne(lib, rules[i]);
      if c.None? {
        return None;
      }
      compiled := compiled + [c.value];
    }
    return Some(compiled);
  }

  predicate Accepts(lib: Lib, c: CompiledRule, verb: bytes, path: bytes) {
    ("*" in c.methods || lib.upper(verb) in c.methods) && lib.matches(c.regex, path)
  }

  /** First-match routing: the rule that an ordered rule list chooses for a request. */
  function Choose(lib: Lib, m: Matcher, verb: bytes, path: bytes): Option<Rule> {
    if m == [] then None
    else if Accepts(lib, m[0], verb, path) then Some(m[0].rule)
    else Choose(lib, m[1..], verb, path)
  }

  method Match(lib: Lib, m: Matcher, verb: bytes, path: bytes) returns (r: Option<Rule>)
    ensures r == Choose(lib, m, verb, path)
    ensures match r
            case Some(rule) => exists i :: 0 <= i < |m| && m[i].rule == rule && Accepts(lib, m[i], verb, path)
                                 && forall j :: 0 <= j < i ==> !Accepts(lib, m[j], verb, path)
            case None => forall j :: 0 <= j < |m| ==> !Accepts(lib, m[j], verb, path)
  {
    var i := 0;
    assert m[0..] == m;
    while i < |m|
      invariant i <= |m| && forall j :: 0 <= j < i ==> !Accepts(lib, m[j], verb, path)
      invariant Choose(lib, m[i..], verb, path) == Choose(lib, m, verb, path)
    {
      assert m[i..][1..] == m[i + 1..];
      if Accepts(lib, m[i], verb, path) {
        return Some(m[i].rule);
      }
      i := i + 1;
    }
    return None;
  }

  /** A rule list compiles when every pattern does. */
  lemma {:induction false} CompilesIffPatternsDo(lib: Lib, rules: seq<Rule>)
    ensures Compiles(lib, rules) <==> forall r :: r in rules ==> lib.compile(Pattern(r.url)).Some?
  {
    if Compiles(lib, rules) {
      forall r | r in rules ensures lib.compile(Pattern(r.url)).Some? {
        var i :| 0 <= i < |rules| && rules[i] == r;
        assert CompileRule(lib, rules[i]).Some?;
      }
    }
  }

  /** The rule compiles and accepts the request. */
  predicate Admits(lib: Lib, r: Rule, verb: bytes, path: bytes) {
    CompileRule(lib, r).Some? && Accepts(lib, CompileRule(lib, r).value, verb, path)
  }

  /** What one rule asks of a request, said of the rule and not of what was compiled from it. */
  lemma {:induction false} AcceptsExactly(lib: Lib, r: Rule, verb: bytes, path: bytes)
    requires CompileRule(lib, r).Some?
    ensures lib.compile(Pattern(r.url)).Some?
    ensures Admits(lib, r, verb, path) <==>
            (exists i :: 0 <= i < |r.methods| && (lib.upper(r.methods[i]) == "*" || lib.upper(r.methods[i]) == lib.upper(verb)))
            && lib.matches(lib.compile(Pattern(r.url)).value, path)
  {
    var c := CompileRule(lib, r).value;
    forall m: bytes ensures m in c.methods <==> exists i :: 0 <= i < |r.methods| && lib.upper(r.methods[i]) == m {
      if m in c.methods {
        var x :| x in r.methods && lib.upper(x) == m;
        var i :| 0 <= i < |r.methods| && r.methods[i] == x;
      }
      if i :| 0 <= i < |r.methods| && lib.upper(r.methods[i]) == m {
        assert r.methods[i] in r.methods;
      }
    }
  }

  lemma {:induction false} MatcherHead(lib: Lib, rules: seq<Rule>, m: Matcher)
    requires IsMatcherOf(lib, m, rules)
    ensures |m| == |rules|
    ensures rules != [] ==> m[0].rule == rules[0] && IsMatcherOf(lib, m[1..], rules[1..])
  {
    if rules != [] {
      assert CompileRule(lib, rules[0]) == Some(m[0]);
    }
  }

  lemma {:induction false} HeadAdmits(lib: Lib, rules: seq<Rule>, m: Matcher, verb: bytes, path: bytes)
    requires IsMatcherOf(lib, m, rules) && rules != [] && m != []
    ensures Admits(lib, rules[0], verb, path) <==> Accepts(lib, m[0], verb, path)
  {
    assert CompileRule(lib, rules[0]) == Some(m[0]);
    hide CompileRule, Accepts;
  }

  /** The rule chosen by the matcher of a rule list is the first of the list that accepts the request, if any. */
  lemma {:induction false} ChoiceIsFirstFit(lib: Lib, rules: seq<Rule>, m: Matcher, verb: bytes, path: bytes)
    returns (k: nat)
    requires IsMatcherOf(lib, m, rules)
    ensures k <= |rules| && Choose(lib, m, verb, path) == if k < |rules| then Some(rules[k]) else None
    ensures k < |rules| ==> Admits(lib, rules[k], verb, path)
    ensures forall j :: 0 <= j < k ==> !Admits(lib, rules[j], verb, path)
    decreases |rules|
  {
    hide Admits, IsMatcherOf, CompileRule, Accepts;
    MatcherHead(lib, rules, m);
    if rules == [] {
      k := 0;
    } else {
      HeadAdmits(lib, rules, m, verb, path);
      if Admits(lib, rules[0], verb, path) {
        k := 0;
      } else {
        var n := ChoiceIsFirstFit(lib, rules[1..], m[1..], verb, path);
        k := n + 1;
        assert forall j :: 0 < j <= k && j < |rules| ==> rules[j] == rules[1..][j - 1];
      }
    }
  }

  /** Rules added at the end never change the choice for a request that already had one. */
  lemma {:induction false} AppendKeepsChoice(lib: Lib, m: Matcher, more: Matcher, verb: bytes, path: bytes)
    ensures Choose(lib, m, verb, path).Some? ==> Choose(lib, m + more, verb, path) == Choose(lib, m, verb, path)
    ensures Choose(lib, m, verb, path).None? ==> Choose(lib, m + more, verb, path) == Choose(lib, more, verb, path)
  {
    if m == [] {
      assert m + more == more;
    } else {
      assert (m + more)[1..] == m[1..] + more;
      AppendKeepsChoice(lib, m[1..], more, verb, path);
    }
  }
}
