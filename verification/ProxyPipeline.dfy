/**
  The Aegis request pipeline, live in aegis/internal/proxy/handler.go:61-207 and simulated in
  aegis/internal/proxy/dryrun.go:140-307. Handlers are functions of what they are given; an
  authenticator may return a session, an error, both or neither.
 */
module ProxyPipeline {
  import opened Bytes
  import opened RuleMatcher

  datatype URL = URL(scheme: bytes, host: bytes, path: bytes, rawQuery: bytes)

  datatype Request = Request(verb: bytes, url: URL, headers: map<bytes, bytes>)

  datatype Session = Session(subject: bytes)

  datatype Authenticated = Authenticated(session: Option<Session>, failed: bool)
  datatype Authorized = Authorized(allowed: bool, failed: bool)
  datatype Mutated = Mutated(request: Request, failed: bool)

  type Authenticator = (Request, bytes) -> Authenticated
  type Authorizer = (Request, Session, bytes) -> Authorized
  type Mutator = (Request, Session, bytes) -> Mutated

  /** The registered handlers by name, the matcher, and net/url.Parse. */
  datatype Proxy = Proxy(lib: Lib, matcher: Matcher, authenticators: map<bytes, Authenticator>,
                         authorizers: map<bytes, Authorizer>, mutators: map<bytes, Mutator>,
                         parseURL: bytes -> Option<URL>)

  // ------------------------------------------------------------ upstream URL

  function TrimSlash(path: bytes): bytes {
    if path != [] && path[|path| - 1] == '/' then path[..|path| - 1] else path
  }

  function Strip(path: bytes, prefix: bytes): bytes {
    if prefix == [] || !HasPrefix(path, prefix) then path
    else
      var rest := path[|prefix|..];
      if rest == [] || rest[0] != '/' then "/" + rest else rest
  }

  function Rewritten(lib: Lib, requestPath: bytes, stripped: bytes, matchURL: bytes, rewrite: bytes): bytes {
    if rewrite == [] then stripped
    else
      var reg := lib.compile(Pattern(matchURL));
      if reg.Some? then lib.replaceAll(reg.value, requestPath, rewrite) else stripped
  }

  function Joined(base: bytes, path: bytes): bytes {
    if base == [] then path else base + (if HasPrefix(path, "/") then path else "/" + path)
  }

  function UpstreamURL(p: Proxy, url: URL, matchURL: bytes, up: Upstream): Option<URL> {
    var target := p.parseURL(up.url);
    if target.None? then None
    else
      var path := Rewritten(p.lib, url.path, Strip(url.path, up.stripPrefix), matchURL, up.rewrite);
      Some(target.value.(path := Joined(TrimSlash(target.value.path), path), rawQuery := url.rawQuery))
  }

  method StripPath(requestPath: bytes, prefix: bytes) returns (path: bytes)
    ensures path == Strip(requestPath, prefix)
  {
    path := requestPath;
    if prefix != [] {
      if HasPrefix(path, prefix) {
        path := path[|prefix|..];
        if path == [] || !HasPrefix(path, "/") {
          path := "/" + TrimPrefix(path, "/");
        }
      }
    }
  }

  method BuildUpstreamURL(p: Proxy, url: URL, matchURL: bytes, up: Upstream) returns (r: Option<URL>)
    ensures r == UpstreamURL(p, url, matchURL, up)
    ensures r.Some? ==> p.parseURL(up.url).Some? && r.value.scheme == p.parseURL(up.url).value.scheme
                        && r.value.host == p.parseURL(up.url).value.host && r.value.rawQuery == url.rawQuery
  {
    hide Strip, Pattern, TrimSlash;
    var target := p.parseURL(up.url);
    if target.None? {
      return None;
    }
    var path := StripPath(url.path, up.stripPrefix);
    if up.rewrite != [] {
      var pattern := BuildPattern(matchURL);
      var reg := p.lib.compile(pattern);
      if reg.Some? {
        path := p.lib.replaceAll(reg.value, url.path, up.rewrite);
      }
    }
    var basePath := TrimSlash(target.value.path);
    if basePath != [] {
      if !HasPrefix(path, "/") {
        path := "/" + path;
      }
      path := basePath + path;
    }
    return Some(target.value.(path := path, rawQuery := url.rawQuery));
  }

  /** What is left of a path without the prefix, if it has it. */
  function Rest(path: bytes, prefix: bytes): bytes {
    if HasPrefix(path, prefix) then path[|prefix|..] else path
  }

  lemma {:induction false} StripKeepsRest(path: bytes, prefix: bytes)
    ensures HasSuffix(Strip(path, prefix), Rest(path, prefix))
  {
    var rest := Rest(path, prefix);
    if Strip(path, prefix) != rest {
      assert Strip(path, prefix) == ['/'] + rest;
    }
  }

  lemma {:induction false} JoinedKeepsBoth(base: bytes, path: bytes)
    ensures base <= Joined(base, path) && HasSuffix(Joined(base, path), path)
  {
    if base != [] && !HasPrefix(path, "/") {
      assert Joined(base, path) == (base + "/") + path;
    }
  }

  lemma {:induction false} SuffixOfSuffix(a: bytes, b: bytes, c: bytes)
    requires HasSuffix(a, b) && HasSuffix(b, c)
    ensures HasSuffix(a, c)
  {
    assert a[|a| - |b|..][|b| - |c|..] == a[|a| - |c|..];
  }

  /** Rewriting aside, nothing but the prefix is lost: the target path ends with the rest of the request's. */
  lemma {:induction false} StripLosesOnlyPrefix(p: Proxy, url: URL, matchURL: bytes, up: Upstream)
    requires UpstreamURL(p, url, matchURL, up).Some? && up.rewrite == []
    ensures var path := UpstreamURL(p, url, matchURL, up).value.path;
            HasSuffix(path, Rest(url.path, up.stripPrefix)) && TrimSlash(p.parseURL(up.url).value.path) <= path
  {
    var stripped := Strip(url.path, up.stripPrefix);
    var base := TrimSlash(p.parseURL(up.url).value.path);
    StripKeepsRest(url.path, up.stripPrefix);
    JoinedKeepsBoth(base, stripped);
    SuffixOfSuffix(Joined(base, stripped), stripped, Rest(url.path, up.stripPrefix));
    hide HasSuffix, Joined, Strip, Rest, TrimSlash;
  }

  // ---------------------------------------------------------- live pipeline

  /** The answer of ServeHTTP: a status code, or a request handed to an upstream. */
  datatype Served = Status(code: nat) | Proxied(request: Request, target: URL)

  /** What the authenticator loop leaves behind. */
  datatype Login = UnknownHandler | Login(session: Option<Session>)

  /** The live loop: stops at the first success, and fails hard at an unregistered handler. */
  function LiveLogin(p: Proxy, r: Request, configs: seq<HandlerConfig>, session: Option<Session>): Login {
    if configs == [] then Login(session)
    else if configs[0].handler !in p.authenticators then UnknownHandler
    else
      var a := p.authenticators[configs[0].handler](r, configs[0].config);
      if !a.failed && a.session.Some? then Login(a.session) else LiveLogin(p, r, configs[1..], a.session)
  }

  /** The simulated loop: an unregistered handler is passed over. */
  function DryLogin(p: Proxy, r: Request, configs: seq<HandlerConfig>, session: Option<Session>): Option<Session> {
    if configs == [] then session
    else if configs[0].handler !in p.authenticators then DryLogin(p, r, configs[1..], session)
    else
      var a := p.authenticators[configs[0].handler](r, configs[0].config);
      if !a.failed && a.session.Some? then a.session else DryLogin(p, r, configs[1..], a.session)
  }

  /** The request after the mutators, or None at the first unknown or failing one. */
  function Mutate(p: Proxy, r: Request, s: Session, configs: seq<HandlerConfig>): Option<Request>
    decreases |configs|
  {
    if configs == [] then Some(r)
    else if configs[0].handler !in p.mutators then None
    else
      var m := p.mutators[configs[0].handler](r, s, configs[0].config);
      if m.failed then None else Mutate(p, m.request, s, configs[1..])
  }

  function Live(p: Proxy, r: Request): Served {
    var rule := Choose(p.lib, p.matcher, r.verb, r.url.path);
    if rule.None? then Status(404)
    else
      var login := LiveLogin(p, r, rule.value.authenticators, None);
      if login.UnknownHandler? then Status(500)
      else if login.session.None? then Status(401)
      else LiveAuthorized(p, r, rule.value, login.session.value)
  }

  function LiveAuthorized(p: Proxy, r: Request, rule: Rule, s: Session): Served {
    if rule.authorizer.handler !in p.authorizers then Status(500)
    else
      var verdict := p.authorizers[rule.authorizer.handler](r, s, rule.authorizer.config);
      if verdict.failed || !verdict.allowed then Status(403)
      else
        var mutated := Mutate(p, r, s, rule.mutators);
        if mutated.None? then Status(500)
        else
          var target := UpstreamURL(p, mutated.value.url, rule.url, rule.upstream);
          if target.None? then Status(502) else Proxied(mutated.value, target.value)
  }

  method Authenticate(p: Proxy, r: Request, configs: seq<HandlerConfig>) returns (login: Login)
    ensures login == LiveLogin(p, r, configs, None)
  {
    var session: Option<Session> := None;
    var i := 0;
    assert configs[0..] == configs;
    while i < |configs|
      invariant i <= |configs| && LiveLogin(p, r, configs[i..], session) == LiveLogin(p, r, configs, None)
    {
      assert configs[i..][1..] == configs[i + 1..];
      if configs[i].handler !in p.authenticators {
        return UnknownHandler;
      }
      var a := p.authenticators[configs[i].handler](r, configs[i].config);
      session := a.session;
      if !a.failed && session.Some? {
        return Login(session);
      }
      i := i + 1;
    }
    return Login(session);
  }

  method ServeHTTP(p: Proxy, r: Request) returns (out: Served)
    ensures out == Live(p, r)
  {
    var rule := Match(p.lib, p.matcher, r.verb, r.url.path);
    if rule.None? {
      return Status(404);
    }
    var login := Authenticate(p, r, rule.value.authenticators);
    if login.UnknownHandler? {
      return Status(500);
    }
    if login.session.None? {
      return Status(401);
    }
    out := ServeAuthorized(p, r, rule.value, login.session.value);
  }

  method ServeAuthorized(p: Proxy, r: Request, rule: Rule, session: Session) returns (out: Served)
    ensures out == LiveAuthorized(p, r, rule, session)
  {
    if rule.authorizer.handler !in p.authorizers {
      return Status(500);
    }
    var verdict := p.authorizers[rule.authorizer.handler](r, session, rule.authorizer.config);
    if verdict.failed || !verdict.allowed {
      return Status(403);
    }
    var current := r;
    var i := 0;
    assert rule.mutators[0..] == rule.mutators;
    while i < |rule.mutators|
      invariant i <= |rule.mutators|
      invariant Mutate(p, current, session, rule.mutators[i..]) == Mutate(p, r, session, rule.mutators)
    {
      assert rule.mutators[i..][1..] == rule.mutators[i + 1..];
      var c := rule.mutators[i];
      if c.handler !in p.mutators {
        return Status(500);
      }
      var m := p.mutators[c.handler](current, session, c.config);
      if m.failed {
        return Status(500);
      }
      current := m.request;
      i := i + 1;
    }
    var target := BuildUpstreamURL(p, current.url, rule.url, rule.upstream);
    if target.None? {
      return Status(502);
    }
    return Proxied(current, target.value);
  }

  // ------------------------------------------------------------- simulation

  datatype Stage = MatchStage | AuthenticatorStage | AuthorizerStage | MutatorStage | UpstreamStage

  datatype TraceStep = TraceStep(stage: Stage, handler: bytes, success: bool, target: Option<URL>)

  datatype Verdict = VerdictAllow | VerdictUnauthorized | VerdictDeny | VerdictError

  datatype Trace = Trace(matched: Option<bytes>, steps: seq<TraceStep>, verdict: Verdict)

  function Passed(stage: Stage, handler: bytes): TraceStep {
    TraceStep(stage, handler, true, None)
  }

  function Failed(stage: Stage, handler: bytes): TraceStep {
    TraceStep(stage, handler, false, None)
  }

  function LoginSteps(p: Proxy, r: Request, configs: seq<HandlerConfig>): seq<TraceStep> {
    if configs == [] then []
    else
      var h := configs[0].handler;
      if h !in p.authenticators then [Failed(AuthenticatorStage, h)] + LoginSteps(p, r, configs[1..])
      else
        var a := p.authenticators[h](r, configs[0].config);
        if !a.failed && a.session.Some? then [Passed(AuthenticatorStage, h)]
        else [Failed(AuthenticatorStage, h)] + LoginSteps(p, r, configs[1..])
  }

  function MutateSteps(p: Proxy, r: Request, s: Session, configs: seq<HandlerConfig>): seq<TraceStep>
    decreases |configs|
  {
    if configs == [] then []
    else
      var h := configs[0].handler;
      if h !in p.mutators then [Failed(MutatorStage, h)]
      else
        var m := p.mutators[h](r, s, configs[0].config);
        if m.failed then [Failed(MutatorStage, h)]
        else [Passed(MutatorStage, h)] + MutateSteps(p, m.request, s, configs[1..])
  }

  function Dry(p: Proxy, r: Request): Trace {
    var rule := Choose(p.lib, p.matcher, r.verb, r.url.path);
    if rule.None? then Trace(None, [Failed(MatchStage, [])], VerdictError)
    else
      var steps := [Passed(MatchStage, [])] + LoginSteps(p, r, rule.value.authenticators);
      var session := DryLogin(p, r, rule.value.authenticators, None);
      if session.None? then Trace(Some(rule.value.id), steps, VerdictUnauthorized)
      else
        var (more, verdict) := DryAuthorized(p, r, rule.value, session.value);
        Trace(Some(rule.value.id), steps + more, verdict)
  }

  function DryAuthorized(p: Proxy, r: Request, rule: Rule, s: Session): (seq<TraceStep>, Verdict) {
    var h := rule.authorizer.handler;
    if h !in p.authorizers then ([Failed(AuthorizerStage, h)], VerdictError)
    else
      var v := p.authorizers[h](r, s, rule.authorizer.config);
      if v.failed || !v.allowed then ([Failed(AuthorizerStage, h)], VerdictDeny)
      else
        var steps := [Passed(AuthorizerStage, h)] + MutateSteps(p, r, s, rule.mutators);
        if Mutate(p, r, s, rule.mutators).None? then (steps, VerdictError)
        else
          var target := UpstreamURL(p, r.url, rule.url, rule.upstream);
          if target.None? then (steps + [Failed(UpstreamStage, [])], VerdictError)
          else (steps + [TraceStep(UpstreamStage, [], true, target)], VerdictAllow)
  }

  /** One turn of the loop: the session it leaves, its trace step, and whether the loop ends. */
  method TryAuthenticator(p: Proxy, r: Request, c: HandlerConfig, session: Option<Session>)
    returns (next: Option<Session>, step: TraceStep, done: bool)
    ensures c.handler !in p.authenticators ==> next == session && !done
    ensures c.handler in p.authenticators ==>
              var a := p.authenticators[c.handler](r, c.config);
              next == a.session && done == (!a.failed && a.session.Some?)
    ensures step == if done then Passed(AuthenticatorStage, c.handler) else Failed(AuthenticatorStage, c.handler)
  {
    if c.handler !in p.authenticators {
      return session, Failed(AuthenticatorStage, c.handler), false;
    }
    var a := p.authenticators[c.handler](r, c.config);
    if a.failed || a.session.None? {
      return a.session, Failed(AuthenticatorStage, c.handler), false;
    }
    return a.session, Passed(AuthenticatorStage, c.handler), true;
  }

  method DryAuthenticate(p: Proxy, r: Request, configs: seq<HandlerConfig>)
    returns (session: Option<Session>, steps: seq<TraceStep>)
    ensures session == DryLogin(p, r, configs, None) && steps == LoginSteps(p, r, configs)
  {
    session, steps := None, [];
    var i := 0;
    assert configs[0..] == configs;
    while i < |configs|
      invariant i <= |configs| && DryLogin(p, r, configs[i..], session) == DryLogin(p, r, configs, None)
      invariant steps + LoginSteps(p, r, configs[i..]) == LoginSteps(p, r, configs)
    {
      assert configs[i..][1..] == configs[i + 1..];
      var next, step, done := TryAuthenticator(p, r, configs[i], session);
      assert LoginSteps(p, r, configs[i..]) == [step] + if done then [] else LoginSteps(p, r, configs[i + 1..]);
      session, steps := next, steps + [step];
      if done {
        return;
      }
      i := i + 1;
    }
  }

  method DryRun(p: Proxy, r: Request) returns (trace: Trace)
    ensures trace == Dry(p, r)
  {
    var rule := Match(p.lib, p.matcher, r.verb, r.url.path);
    if rule.None? {
      return Trace(None, [Failed(MatchStage, [])], VerdictError);
    }
    var steps := [Passed(MatchStage, [])];
    var session, login := DryAuthenticate(p, r, rule.value.authenticators);
    steps := steps + login;
    if session.None? {
      return Trace(Some(rule.value.id), steps, VerdictUnauthorized);
    }
    var more, verdict := DryRunAuthorized(p, r, rule.value, session.value);
    return Trace(Some(rule.value.id), steps + more, verdict);
  }

  method DryMutate(p: Proxy, r: Request, session: Session, configs: seq<HandlerConfig>)
    returns (ok: bool, steps: seq<TraceStep>)
    ensures ok == Mutate(p, r, session, configs).Some? && steps == MutateSteps(p, r, session, configs)
  {
    steps := [];
    var mutatedReq := r;
    var i := 0;
    assert configs[0..] == configs;
    while i < |configs|
      invariant i <= |configs| && Mutate(p, mutatedReq, session, configs[i..]) == Mutate(p, r, session, configs)
      invariant steps + MutateSteps(p, mutatedReq, session, configs[i..]) == MutateSteps(p, r, session, configs)
    {
      assert configs[i..][1..] == configs[i + 1..];
      var c := configs[i];
      if c.handler !in p.mutators {
        return false, steps + [Failed(MutatorStage, c.handler)];
      }
      var m := p.mutators[c.handler](mutatedReq, session, c.config);
      if m.failed {
        return false, steps + [Failed(MutatorStage, c.handler)];
      }
      assert MutateSteps(p, mutatedReq, session, configs[i..])
          == [Passed(MutatorStage, c.handler)] + MutateSteps(p, m.request, session, configs[i + 1..]);
      mutatedReq := m.request;
      steps := steps + [Passed(MutatorStage, c.handler)];
      i := i + 1;
    }
    return true, steps;
  }

  method DryRunAuthorized(p: Proxy, r: Request, rule: Rule, session: Session)
    returns (steps: seq<TraceStep>, verdict: Verdict)
    ensures (steps, verdict) == DryAuthorized(p, r, rule, session)
  {
    var h := rule.authorizer.handler;
    if h !in p.authorizers {
      return [Failed(AuthorizerStage, h)], VerdictError;
    }
    var v := p.authorizers[h](r, session, rule.authorizer.config);
    if v.failed || !v.allowed {
      return [Failed(AuthorizerStage, h)], VerdictDeny;
    }
    var ok, mutations := DryMutate(p, r, session, rule.mutators);
    steps := [Passed(AuthorizerStage, h)] + mutations;
    if !ok {
      return steps, VerdictError;
    }
    var target := BuildUpstreamURL(p, r.url, rule.url, rule.upstream);
    if target.None? {
      return steps + [Failed(UpstreamStage, [])], VerdictError;
    }
    return steps + [TraceStep(UpstreamStage, [], true, target)], VerdictAllow;
  }

  // ------------------------------------------------------------- prediction

  /** The verdict and the live answer that belong together. */
  predicate Corresponds(v: Verdict, out: Served) {
    match v
    case VerdictAllow => out.Proxied?
    case VerdictUnauthorized => out == Status(401)
    case VerdictDeny => out == Status(403)
    case VerdictError => out in {Status(404), Status(500), Status(502)}
  }

  /** An unregistered authenticator is reached before any authenticator succeeds. */
  predicate MeetsUnknown(p: Proxy, r: Request, configs: seq<HandlerConfig>) {
    configs != []
    && (configs[0].handler !in p.authenticators
        || (var a := p.authenticators[configs[0].handler](r, configs[0].config);
            (a.failed || a.session.None?) && MeetsUnknown(p, r, configs[1..])))
  }

  lemma {:induction false} LoginsAgree(p: Proxy, r: Request, configs: seq<HandlerConfig>, session: Option<Session>)
    ensures LiveLogin(p, r, configs, session) ==
            if MeetsUnknown(p, r, configs) then UnknownHandler else Login(DryLogin(p, r, configs, session))
    decreases |configs|
  {
    if configs != [] && configs[0].handler in p.authenticators {
      LoginsAgree(p, r, configs[1..], p.authenticators[configs[0].handler](r, configs[0].config).session);
    }
  }

  lemma {:induction false} AuthorizedCorresponds(p: Proxy, r: Request, rule: Rule, s: Session)
    ensures Corresponds(DryAuthorized(p, r, rule, s).1, LiveAuthorized(p, r, rule, s))
  {
  }

  /** The rule's authenticators, if a rule matches, never run into an unregistered one. */
  predicate LoginIsKnown(p: Proxy, r: Request) {
    var rule := Choose(p.lib, p.matcher, r.verb, r.url.path);
    rule.Some? ==> !MeetsUnknown(p, r, rule.value.authenticators)
  }

  /** With this session the authorizer is unregistered, or it allows and a mutator or the upstream URL fails. */
  predicate EndsInError(p: Proxy, r: Request, rule: Rule, s: Session) {
    rule.authorizer.handler !in p.authorizers
    || (var v := p.authorizers[rule.authorizer.handler](r, s, rule.authorizer.config);
        !v.failed && v.allowed
        && (Mutate(p, r, s, rule.mutators).None? || p.parseURL(rule.upstream.url).None?))
  }

  lemma {:induction false} ErrorVerdicts(p: Proxy, r: Request, rule: Rule, s: Session)
    ensures DryAuthorized(p, r, rule, s).1 == VerdictError <==> EndsInError(p, r, rule, s)
  {
  }

  /** The registered authenticators still find a session, and a later stage ends in an error. */
  predicate FailsLater(p: Proxy, r: Request, rule: Rule) {
    var session := DryLogin(p, r, rule.authenticators, None);
    session.Some? && EndsInError(p, r, rule, session.value)
  }

  /**
    The dry run predicts the live pipeline for every request whose authenticator loop meets no
    unregistered handler. If it meets one, the live answer is 500 whatever the dry run says, so the
    prediction then holds exactly when the dry run, which passes the handler over, fails later.
   */
  lemma {:induction false} DryRunPredictsLive(p: Proxy, r: Request)
    ensures if LoginIsKnown(p, r) then Corresponds(Dry(p, r).verdict, Live(p, r)) else Live(p, r) == Status(500)
    ensures Corresponds(Dry(p, r).verdict, Live(p, r)) <==>
            LoginIsKnown(p, r) || FailsLater(p, r, Choose(p.lib, p.matcher, r.verb, r.url.path).value)
  {
    var rule := Choose(p.lib, p.matcher, r.verb, r.url.path);
    if rule.Some? {
      LoginsAgree(p, r, rule.value.authenticators, None);
      var session := DryLogin(p, r, rule.value.authenticators, None);
      if session.Some? {
        AuthorizedCorresponds(p, r, rule.value, session.value);
        ErrorVerdicts(p, r, rule.value, session.value);
      }
    }
  }

  /** Registering every authenticator a rule names is enough. */
  lemma {:induction false} RegisteredIsKnown(p: Proxy, r: Request, configs: seq<HandlerConfig>)
    requires forall i :: 0 <= i < |configs| ==> configs[i].handler in p.authenticators
    ensures !MeetsUnknown(p, r, configs)
    decreases |configs|
  {
    if configs != [] {
      RegisteredIsKnown(p, r, configs[1..]);
    }
  }

  /** A mutator that is registered and does not fail leaves the URL as it was. */
  ghost predicate MutatorsKeepURL(p: Proxy) {
    forall h, r, s, c :: h in p.mutators && !p.mutators[h](r, s, c).failed ==> p.mutators[h](r, s, c).request.url == r.url
  }

  lemma {:induction false} MutateKeepsURL(p: Proxy, r: Request, s: Session, configs: seq<HandlerConfig>)
    requires MutatorsKeepURL(p) && Mutate(p, r, s, configs).Some?
    ensures Mutate(p, r, s, configs).value.url == r.url
    decreases |configs|
  {
    if configs != [] {
      MutateKeepsURL(p, p.mutators[configs[0].handler](r, s, configs[0].config).request, s, configs[1..]);
    }
  }

  lemma {:induction false} AllowedTarget(p: Proxy, r: Request, rule: Rule, s: Session)
    requires MutatorsKeepURL(p) && DryAuthorized(p, r, rule, s).1 == VerdictAllow
    ensures var steps := DryAuthorized(p, r, rule, s).0;
            var out := LiveAuthorized(p, r, rule, s);
            out.Proxied? && steps != [] && steps[|steps| - 1] == TraceStep(UpstreamStage, [], true, Some(out.target))
  {
    MutateKeepsURL(p, r, s, rule.mutators);
  }

  /** When mutators leave URLs alone, an allowed dry run ends with the URL the live request goes to. */
  lemma {:induction false} DryRunPredictsTarget(p: Proxy, r: Request)
    requires LoginIsKnown(p, r) && MutatorsKeepURL(p) && Dry(p, r).verdict == VerdictAllow
    ensures var steps := Dry(p, r).steps;
            Live(p, r).Proxied? && steps != []
            && steps[|steps| - 1] == TraceStep(UpstreamStage, [], true, Some(Live(p, r).target))
  {
    var rule := Choose(p.lib, p.matcher, r.verb, r.url.path).value;
    LoginsAgree(p, r, rule.authenticators, None);
    AllowedTarget(p, r, rule, DryLogin(p, r, rule.authenticators, None).value);
  }

  /** Without registration the prediction fails: the dry run allows what the live pipeline answers with 500. */
  lemma {:induction false} UnknownAuthenticatorMisleads(p: Proxy, r: Request, rule: Rule, good: HandlerConfig,
                                                        missing: HandlerConfig, s: Session)
    requires Choose(p.lib, p.matcher, r.verb, r.url.path) == Some(rule) && rule.authenticators == [missing, good]
    requires missing.handler !in p.authenticators && good.handler in p.authenticators
    requires p.authenticators[good.handler](r, good.config) == Authenticated(Some(s), false)
    requires DryAuthorized(p, r, rule, s).1 == VerdictAllow
    ensures Dry(p, r).verdict == VerdictAllow && Live(p, r) == Status(500)
  {
    assert rule.authenticators[1..] == [good];
    assert DryLogin(p, r, [good], None) == Some(s);
  }

  // ------------------------------------------------ the pipeline, said outright

  /**
    The path a request is sent to. base is the upstream's path without one closing slash. The prefix is
    stripped and a slash put in front of the rest if there is none; a rewrite whose pattern compiles
    takes the request's own path instead; base and path are joined with one slash if need be.
   */
  lemma {:induction false} TargetPathIs(p: Proxy, url: URL, matchURL: bytes, up: Upstream, target: URL, base: bytes)
    requires p.parseURL(up.url) == Some(target)
    requires target.path == base + "/" || (target.path == base && (base == "" || base[|base| - 1] != '/'))
    ensures var out := UpstreamURL(p, url, matchURL, up);
            var prefix := up.stripPrefix;
            var regex := p.lib.compile(Pattern(matchURL));
            var rest := if prefix <= url.path then url.path[|prefix|..] else url.path;
            var stripped := if prefix == "" || !(prefix <= url.path) || (rest != "" && rest[0] == '/') then rest else "/" + rest;
            var path := if up.rewrite != "" && regex.Some? then p.lib.replaceAll(regex.value, url.path, up.rewrite) else stripped;
            out.Some? && out.value.scheme == target.scheme && out.value.host == target.host
            && out.value.rawQuery == url.rawQuery
            && out.value.path == if base == "" then path else if path != "" && path[0] == '/' then base + path else base + "/" + path
  {
    hide Pattern;
    TrimSlashIs(target.path, base);
    StripIs(url.path, up.stripPrefix);
    hide Strip, TrimSlash;
    SlashIs(Rewritten(p.lib, url.path, Strip(url.path, up.stripPrefix), matchURL, up.rewrite));
    JoinedIs(base, Rewritten(p.lib, url.path, Strip(url.path, up.stripPrefix), matchURL, up.rewrite));
    hide Joined;
  }

  lemma {:induction false} TrimSlashIs(path: bytes, base: bytes)
    requires path == base + "/" || (path == base && (base == "" || base[|base| - 1] != '/'))
    ensures TrimSlash(path) == base
  {
  }

  lemma {:induction false} SlashIs(path: bytes)
    ensures HasPrefix(path, "/") <==> path != "" && path[0] == '/'
  {
  }

  lemma {:induction false} StripIs(path: bytes, prefix: bytes)
    ensures var rest := if prefix <= path then path[|prefix|..] else path;
            Strip(path, prefix) ==
            if prefix == "" || !(prefix <= path) || (rest != "" && rest[0] == '/') then rest else "/" + rest
  {
  }

  lemma {:induction false} JoinedIs(base: bytes, path: bytes)
    ensures Joined(base, path) ==
            if base == "" then path else if path != "" && path[0] == '/' then base + path else base + "/" + path
  {
    SlashIs(path);
    hide HasPrefix;
    assert base + ("/" + path) == base + "/" + path;
  }

  /**
    The authenticators are asked in order. The k-th ends the loop: unregistered, or with a session and no
    error. If none does, what the last one returned counts, an error notwithstanding.
   */
  lemma {:induction false} LoginIs(p: Proxy, r: Request, configs: seq<HandlerConfig>, before: Option<Session>) returns (k: nat)
    ensures k <= |configs|
    ensures forall j :: 0 <= j < k ==>
              configs[j].handler in p.authenticators
              && var a := p.authenticators[configs[j].handler](r, configs[j].config);
                 a.failed || a.session == None
    ensures var login := LiveLogin(p, r, configs, before);
            if k == |configs| then
              login == Login(if k == 0 then before
                             else p.authenticators[configs[k - 1].handler](r, configs[k - 1].config).session)
            else if configs[k].handler !in p.authenticators then login == UnknownHandler
            else
              var a := p.authenticators[configs[k].handler](r, configs[k].config);
              !a.failed && a.session != None && login == Login(a.session)
    decreases |configs|
  {
    if configs == [] || configs[0].handler !in p.authenticators {
      k := 0;
    } else {
      var a := p.authenticators[configs[0].handler](r, configs[0].config);
      if !a.failed && a.session.Some? {
        k := 0;
      } else {
        var n := LoginIs(p, r, configs[1..], a.session);
        k := n + 1;
      }
    }
  }

  /**
    The mutators are applied in order, each to the request the one before made: reqs are those requests,
    from r on. All succeed, or the next one is unregistered or fails.
   */
  lemma {:induction false} MutateIs(p: Proxy, r: Request, s: Session, configs: seq<HandlerConfig>) returns (reqs: seq<Request>)
    ensures 1 <= |reqs| <= |configs| + 1 && reqs[0] == r
    ensures forall i :: 0 <= i < |reqs| - 1 ==>
              configs[i].handler in p.mutators
              && p.mutators[configs[i].handler](reqs[i], s, configs[i].config) == Mutated(reqs[i + 1], false)
    ensures var n := |reqs| - 1;
            if n == |configs| then Mutate(p, r, s, configs) == Some(reqs[n])
            else
              Mutate(p, r, s, configs) == None
              && (configs[n].handler in p.mutators ==> p.mutators[configs[n].handler](reqs[n], s, configs[n].config).failed)
    decreases |configs|
  {
    if configs == [] || configs[0].handler !in p.mutators {
      reqs := [r];
    } else {
      var m := p.mutators[configs[0].handler](r, s, configs[0].config);
      if m.failed {
        reqs := [r];
      } else {
        var rest := MutateIs(p, m.request, s, configs[1..]);
        reqs := [r] + rest;
        forall i | 0 <= i < |reqs| - 1
          ensures configs[i].handler in p.mutators
                  && p.mutators[configs[i].handler](reqs[i], s, configs[i].config) == Mutated(reqs[i + 1], false)
        {
          if i > 0 {
            assert configs[1..][i - 1] == configs[i] && rest[i - 1] == reqs[i] && rest[i] == reqs[i + 1];
          }
        }
      }
    }
  }

  /** A chain of requests that every mutator of the list extends is the one that is made. */
  lemma {:induction false} ChainIsMutate(p: Proxy, s: Session, configs: seq<HandlerConfig>, reqs: seq<Request>)
    requires |reqs| == |configs| + 1
    requires forall i :: 0 <= i < |configs| ==>
               configs[i].handler in p.mutators
               && p.mutators[configs[i].handler](reqs[i], s, configs[i].config) == Mutated(reqs[i + 1], false)
    ensures Mutate(p, reqs[0], s, configs) == Some(reqs[|configs|])
    decreases |configs|
  {
    if configs != [] {
      forall i | 0 <= i < |configs| - 1
        ensures configs[1..][i].handler in p.mutators
                && p.mutators[configs[1..][i].handler](reqs[1..][i], s, configs[1..][i].config)
                   == Mutated(reqs[1..][i + 1], false)
      {
        assert configs[1..][i] == configs[i + 1] && reqs[1..][i] == reqs[i + 1] && reqs[1..][i + 1] == reqs[i + 2];
      }
      ChainIsMutate(p, s, configs[1..], reqs[1..]);
    }
  }

  /** Every answer but a proxied request, stage by stage. */
  lemma {:induction false} LiveStatusIs(p: Proxy, r: Request)
    ensures match Choose(p.lib, p.matcher, r.verb, r.url.path)
            case None => Live(p, r) == Status(404)
            case Some(rule) =>
              match LiveLogin(p, r, rule.authenticators, None)
              case UnknownHandler => Live(p, r) == Status(500)
              case Login(None) => Live(p, r) == Status(401)
              case Login(Some(s)) =>
                if rule.authorizer.handler !in p.authorizers then Live(p, r) == Status(500)
                else
                  var v := p.authorizers[rule.authorizer.handler](r, s, rule.authorizer.config);
                  if v != Authorized(true, false) then Live(p, r) == Status(403)
                  else
                    match Mutate(p, r, s, rule.mutators)
                    case None => Live(p, r) == Status(500)
                    case Some(q) =>
                      p.parseURL(rule.upstream.url) == None ==> Live(p, r) == Status(502)
  {
    hide Rewritten, Joined, Strip, TrimSlash, Pattern;
  }

  /**
    What is sent. If a rule is chosen, a session found and the authorizer allows it, there is a chain of
    requests from r on, each made by the next mutator of the rule from the one before, and the last one's
    URL leads to an upstream, then that last request is sent, and to there.
   */
  lemma {:induction false} ProxiedExactly(p: Proxy, r: Request, rule: Rule, s: Session, reqs: seq<Request>, target: URL)
    requires Choose(p.lib, p.matcher, r.verb, r.url.path) == Some(rule)
    requires LiveLogin(p, r, rule.authenticators, None) == Login(Some(s))
    requires rule.authorizer.handler in p.authorizers
    requires p.authorizers[rule.authorizer.handler](r, s, rule.authorizer.config) == Authorized(true, false)
    requires |reqs| == |rule.mutators| + 1 && reqs[0] == r
    requires forall i :: 0 <= i < |rule.mutators| ==>
               rule.mutators[i].handler in p.mutators
               && p.mutators[rule.mutators[i].handler](reqs[i], s, rule.mutators[i].config) == Mutated(reqs[i + 1], false)
    requires UpstreamURL(p, reqs[|rule.mutators|].url, rule.url, rule.upstream) == Some(target)
    ensures Live(p, r) == Proxied(reqs[|rule.mutators|], target)
  {
    ChainIsMutate(p, s, rule.mutators, reqs);
    hide UpstreamURL, Mutate, LiveLogin, Choose;
  }

  /** And nothing is sent otherwise. */
  lemma {:induction false} ProxiedOnlySo(p: Proxy, r: Request) returns (rule: Rule, s: Session, reqs: seq<Request>)
    requires Live(p, r).Proxied?
    ensures Choose(p.lib, p.matcher, r.verb, r.url.path) == Some(rule)
    ensures LiveLogin(p, r, rule.authenticators, None) == Login(Some(s))
    ensures rule.authorizer.handler in p.authorizers
    ensures p.authorizers[rule.authorizer.handler](r, s, rule.authorizer.config) == Authorized(true, false)
    ensures |reqs| == |rule.mutators| + 1 && reqs[0] == r && Live(p, r).request == reqs[|rule.mutators|]
    ensures forall i :: 0 <= i < |rule.mutators| ==>
              rule.mutators[i].handler in p.mutators
              && p.mutators[rule.mutators[i].handler](reqs[i], s, rule.mutators[i].config) == Mutated(reqs[i + 1], false)
    ensures UpstreamURL(p, reqs[|rule.mutators|].url, rule.url, rule.upstream) == Some(Live(p, r).target)
  {
    hide UpstreamURL, Mutate, LiveLogin, Choose;
    rule := Choose(p.lib, p.matcher, r.verb, r.url.path).value;
    s := LiveLogin(p, r, rule.authenticators, None).session.value;
    reqs := MutateIs(p, r, s, rule.mutators);
  }

  /** The list without the handlers that are not registered. */
  function Registered(p: Proxy, configs: seq<HandlerConfig>): seq<HandlerConfig> {
    if configs == [] then []
    else (if configs[0].handler in p.authenticators then [configs[0]] else []) + Registered(p, configs[1..])
  }

  /** The simulated loop ends as the live one would if the unregistered handlers were not listed. */
  lemma {:induction false} DryLoginSkipsUnknown(p: Proxy, r: Request, configs: seq<HandlerConfig>, before: Option<Session>)
    ensures LiveLogin(p, r, Registered(p, configs), before) == Login(DryLogin(p, r, configs, before))
    decreases |configs|
  {
    if configs != [] {
      var rest := Registered(p, configs[1..]);
      if configs[0].handler in p.authenticators {
        assert Registered(p, configs) == [configs[0]] + rest && ([configs[0]] + rest)[1..] == rest;
        DryLoginSkipsUnknown(p, r, configs[1..], p.authenticators[configs[0].handler](r, configs[0].config).session);
      } else {
        assert Registered(p, configs) == [] + rest == rest;
        DryLoginSkipsUnknown(p, r, configs[1..], before);
      }
    }
  }

  /** One step for each authenticator asked, in order, and success only for the one that ends the loop. */
  lemma {:induction false} LoginStepsAre(p: Proxy, r: Request, configs: seq<HandlerConfig>) returns (k: nat)
    ensures k <= |configs|
    ensures forall j :: 0 <= j <= k && j < |configs| ==>
              (j == k <==> configs[j].handler in p.authenticators
                           && var a := p.authenticators[configs[j].handler](r, configs[j].config);
                              !a.failed && a.session != None)
    ensures var steps := LoginSteps(p, r, configs);
            |steps| == (if k < |configs| then k + 1 else k)
            && forall i :: 0 <= i < |steps| ==> steps[i] == TraceStep(AuthenticatorStage, configs[i].handler, i == k, None)
    decreases |configs|
  {
    if configs == [] {
      k := 0;
    } else {
      var known := configs[0].handler in p.authenticators;
      if known && (var a := p.authenticators[configs[0].handler](r, configs[0].config); !a.failed && a.session.Some?) {
        k := 0;
      } else {
        var n := LoginStepsAre(p, r, configs[1..]);
        k := n + 1;
      }
    }
  }

  /** One step for each mutator applied, in order; only the last one may have failed. */
  lemma {:induction false} MutateStepsAre(p: Proxy, r: Request, s: Session, configs: seq<HandlerConfig>)
    ensures var steps := MutateSteps(p, r, s, configs);
            var ok := Mutate(p, r, s, configs).Some?;
            |steps| <= |configs| && (ok ==> |steps| == |configs|) && (!ok ==> steps != [])
            && forall i :: 0 <= i < |steps| ==>
                 steps[i] == TraceStep(MutatorStage, configs[i].handler, ok || i < |steps| - 1, None)
    decreases |configs|
  {
    if configs != [] && configs[0].handler in p.mutators {
      var m := p.mutators[configs[0].handler](r, s, configs[0].config);
      if !m.failed {
        MutateStepsAre(p, m.request, s, configs[1..]);
      }
    }
  }

  /** The trace, stage by stage. The upstream is asked for with the URL as it came in, not as it was mutated. */
  lemma {:induction false} TraceIs(p: Proxy, r: Request)
    ensures match Choose(p.lib, p.matcher, r.verb, r.url.path)
            case None => Dry(p, r) == Trace(None, [TraceStep(MatchStage, "", false, None)], VerdictError)
            case Some(rule) =>
              var steps := [TraceStep(MatchStage, "", true, None)] + LoginSteps(p, r, rule.authenticators);
              Dry(p, r).matched == Some(rule.id)
              && match DryLogin(p, r, rule.authenticators, None)
                 case None => Dry(p, r).steps == steps && Dry(p, r).verdict == VerdictUnauthorized
                 case Some(s) =>
                   var h := rule.authorizer.handler;
                   if h !in p.authorizers then
                     Dry(p, r).steps == steps + [TraceStep(AuthorizerStage, h, false, None)] && Dry(p, r).verdict == VerdictError
                   else if p.authorizers[h](r, s, rule.authorizer.config) != Authorized(true, false) then
                     Dry(p, r).steps == steps + [TraceStep(AuthorizerStage, h, false, None)] && Dry(p, r).verdict == VerdictDeny
                   else
                     var more := steps + ([TraceStep(AuthorizerStage, h, true, None)] + MutateSteps(p, r, s, rule.mutators));
                     if Mutate(p, r, s, rule.mutators) == None then
                       Dry(p, r).steps == more && Dry(p, r).verdict == VerdictError
                     else
                       var target := UpstreamURL(p, r.url, rule.url, rule.upstream);
                       Dry(p, r).steps == more + [TraceStep(UpstreamStage, "", target != None, target)]
                       && Dry(p, r).verdict == if target == None then VerdictError else VerdictAllow
  {
    hide UpstreamURL, Mutate, DryLogin, Choose, LoginSteps, MutateSteps;
  }
}
