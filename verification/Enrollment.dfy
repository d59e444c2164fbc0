/**
  Enrollment under concurrency: Register of argus/internal/transport/grpc/server.go:44-124 as
  three separate steps (look up the token, consume a use, register the instance) that interleave
  freely with other calls, revocations, minting and the clock.
 */
module Enrollment {
  import opened Bytes
  import opened ArgusRepository
  import Sets

  datatype Request = Request(tokenHash: bytes, engineType: bytes, environment: UUID, instanceId: bytes)

  /** How far a Register call has got. `at` is the database clock when the use was consumed. */
  datatype Stage =
    | Arrived
    | LookedUp(token: UUID)
    | Consumed(token: UUID, at: int)
    | Registered(token: UUID, at: int)
    | Refused
    | Broke(token: UUID, at: int)

  datatype Call = Call(request: Request, stage: Stage)

  datatype World = World(db: Tables, now: int, calls: map<nat, Call>)

  datatype Action =
    | Arrive(call: nat, request: Request)
    | LookUp(call: nat, found: Option<UUID>)
    | Use(call: nat)
    | Enroll(call: nat, instance: UUID)
    | Break(call: nat)
    | RevokeToken(token: UUID)
    | MintToken(token: UUID, row: EnrollmentToken)
    | Tick(now: int)

  function KeyOf(r: Request): Key {
    Key(r.engineType, r.instanceId, r.environment)
  }

  /** Whether `found` is an answer GetEnrollmentTokenByHash may give. */
  predicate IsLookup(db: Tables, hash: bytes, found: Option<UUID>) {
    match found
    case Some(t) => t in db.tokens && db.tokens[t].hash == hash
    case None => forall t :: t in db.tokens ==> db.tokens[t].hash != hash
  }

  /** The token found is for this engine type and environment. */
  function AfterLookup(db: Tables, r: Request, found: Option<UUID>): Stage
    requires IsLookup(db, r.tokenHash, found)
  {
    if found.None? then Refused
    else
      var t := db.tokens[found.value];
      if t.engineType != r.engineType || t.environment != r.environment then Refused else LookedUp(found.value)
  }

  predicate Enabled(w: World, a: Action) {
    match a
    case Arrive(c, _) => c !in w.calls
    case LookUp(c, found) => c in w.calls && w.calls[c].stage.Arrived? && IsLookup(w.db, w.calls[c].request.tokenHash, found)
    case Use(c) => c in w.calls && w.calls[c].stage.LookedUp?
    case Enroll(c, id) =>
      c in w.calls && w.calls[c].stage.Consumed? && UpsertTarget(w.db.instances, KeyOf(w.calls[c].request), id)
    case Break(c) => c in w.calls && w.calls[c].stage.Consumed?
    case RevokeToken(_) => true
    case MintToken(t, row) =>
      t !in w.db.tokens && row.usesAllowed > 0 && row.usesConsumed == 0 && row.revokedAt.None?
    case Tick(now) => w.now <= now
  }

  function Move(w: World, c: nat, s: Stage): World
    requires c in w.calls
  {
    w.(calls := w.calls[c := w.calls[c].(stage := s)])
  }

  function Apply(w: World, a: Action): World
    requires Enabled(w, a)
  {
    match a
    case Arrive(c, r) => w.(calls := w.calls[c := Call(r, Arrived)])
    case LookUp(c, found) => Move(w, c, AfterLookup(w.db, w.calls[c].request, found))
    case Use(c) =>
      var t := w.calls[c].stage.token;
      Move(w, c, if CanConsume(w.db, t, w.now) then Consumed(t, w.now) else Refused).(db := Consume(w.db, t, w.now))
    case Enroll(c, id) =>
      var s := w.calls[c].stage;
      Move(w, c, Registered(s.token, s.at)).(db := Register(w.db, KeyOf(w.calls[c].request), s.token, id))
    case Break(c) =>
      var s := w.calls[c].stage;
      Move(w, c, Broke(s.token, s.at))
    case RevokeToken(t) => w.(db := Revoke(w.db, t, w.now))
    case MintToken(t, row) => w.(db := w.db.(tokens := w.db.tokens[t := row]))
    case Tick(now) => w.(now := now)
  }

  /** What a look-up may answer: a token with the hash, or none when there is no such token. */
  lemma {:induction false} LookUpAnswers(w: World, c: nat, found: Option<UUID>)
    requires c in w.calls && w.calls[c].stage == Arrived
    ensures var hash := w.calls[c].request.tokenHash;
            Enabled(w, LookUp(c, found)) <==>
            match found
            case Some(t) => t in w.db.tokens && w.db.tokens[t].hash == hash
            case None => !exists t :: t in w.db.tokens && w.db.tokens[t].hash == hash
  {
  }

  /** A new token is stored under an id of its own; a new call has done nothing yet. */
  lemma {:induction false} NewcomersWrite(w: World, t: UUID, row: EnrollmentToken, c: nat, r: Request)
    ensures Enabled(w, MintToken(t, row)) ==>
              t !in w.db.tokens && row.usesAllowed >= 1 && row.usesConsumed == 0 && row.revokedAt == None
              && Apply(w, MintToken(t, row))
                 == World(Tables(w.db.tokens[t := row], w.db.instances, w.db.events), w.now, w.calls)
    ensures Enabled(w, Arrive(c, r)) <==> c !in w.calls
    ensures c !in w.calls ==> Apply(w, Arrive(c, r)) == World(w.db, w.now, w.calls[c := Call(r, Arrived)])
  {
  }

  /** The token found is the call's if it is for its engine type and its environment. */
  lemma {:induction false} LookUpWrites(w: World, c: nat, found: Option<UUID>)
    requires Enabled(w, LookUp(c, found))
    ensures var w' := Apply(w, LookUp(c, found));
            var r := w.calls[c].request;
            w'.db == w.db && w'.calls.Keys == w.calls.Keys && w'.calls[c].request == r
            && match found
               case None => w'.calls[c].stage == Refused
               case Some(t) =>
                 t in w.db.tokens && w.db.tokens[t].hash == r.tokenHash
                 && w'.calls[c].stage ==
                    if w.db.tokens[t].engineType == r.engineType && w.db.tokens[t].environment == r.environment
                    then LookedUp(t) else Refused
  {
  }

  /** One use is taken of a token that is neither revoked nor expired nor used up at that moment. */
  lemma {:induction false} UseWrites(w: World, c: nat, t: UUID)
    requires Enabled(w, Use(c)) && w.calls[c].stage == LookedUp(t)
    ensures var w' := Apply(w, Use(c));
            var ok := t in w.db.tokens && w.db.tokens[t].revokedAt == None && w.now < w.db.tokens[t].expiresAt
                      && w.db.tokens[t].usesAllowed - w.db.tokens[t].usesConsumed >= 1;
            w'.db.instances == w.db.instances && w'.db.events == w.db.events
            && (ok ==>
                  w'.calls[c].stage == Consumed(t, w.now)
                  && w'.db.tokens == w.db.tokens[t := w'.db.tokens[t]]
                  && w'.db.tokens[t] == w.db.tokens[t].(usesConsumed := 1 + w.db.tokens[t].usesConsumed))
            && (!ok ==> w'.calls[c].stage == Refused && w'.db.tokens == w.db.tokens)
  {
  }

  /** The instance that is written carries the request's engine type, instance id and environment. */
  lemma {:induction false} EnrollWrites(w: World, c: nat, id: UUID)
    requires Enabled(w, Enroll(c, id))
    ensures var w' := Apply(w, Enroll(c, id));
            var r := w.calls[c].request;
            var beat := if id in w.db.instances then w.db.instances[id].lastHeartbeatAt else None;
            w'.calls[c].stage == Registered(w.calls[c].stage.token, w.calls[c].stage.at)
            && w'.db.tokens == w.db.tokens
            && w'.db.instances == w.db.instances[id := Instance(Key(r.engineType, r.instanceId, r.environment), Registering,
                                                               beat, ByToken(w.calls[c].stage.token))]
            && w'.db.events == w.db.events + [Event(id, EventRegistered)]
  {
  }

  /** A token is revoked once and keeps that time. */
  lemma {:induction false} RevokeWrites(w: World, t: UUID)
    ensures var w' := Apply(w, RevokeToken(t));
            w'.calls == w.calls && w'.db.instances == w.db.instances && w'.db.events == w.db.events
            && (t !in w.db.tokens || w.db.tokens[t].revokedAt != None ==> w'.db.tokens == w.db.tokens)
            && (t in w.db.tokens && w.db.tokens[t].revokedAt == None ==>
                  w'.db.tokens == w.db.tokens[t := w.db.tokens[t].(revokedAt := Some(w.now))])
  {
  }

  // ------------------------------------------------------------- invariant

  predicate HasUse(s: Stage) {
    s.Consumed? || s.Registered? || s.Broke?
  }

  /** The calls that consumed a use of token t. */
  function UsersOf(w: World, t: UUID): set<nat> {
    set c | c in w.calls && HasUse(w.calls[c].stage) && w.calls[c].stage.token == t
  }

  function RegistrationsOf(w: World, t: UUID): set<nat> {
    set c | c in w.calls && w.calls[c].stage.Registered? && w.calls[c].stage.token == t
  }

  /** A consumed use was in order: right scope, before expiry, before any revocation. */
  predicate UseInOrder(w: World, c: nat) {
    c in w.calls && HasUse(w.calls[c].stage) ==>
      var s, r := w.calls[c].stage, w.calls[c].request;
      s.token in w.db.tokens && s.at <= w.now
      && var t := w.db.tokens[s.token];
         t.engineType == r.engineType && t.environment == r.environment
         && s.at < t.expiresAt && (t.revokedAt.Some? ==> s.at <= t.revokedAt.value)
  }

  predicate LookupInOrder(w: World, c: nat) {
    c in w.calls && w.calls[c].stage.LookedUp? ==>
      var s, r := w.calls[c].stage, w.calls[c].request;
      s.token in w.db.tokens
      && var t := w.db.tokens[s.token];
         t.engineType == r.engineType && t.environment == r.environment
  }

  /** uses_consumed counts exactly the calls that consumed, and stays within uses_allowed. */
  predicate CountExact(w: World, t: UUID) {
    t in w.db.tokens ==>
      w.db.tokens[t].usesConsumed == |UsersOf(w, t)| && w.db.tokens[t].usesConsumed <= w.db.tokens[t].usesAllowed
  }

  ghost predicate Inv(w: World) {
    (forall c :: UseInOrder(w, c)) && (forall c :: LookupInOrder(w, c)) && (forall t :: CountExact(w, t))
  }

  lemma {:induction false} SameUsers(w: World, w': World, t: UUID)
    requires forall c :: (c in w.calls && HasUse(w.calls[c].stage) && w.calls[c].stage.token == t)
                    <==> (c in w'.calls && HasUse(w'.calls[c].stage) && w'.calls[c].stage.token == t)
    ensures UsersOf(w, t) == UsersOf(w', t)
  {
  }

  lemma {:induction false} UseKeepsInv(w: World, a: Action)
    requires Inv(w) && a.Use? && Enabled(w, a)
    ensures Inv(Apply(w, a))
  {
    var w' := Apply(w, a);
    var c, t := a.call, w.calls[a.call].stage.token;
    assert LookupInOrder(w, c) && CountExact(w, t);
    forall d ensures UseInOrder(w', d) && LookupInOrder(w', d) {
      assert UseInOrder(w, d) && LookupInOrder(w, d);
    }
    forall u ensures CountExact(w', u) {
      assert CountExact(w, u);
      if u == t && CanConsume(w.db, t, w.now) {
        assert UsersOf(w', u) == UsersOf(w, u) + {c};
      } else {
        SameUsers(w, w', u);
      }
    }
  }

  lemma {:induction false} MintKeepsInv(w: World, a: Action)
    requires Inv(w) && a.MintToken? && Enabled(w, a)
    ensures Inv(Apply(w, a))
  {
    var w' := Apply(w, a);
    forall d ensures UseInOrder(w', d) && LookupInOrder(w', d) {
      assert UseInOrder(w, d) && LookupInOrder(w, d);
    }
    forall u ensures CountExact(w', u) {
      assert CountExact(w, u);
      SameUsers(w, w', u);
      if u == a.token {
        forall d | d in w.calls && HasUse(w.calls[d].stage) ensures w.calls[d].stage.token != u {
          assert UseInOrder(w, d);
        }
        assert UsersOf(w', u) == {};
      }
    }
  }

  /** Every other step leaves the uses as they are. */
  lemma {:induction false} OtherKeepsInv(w: World, a: Action)
    requires Inv(w) && !a.Use? && !a.MintToken? && Enabled(w, a)
    ensures Inv(Apply(w, a))
  {
    var w' := Apply(w, a);
    forall d ensures UseInOrder(w', d) && LookupInOrder(w', d) {
      assert UseInOrder(w, d) && LookupInOrder(w, d);
    }
    forall u ensures CountExact(w', u) {
      assert CountExact(w, u);
      SameUsers(w, w', u);
    }
  }

  // ------------------------------------------------------------------ runs

  predicate IsRun(w: World, actions: seq<Action>)
    decreases |actions|
  {
    actions != [] ==> Enabled(w, actions[0]) && IsRun(Apply(w, actions[0]), actions[1..])
  }

  function Run(w: World, actions: seq<Action>): World
    requires IsRun(w, actions)
    decreases |actions|
  {
    if actions == [] then w else Run(Apply(w, actions[0]), actions[1..])
  }

  /** A run is its actions one after another, the last one last. */
  lemma {:induction false} RunEndsWith(w: World, actions: seq<Action>, last: Action)
    requires IsRun(w, actions + [last])
    ensures IsRun(w, actions) && Enabled(Run(w, actions), last)
    ensures Run(w, actions + [last]) == Apply(Run(w, actions), last)
    decreases |actions|
  {
    hide Enabled, Apply;
    if actions != [] {
      assert (actions + [last])[1..] == actions[1..] + [last];
      RunEndsWith(Apply(w, actions[0]), actions[1..], last);
    } else {
      assert [last][1..] == [];
    }
  }

  lemma {:induction false} StepKeepsInv(w: World, a: Action)
    requires Inv(w) && Enabled(w, a)
    ensures Inv(Apply(w, a))
  {
    hide Inv, Apply, Enabled;
    if a.Use? {
      UseKeepsInv(w, a);
    } else if a.MintToken? {
      MintKeepsInv(w, a);
    } else {
      OtherKeepsInv(w, a);
    }
  }

  lemma {:induction false} RunKeepsInv(w: World, actions: seq<Action>)
    requires Inv(w) && IsRun(w, actions)
    ensures Inv(Run(w, actions))
    decreases |actions|
  {
    hide Inv, Apply, Enabled;
    if actions != [] {
      StepKeepsInv(w, actions[0]);
      RunKeepsInv(Apply(w, actions[0]), actions[1..]);
    }
  }

  const EMPTY := World(Tables(map[], map[], []), 0, map[])

  /**
    In every interleaving: registrations on a token never exceed uses_allowed, each has a consumed
    use of its own made in scope, before expiry and before revocation, and uses_consumed is
    exactly the number of calls that consumed.
   */
  lemma {:induction false} EnrollmentIsBounded(actions: seq<Action>, t: UUID)
    requires IsRun(EMPTY, actions)
    requires t in Run(EMPTY, actions).db.tokens
    ensures var w := Run(EMPTY, actions);
            var token := w.db.tokens[t];
            token.usesConsumed == |UsersOf(w, t)| <= token.usesAllowed
            && RegistrationsOf(w, t) <= UsersOf(w, t) && |RegistrationsOf(w, t)| <= token.usesAllowed
            && forall c :: c in UsersOf(w, t) ==>
                 w.calls[c].stage.at < token.expiresAt
                 && (token.revokedAt.Some? ==> w.calls[c].stage.at <= token.revokedAt.value)
                 && w.calls[c].request.engineType == token.engineType
                 && w.calls[c].request.environment == token.environment
  {
    forall u ensures CountExact(EMPTY, u) {
      assert UsersOf(EMPTY, u) == {};
    }
    RunKeepsInv(EMPTY, actions);
    var w := Run(EMPTY, actions);
    assert CountExact(w, t);
    assert forall c :: c in UsersOf(w, t) ==> UseInOrder(w, c);
    Sets.SubsetSize(RegistrationsOf(w, t), UsersOf(w, t));
  }

  lemma {:induction false} SpentStep(w: World, a: Action, t: UUID)
    requires Inv(w) && Enabled(w, a) && t in w.db.tokens && !Usable(w.db.tokens[t], w.now)
    ensures var w' := Apply(w, a);
            t in w'.db.tokens && !Usable(w'.db.tokens[t], w'.now)
            && w'.db.tokens[t].usesConsumed == w.db.tokens[t].usesConsumed
            && UsersOf(w', t) == UsersOf(w, t)
  {
    SameUsers(w, Apply(w, a), t);
  }

  /** Once revoked, expired or used up, a token gains no more uses in any run from there. */
  lemma {:induction false} SpentTokenStaysSpent(w: World, actions: seq<Action>, t: UUID)
    requires Inv(w) && IsRun(w, actions) && t in w.db.tokens && !Usable(w.db.tokens[t], w.now)
    ensures var w' := Run(w, actions);
            t in w'.db.tokens && !Usable(w'.db.tokens[t], w'.now)
            && w'.db.tokens[t].usesConsumed == w.db.tokens[t].usesConsumed
            && UsersOf(w', t) == UsersOf(w, t)
    decreases |actions|
  {
    hide Inv, Apply, Enabled, UsersOf, Usable;
    if actions != [] {
      SpentStep(w, actions[0], t);
      StepKeepsInv(w, actions[0]);
      SpentTokenStaysSpent(Apply(w, actions[0]), actions[1..], t);
    }
  }

  // --------------------------------------------------- the call as written

  datatype Reply = Invalid | Denied | Internal | Done(instance: UUID)

  /** The call as it comes in, with the token itself and the name of the environment. */
  datatype Rpc = Rpc(token: bytes, engineType: bytes, instanceId: bytes, environment: bytes)

  /** The step that fails for a reason of its own, such as a lost database. */
  datatype Fault = NoFault | InEnvironment | InLookup | InConsume | InSealing | InRegister

  predicate Complete(r: Rpc) {
    r.token != [] && r.engineType != [] && r.instanceId != [] && r.environment != []
  }

  lemma {:induction false} CompleteIs(r: Rpc)
    ensures Complete(r) <==> [] !in {r.token, r.engineType, r.instanceId, r.environment}
  {
  }

  class Server {
    const repo: Repository
    const hash: bytes -> bytes
    var environments: map<bytes, UUID>

    constructor (repo: Repository, hash: bytes -> bytes, environments: map<bytes, UUID>)
      ensures this.repo == repo && this.hash == hash && this.environments == environments
    {
      this.repo, this.hash, this.environments := repo, hash, environments;
    }

    function RequestOf(r: Rpc): Request
      reads this
      requires r.environment in environments
    {
      Request(hash(r.token), r.engineType, environments[r.environment], r.instanceId)
    }

    /**
      One Register call without interference: the three steps in a row. When sealing or registering
      fails, the use stays consumed.
     */
    method Register(r: Rpc, fault: Fault, now: int, freshId: UUID) returns (reply: Reply, ghost found: Option<UUID>)
      requires freshId !in repo.instances
      modifies repo
      ensures !Complete(r) ==> reply == Invalid && repo.Value() == old(repo.Value())
      ensures Complete(r) && fault != InEnvironment && r.environment !in environments ==>
                reply == Invalid && repo.Value() == old(repo.Value())
      ensures Complete(r) && (fault == InEnvironment || (fault == InLookup && r.environment in environments)) ==>
                reply == Internal && repo.Value() == old(repo.Value())
      ensures Complete(r) && r.environment in environments && !fault.InEnvironment? && !fault.InLookup? ==>
                var w := World(old(repo.Value()), now, map[0 := Call(old(RequestOf(r)), Arrived)]);
                Enabled(w, LookUp(0, found))
                && var w1 := Apply(w, LookUp(0, found));
                   if w1.calls[0].stage == Refused then reply == Denied && repo.Value() == w1.db
                   else if fault == InConsume then reply == Internal && repo.Value() == w1.db
                   else
                     Enabled(w1, Use(0))
                     && var w2 := Apply(w1, Use(0));
                        if w2.calls[0].stage == Refused then reply == Denied && repo.Value() == w2.db
                        else if fault != NoFault then
                          reply == Internal && Enabled(w2, Break(0)) && repo.Value() == Apply(w2, Break(0)).db
                        else
                          reply.Done? && Enabled(w2, Enroll(0, reply.instance))
                          && repo.Value() == Apply(w2, Enroll(0, reply.instance)).db
    {
      found := None;
      if r.token == [] || r.engineType == [] || r.instanceId == [] || r.environment == [] {
        return Invalid, found;
      }
      if fault == InEnvironment {
        return Internal, found;
      }
      if r.environment !in environments {
        return Invalid, found;
      }
      var env := environments[r.environment];
      var tokenHash := hash(r.token);
      if fault == InLookup {
        return Internal, found;
      }
      var token := repo.GetEnrollmentTokenByHash(tokenHash);
      found := token;
      if token.None? {
        return Denied, found;
      }
      var row := repo.tokens[token.value];
      if row.engineType != r.engineType || row.environment != env {
        return Denied, found;
      }
      if fault == InConsume {
        return Internal, found;
      }
      var ok := repo.ConsumeEnrollmentToken(token.value, now);
      if !ok {
        return Denied, found;
      }
      if fault == InSealing || fault == InRegister {
        return Internal, found;
      }
      var id := repo.RegisterInstance(Key(r.engineType, r.instanceId, env), token.value, freshId);
      return Done(id), found;
    }
  }
}
