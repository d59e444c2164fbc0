/**
  The registry tables of argus/internal/storage/postgres/repository.go. Every SQL statement or
  transaction is one function on the tables; the class holds the tables and its methods, written
  like the source's, are proved against the functions.
 */
module ArgusRepository {
  import opened Bytes

  type UUID = nat

  datatype EnrollmentToken = EnrollmentToken(hash: bytes, engineType: bytes, environment: UUID, usesAllowed: int,
                                             usesConsumed: int, expiresAt: int, revokedAt: Option<int>)

  datatype Status = Pending | Registering | Healthy | Degraded | Unreachable | Evicted | Deregistered

  datatype EventType =
    | EventRegistered | EventDegraded | EventUnreachable | EventEvicted | EventDeregistered

  datatype Event = Event(instance: UUID, kind: EventType)

  /** The upsert key: one row per engine type, instance id and environment. */
  datatype Key = Key(engineType: bytes, instanceId: bytes, environment: UUID)

  /** Who brought an instance in: a call with an enrollment token, or an operator by hand. */
  datatype Origin = ByToken(token: UUID) | ByHand(actor: bytes)

  datatype Instance = Instance(key: Key, status: Status, lastHeartbeatAt: Option<int>, enrolledBy: Origin)

  type Tokens = map<UUID, EnrollmentToken>
  type Instances = map<UUID, Instance>

  datatype Tables = Tables(tokens: Tokens, instances: Instances, events: seq<Event>)

  // ------------------------------------------------------------ enrollment

  predicate Usable(t: EnrollmentToken, now: int) {
    t.revokedAt.None? && t.expiresAt > now && t.usesConsumed < t.usesAllowed
  }

  predicate CanConsume(db: Tables, id: UUID, now: int) {
    id in db.tokens && Usable(db.tokens[id], now)
  }

  /** The conditional UPDATE of ConsumeEnrollmentToken. */
  function Consume(db: Tables, id: UUID, now: int): Tables {
    if CanConsume(db, id, now) then
      var t := db.tokens[id];
      db.(tokens := db.tokens[id := t.(usesConsumed := t.usesConsumed + 1)])
    else db
  }

  predicate CanRevoke(db: Tables, id: UUID) {
    id in db.tokens && db.tokens[id].revokedAt.None?
  }

  function Revoke(db: Tables, id: UUID, now: int): Tables {
    if CanRevoke(db, id) then db.(tokens := db.tokens[id := db.tokens[id].(revokedAt := Some(now))]) else db
  }

  /** No other row has this row's key. */
  predicate KeysUnique(instances: Instances) {
    forall a, b :: a in instances && b in instances && instances[a].key == instances[b].key ==> a == b
  }

  /** The row an upsert of this key writes: the row that has the key, or a new one. */
  predicate UpsertTarget(instances: Instances, key: Key, id: UUID) {
    if id in instances then instances[id].key == key
    else forall other :: other in instances ==> instances[other].key != key
  }

  /** RegisterInstance: upsert, status back to registering, one registered event. */
  function Register(db: Tables, key: Key, token: UUID, id: UUID): Tables {
    var beat := if id in db.instances then db.instances[id].lastHeartbeatAt else None;
    db.(instances := db.instances[id := Instance(key, Registering, beat, ByToken(token))],
        events := db.events + [Event(id, EventRegistered)])
  }

  /** UpsertInstance: a new row is pending, a row that is there keeps its status. */
  function Upsert(db: Tables, key: Key, actor: bytes, id: UUID): Tables {
    db.(instances := db.instances[id :=
          if id in db.instances then db.instances[id].(enrolledBy := ByHand(actor))
          else Instance(key, Pending, None, ByHand(actor))])
  }

  function AppendEvent(db: Tables, id: UUID, kind: EventType): Tables {
    db.(events := db.events + [Event(id, kind)])
  }

  // ------------------------------------------------------------- lifecycle

  function SetStatus(db: Tables, id: UUID, status: Status): Tables {
    if id in db.instances then db.(instances := db.instances[id := db.instances[id].(status := status)]) else db
  }

  /** The transactional writer: status and timeline entry together, or neither. */
  function SetStatusWithEvent(db: Tables, id: UUID, status: Status, kind: EventType): Tables {
    if id in db.instances then SetStatus(db, id, status).(events := db.events + [Event(id, kind)]) else db
  }

  function RecordBeat(db: Tables, id: UUID, at: int): Tables {
    if id in db.instances
    then db.(instances := db.instances[id := db.instances[id].(lastHeartbeatAt := Some(at))])
    else db
  }

  /** PruneOlderThan: the events at these places go, and these rows with all events of theirs. */
  function Prune(db: Tables, places: set<nat>, rows: set<UUID>): Tables {
    db.(instances := db.instances - rows, events := Left(db.events, places, rows, 0))
  }

  function Left(events: seq<Event>, places: set<nat>, rows: set<UUID>, i: nat): seq<Event>
    requires i <= |events|
    decreases |events| - i
  {
    if i == |events| then []
    else (if i in places || events[i].instance in rows then [] else [events[i]]) + Left(events, places, rows, i + 1)
  }

  predicate IsStale(i: Instance, olderThan: int) {
    i.lastHeartbeatAt.Some? && i.lastHeartbeatAt.value < olderThan && i.status !in {Evicted, Deregistered}
  }

  class Repository {
    var tokens: Tokens
    var instances: Instances
    var events: seq<Event>

    function Value(): Tables
      reads this
    {
      Tables(tokens, instances, events)
    }

    constructor (tokens: Tokens)
      ensures Value() == Tables(tokens, map[], [])
    {
      this.tokens, instances, events := tokens, map[], [];
    }

    method GetEnrollmentTokenByHash(hash: bytes) returns (id: Option<UUID>)
      ensures id.Some? ==> id.value in tokens && tokens[id.value].hash == hash
      ensures id.None? ==> forall t :: t in tokens ==> tokens[t].hash != hash
    {
      var left := tokens.Keys;
      while left != {}
        invariant left <= tokens.Keys
        invariant forall t :: t in tokens && t !in left ==> tokens[t].hash != hash
        decreases left
      {
        var t :| t in left;
        if tokens[t].hash == hash {
          return Some(t);
        }
        left := left - {t};
      }
      return None;
    }

    method ConsumeEnrollmentToken(id: UUID, now: int) returns (ok: bool)
      modifies this
      ensures ok == CanConsume(old(Value()), id, now)
      ensures Value() == Consume(old(Value()), id, now)
    {
      if id in tokens && tokens[id].revokedAt.None? && tokens[id].expiresAt > now
         && tokens[id].usesConsumed < tokens[id].usesAllowed {
        tokens := tokens[id := tokens[id].(usesConsumed := tokens[id].usesConsumed + 1)];
        return true;
      }
      return false;
    }

    method RevokeEnrollmentToken(id: UUID, now: int) returns (ok: bool)
      modifies this
      ensures ok == CanRevoke(old(Value()), id)
      ensures Value() == Revoke(old(Value()), id, now)
    {
      if id in tokens && tokens[id].revokedAt.None? {
        tokens := tokens[id := tokens[id].(revokedAt := Some(now))];
        return true;
      }
      return false;
    }

    method FindByKey(key: Key) returns (id: Option<UUID>)
      ensures id.Some? ==> id.value in instances && instances[id.value].key == key
      ensures id.None? ==> forall i :: i in instances ==> instances[i].key != key
    {
      var left := instances.Keys;
      while left != {}
        invariant left <= instances.Keys
        invariant forall i :: i in instances && i !in left ==> instances[i].key != key
        decreases left
      {
        var i :| i in left;
        if instances[i].key == key {
          return Some(i);
        }
        left := left - {i};
      }
      return None;
    }

    method RegisterInstance(key: Key, token: UUID, freshId: UUID) returns (id: UUID)
      requires freshId !in instances
      modifies this
      ensures UpsertTarget(old(instances), key, id)
      ensures Value() == Register(old(Value()), key, token, id)
      ensures old(KeysUnique(instances)) ==> KeysUnique(instances)
    {
      var found := FindByKey(key);
      id := if found.Some? then found.value else freshId;
      var beat := if id in instances then instances[id].lastHeartbeatAt else None;
      instances := instances[id := Instance(key, Registering, beat, ByToken(token))];
      events := events + [Event(id, EventRegistered)];
    }

    method UpsertInstance(key: Key, actor: bytes, freshId: UUID) returns (id: UUID)
      requires freshId !in instances
      modifies this
      ensures UpsertTarget(old(instances), key, id)
      ensures Value() == Upsert(old(Value()), key, actor, id)
      ensures old(KeysUnique(instances)) ==> KeysUnique(instances)
    {
      var found := FindByKey(key);
      if found.Some? {
        id := found.value;
        instances := instances[id := instances[id].(enrolledBy := ByHand(actor))];
      } else {
        id := freshId;
        instances := instances[id := Instance(key, Pending, None, ByHand(actor))];
      }
    }

    method SetInstanceStatus(id: UUID, status: Status) returns (ok: bool)
      modifies this
      ensures ok == (id in old(instances)) && Value() == SetStatus(old(Value()), id, status)
    {
      if id !in instances {
        return false;
      }
      instances := instances[id := instances[id].(status := status)];
      return true;
    }

    method SetInstanceStatusWithEvent(id: UUID, status: Status, kind: EventType) returns (ok: bool)
      modifies this
      ensures ok == (id in old(instances)) && Value() == SetStatusWithEvent(old(Value()), id, status, kind)
    {
      if id !in instances {
        return false;
      }
      instances := instances[id := instances[id].(status := status)];
      events := events + [Event(id, kind)];
      return true;
    }

    method RecordHeartbeat(id: UUID, at: int) returns (ok: bool)
      modifies this
      ensures ok == (id in old(instances)) && Value() == RecordBeat(old(Value()), id, at)
    {
      if id !in instances {
        return false;
      }
      instances := instances[id := instances[id].(lastHeartbeatAt := Some(at))];
      return true;
    }

    /** The stale rows, each once, in whatever order the database returns them. */
    method ListStaleInstances(olderThan: int) returns (out: seq<UUID>)
      ensures forall i, j :: 0 <= i < j < |out| ==> out[i] != out[j]
      ensures forall id :: id in out <==> id in instances && IsStale(instances[id], olderThan)
    {
      out := [];
      var left := instances.Keys;
      while left != {}
        invariant left <= instances.Keys
        invariant forall i, j :: 0 <= i < j < |out| ==> out[i] != out[j]
        invariant forall id :: id in out <==> id in instances && id !in left && IsStale(instances[id], olderThan)
        decreases left
      {
        var id :| id in left;
        if IsStale(instances[id], olderThan) {
          out := out + [id];
        }
        left := left - {id};
      }
    }
  }
}
