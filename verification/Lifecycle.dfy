/**
  The instance lifecycle: the status function of argus/internal/core/status.go:8-63, the sweep and
  the transition writer of argus/internal/core/evaluator.go:18-84, and the RPCs that touch a
  status, each here one step that nothing gets in between. LifecycleSteps.dfy takes the calls apart.
 */
module Lifecycle {
  import opened Bytes
  import opened GoTime
  import opened ArgusRepository

  const HEARTBEAT_INTERVAL := 15 * SECOND
  const EVICT_AFTER := 24 * HOUR
  const STALE_AFTER := 2 * HEARTBEAT_INTERVAL

  predicate IsTerminal(s: Status) {
    s == Deregistered || s == Evicted
  }

  function EvaluateStatus(current: Status, lastHeartbeatAt: Option<int>, ready: bool, now: int): Status {
    if IsTerminal(current) then current
    else if lastHeartbeatAt.None? then Pending
    else
      var d := Sub(now, lastHeartbeatAt.value);
      var elapsed := if d < 0 then 0 else d;
      var missedBeats := elapsed / HEARTBEAT_INTERVAL;
      if elapsed >= EVICT_AFTER then Evicted
      else if missedBeats >= 4 then Unreachable
      else if missedBeats >= 2 || !ready then Degraded
      else Healthy
  }

  /** The thresholds in plain instants: 24 h, 60 s, 30 s, whatever the 64-bit range does. */
  lemma {:induction false} Thresholds(current: Status, last: int, ready: bool, now: int)
    requires !IsTerminal(current)
    ensures EvaluateStatus(current, Some(last), ready, now) ==
            if now - last >= 86_400_000_000_000 then Evicted
            else if now - last >= 60_000_000_000 then Unreachable
            else if now - last >= 30_000_000_000 || !ready then Degraded
            else Healthy
  {
  }

  function EventOf(s: Status): Option<EventType> {
    match s
    case Degraded => Some(EventDegraded)
    case Unreachable => Some(EventUnreachable)
    case Evicted => Some(EventEvicted)
    case Deregistered => Some(EventDeregistered)
    case _ => None
  }

  function Transition(db: Tables, id: UUID, s: Status): Tables {
    if EventOf(s).Some? then SetStatusWithEvent(db, id, s, EventOf(s).value) else SetStatus(db, id, s)
  }

  /** Each status by name: four come with an event of their own, healthy and the others with none. */
  lemma {:induction false} TransitionWrites(db: Tables, id: UUID, s: Status)
    ensures id !in db.instances ==> Transition(db, id, s) == db
    ensures id in db.instances ==>
              var out := Transition(db, id, s);
              var i := db.instances[id];
              out.tokens == db.tokens
              && out.instances == db.instances[id := Instance(i.key, s, i.lastHeartbeatAt, i.enrolledBy)]
              && (s == Degraded ==> out.events == db.events + [Event(id, EventDegraded)])
              && (s == Unreachable ==> out.events == db.events + [Event(id, EventUnreachable)])
              && (s == Evicted ==> out.events == db.events + [Event(id, EventEvicted)])
              && (s == Deregistered ==> out.events == db.events + [Event(id, EventDeregistered)])
              && (s in {Pending, Registering, Healthy} ==> out.events == db.events)
  {
  }

  method ApplyStatusTransition(repo: Repository, id: UUID, s: Status) returns (ok: bool)
    modifies repo
    ensures ok == (id in old(repo.instances)) && repo.Value() == Transition(old(repo.Value()), id, s)
  {
    match s
    case Degraded => ok := repo.SetInstanceStatusWithEvent(id, s, EventDegraded);
    case Unreachable => ok := repo.SetInstanceStatusWithEvent(id, s, EventUnreachable);
    case Evicted => ok := repo.SetInstanceStatusWithEvent(id, s, EventEvicted);
    case Deregistered => ok := repo.SetInstanceStatusWithEvent(id, s, EventDeregistered);
    case _ => ok := repo.SetInstanceStatus(id, s);
  }

  // ----------------------------------------------------------------- sweep

  /** The status a sweep gives a row. */
  function Swept(i: Instance, now: int): Status {
    if IsStale(i, now - STALE_AFTER) then EvaluateStatus(i.status, i.lastHeartbeatAt, false, now) else i.status
  }

  function SweepOne(db: Tables, id: UUID, now: int): Tables
    requires id in db.instances
  {
    var i := db.instances[id];
    var s := EvaluateStatus(i.status, i.lastHeartbeatAt, false, now);
    if s == i.status then db else Transition(db, id, s)
  }

  /** order lists the stale rows, each once. */
  predicate ListsStale(db: Tables, now: int, order: seq<UUID>) {
    (forall i, j :: 0 <= i < j < |order| ==> order[i] != order[j])
    && (forall id :: id in order ==> id in db.instances && IsStale(db.instances[id], now - STALE_AFTER))
    && forall id :: id in db.instances && IsStale(db.instances[id], now - STALE_AFTER) ==> id in order
  }

  /** The events a sweep writes: one per row whose status changes. */
  function SweepEvents(db: Tables, now: int, order: seq<UUID>): seq<Event>
    requires forall id :: id in order ==> id in db.instances
  {
    if order == [] then []
    else
      var i := db.instances[order[|order| - 1]];
      var s := EvaluateStatus(i.status, i.lastHeartbeatAt, false, now);
      SweepEvents(db, now, order[..|order| - 1])
      + if s != i.status && EventOf(s).Some? then [Event(order[|order| - 1], EventOf(s).value)] else []
  }

  /** The tables after the sweep has handled the first n rows of its list. */
  function SweptTables(db: Tables, now: int, order: seq<UUID>, n: nat): Tables
    requires n <= |order| && forall id :: id in order ==> id in db.instances
  {
    db.(instances := map id | id in db.instances ::
          if id in order[..n]
          then db.instances[id].(status := EvaluateStatus(db.instances[id].status, db.instances[id].lastHeartbeatAt, false, now))
          else db.instances[id],
        events := db.events + SweepEvents(db, now, order[..n]))
  }

  /** Every status a sweep can give a stale row has an event type. */
  lemma {:induction false} StaleStatusHasEvent(i: Instance, now: int)
    requires IsStale(i, now - STALE_AFTER)
    ensures EventOf(EvaluateStatus(i.status, i.lastHeartbeatAt, false, now)).Some?
  {
  }

  /** How the tables change from row n of the list to the next. */
  lemma {:induction false} SweptNext(db: Tables, now: int, order: seq<UUID>, n: nat)
    requires ListsStale(db, now, order) && n < |order|
    ensures order[n] in db.instances
    ensures var id := order[n];
            var i := db.instances[id];
            var s := EvaluateStatus(i.status, i.lastHeartbeatAt, false, now);
            var a, b := SweptTables(db, now, order, n), SweptTables(db, now, order, n + 1);
            id in a.instances && a.instances[id] == i
            && b.tokens == a.tokens && b.instances == a.instances[id := i.(status := s)]
            && b.events == a.events + if s != i.status && EventOf(s).Some? then [Event(id, EventOf(s).value)] else []
  {
    var id := order[n];
    assert id in order;
    assert id !in order[..n];
    hide EvaluateStatus, IsStale, EventOf;
    assert forall x :: x in order[..n + 1] <==> x in order[..n] || x == id;
    assert order[..n + 1][..n] == order[..n];
  }

  lemma {:induction false} SweepStep(db: Tables, now: int, order: seq<UUID>, n: nat)
    requires ListsStale(db, now, order) && n < |order|
    ensures order[n] in db.instances
    ensures SweepOne(SweptTables(db, now, order, n), order[n], now) == SweptTables(db, now, order, n + 1)
    ensures var s := EvaluateStatus(db.instances[order[n]].status, db.instances[order[n]].lastHeartbeatAt, false, now);
            |SweptTables(db, now, order, n + 1).events|
            == |SweptTables(db, now, order, n).events| + (if s != db.instances[order[n]].status then 1 else 0)
  {
    SweptNext(db, now, order, n);
    assert order[n] in order;
    StaleStatusHasEvent(db.instances[order[n]], now);
    hide EvaluateStatus, IsStale, ListsStale, SweptTables, EventOf;
  }

  lemma {:induction false} NoRowsNoEvents(db: Tables, now: int, order: seq<UUID>)
    requires forall id :: id in order ==> id in db.instances
    ensures SweepEvents(db, now, order[..0]) == [] && SweptTables(db, now, order, 0) == db
  {
  }

  class Evaluator {
    const repo: Repository

    constructor (repo: Repository)
      ensures this.repo == repo
    {
      this.repo := repo;
    }

    method Sweep(now: int) returns (transitioned: nat, ghost order: seq<UUID>)
      modifies repo
      ensures ListsStale(old(repo.Value()), now, order)
      ensures repo.Value() == SweptTables(old(repo.Value()), now, order, |order|)
      ensures transitioned == |repo.events| - |old(repo.events)|
    {
      hide EvaluateStatus, IsStale, SweepEvents;
      ghost var db := repo.Value();
      var stale := repo.ListStaleInstances(now - STALE_AFTER);
      order := stale;
      transitioned := 0;
      var n := 0;
      NoRowsNoEvents(db, now, stale);
      while n < |stale|
        invariant n <= |stale|
        invariant repo.Value() == SweptTables(db, now, stale, n)
        invariant transitioned == |repo.events| - |db.events|
      {
        SweepStep(db, now, stale, n);
        var inst := repo.instances[stale[n]];
        var newStatus := EvaluateStatus(inst.status, inst.lastHeartbeatAt, false, now);
        if newStatus != inst.status {
          var ok := ApplyStatusTransition(repo, stale[n], newStatus);
          transitioned := transitioned + 1;
        }
        n := n + 1;
      }
      assert stale[..n] == stale;
    }
  }

  /** What a whole sweep does to every row, independent of the order of its list. */
  lemma {:induction false} SweepTouchesEveryRow(db: Tables, now: int, order: seq<UUID>)
    requires ListsStale(db, now, order)
    ensures var out := SweptTables(db, now, order, |order|);
            out.tokens == db.tokens && out.instances.Keys == db.instances.Keys
            && forall id :: id in db.instances ==>
                 out.instances[id] == db.instances[id].(status := Swept(db.instances[id], now))
  {
  }

  /** A row whose status changes gets exactly one event, of the matching type; no other row gets one. */
  lemma {:induction false} OneEventPerTransition(db: Tables, now: int, order: seq<UUID>, id: UUID, kind: EventType)
    requires forall i, j :: 0 <= i < j < |order| ==> order[i] != order[j]
    requires forall x :: x in order ==> x in db.instances && IsStale(db.instances[x], now - STALE_AFTER)
    ensures multiset(SweepEvents(db, now, order))[Event(id, kind)] ==
            if id in order && Swept(db.instances[id], now) != db.instances[id].status
               && EventOf(Swept(db.instances[id], now)) == Some(kind) then 1 else 0
    decreases |order|
  {
    if order != [] {
      var last := order[|order| - 1];
      var init := order[..|order| - 1];
      assert last !in init && forall x :: x in order <==> x in init || x == last;
      OneEventPerTransition(db, now, init, id, kind);
    }
  }

  /** Which rows a sweep lists, and what it makes of them, by nanoseconds of silence. */
  lemma {:induction false} SweptIs(i: Instance, now: int)
    ensures IsStale(i, now - STALE_AFTER) <==>
            i.status != Evicted && i.status != Deregistered && i.lastHeartbeatAt.Some?
            && now - i.lastHeartbeatAt.value > 30_000_000_000
    ensures Swept(i, now) ==
            if !IsStale(i, now - STALE_AFTER) then i.status
            else if now - i.lastHeartbeatAt.value < 60_000_000_000 then Degraded
            else if now - i.lastHeartbeatAt.value < 86_400_000_000_000 then Unreachable
            else Evicted
  {
    if IsStale(i, now - STALE_AFTER) {
      Thresholds(i.status, i.lastHeartbeatAt.value, false, now);
    }
    hide EvaluateStatus;
  }

  /**
    What a sweep makes of one row, in nanoseconds of silence: nothing up to 30 s, without a heartbeat,
    or when it is terminal; else degraded below 60 s, unreachable below 24 h and evicted from then on.
    A row whose status changes gets one event, the one named like its new status; no other row gets any.
   */
  lemma {:induction false} SweepWrites(db: Tables, now: int, order: seq<UUID>, id: UUID, kind: EventType)
    requires ListsStale(db, now, order) && id in db.instances
    ensures var i := db.instances[id];
            var out := SweptTables(db, now, order, |order|);
            db.events <= out.events && id in out.instances
            && var written := out.events[|db.events|..];
               if i.status == Evicted || i.status == Deregistered || i.lastHeartbeatAt.None?
                  || now - i.lastHeartbeatAt.value <= 30_000_000_000
               then out.instances[id] == i && multiset(written)[Event(id, kind)] == 0
               else
                 var silence := now - i.lastHeartbeatAt.value;
                 var (s, e) := if silence < 60_000_000_000 then (Degraded, EventDegraded)
                               else if silence < 86_400_000_000_000 then (Unreachable, EventUnreachable)
                               else (Evicted, EventEvicted);
                 out.instances[id] == Instance(i.key, s, i.lastHeartbeatAt, i.enrolledBy)
                 && multiset(written)[Event(id, kind)] == if kind == e && s != i.status then 1 else 0
  {
    var i := db.instances[id];
    var out := SweptTables(db, now, order, |order|);
    hide EvaluateStatus, Swept, IsStale;
    assert order[..|order|] == order;
    assert out.events[|db.events|..] == SweepEvents(db, now, order);
    SweepTouchesEveryRow(db, now, order);
    SweptIs(i, now);
    OneEventPerTransition(db, now, order, id, kind);
    hide SweptTables, SweepEvents;
  }

  /** Sweeping again at the same instant finds nothing to do. */
  lemma {:induction false} SweepIsIdempotent(db: Tables, now: int, order: seq<UUID>, again: seq<UUID>)
    requires ListsStale(db, now, order)
    requires ListsStale(SweptTables(db, now, order, |order|), now, again)
    ensures var once := SweptTables(db, now, order, |order|);
            SweptTables(once, now, again, |again|) == once
  {
    var once := SweptTables(db, now, order, |order|);
    SweepTouchesEveryRow(db, now, order);
    SweepTouchesEveryRow(once, now, again);
    forall id | id in once.instances
      ensures Swept(once.instances[id], now) == once.instances[id].status
    {
      var i := db.instances[id];
      if IsStale(i, now - STALE_AFTER) {
        Thresholds(i.status, i.lastHeartbeatAt.value, false, now);
        if !IsTerminal(once.instances[id].status) {
          Thresholds(once.instances[id].status, i.lastHeartbeatAt.value, false, now);
        }
      }
    }
    var twice := SweptTables(once, now, again, |again|);
    assert twice.instances == once.instances;
    NoChangeNoEvents(once, now, again);
    assert again[..|again|] == again;
  }

  lemma {:induction false} NoChangeNoEvents(db: Tables, now: int, order: seq<UUID>)
    requires forall id :: id in order ==>
               id in db.instances && IsStale(db.instances[id], now - STALE_AFTER)
               && Swept(db.instances[id], now) == db.instances[id].status
    ensures SweepEvents(db, now, order) == []
    decreases |order|
  {
    if order != [] {
      assert order[|order| - 1] in order;
      NoChangeNoEvents(db, now, order[..|order| - 1]);
    }
  }

  // ------------------------------------------------------------------ runs

  datatype Fleet = Fleet(db: Tables, now: int)

  datatype Action =
    | Beat(id: UUID, ready: bool)
    | Sweep(order: seq<UUID>)
    | RegisterRpc(key: Key, token: UUID, id: UUID)
    | DeregisterRpc(id: UUID)
    | ForceRemoveRpc(id: UUID)
    /** `logged`: a failure to write the event is ignored. */
    | RegisterByHand(key: Key, actor: bytes, id: UUID, logged: bool)
    | PruneOld(places: set<nat>, rows: set<UUID>)
    | Tick(now: int)

  predicate Enabled(f: Fleet, a: Action) {
    match a
    case Sweep(order) => ListsStale(f.db, f.now, order)
    case RegisterRpc(key, _, id) => UpsertTarget(f.db.instances, key, id)
    case Tick(now) => f.now <= now
    case Beat(id, _) => id in f.db.instances
    case DeregisterRpc(_) => true
    case ForceRemoveRpc(_) => true
    case RegisterByHand(key, _, id, _) => UpsertTarget(f.db.instances, key, id)
    case PruneOld(_, rows) => forall id :: id in rows ==> id in f.db.instances && f.db.instances[id].status == Evicted
  }

  /** The part of the heartbeat RPC after authentication. */
  function BeatTables(db: Tables, id: UUID, ready: bool, now: int): Tables
    requires id in db.instances
  {
    var before := db.instances[id].status;
    var recorded := RecordBeat(db, id, now);
    var s := EvaluateStatus(before, Some(now), ready, now);
    if s != before then Transition(recorded, id, s) else recorded
  }

  method RecordAuthenticatedHeartbeat(repo: Repository, id: UUID, ready: bool, now: int) returns (status: Option<Status>)
    modifies repo
    ensures id !in old(repo.instances) ==> status.None? && repo.Value() == old(repo.Value())
    ensures id in old(repo.instances) ==>
              repo.Value() == BeatTables(old(repo.Value()), id, ready, now)
              && status == Some(repo.instances[id].status)
  {
    if id !in repo.instances {
      return None;
    }
    var instance := repo.instances[id];
    var ok := repo.RecordHeartbeat(id, now);
    var newStatus := EvaluateStatus(instance.status, Some(now), ready, now);
    if newStatus != instance.status {
      ok := ApplyStatusTransition(repo, id, newStatus);
    }
    return Some(newStatus);
  }

  function Apply(f: Fleet, a: Action): Fleet
    requires Enabled(f, a)
  {
    match a
    case Beat(id, ready) => f.(db := BeatTables(f.db, id, ready, f.now))
    case Sweep(order) => f.(db := SweptTables(f.db, f.now, order, |order|))
    case RegisterRpc(key, token, id) => f.(db := Register(f.db, key, token, id))
    case DeregisterRpc(id) => f.(db := SetStatusWithEvent(f.db, id, Deregistered, EventDeregistered))
    case ForceRemoveRpc(id) => f.(db := SetStatusWithEvent(f.db, id, Evicted, EventEvicted))
    case RegisterByHand(key, actor, id, logged) =>
      var db := Upsert(f.db, key, actor, id);
      f.(db := if logged then AppendEvent(db, id, EventRegistered) else db)
    case PruneOld(places, rows) => f.(db := Prune(f.db, places, rows))
    case Tick(now) => f.(now := now)
  }

  /** What the administrative calls write. */
  lemma {:induction false} OperatorWrites(f: Fleet, id: UUID)
    ensures id in f.db.instances ==>
              var i := f.db.instances[id];
              Apply(f, DeregisterRpc(id)).db ==
                f.db.(instances := f.db.instances[id := i.(status := Deregistered)],
                      events := f.db.events + [Event(id, EventDeregistered)])
              && Apply(f, ForceRemoveRpc(id)).db ==
                f.db.(instances := f.db.instances[id := i.(status := Evicted)],
                      events := f.db.events + [Event(id, EventEvicted)])
    ensures id !in f.db.instances ==> Apply(f, DeregisterRpc(id)) == f && Apply(f, ForceRemoveRpc(id)) == f
  {
  }

  /** A registration by hand writes a pending row, or puts its author into the row there is. */
  lemma {:induction false} ByHandWrites(f: Fleet, key: Key, actor: bytes, id: UUID, logged: bool)
    requires Enabled(f, RegisterByHand(key, actor, id, logged))
    ensures var out := Apply(f, RegisterByHand(key, actor, id, logged)).db;
            out.instances == f.db.instances[id :=
              if id in f.db.instances
              then Instance(key, f.db.instances[id].status, f.db.instances[id].lastHeartbeatAt, ByHand(actor))
              else Instance(key, Pending, None, ByHand(actor))]
            && out.events == f.db.events + (if logged then [Event(id, EventRegistered)] else []) && out.tokens == f.db.tokens
  {
  }

  /** Where, from place i on, an event stands that is neither named nor of one of the rows. */
  function Places(events: seq<Event>, places: set<nat>, rows: set<UUID>, i: nat, e: Event): set<nat> {
    set j | i <= j < |events| && j !in places && events[j].instance !in rows && events[j] == e
  }

  lemma {:induction false} PlacesNext(events: seq<Event>, places: set<nat>, rows: set<UUID>, i: nat, e: Event)
    requires i < |events|
    ensures |Places(events, places, rows, i, e)| ==
            |Places(events, places, rows, i + 1, e)|
            + if i !in places && events[i].instance !in rows && events[i] == e then 1 else 0
  {
    var here, later := Places(events, places, rows, i, e), Places(events, places, rows, i + 1, e);
    if i !in places && events[i].instance !in rows && events[i] == e {
      assert here == later + {i} && i !in later;
    } else {
      assert here == later;
    }
  }

  lemma {:induction false} LeftKeeps(events: seq<Event>, places: set<nat>, rows: set<UUID>, i: nat, e: Event)
    requires i <= |events|
    ensures multiset(Left(events, places, rows, i))[e] == |Places(events, places, rows, i, e)|
    decreases |events| - i
  {
    hide Places, Left;
    if i == |events| {
      NoPlaces(events, places, rows, e);
    } else {
      PlacesNext(events, places, rows, i, e);
      LeftKeeps(events, places, rows, i + 1, e);
      LeftCounts(events, places, rows, i, e);
    }
  }

  lemma {:induction false} NoPlaces(events: seq<Event>, places: set<nat>, rows: set<UUID>, e: Event)
    ensures |Places(events, places, rows, |events|, e)| == |multiset(Left(events, places, rows, |events|))| == 0
  {
  }

  lemma {:induction false} LeftCounts(events: seq<Event>, places: set<nat>, rows: set<UUID>, i: nat, e: Event)
    requires i < |events|
    ensures multiset(Left(events, places, rows, i))[e] ==
            multiset(Left(events, places, rows, i + 1))[e]
            + if i !in places && events[i].instance !in rows && events[i] == e then 1 else 0
  {
  }

  /** Pruning removes just the rows named, and of the events just those named or of those rows. */
  lemma {:induction false} PruneWrites(f: Fleet, places: set<nat>, rows: set<UUID>, e: Event)
    requires Enabled(f, PruneOld(places, rows))
    ensures var out := Apply(f, PruneOld(places, rows)).db;
            (forall id :: id in rows ==> id in f.db.instances && f.db.instances[id].status == Evicted)
            && (forall id :: id in out.instances <==> id in f.db.instances && id !in rows)
            && (forall id :: id in out.instances ==> out.instances[id] == f.db.instances[id])
            && out.tokens == f.db.tokens
            && multiset(out.events)[e] == |Places(f.db.events, places, rows, 0, e)|
  {
    LeftKeeps(f.db.events, places, rows, 0, e);
  }

  /**
    No heartbeat lies in the future, a status that speaks of heartbeats has one behind it, and an
    unreachable instance has been silent for a minute.
   */
  predicate RowInOrder(i: Instance, now: int) {
    (i.lastHeartbeatAt.Some? ==> i.lastHeartbeatAt.value <= now)
    && (i.status in {Healthy, Degraded, Unreachable} ==> i.lastHeartbeatAt.Some?)
    && (i.status == Unreachable ==> now - i.lastHeartbeatAt.value >= 60 * SECOND)
  }

  predicate Inv(f: Fleet) {
    KeysUnique(f.db.instances) && forall id :: id in f.db.instances ==> RowInOrder(f.db.instances[id], f.now)
  }

  lemma {:induction false} BeatStatus(f: Fleet, id: UUID, ready: bool)
    requires id in f.db.instances
    ensures var i := BeatTables(f.db, id, ready, f.now).instances;
            i.Keys == f.db.instances.Keys
            && (forall x :: x in i && x != id ==> i[x] == f.db.instances[x])
            && i[id].status == if IsTerminal(f.db.instances[id].status) then f.db.instances[id].status
                               else if ready then Healthy else Degraded
    ensures var i, j := f.db.instances[id], BeatTables(f.db, id, ready, f.now).instances[id];
            j.key == i.key && j.lastHeartbeatAt == Some(f.now)
  {
  }

  /**
    What a heartbeat makes of its row: it is recorded, and a row that is not terminal becomes healthy,
    without an event, or degraded, with one if it was not degraded before.
   */
  lemma {:induction false} BeatWrites(f: Fleet, id: UUID, ready: bool)
    requires id in f.db.instances
    ensures var i := f.db.instances[id];
            var out := Apply(f, Beat(id, ready)).db;
            var s := if i.status == Evicted || i.status == Deregistered then i.status
                     else if ready then Healthy else Degraded;
            out.instances == f.db.instances[id := Instance(i.key, s, Some(f.now), i.enrolledBy)]
            && out.events == f.db.events + (if s == Degraded && i.status != Degraded then [Event(id, EventDegraded)] else [])
            && out.tokens == f.db.tokens
  {
    TransitionWrites(RecordBeat(f.db, id, f.now), id, if ready then Healthy else Degraded);
    hide Transition;
  }

  lemma {:induction false} SweptRowInOrder(i: Instance, now: int)
    requires RowInOrder(i, now)
    ensures RowInOrder(i.(status := Swept(i, now)), now)
  {
    if IsStale(i, now - STALE_AFTER) {
      Thresholds(i.status, i.lastHeartbeatAt.value, false, now);
    }
  }

  lemma {:induction false} SweepKeepsInv(f: Fleet, a: Action)
    requires Inv(f) && Enabled(f, a) && a.Sweep?
    ensures Inv(Apply(f, a))
  {
    var g := Apply(f, a);
    SweepTouchesEveryRow(f.db, f.now, a.order);
    hide SweptTables, Swept, RowInOrder, ListsStale;
    forall id | id in g.db.instances ensures RowInOrder(g.db.instances[id], g.now) {
      SweptRowInOrder(f.db.instances[id], f.now);
    }
  }

  lemma {:induction false} BeatKeepsInv(f: Fleet, a: Action)
    requires Inv(f) && Enabled(f, a) && a.Beat?
    ensures Inv(Apply(f, a))
  {
    BeatStatus(f, a.id, a.ready);
    hide BeatTables;
  }

  lemma {:induction false} RegistrationKeepsInv(f: Fleet, a: Action)
    requires Inv(f) && Enabled(f, a) && (a.RegisterRpc? || a.RegisterByHand?)
    ensures Inv(Apply(f, a))
  {
  }

  lemma {:induction false} OtherKeepsInv(f: Fleet, a: Action)
    requires Inv(f) && Enabled(f, a) && !a.Sweep? && !a.Beat? && !a.RegisterRpc? && !a.RegisterByHand?
    ensures Inv(Apply(f, a))
  {
  }

  lemma {:induction false} StepKeepsInv(f: Fleet, a: Action)
    requires Inv(f) && Enabled(f, a)
    ensures Inv(Apply(f, a))
  {
    hide Inv, Enabled, Apply;
    match a
    case Sweep(_) => SweepKeepsInv(f, a);
    case Beat(_, _) => BeatKeepsInv(f, a);
    case RegisterRpc(_, _, _) => RegistrationKeepsInv(f, a);
    case RegisterByHand(_, _, _, _) => RegistrationKeepsInv(f, a);
    case _ => OtherKeepsInv(f, a);
  }

  /** Evicted and deregistered are left by registration alone. */
  lemma {:induction false} TerminalLeftOnlyByRegister(f: Fleet, a: Action, id: UUID)
    requires Enabled(f, a) && id in f.db.instances && IsTerminal(f.db.instances[id].status)
    ensures id in Apply(f, a).db.instances && !IsTerminal(Apply(f, a).db.instances[id].status) ==>
              a.RegisterRpc? && a.id == id
  {
  }

  /**
    Registration brings an instance back to registering, touches no other row and writes one event.
    It keeps the time of the last heartbeat, so an instance that was silent for long is put back
    where it was by a sweep that comes before its first new heartbeat; any other stays registering.
   */
  lemma {:induction false} RegistrationKeepsSilence(f: Fleet, key: Key, token: UUID, id: UUID, order: seq<UUID>)
    requires Enabled(f, RegisterRpc(key, token, id))
    requires ListsStale(Apply(f, RegisterRpc(key, token, id)).db, f.now, order)
    ensures var g := Apply(f, RegisterRpc(key, token, id));
            var beat := if id in f.db.instances then f.db.instances[id].lastHeartbeatAt else None;
            g.db.instances[id] == Instance(key, Registering, beat, ByToken(token))
            && g.db.instances - {id} == f.db.instances - {id}
            && g.db.events == f.db.events + [Event(id, EventRegistered)]
            && Enabled(g, Sweep(order))
            && Apply(g, Sweep(order)).db.instances[id].status ==
               match beat
               case None => Registering
               case Some(t) =>
                 if f.now - t >= 24 * HOUR then Evicted
                 else if f.now - t >= 60 * SECOND then Unreachable
                 else if f.now - t > 30 * SECOND then Degraded
                 else Registering
  {
    var g := Apply(f, RegisterRpc(key, token, id));
    SweepTouchesEveryRow(g.db, f.now, order);
    if g.db.instances[id].lastHeartbeatAt.Some? {
      Thresholds(Registering, g.db.instances[id].lastHeartbeatAt.value, false, f.now);
    }
  }

  function Rank(s: Status): nat {
    match s
    case Degraded => 1
    case Unreachable => 2
    case Evicted => 3
    case Deregistered => 4
    case _ => 0
  }

  /** The live statuses rank alike, and below degraded, unreachable, evicted and deregistered in this order. */
  lemma {:induction false} RanksAre(s: Status, t: Status)
    ensures Rank(s) <= Rank(t) <==>
            s == t || s in {Pending, Registering, Healthy}
            || (s == Degraded && t in {Unreachable, Evicted, Deregistered})
            || (s == Unreachable && t in {Evicted, Deregistered})
            || (s == Evicted && t == Deregistered)
  {
  }

  /** The action is a sweep, a clock tick, or concerns some other instance. */
  predicate LeavesAlone(a: Action, id: UUID) {
    match a
    case Sweep(_) => true
    case Tick(_) => true
    case Beat(x, _) => x != id
    case RegisterRpc(_, _, x) => x != id
    case DeregisterRpc(x) => x != id
    case ForceRemoveRpc(x) => x != id
    case RegisterByHand(_, _, x, _) => x != id
    case PruneOld(_, rows) => id !in rows
  }

  /** How long an instance must have been silent to be in this status by decay. */
  predicate SilentLongEnough(s: Status, silence: int) {
    match s
    case Degraded => silence > 30 * SECOND
    case Unreachable => silence >= 60 * SECOND
    case Evicted => silence >= 24 * HOUR
    case _ => false
  }

  lemma {:induction false} SilenceIs(s: Status, silence: int)
    ensures SilentLongEnough(s, silence) <==>
            (s == Degraded && silence > 30_000_000_000) || (s == Unreachable && silence >= 60_000_000_000)
            || (s == Evicted && silence >= 86_400_000_000_000)
  {
  }

  /** What one step does to an instance nobody talks to or about. */
  lemma {:induction false} QuietStep(f: Fleet, a: Action, id: UUID)
    requires Inv(f) && Enabled(f, a) && LeavesAlone(a, id) && id in f.db.instances
    ensures var i := f.db.instances[id];
            var g := Apply(f, a);
            id in g.db.instances && f.now <= g.now
            && g.db.instances[id] == i.(status := if a.Sweep? then Swept(i, f.now) else i.status)
            && Rank(i.status) <= Rank(g.db.instances[id].status)
            && (g.db.instances[id].status != i.status ==>
                  i.lastHeartbeatAt.Some?
                  && SilentLongEnough(g.db.instances[id].status, f.now - i.lastHeartbeatAt.value))
  {
    var i := f.db.instances[id];
    if a.Sweep? {
      SweepTouchesEveryRow(f.db, f.now, a.order);
      if IsStale(i, f.now - STALE_AFTER) {
        Thresholds(i.status, i.lastHeartbeatAt.value, false, f.now);
      }
    } else if a.Beat? {
      BeatStatus(f, a.id, a.ready);
    }
  }

  predicate IsRun(f: Fleet, actions: seq<Action>)
    decreases |actions|
  {
    actions != [] ==> Enabled(f, actions[0]) && IsRun(Apply(f, actions[0]), actions[1..])
  }

  function Run(f: Fleet, actions: seq<Action>): Fleet
    requires IsRun(f, actions)
    decreases |actions|
  {
    if actions == [] then f else Run(Apply(f, actions[0]), actions[1..])
  }

  /** A run is its actions one after another, the last one last. */
  lemma {:induction false} RunEndsWith(f: Fleet, actions: seq<Action>, last: Action)
    requires IsRun(f, actions + [last])
    ensures IsRun(f, actions) && Enabled(Run(f, actions), last)
    ensures Run(f, actions + [last]) == Apply(Run(f, actions), last)
    decreases |actions|
  {
    hide Enabled, Apply;
    if actions != [] {
      assert (actions + [last])[1..] == actions[1..] + [last];
      RunEndsWith(Apply(f, actions[0]), actions[1..], last);
    } else {
      assert [last][1..] == [];
    }
  }

  lemma {:induction false} RunKeepsInv(f: Fleet, actions: seq<Action>)
    requires Inv(f) && IsRun(f, actions)
    ensures Inv(Run(f, actions))
    decreases |actions|
  {
    hide Inv;
    if actions != [] {
      StepKeepsInv(f, actions[0]);
      RunKeepsInv(Apply(f, actions[0]), actions[1..]);
    }
  }

  /** Evicted and deregistered last until that instance enrolls again, or its row is pruned. */
  lemma {:induction false} TerminalUntilRegistered(f: Fleet, actions: seq<Action>, id: UUID)
    requires IsRun(f, actions) && id in f.db.instances && IsTerminal(f.db.instances[id].status)
    requires forall a :: a in actions ==>
               !(a.RegisterRpc? && a.id == id) && !(a.PruneOld? && id in a.rows)
    ensures var g := Run(f, actions);
            id in g.db.instances && IsTerminal(g.db.instances[id].status)
    decreases |actions|
  {
    if actions != [] {
      RowStays(f, actions[0], id);
      hide Apply, Enabled, IsTerminal;
      assert actions[0] in actions;
      TerminalLeftOnlyByRegister(f, actions[0], id);
      TerminalUntilRegistered(Apply(f, actions[0]), actions[1..], id);
    }
  }

  lemma {:induction false} RowStays(f: Fleet, a: Action, id: UUID)
    requires Enabled(f, a) && id in f.db.instances && !(a.PruneOld? && id in a.rows)
    ensures id in Apply(f, a).db.instances
  {
    if a.Sweep? {
      SweepTouchesEveryRow(f.db, f.now, a.order);
    }
  }

  function NoInstances(tokens: Tokens, now: int): Fleet {
    Fleet(Tables(tokens, map[], []), now)
  }

  /**
    Whatever happened since the registry was empty: one row per key, and every row's status and last
    heartbeat fit together and the clock.
   */
  lemma {:induction false} ReachableFleetIsInOrder(tokens: Tokens, start: int, actions: seq<Action>)
    requires IsRun(NoInstances(tokens, start), actions)
    ensures var f := Run(NoInstances(tokens, start), actions);
            KeysUnique(f.db.instances)
            && forall id :: id in f.db.instances ==> RowInOrder(f.db.instances[id], f.now)
  {
    RunKeepsInv(NoInstances(tokens, start), actions);
  }

  /**
    Decay. Over any run in which an instance gets no heartbeat, registration or removal, whatever
    the rest of the fleet does, it keeps its last heartbeat, its status only moves forward along
    degraded, unreachable, evicted, and any new status is backed by that much silence.
   */
  lemma {:induction false} QuietInstanceDecays(f: Fleet, actions: seq<Action>, id: UUID)
    requires Inv(f) && IsRun(f, actions) && id in f.db.instances
    requires forall a :: a in actions ==> LeavesAlone(a, id)
    ensures var g := Run(f, actions);
            var i := f.db.instances[id];
            id in g.db.instances && f.now <= g.now
            && g.db.instances[id] == i.(status := g.db.instances[id].status)
            && Rank(i.status) <= Rank(g.db.instances[id].status)
            && (g.db.instances[id].status != i.status ==>
                  i.lastHeartbeatAt.Some?
                  && SilentLongEnough(g.db.instances[id].status, g.now - i.lastHeartbeatAt.value))
    decreases |actions|
  {
    if actions != [] {
      var f1 := Apply(f, actions[0]);
      QuietStep(f, actions[0], id);
      StepKeepsInv(f, actions[0]);
      QuietInstanceDecays(f1, actions[1..], id);
    }
  }

  /** After a sweep every silent instance is exactly where the thresholds put it. */
  lemma {:induction false} SweepIsUpToDate(f: Fleet, a: Action, id: UUID)
    requires a.Sweep? && Enabled(f, a) && id in f.db.instances
    requires !IsTerminal(f.db.instances[id].status) && f.db.instances[id].lastHeartbeatAt.Some?
    requires f.now - f.db.instances[id].lastHeartbeatAt.value > 30 * SECOND
    ensures var silence := f.now - f.db.instances[id].lastHeartbeatAt.value;
            Apply(f, a).db.instances[id].status ==
            if silence >= 24 * HOUR then Evicted else if silence >= 60 * SECOND then Unreachable else Degraded
  {
  }
}
