/**
  The lifecycle with its calls taken apart. A sweep fixes the time, lists rows and then writes one
  row after the other (argus/internal/core/evaluator.go:65-84); a heartbeat fixes the time, reads
  the row, records the beat and writes the status (argus/internal/transport/grpc/server.go:161-214).
  Anything may happen in between, and the writes do not look at the row they change
  (argus/internal/storage/postgres/repository.go:443-467 and 645-665). Calls that nothing gets in
  between are the actions of Lifecycle.dfy; LifecycleRaces.dfy says what the others do.
 */
module LifecycleSteps {
  import opened Bytes
  import opened GoTime
  import opened ArgusRepository
  import opened Lifecycle

  datatype Listed = Listed(id: UUID, row: Instance)

  /** `at` is the time the call fixed when it began. */
  datatype SweepCall = Begun(at: int) | Listing(at: int, left: seq<Listed>)

  datatype BeatCall =
    | Begins(id: UUID, ready: bool, at: int)
    | HasRead(id: UUID, ready: bool, at: int, status: Status)
    | HasRecorded(id: UUID, ready: bool, at: int, status: Status)

  /** `used` are the ids ever given out: a new row never gets an old id. */
  datatype World =
    World(db: Tables, now: int, used: set<UUID>, sweeps: map<nat, SweepCall>, beats: map<nat, BeatCall>)

  /** Ends are also failures; `Whole` is one of the other actions of Lifecycle.dfy. */
  datatype Step =
    | BeginSweep(s: nat) | ListRows(s: nat, order: seq<UUID>) | WriteNext(s: nat) | EndSweep(s: nat)
    | BeginBeat(b: nat, id: UUID, ready: bool) | ReadRow(b: nat) | RecordRow(b: nat) | WriteRow(b: nat) | EndBeat(b: nat)
    | Whole(action: Action)

  /** The status a sweep decides on for a row it listed. */
  function Decided(l: Listed, at: int): Status {
    EvaluateStatus(l.row.status, l.row.lastHeartbeatAt, false, at)
  }

  predicate Changes(l: Listed, at: int) {
    Decided(l, at) != l.row.status
  }

  /** The status a heartbeat decides on for the row it read. */
  function BeatDecided(c: BeatCall): Status
    requires !c.Begins?
  {
    EvaluateStatus(c.status, Some(c.at), c.ready, c.at)
  }

  predicate Possible(w: World, st: Step) {
    match st
    case BeginSweep(s) => s !in w.sweeps
    case ListRows(s, order) => s in w.sweeps && w.sweeps[s].Begun? && ListsStale(w.db, w.sweeps[s].at, order)
    case WriteNext(s) => s in w.sweeps && w.sweeps[s].Listing? && w.sweeps[s].left != []
    case EndSweep(s) => s in w.sweeps
    case BeginBeat(b, _, _) => b !in w.beats
    case ReadRow(b) => b in w.beats && w.beats[b].Begins?
    case RecordRow(b) => b in w.beats && w.beats[b].HasRead?
    case WriteRow(b) => b in w.beats && w.beats[b].HasRecorded?
    case EndBeat(b) => b in w.beats
    case Whole(a) =>
      !a.Sweep? && !a.Beat? && Enabled(Fleet(w.db, w.now), a)
      && (a.RegisterRpc? || a.RegisterByHand? ==> a.id in w.db.instances || a.id !in w.used)
  }

  function Snapshot(instances: Instances, order: seq<UUID>): (left: seq<Listed>)
    requires forall id :: id in order ==> id in instances
    ensures |left| == |order|
    ensures forall i :: 0 <= i < |order| ==> left[i] == Listed(order[i], instances[order[i]])
  {
    seq(|order|, i requires 0 <= i < |order| => assert order[i] in order; Listed(order[i], instances[order[i]]))
  }

  /** A write to a row that is gone is an error and ends the sweep. */
  function WriteListed(w: World, s: nat, at: int, left: seq<Listed>): World
    requires left != []
  {
    var l := left[0];
    var rest := w.(sweeps := w.sweeps[s := Listing(at, left[1..])]);
    if !Changes(l, at) then rest
    else if l.id !in w.db.instances then w.(sweeps := w.sweeps - {s})
    else rest.(db := Transition(w.db, l.id, Decided(l, at)))
  }

  function Next(w: World, st: Step): World
    requires Possible(w, st)
  {
    match st
    case BeginSweep(s) => w.(sweeps := w.sweeps[s := Begun(w.now)])
    case ListRows(s, order) =>
      w.(sweeps := w.sweeps[s := Listing(w.sweeps[s].at, Snapshot(w.db.instances, order))])
    case WriteNext(s) => WriteListed(w, s, w.sweeps[s].at, w.sweeps[s].left)
    case EndSweep(s) => w.(sweeps := w.sweeps - {s})
    case BeginBeat(b, id, ready) => w.(beats := w.beats[b := Begins(id, ready, w.now)])
    case ReadRow(b) =>
      var c := w.beats[b];
      if c.id !in w.db.instances then w.(beats := w.beats - {b})
      else w.(beats := w.beats[b := HasRead(c.id, c.ready, c.at, w.db.instances[c.id].status)])
    case RecordRow(b) =>
      var c := w.beats[b];
      if c.id !in w.db.instances then w.(beats := w.beats - {b})
      else w.(db := RecordBeat(w.db, c.id, c.at), beats := w.beats[b := HasRecorded(c.id, c.ready, c.at, c.status)])
    case WriteRow(b) =>
      var c := w.beats[b];
      w.(db := if BeatDecided(c) != c.status then Transition(w.db, c.id, BeatDecided(c)) else w.db, beats := w.beats - {b})
    case EndBeat(b) => w.(beats := w.beats - {b})
    case Whole(a) =>
      var g := Apply(Fleet(w.db, w.now), a);
      w.(db := g.db, now := g.now, used := w.used + g.db.instances.Keys)
  }

  predicate Follows(w: World, steps: seq<Step>)
    decreases |steps|
  {
    steps != [] ==> Possible(w, steps[0]) && Follows(Next(w, steps[0]), steps[1..])
  }

  function AfterAll(w: World, steps: seq<Step>): World
    requires Follows(w, steps)
    decreases |steps|
  {
    if steps == [] then w else AfterAll(Next(w, steps[0]), steps[1..])
  }

  /** A call may begin under any new number, and end in failure at any point. */
  lemma {:induction false} CallsBeginAndEnd(w: World, call: nat, id: UUID, ready: bool)
    ensures Possible(w, BeginSweep(call)) <==> call !in w.sweeps
    ensures Possible(w, EndSweep(call)) <==> call in w.sweeps
    ensures Possible(w, BeginBeat(call, id, ready)) <==> call !in w.beats
    ensures Possible(w, EndBeat(call)) <==> call in w.beats
    ensures call in w.sweeps ==> Next(w, EndSweep(call)) == w.(sweeps := w.sweeps - {call})
    ensures call in w.beats ==> Next(w, EndBeat(call)) == w.(beats := w.beats - {call})
  {
  }

  /** A run is its steps one after another, the last one last. */
  lemma {:induction false} RunEndsWith(w: World, steps: seq<Step>, last: Step)
    requires Follows(w, steps + [last])
    ensures Follows(w, steps) && Possible(AfterAll(w, steps), last)
    ensures AfterAll(w, steps + [last]) == Next(AfterAll(w, steps), last)
    decreases |steps|
  {
    hide Possible, Next;
    if steps != [] {
      assert (steps + [last])[1..] == steps[1..] + [last];
      RunEndsWith(Next(w, steps[0]), steps[1..], last);
    } else {
      assert [last][1..] == [];
    }
  }

  // ------------------------------------------------- what every step keeps

  /** No heartbeat lies in the future, and a status that speaks of heartbeats has one behind it. */
  predicate RowSane(i: Instance, now: int) {
    (i.lastHeartbeatAt.Some? ==> i.lastHeartbeatAt.value <= now)
    && (i.status in {Healthy, Degraded, Unreachable} ==> i.lastHeartbeatAt.Some?)
  }

  lemma {:induction false} RowSaneIs(i: Instance, now: int)
    ensures RowSane(i, now) <==>
            match i.lastHeartbeatAt
            case None => i.status == Pending || i.status == Registering || i.status == Evicted || i.status == Deregistered
            case Some(t) => t <= now
  {
    assert i.status == Pending || i.status == Registering || i.status == Healthy || i.status == Degraded
           || i.status == Unreachable || i.status == Evicted || i.status == Deregistered;
  }

  /** The row, if it is still there, has a heartbeat; if not, its id is not given out again. */
  predicate HasBeat(w: World, id: UUID) {
    id in w.used && (id in w.db.instances ==> w.db.instances[id].lastHeartbeatAt.Some?)
  }

  predicate SweepSane(w: World, c: SweepCall) {
    c.at <= w.now
    && (c.Listing? ==> forall i :: 0 <= i < |c.left| ==>
          HasBeat(w, c.left[i].id) && IsStale(c.left[i].row, c.at - STALE_AFTER))
  }

  predicate BeatSane(w: World, c: BeatCall) {
    c.at <= w.now && (c.HasRecorded? ==> HasBeat(w, c.id))
  }

  predicate Sane(w: World) {
    KeysUnique(w.db.instances) && w.db.instances.Keys <= w.used
    && (forall id :: id in w.db.instances ==> RowSane(w.db.instances[id], w.now))
    && (forall s :: s in w.sweeps ==> SweepSane(w, w.sweeps[s]))
    && (forall b :: b in w.beats ==> BeatSane(w, w.beats[b]))
  }

  /** Time goes on, ids stay used, a row keeps its key and, once it has one, a heartbeat. */
  predicate Continues(w: World, w': World) {
    w.now <= w'.now && w.used <= w'.used
    && forall id :: id in w'.db.instances && id in w.used ==>
         id in w.db.instances && w'.db.instances[id].key == w.db.instances[id].key
         && (w.db.instances[id].lastHeartbeatAt.Some? ==> w'.db.instances[id].lastHeartbeatAt.Some?)
  }

  lemma {:induction false} CallsStaySane(w: World, w': World)
    requires Sane(w) && Continues(w, w')
    ensures forall c :: SweepSane(w, c) ==> SweepSane(w', c)
    ensures forall c :: BeatSane(w, c) ==> BeatSane(w', c)
  {
  }

  lemma {:induction false} TransitionIs(db: Tables, id: UUID, s: Status)
    ensures var out := Transition(db, id, s);
            out.tokens == db.tokens
            && out.instances == if id in db.instances then db.instances[id := db.instances[id].(status := s)] else db.instances
  {
  }

  /** Calls that only look, begin or end. */
  predicate Looks(st: Step) {
    st.BeginSweep? || st.ListRows? || st.EndSweep? || st.BeginBeat? || st.ReadRow? || st.EndBeat?
  }

  lemma {:induction false} ListedIsSane(w: World, c: SweepCall, order: seq<UUID>)
    requires Sane(w) && c.Begun? && SweepSane(w, c) && ListsStale(w.db, c.at, order)
    ensures SweepSane(w, Listing(c.at, Snapshot(w.db.instances, order)))
  {
    var left := Snapshot(w.db.instances, order);
    forall i | 0 <= i < |left| ensures HasBeat(w, left[i].id) && IsStale(left[i].row, c.at - STALE_AFTER) {
      assert order[i] in order;
    }
  }

  lemma {:induction false} LookKeepsSane(w: World, st: Step)
    requires Sane(w) && Possible(w, st) && Looks(st)
    ensures Continues(w, Next(w, st)) && Sane(Next(w, st))
  {
    var w' := Next(w, st);
    CallsStaySane(w, w');
    if st.ListRows? {
      ListedIsSane(w, w.sweeps[st.s], st.order);
    }
    hide SweepSane, BeatSane, RowSane, ListsStale, Snapshot;
    if st.BeginSweep? {
      BegunIsSane(w);
    } else if st.BeginBeat? || st.ReadRow? {
      NotRecordedIsSane(w);
    }
  }

  lemma {:induction false} BegunIsSane(w: World)
    ensures SweepSane(w, Begun(w.now))
  {
  }

  lemma {:induction false} NotRecordedIsSane(w: World)
    ensures forall c: BeatCall :: c.at <= w.now && !c.HasRecorded? ==> BeatSane(w, c)
    ensures forall c: BeatCall :: BeatSane(w, c) ==> c.at <= w.now
  {
  }

  /** Writing a status to a row that has a heartbeat. */
  lemma {:induction false} StatusIsSane(w: World, id: UUID, s: Status)
    requires Sane(w) && HasBeat(w, id)
    ensures var w' := w.(db := Transition(w.db, id, s));
            Continues(w, w') && Sane(w')
  {
    TransitionIs(w.db, id, s);
    var w' := w.(db := Transition(w.db, id, s));
    hide Transition;
    CallsStaySane(w, w');
    hide SweepSane, BeatSane;
  }

  lemma {:induction false} RestIsSane(w: World, s: nat)
    requires Sane(w) && Possible(w, WriteNext(s))
    ensures Sane(w.(sweeps := w.sweeps[s := Listing(w.sweeps[s].at, w.sweeps[s].left[1..])]))
    ensures Sane(w.(sweeps := w.sweeps - {s}))
    ensures HasBeat(w, w.sweeps[s].left[0].id)
  {
    var c := w.sweeps[s];
    var rest := Listing(c.at, c.left[1..]);
    assert SweepSane(w, c);
    assert SweepSane(w, rest) by {
      forall i | 0 <= i < |rest.left| ensures HasBeat(w, rest.left[i].id) && IsStale(rest.left[i].row, rest.at - STALE_AFTER) {
        assert rest.left[i] == c.left[i + 1];
      }
    }
    var a, b := w.(sweeps := w.sweeps[s := rest]), w.(sweeps := w.sweeps - {s});
    CallsStaySane(w, a);
    CallsStaySane(w, b);
    hide SweepSane, BeatSane;
  }

  lemma {:induction false} WriteKeepsSane(w: World, st: Step)
    requires Sane(w) && Possible(w, st) && (st.WriteNext? || st.WriteRow?)
    ensures Continues(w, Next(w, st)) && Sane(Next(w, st))
  {
    if st.WriteNext? {
      var c := w.sweeps[st.s];
      var l := c.left[0];
      RestIsSane(w, st.s);
      hide Transition, RowSane, SweepSane, BeatSane;
      if Changes(l, c.at) && l.id in w.db.instances {
        StatusIsSane(w.(sweeps := w.sweeps[st.s := Listing(c.at, c.left[1..])]), l.id, Decided(l, c.at));
      }
    } else {
      var c := w.beats[st.b];
      var rest := w.(beats := w.beats - {st.b});
      assert BeatSane(w, c);
      CallsStaySane(w, rest);
      hide Transition, RowSane, SweepSane, BeatSane;
      if BeatDecided(c) != c.status {
        StatusIsSane(rest, c.id, BeatDecided(c));
      }
    }
  }

  lemma {:induction false} RecordKeepsSane(w: World, st: Step)
    requires Sane(w) && Possible(w, st) && st.RecordRow?
    ensures Continues(w, Next(w, st)) && Sane(Next(w, st))
  {
    var w' := Next(w, st);
    assert BeatSane(w, w.beats[st.b]);
    CallsStaySane(w, w');
    hide SweepSane;
  }

  lemma {:induction false} EnrollRows(w: World, a: Action)
    requires Sane(w) && Possible(w, Whole(a)) && (a.RegisterRpc? || a.RegisterByHand?)
    ensures var i := Next(w, Whole(a)).db.instances;
            a.id in i && i == w.db.instances[a.id := i[a.id]] && i[a.id].key == a.key && RowSane(i[a.id], w.now)
            && (a.id in w.db.instances ==> i[a.id].lastHeartbeatAt == w.db.instances[a.id].lastHeartbeatAt)
  {
    hide SweepSane, BeatSane;
  }

  lemma {:induction false} OtherRows(w: World, a: Action)
    requires Possible(w, Whole(a)) && !a.RegisterRpc? && !a.RegisterByHand?
    ensures var i := Next(w, Whole(a)).db.instances;
            i.Keys <= w.db.instances.Keys
            && forall id :: id in i ==>
                 i[id] == w.db.instances[id] || i[id] == w.db.instances[id].(status := Deregistered)
                 || i[id] == w.db.instances[id].(status := Evicted)
  {
  }

  lemma {:induction false} WholeTime(w: World, a: Action)
    requires Possible(w, Whole(a))
    ensures var w' := Next(w, Whole(a));
            w.now <= w'.now && w'.used == w.used + w'.db.instances.Keys && w'.sweeps == w.sweeps && w'.beats == w.beats
  {
  }

  /** A registration writes the row of its key, or one with an id never used before. */
  lemma {:induction false} EnrollIsFresh(w: World, a: Action)
    requires Possible(w, Whole(a)) && (a.RegisterRpc? || a.RegisterByHand?)
    ensures if a.id in w.db.instances then w.db.instances[a.id].key == a.key
            else a.id !in w.used && forall other :: other in w.db.instances ==> w.db.instances[other].key != a.key
  {
  }

  lemma {:induction false} EnrollKeepsRows(w: World, a: Action)
    requires Sane(w) && Possible(w, Whole(a)) && (a.RegisterRpc? || a.RegisterByHand?)
    ensures Continues(w, Next(w, Whole(a)))
    ensures var w' := Next(w, Whole(a));
            KeysUnique(w'.db.instances) && forall id :: id in w'.db.instances ==> RowSane(w'.db.instances[id], w.now)
  {
    WholeTime(w, a);
    EnrollRows(w, a);
    EnrollIsFresh(w, a);
    hide SweepSane, BeatSane, Next, Possible, RowSane;
  }

  /** What the other actions do to the rows. */
  lemma {:induction false} WholeRows(w: World, a: Action)
    requires Sane(w) && Possible(w, Whole(a))
    ensures Continues(w, Next(w, Whole(a)))
    ensures var w' := Next(w, Whole(a));
            KeysUnique(w'.db.instances) && forall id :: id in w'.db.instances ==> RowSane(w'.db.instances[id], w'.now)
  {
    WholeTime(w, a);
    if a.RegisterRpc? || a.RegisterByHand? {
      EnrollKeepsRows(w, a);
      EnrollStopsClock(w, a);
    } else {
      OtherRows(w, a);
    }
    hide SweepSane, BeatSane, Next, Possible;
  }

  lemma {:induction false} EnrollStopsClock(w: World, a: Action)
    requires Possible(w, Whole(a)) && !a.Tick?
    ensures Next(w, Whole(a)).now == w.now
  {
  }

  lemma {:induction false} WholeKeepsSane(w: World, st: Step)
    requires Sane(w) && Possible(w, st) && st.Whole?
    ensures Continues(w, Next(w, st)) && Sane(Next(w, st))
  {
    WholeRows(w, st.action);
    WholeTime(w, st.action);
    CallsStaySane(w, Next(w, st));
    hide SweepSane, BeatSane, RowSane, Next, Possible, Continues, KeysUnique;
  }

  lemma {:induction false} StepKeepsSane(w: World, st: Step)
    requires Sane(w) && Possible(w, st)
    ensures Continues(w, Next(w, st)) && Sane(Next(w, st))
  {
    hide Sane, Possible, Next, Continues;
    match st
    case WriteNext(_) => WriteKeepsSane(w, st);
    case WriteRow(_) => WriteKeepsSane(w, st);
    case RecordRow(_) => RecordKeepsSane(w, st);
    case Whole(_) => WholeKeepsSane(w, st);
    case _ => LookKeepsSane(w, st);
  }

  lemma {:induction false} RunKeepsSane(w: World, steps: seq<Step>)
    requires Sane(w) && Follows(w, steps)
    ensures Sane(AfterAll(w, steps))
    decreases |steps|
  {
    hide Sane, Possible, Next;
    if steps != [] {
      StepKeepsSane(w, steps[0]);
      RunKeepsSane(Next(w, steps[0]), steps[1..]);
    }
  }

  // ------------------------------------------------ calls without interruption

  /** A heartbeat that nothing gets in between is the action Beat. */
  lemma {:induction false} UninterruptedBeat(w: World, b: nat, id: UUID, ready: bool)
    requires b !in w.beats && id in w.db.instances
    ensures var steps := [BeginBeat(b, id, ready), ReadRow(b), RecordRow(b), WriteRow(b)];
            Follows(w, steps) && AfterAll(w, steps) == w.(db := Apply(Fleet(w.db, w.now), Beat(id, ready)).db)
  {
    var w1 := Next(w, BeginBeat(b, id, ready));
    var w2 := Next(w1, ReadRow(b));
    var w3 := Next(w2, RecordRow(b));
    var w4 := Next(w3, WriteRow(b));
    assert w4.beats == w.beats;
    FourSteps(w, BeginBeat(b, id, ready), ReadRow(b), RecordRow(b), WriteRow(b));
    hide Transition, EvaluateStatus, Follows, AfterAll;
  }

  lemma {:induction false} FourSteps(w: World, a: Step, b: Step, c: Step, d: Step)
    requires Possible(w, a) && Possible(Next(w, a), b) && Possible(Next(Next(w, a), b), c)
    requires Possible(Next(Next(Next(w, a), b), c), d)
    ensures Follows(w, [a, b, c, d]) && AfterAll(w, [a, b, c, d]) == Next(Next(Next(Next(w, a), b), c), d)
  {
    hide Possible, Next;
    var w1 := Next(w, a);
    var w2 := Next(w1, b);
    FirstStep(Next(w2, c), d, []);
    FirstStep(w2, c, [d]);
    FirstStep(w1, b, [c, d]);
    FirstStep(w, a, [b, c, d]);
    assert [d] + [] == [d] && [c] + [d] == [c, d] && [b] + [c, d] == [b, c, d] && [a] + [b, c, d] == [a, b, c, d];
  }

  lemma {:induction false} FirstStep(w: World, st: Step, rest: seq<Step>)
    requires Possible(w, st) && Follows(Next(w, st), rest)
    ensures Follows(w, [st] + rest) && AfterAll(w, [st] + rest) == AfterAll(Next(w, st), rest)
  {
    hide Possible, Next;
    assert ([st] + rest)[1..] == rest;
  }

  function Writes(s: nat, n: nat): seq<Step> {
    if n == 0 then [EndSweep(s)] else [WriteNext(s)] + Writes(s, n - 1)
  }

  /** The sweep with these rows left, over these tables. */
  function WithLeft(w: World, db: Tables, s: nat, left: seq<Listed>): World {
    w.(db := db, sweeps := w.sweeps[s := Listing(w.now, left)])
  }

  predicate Present(order: seq<UUID>, instances: Instances) {
    forall id :: id in order ==> id in instances
  }

  lemma {:induction false} ListedArePresent(db: Tables, at: int, order: seq<UUID>)
    requires ListsStale(db, at, order)
    ensures Present(order, db.instances)
  {
  }

  /** The sweep after n of its rows. */
  function Halfway(w: World, s: nat, order: seq<UUID>, n: nat): World
    requires n <= |order| && Present(order, w.db.instances)
  {
    WithLeft(w, SweptTables(w.db, w.now, order, n), s, Snapshot(w.db.instances, order)[n..])
  }

  /** Nothing got in between: the row listed is the row there is. */
  lemma {:induction false} ListedIsThere(w: World, s: nat, order: seq<UUID>, n: nat)
    requires ListsStale(w.db, w.now, order) && n < |order|
    ensures var id := order[n];
            var db := SweptTables(w.db, w.now, order, n);
            var l := Listed(id, w.db.instances[id]);
            id in w.db.instances && id in db.instances
            && SweptTables(w.db, w.now, order, n + 1) ==
               if Changes(l, w.now) then Transition(db, id, Decided(l, w.now)) else db
  {
    SweptNext(w.db, w.now, order, n);
    SweepStep(w.db, w.now, order, n);
    hide SweptTables, Transition, EvaluateStatus, ListsStale;
  }

  lemma {:induction false} RestOfSnapshot(w: World, order: seq<UUID>, n: nat)
    requires (forall id :: id in order ==> id in w.db.instances) && n < |order|
    ensures order[n] in w.db.instances
    ensures var left := Snapshot(w.db.instances, order);
            left[n..] != [] && left[n..][0] == Listed(order[n], w.db.instances[order[n]]) && left[n..][1..] == left[n + 1..]
  {
    assert order[n] in order;
  }

  lemma {:induction false} NextIsWrite(w: World, s: nat)
    requires Possible(w, WriteNext(s))
    ensures Next(w, WriteNext(s)) == WriteListed(w, s, w.sweeps[s].at, w.sweeps[s].left)
  {
    hide WriteListed;
  }

  lemma {:induction false} LeftIsWritten(w: World, db: Tables, s: nat, left: seq<Listed>)
    requires left != [] && left[0].id in db.instances
    ensures var h := WithLeft(w, db, s, left);
            Possible(h, WriteNext(s))
            && Next(h, WriteNext(s)) ==
               WithLeft(w, if Changes(left[0], w.now) then Transition(db, left[0].id, Decided(left[0], w.now)) else db,
                        s, left[1..])
  {
    var h := WithLeft(w, db, s, left);
    hide Transition, Decided, Changes, Next;
    NextIsWrite(h, s);
    assert h.sweeps[s := Listing(w.now, left[1..])] == w.sweeps[s := Listing(w.now, left[1..])];
  }

  lemma {:induction false} WriteGoesOn(w: World, s: nat, order: seq<UUID>, n: nat)
    requires ListsStale(w.db, w.now, order) && n < |order|
    ensures Present(order, w.db.instances)
    ensures Possible(Halfway(w, s, order, n), WriteNext(s))
    ensures Next(Halfway(w, s, order, n), WriteNext(s)) == Halfway(w, s, order, n + 1)
  {
    RestOfSnapshot(w, order, n);
    ListedIsThere(w, s, order, n);
    hide SweptTables, Transition, Decided, Changes, Snapshot, Next, Possible, WithLeft;
    LeftIsWritten(w, SweptTables(w.db, w.now, order, n), s, Snapshot(w.db.instances, order)[n..]);
  }

  lemma {:induction false} SweepEnds(w: World, s: nat, order: seq<UUID>)
    requires Present(order, w.db.instances) && s !in w.sweeps
    ensures var h := Halfway(w, s, order, |order|);
            Possible(h, EndSweep(s)) && Next(h, EndSweep(s)) == w.(db := SweptTables(w.db, w.now, order, |order|))
  {
    hide SweptTables, Snapshot;
    assert Halfway(w, s, order, |order|).sweeps - {s} == w.sweeps;
  }

  lemma {:induction false} OneStep(w: World, st: Step)
    requires Possible(w, st)
    ensures Follows(w, [st]) && AfterAll(w, [st]) == Next(w, st)
  {
    hide Possible, Next;
    assert [st][1..] == [];
  }

  lemma {:induction false} WritesUnfold(s: nat, n: nat)
    ensures Writes(s, 0) == [EndSweep(s)] && Writes(s, n + 1) == [WriteNext(s)] + Writes(s, n)
  {
  }

  /** These steps lead from w to the world named. */
  predicate LeadsTo(w: World, steps: seq<Step>, last: World) {
    Follows(w, steps) && AfterAll(w, steps) == last
  }

  lemma {:induction false} LeadsOn(w: World, st: Step, rest: seq<Step>, last: World)
    requires Possible(w, st) && LeadsTo(Next(w, st), rest, last)
    ensures LeadsTo(w, [st] + rest, last)
  {
    hide Possible, Next;
    FirstStep(w, st, rest);
  }

  lemma {:induction false} EndLeadsTo(w: World, st: Step, last: World)
    requires Possible(w, st) && Next(w, st) == last
    ensures LeadsTo(w, [st], last)
  {
    hide Possible, Next;
    OneStep(w, st);
  }

  /** From the middle of the sweep its writes lead to the world named. */
  predicate EndsIn(w: World, s: nat, order: seq<UUID>, n: nat, last: World) {
    n <= |order| && Present(order, w.db.instances)
    && LeadsTo(Halfway(w, s, order, n), Writes(s, |order| - n), last)
  }

  lemma {:induction false} LastWrite(w: World, s: nat, order: seq<UUID>)
    requires ListsStale(w.db, w.now, order) && s !in w.sweeps
    ensures EndsIn(w, s, order, |order|, w.(db := SweptTables(w.db, w.now, order, |order|)))
  {
    ListedArePresent(w.db, w.now, order);
    hide Present, SweptTables, ListsStale, Possible, Next, Halfway, LeadsTo, Writes;
    WritesUnfold(s, 0);
    SweepEnds(w, s, order);
    EndLeadsTo(Halfway(w, s, order, |order|), EndSweep(s), w.(db := SweptTables(w.db, w.now, order, |order|)));
  }

  lemma {:induction false} OneMoreWrite(w: World, s: nat, order: seq<UUID>, n: nat, last: World)
    requires ListsStale(w.db, w.now, order) && n < |order| && EndsIn(w, s, order, n + 1, last)
    ensures EndsIn(w, s, order, n, last)
  {
    hide Present, SweptTables, ListsStale, Possible, Next, Halfway, LeadsTo, Writes;
    var left := |order| - (n + 1);
    WritesUnfold(s, left);
    WriteGoesOn(w, s, order, n);
    LeadsOn(Halfway(w, s, order, n), WriteNext(s), Writes(s, left), last);
  }

  lemma {:induction false} WritesEnd(w: World, s: nat, order: seq<UUID>, n: nat)
    requires ListsStale(w.db, w.now, order) && n <= |order| && s !in w.sweeps
    ensures EndsIn(w, s, order, n, w.(db := SweptTables(w.db, w.now, order, |order|)))
    decreases |order| - n
  {
    ListedArePresent(w.db, w.now, order);
    hide EndsIn, ListsStale, SweptTables, Present;
    if n == |order| {
      LastWrite(w, s, order);
    } else {
      WritesEnd(w, s, order, n + 1);
      OneMoreWrite(w, s, order, n, w.(db := SweptTables(w.db, w.now, order, |order|)));
    }
  }

  lemma {:induction false} SweepIsListed(w: World, s: nat, order: seq<UUID>)
    requires s !in w.sweeps && ListsStale(w.db, w.now, order)
    ensures Possible(w, BeginSweep(s)) && Possible(Next(w, BeginSweep(s)), ListRows(s, order))
    ensures Present(order, w.db.instances)
    ensures Next(Next(w, BeginSweep(s)), ListRows(s, order)) == Halfway(w, s, order, 0)
  {
    NoRowsNoEvents(w.db, w.now, order);
    hide SweptTables, ListsStale, Snapshot;
    var left := Snapshot(w.db.instances, order);
    assert left[0..] == left;
  }

  lemma {:induction false} TwoInFront(a: Step, b: Step, rest: seq<Step>)
    ensures [a] + ([b] + rest) == [a, b] + rest
  {
  }

  lemma {:induction false} SweepAction(w: World, order: seq<UUID>)
    requires ListsStale(w.db, w.now, order)
    ensures Apply(Fleet(w.db, w.now), Sweep(order)).db == SweptTables(w.db, w.now, order, |order|)
  {
    hide SweptTables, ListsStale;
  }

  /** A sweep that nothing gets in between is the action Sweep. */
  lemma {:induction false} UninterruptedSweep(w: World, s: nat, order: seq<UUID>)
    requires s !in w.sweeps && ListsStale(w.db, w.now, order)
    ensures var steps := [BeginSweep(s), ListRows(s, order)] + Writes(s, |order|);
            Follows(w, steps) && AfterAll(w, steps) == w.(db := Apply(Fleet(w.db, w.now), Sweep(order)).db)
  {
    SweepIsListed(w, s, order);
    SweepAction(w, order);
    WritesEnd(w, s, order, 0);
    hide Possible, Next, Follows, AfterAll, Writes, SweptTables, ListsStale, Halfway, Apply, Enabled;
    var w1 := Next(w, BeginSweep(s));
    var writes := Writes(s, |order|);
    FirstStep(w1, ListRows(s, order), writes);
    FirstStep(w, BeginSweep(s), [ListRows(s, order)] + writes);
    TwoInFront(BeginSweep(s), ListRows(s, order), writes);
  }
}
