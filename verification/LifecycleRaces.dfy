/**
  What overlapping sweeps and heartbeats do to the lifecycle. For each promise that holds of calls
  one at a time, the exact steps that break it when calls overlap: that an unreachable instance has
  been silent for a minute, that evicted and deregistered are left by enrollment alone, and that an
  instance nobody talks to only moves forward.
 */
module LifecycleRaces {
  import opened Bytes
  import opened GoTime
  import opened ArgusRepository
  import opened Lifecycle
  import opened LifecycleSteps

  function Empty(tokens: Tokens, now: int): World {
    World(Tables(tokens, map[], []), now, {}, map[], map[])
  }

  // ------------------------------------- unreachable means silent, or not

  predicate Silent(i: Instance, now: int) {
    i.lastHeartbeatAt.Some? && now - i.lastHeartbeatAt.value >= 60 * SECOND
  }

  /** The call has recorded its heartbeat and is about to write another status than it read. */
  predicate WillWrite(c: BeatCall) {
    c.HasRecorded? && BeatDecided(c) != c.status
  }

  predicate Awaited(w: World, id: UUID) {
    exists b :: b in w.beats && w.beats[b].id == id && WillWrite(w.beats[b])
  }

  /** An unreachable instance has been silent for a minute, or a heartbeat is about to say otherwise. */
  predicate InOrderAt(w: World, id: UUID) {
    id in w.db.instances && w.db.instances[id].status == Unreachable ==>
      Silent(w.db.instances[id], w.now) || Awaited(w, id)
  }

  ghost predicate InOrder(w: World) {
    forall id :: InOrderAt(w, id)
  }

  /** The instance stands unreachable but has been heard of, and no open call but this one will say so. */
  predicate HeardAlone(w: World, id: UUID, b: nat) {
    id in w.db.instances && w.db.instances[id].status == Unreachable && !Silent(w.db.instances[id], w.now)
    && !Awaited(w.(beats := w.beats - {b}), id)
  }

  /**
    The steps that leave an instance unreachable that has been heard of within the minute: a sweep
    that writes what it decided on before; a heartbeat that found another status when it read the row
    and so writes none; and a heartbeat that fails between its two writes.
   */
  predicate Misjudges(w: World, st: Step) {
    match st
    case WriteNext(s) =>
      s in w.sweeps && w.sweeps[s].Listing? && w.sweeps[s].left != []
      && var l, at := w.sweeps[s].left[0], w.sweeps[s].at;
         Changes(l, at) && Decided(l, at) == Unreachable
         && l.id in w.db.instances && !Silent(w.db.instances[l.id], w.now) && !Awaited(w, l.id)
    case RecordRow(b) =>
      b in w.beats && w.beats[b].HasRead?
      && var c := w.beats[b];
         BeatDecided(c) == c.status && c.id in w.db.instances && w.db.instances[c.id].status == Unreachable
         && w.now - c.at < 60 * SECOND && !Awaited(w, c.id)
    case EndBeat(b) => b in w.beats && WillWrite(w.beats[b]) && HeardAlone(w, w.beats[b].id, b)
    case _ => false
  }

  lemma {:induction false} AwaitedIs(w: World, w': World, id: UUID)
    requires w.beats == w'.beats
    ensures Awaited(w, id) == Awaited(w', id)
  {
  }

  /** A call that does not wait to write is not awaited. */
  lemma {:induction false} AwaitedWithout(w: World, w': World, b: nat, id: UUID)
    requires forall x :: x in w.beats && x != b ==> x in w'.beats && w'.beats[x] == w.beats[x]
    requires forall x :: x in w'.beats && x != b ==> x in w.beats
    requires b in w.beats ==> !WillWrite(w.beats[b]) || w.beats[b].id != id
    requires b in w'.beats ==> !WillWrite(w'.beats[b]) || w'.beats[b].id != id
    ensures Awaited(w, id) == Awaited(w', id)
  {
    hide WillWrite;
    if Awaited(w, id) {
      var x :| x in w.beats && w.beats[x].id == id && WillWrite(w.beats[x]);
      assert x in w'.beats && w'.beats[x] == w.beats[x];
    }
    if Awaited(w', id) {
      var x :| x in w'.beats && w'.beats[x].id == id && WillWrite(w'.beats[x]);
      assert x in w.beats && w'.beats[x] == w.beats[x];
    }
  }

  lemma {:induction false} BeatDecides(c: BeatCall)
    requires !c.Begins?
    ensures BeatDecided(c) == if IsTerminal(c.status) then c.status else if c.ready then Healthy else Degraded
  {
  }

  /** Where the rows and the clock stay, order depends on who is awaited alone. */
  lemma {:induction false} SameRowsSameOrder(w: World, w': World, x: UUID)
    requires InOrder(w) && w'.db.instances == w.db.instances && w'.now == w.now
    requires forall id :: id != x ==> Awaited(w', id) == Awaited(w, id)
    ensures InOrder(w') <==> InOrderAt(w', x)
  {
    hide Awaited, Silent;
    forall id | id != x ensures InOrderAt(w', id) {
      assert InOrderAt(w, id);
    }
  }

  /** Where one row changes and no other is awaited more or less, order depends on that row. */
  lemma {:induction false} OneRowOrder(w: World, w': World, x: UUID)
    requires InOrder(w) && w'.now == w.now && x in w.db.instances && x in w'.db.instances
    requires w'.db.instances == w.db.instances[x := w'.db.instances[x]]
    requires forall id :: id != x ==> Awaited(w', id) == Awaited(w, id)
    ensures InOrder(w') <==> InOrderAt(w', x)
  {
    hide Awaited, Silent;
    forall id | id != x ensures InOrderAt(w', id) {
      assert InOrderAt(w, id);
    }
  }

  lemma {:induction false} LookOrder(w: World, st: Step)
    requires InOrder(w) && Possible(w, st) && Looks(st) && !st.EndBeat?
    ensures InOrder(Next(w, st)) && !Misjudges(w, st)
  {
    var w' := Next(w, st);
    forall id ensures Awaited(w', id) == Awaited(w, id) {
      if st.BeginBeat? || st.ReadRow? {
        AwaitedWithout(w, w', st.b, id);
      } else {
        AwaitedIs(w, w', id);
      }
    }
    hide Awaited;
    forall id ensures InOrderAt(w', id) {
      assert InOrderAt(w, id);
    }
  }

  lemma {:induction false} EndBeatOrder(w: World, st: Step)
    requires InOrder(w) && Possible(w, st) && st.EndBeat?
    ensures InOrder(Next(w, st)) <==> !Misjudges(w, st)
  {
    var w' := Next(w, st);
    var c := w.beats[st.b];
    forall id | id != c.id || !WillWrite(c) ensures Awaited(w', id) == Awaited(w, id) {
      AwaitedWithout(w, w', st.b, id);
    }
    hide Awaited, WillWrite, Silent;
    SameRowsSameOrder(w, w', c.id);
    assert InOrderAt(w, c.id);
  }

  lemma {:induction false} SweepOrder(w: World, st: Step)
    requires InOrder(w) && Possible(w, st) && st.WriteNext?
    ensures InOrder(Next(w, st)) <==> !Misjudges(w, st)
  {
    var w' := Next(w, st);
    var c := w.sweeps[st.s];
    var l := c.left[0];
    TransitionIs(w.db, l.id, Decided(l, c.at));
    hide Awaited, Silent, Transition, EvaluateStatus;
    forall id ensures Awaited(w', id) == Awaited(w, id) {
      AwaitedIs(w, w', id);
    }
    if Changes(l, c.at) && l.id in w.db.instances {
      OneRowOrder(w, w', l.id);
    } else {
      SameRowsSameOrder(w, w', l.id);
      assert InOrderAt(w, l.id);
    }
  }

  lemma {:induction false} RecordOrder(w: World, st: Step)
    requires InOrder(w) && Possible(w, st) && st.RecordRow?
    ensures InOrder(Next(w, st)) <==> !Misjudges(w, st)
  {
    var w' := Next(w, st);
    var c := w.beats[st.b];
    forall id | id != c.id || BeatDecided(c) == c.status || c.id !in w.db.instances
      ensures Awaited(w', id) == Awaited(w, id)
    {
      AwaitedWithout(w, w', st.b, id);
    }
    if c.id in w.db.instances {
      assert BeatDecided(c) != c.status ==> WillWrite(w'.beats[st.b]);
      assert BeatDecided(c) != c.status ==> Awaited(w', c.id);
      hide Awaited;
      OneRowOrder(w, w', c.id);
    } else {
      hide Awaited;
      SameRowsSameOrder(w, w', c.id);
      assert InOrderAt(w, c.id);
    }
  }

  lemma {:induction false} WriteOrder(w: World, st: Step)
    requires InOrder(w) && Possible(w, st) && st.WriteRow?
    ensures InOrder(Next(w, st)) && !Misjudges(w, st)
  {
    var w' := Next(w, st);
    var c := w.beats[st.b];
    BeatDecides(c);
    TransitionIs(w.db, c.id, BeatDecided(c));
    forall id | id != c.id || BeatDecided(c) == c.status ensures Awaited(w', id) == Awaited(w, id) {
      AwaitedWithout(w, w', st.b, id);
    }
    hide Awaited, Silent, Transition, EvaluateStatus;
    assert InOrderAt(w, c.id);
    if BeatDecided(c) != c.status && c.id in w.db.instances {
      OneRowOrder(w, w', c.id);
    } else {
      SameRowsSameOrder(w, w', c.id);
    }
  }

  lemma {:induction false} WholeOrder(w: World, st: Step)
    requires Sane(w) && InOrder(w) && Possible(w, st) && st.Whole?
    ensures InOrder(Next(w, st)) && !Misjudges(w, st)
  {
    var w' := Next(w, st);
    WholeTime(w, st.action);
    var a := st.action;
    if a.RegisterRpc? || a.RegisterByHand? {
      EnrollRows(w, a);
      EnrolledStatus(w, a);
    } else {
      OtherRows(w, a);
    }
    hide Awaited, Next, Possible, Sane;
    forall id ensures InOrderAt(w', id) {
      AwaitedIs(w, w', id);
      assert InOrderAt(w, id);
    }
  }

  lemma {:induction false} EnrolledStatus(w: World, a: Action)
    requires Possible(w, Whole(a)) && (a.RegisterRpc? || a.RegisterByHand?)
    ensures var w' := Next(w, Whole(a));
            a.id in w'.db.instances
            && (w'.db.instances[a.id].status == Unreachable ==>
                  a.id in w.db.instances && w.db.instances[a.id].status == Unreachable)
  {
  }

  /** From an orderly state a step leads to an orderly one if and only if it does not misjudge. */
  lemma {:induction false} StepInOrderIff(w: World, st: Step)
    requires Sane(w) && InOrder(w) && Possible(w, st)
    ensures InOrder(Next(w, st)) <==> !Misjudges(w, st)
  {
    hide Sane, InOrder, Possible, Next, Misjudges;
    match st
    case WriteNext(_) => SweepOrder(w, st);
    case RecordRow(_) => RecordOrder(w, st);
    case WriteRow(_) => WriteOrder(w, st);
    case EndBeat(_) => EndBeatOrder(w, st);
    case Whole(_) => WholeOrder(w, st);
    case _ => LookOrder(w, st);
  }

  ghost predicate OrderedThroughout(w: World, steps: seq<Step>)
    requires Follows(w, steps)
    decreases |steps|
  {
    InOrder(w) && (steps != [] ==> OrderedThroughout(Next(w, steps[0]), steps[1..]))
  }

  predicate MisjudgesNowhere(w: World, steps: seq<Step>)
    requires Follows(w, steps)
    decreases |steps|
  {
    steps != [] ==> !Misjudges(w, steps[0]) && MisjudgesNowhere(Next(w, steps[0]), steps[1..])
  }

  lemma {:induction false} RunInOrderIff(w: World, steps: seq<Step>)
    requires Sane(w) && InOrder(w) && Follows(w, steps)
    ensures OrderedThroughout(w, steps) <==> MisjudgesNowhere(w, steps)
    decreases |steps|
  {
    hide Sane, InOrder, Possible, Next, Misjudges;
    if steps != [] {
      StepInOrderIff(w, steps[0]);
      StepKeepsSane(w, steps[0]);
      if !Misjudges(w, steps[0]) {
        RunInOrderIff(Next(w, steps[0]), steps[1..]);
      } else {
        OutOfOrder(Next(w, steps[0]), steps[1..]);
      }
    }
  }

  lemma {:induction false} OutOfOrder(w: World, steps: seq<Step>)
    requires Follows(w, steps) && !InOrder(w)
    ensures !OrderedThroughout(w, steps)
  {
  }

  /**
    From an empty registry, whatever calls overlap: keys are unique, no heartbeat lies in the future
    and a status that speaks of heartbeats has one behind it. That an unreachable instance has been
    silent for a minute holds in every state of a run if and only if no step of it misjudges.
   */
  lemma {:induction false} InterleavedFleet(tokens: Tokens, start: int, steps: seq<Step>)
    requires Follows(Empty(tokens, start), steps)
    ensures var w := AfterAll(Empty(tokens, start), steps);
            KeysUnique(w.db.instances)
            && forall id :: id in w.db.instances ==>
                 match w.db.instances[id].lastHeartbeatAt
                 case None =>
                   var s := w.db.instances[id].status;
                   s == Pending || s == Registering || s == Evicted || s == Deregistered
                 case Some(t) => t <= w.now
    ensures OrderedThroughout(Empty(tokens, start), steps) <==> MisjudgesNowhere(Empty(tokens, start), steps)
  {
    var w := Empty(tokens, start);
    assert Sane(w) && InOrder(w);
    hide InOrder, Next, Possible;
    RunKeepsSane(w, steps);
    RunInOrderIff(w, steps);
    var end := AfterAll(w, steps);
    forall id | id in end.db.instances {
      RowSaneIs(end.db.instances[id], end.now);
    }
  }

  // ------------------------------------------- what a late write does, exactly

  /** What silence of this length makes of a listed row. */
  function Decay(silence: int): Status {
    if silence >= 24 * HOUR then Evicted else if silence >= 60 * SECOND then Unreachable else Degraded
  }

  function SilenceAt(l: Listed, at: int): int
    requires l.row.lastHeartbeatAt.Some?
  {
    at - l.row.lastHeartbeatAt.value
  }

  lemma {:induction false} DecidedIs(l: Listed, at: int)
    requires IsStale(l.row, at - STALE_AFTER)
    ensures !IsTerminal(l.row.status) && Decided(l, at) == Decay(SilenceAt(l, at))
  {
    Thresholds(l.row.status, l.row.lastHeartbeatAt.value, false, at);
  }

  lemma {:induction false} NextListed(w: World, s: nat)
    requires Sane(w) && Possible(w, WriteNext(s))
    ensures var l, at := w.sweeps[s].left[0], w.sweeps[s].at;
            IsStale(l.row, at - STALE_AFTER) && Decided(l, at) == Decay(SilenceAt(l, at)) && HasBeat(w, l.id)
  {
    assert SweepSane(w, w.sweeps[s]);
    DecidedIs(w.sweeps[s].left[0], w.sweeps[s].at);
  }

  /**
    A sweep writes the status for the silence it saw when it listed the row, if that differs from the
    status it saw, whatever the row is by now. A row in order stays so if and only if nothing or
    another status than unreachable is written, or the heartbeat is a minute old at the write too. A
    terminal row is brought back if and only if something is written and the silence seen was short of
    24 hours.
   */
  lemma {:induction false} LateSweepExactly(w: World, s: nat)
    requires Sane(w) && Possible(w, WriteNext(s)) && w.sweeps[s].left[0].id in w.db.instances
    ensures var l := w.sweeps[s].left[0];
            var w' := Next(w, WriteNext(s));
            var silence := SilenceAt(l, w.sweeps[s].at);
            var before := w.db.instances[l.id];
            var writes := Decay(silence) != l.row.status;
            silence > 30 * SECOND
            && w'.db.instances == w.db.instances[l.id := if writes then before.(status := Decay(silence)) else before]
            && w'.db.events == w.db.events + (if writes then [Event(l.id, EventOf(Decay(silence)).value)] else [])
            && (RowInOrder(before, w.now) ==>
                  (RowInOrder(w'.db.instances[l.id], w'.now) <==>
                     !writes || silence < 60 * SECOND || silence >= 24 * HOUR || Silent(before, w.now)))
            && (IsTerminal(before.status) ==>
                  (!IsTerminal(w'.db.instances[l.id].status) <==> writes && silence < 24 * HOUR))
  {
    NextListed(w, s);
  }

  /**
    A heartbeat writes healthy or degraded over a row it found in another status that was not
    terminal, whatever the row is by now; so it brings back every row that became terminal since.
   */
  lemma {:induction false} LateBeatExactly(w: World, b: nat)
    requires Sane(w) && Possible(w, WriteRow(b)) && w.beats[b].id in w.db.instances
    ensures var c := w.beats[b];
            var w' := Next(w, WriteRow(b));
            var before := w.db.instances[c.id];
            var told := if c.ready then Healthy else Degraded;
            var writes := !IsTerminal(c.status) && told != c.status;
            w'.db.instances == w.db.instances[c.id := if writes then before.(status := told) else before]
            && (IsTerminal(before.status) ==> (!IsTerminal(w'.db.instances[c.id].status) <==> writes))
  {
    BeatDecides(w.beats[b]);
    TransitionIs(w.db, w.beats[b].id, BeatDecided(w.beats[b]));
    hide Transition, EvaluateStatus;
  }

  // ------------------------------------------------- when terminal is final

  /** This heartbeat has read the row as one it may write over. */
  predicate BeatRevives(c: BeatCall, id: UUID) {
    !c.Begins? && c.id == id && !IsTerminal(c.status) && c.status != if c.ready then Healthy else Degraded
  }

  /** This listed row is one the sweep will write a live status to. */
  predicate ListedRevives(l: Listed, at: int, id: UUID) {
    l.id == id && Changes(l, at) && !IsTerminal(Decided(l, at))
  }

  /** The k-th row of its list revives the instance, and no earlier write fails for want of its row. */
  predicate SweepRevives(w: World, s: nat, k: nat, id: UUID) {
    s in w.sweeps && w.sweeps[s].Listing? && k < |w.sweeps[s].left|
    && ListedRevives(w.sweeps[s].left[k], w.sweeps[s].at, id)
    && forall j :: 0 <= j < k ==> Changes(w.sweeps[s].left[j], w.sweeps[s].at) ==> w.sweeps[s].left[j].id in w.db.instances
  }

  /** No call that is open decided, or will have to decide, on what the instance was before. */
  ghost predicate NoLateWriter(w: World, id: UUID) {
    (forall b :: b in w.beats ==> !BeatRevives(w.beats[b], id)) && (forall s, k :: !SweepRevives(w, s, k, id))
  }

  /** The step is not the enrollment of this instance and does not prune its row. */
  predicate Spares(st: Step, id: UUID) {
    st.Whole? ==> !(st.action.RegisterRpc? && st.action.id == id) && !(st.action.PruneOld? && id in st.action.rows)
  }

  predicate IsFinished(w: World, id: UUID) {
    id in w.db.instances && IsTerminal(w.db.instances[id].status)
  }

  /** A list that is shorter at the front, or over fewer of the old rows, revives no more. */
  lemma {:induction false} NoNewSweepWriter(w: World, w': World, id: UUID, s: nat)
    requires Sane(w) && Continues(w, w') && NoLateWriter(w, id)
    requires forall x :: x in w'.sweeps && x != s ==> x in w.sweeps && w'.sweeps[x] == w.sweeps[x]
    requires forall k :: !SweepRevives(w', s, k, id)
    ensures forall x, k :: !SweepRevives(w', x, k, id)
  {
    forall x, k ensures !SweepRevives(w', x, k, id) {
      if SweepRevives(w', x, k, id) && x != s {
        ReachesAsBefore(w, w', x, k, id);
      }
    }
  }

  lemma {:induction false} ReachesAsBefore(w: World, w': World, s: nat, k: nat, id: UUID)
    requires Sane(w) && Continues(w, w') && SweepRevives(w', s, k, id) && s in w.sweeps && w.sweeps[s] == w'.sweeps[s]
    ensures SweepRevives(w, s, k, id)
  {
    assert SweepSane(w, w.sweeps[s]);
    hide Changes, Decided, IsStale;
    forall j | 0 <= j < k && Changes(w.sweeps[s].left[j], w.sweeps[s].at)
      ensures w.sweeps[s].left[j].id in w.db.instances
    {
      assert HasBeat(w, w.sweeps[s].left[j].id);
    }
  }

  lemma {:induction false} FinishedStays(w: World, st: Step, id: UUID)
    requires Sane(w) && Possible(w, st) && IsFinished(w, id) && NoLateWriter(w, id) && Spares(st, id)
    ensures IsFinished(Next(w, st), id)
  {
    match st
    case WriteNext(s) =>
      var c := w.sweeps[s];
      TransitionIs(w.db, c.left[0].id, Decided(c.left[0], c.at));
      assert !SweepRevives(w, s, 0, id);
      hide Transition, EvaluateStatus, Sane;
    case WriteRow(b) =>
      BeatDecides(w.beats[b]);
      TransitionIs(w.db, w.beats[b].id, BeatDecided(w.beats[b]));
      hide Transition, EvaluateStatus, Sane, SweepRevives;
    case Whole(a) =>
      WholeFinished(w, a, id);
    case _ =>
  }

  lemma {:induction false} WholeFinished(w: World, a: Action, id: UUID)
    requires Possible(w, Whole(a)) && IsFinished(w, id) && Spares(Whole(a), id)
    ensures IsFinished(Next(w, Whole(a)), id)
  {
  }

  lemma {:induction false} NoNewBeatWriter(w: World, st: Step, id: UUID)
    requires Possible(w, st) && IsFinished(w, id) && NoLateWriter(w, id)
    ensures forall b :: b in Next(w, st).beats ==> !BeatRevives(Next(w, st).beats[b], id)
  {
    hide SweepRevives, EvaluateStatus, Transition, ListsStale, Apply, Enabled;
  }

  lemma {:induction false} ListingRevivesNothing(w: World, s: nat, order: seq<UUID>, id: UUID)
    requires Possible(w, ListRows(s, order)) && IsFinished(w, id)
    ensures forall k :: !SweepRevives(Next(w, ListRows(s, order)), s, k, id)
  {
    var left := Snapshot(w.db.instances, order);
    forall k | 0 <= k < |left| ensures left[k].id != id {
      assert order[k] in order;
    }
    hide Changes, Decided, ListsStale, Snapshot;
  }

  lemma {:induction false} RestRevivedBefore(w: World, s: nat, k: nat, id: UUID)
    requires Possible(w, WriteNext(s)) && SweepRevives(Next(w, WriteNext(s)), s, k, id)
    ensures SweepRevives(w, s, k + 1, id)
  {
    var w' := Next(w, WriteNext(s));
    var c := w.sweeps[s];
    TransitionIs(w.db, c.left[0].id, Decided(c.left[0], c.at));
    hide Transition, Decided, ListedRevives;
    forall j | 0 <= j < k + 1 && Changes(c.left[j], c.at) ensures c.left[j].id in w.db.instances {
      if j > 0 {
        assert w'.sweeps[s].left[j - 1] == c.left[j];
      }
    }
  }

  lemma {:induction false} RestRevivesNoMore(w: World, s: nat, id: UUID)
    requires Possible(w, WriteNext(s)) && NoLateWriter(w, id)
    ensures forall k :: !SweepRevives(Next(w, WriteNext(s)), s, k, id)
  {
    hide SweepRevives, BeatRevives;
    forall k: nat ensures !SweepRevives(Next(w, WriteNext(s)), s, k, id) {
      if SweepRevives(Next(w, WriteNext(s)), s, k, id) {
        RestRevivedBefore(w, s, k, id);
      }
    }
  }

  lemma {:induction false} NoNewWriter(w: World, st: Step, id: UUID)
    requires Sane(w) && Possible(w, st) && IsFinished(w, id) && NoLateWriter(w, id)
    ensures NoLateWriter(Next(w, st), id)
  {
    var w' := Next(w, st);
    NoNewBeatWriter(w, st, id);
    StepKeepsSane(w, st);
    if st.ListRows? {
      ListingRevivesNothing(w, st.s, st.order, id);
    } else if st.WriteNext? {
      RestRevivesNoMore(w, st.s, id);
    }
    SweepsElsewhere(w, st);
    hide Sane, Continues, BeatRevives, IsFinished, Possible, Next, ListedRevives;
    if st.BeginSweep? || st.ListRows? || st.WriteNext? || st.EndSweep? {
      NoNewSweepWriter(w, w', id, st.s);
    } else {
      SameSweepWriters(w, w', id);
    }
  }

  /** A step of one sweep leaves the others as they are, and other steps leave all. */
  lemma {:induction false} SweepsElsewhere(w: World, st: Step)
    requires Possible(w, st)
    ensures var w' := Next(w, st);
            if st.BeginSweep? || st.ListRows? || st.WriteNext? || st.EndSweep? then
              (forall x :: x in w'.sweeps && x != st.s ==> x in w.sweeps && w'.sweeps[x] == w.sweeps[x])
              && (st.BeginSweep? ==> st.s in w'.sweeps && w'.sweeps[st.s].Begun?)
              && (st.EndSweep? ==> st.s !in w'.sweeps)
            else w'.sweeps == w.sweeps
  {
    hide EvaluateStatus, Transition, Apply, Enabled, ListsStale;
  }

  lemma {:induction false} SameSweepWriters(w: World, w': World, id: UUID)
    requires Sane(w) && Continues(w, w') && NoLateWriter(w, id) && w'.sweeps == w.sweeps
    ensures forall s, k :: !SweepRevives(w', s, k, id)
  {
    forall s: nat, k: nat ensures !SweepRevives(w', s, k, id) {
      if SweepRevives(w', s, k, id) {
        ReachesAsBefore(w, w', s, k, id);
      }
    }
  }

  lemma {:induction false} FinishedForGood(w: World, steps: seq<Step>, id: UUID)
    requires Sane(w) && IsFinished(w, id) && NoLateWriter(w, id) && Follows(w, steps)
    requires forall st :: st in steps ==> Spares(st, id)
    ensures IsFinished(AfterAll(w, steps), id)
    decreases |steps|
  {
    hide Sane, Possible, Next, IsFinished, NoLateWriter, Spares;
    if steps != [] {
      assert steps[0] in steps;
      FinishedStays(w, steps[0], id);
      NoNewWriter(w, steps[0], id);
      StepKeepsSane(w, steps[0]);
      FinishedForGood(Next(w, steps[0]), steps[1..], id);
    }
  }

  lemma {:induction false} RestStillRevives(w: World, s: nat, k: nat, id: UUID)
    requires IsFinished(w, id) && SweepRevives(w, s, k, id)
    ensures Possible(w, WriteNext(s))
    ensures var w' := Next(w, WriteNext(s));
            id in w'.db.instances && if k == 0 then !IsFinished(w', id) else SweepRevives(w', s, k - 1, id)
  {
    var c := w.sweeps[s];
    TransitionIs(w.db, c.left[0].id, Decided(c.left[0], c.at));
    hide Transition, Decided;
  }

  lemma {:induction false} SweepGetsThere(w: World, s: nat, k: nat, id: UUID) returns (steps: seq<Step>)
    requires IsFinished(w, id) && SweepRevives(w, s, k, id)
    ensures Follows(w, steps) && (forall st :: st in steps ==> Spares(st, id))
    ensures id in AfterAll(w, steps).db.instances && !IsFinished(AfterAll(w, steps), id)
    decreases k
  {
    RestStillRevives(w, s, k, id);
    hide SweepRevives, Possible, Next;
    var w' := Next(w, WriteNext(s));
    if !IsFinished(w', id) {
      FirstStep(w, WriteNext(s), []);
      steps := [WriteNext(s)] + [];
    } else {
      var rest := SweepGetsThere(w', s, k - 1, id);
      FirstStep(w, WriteNext(s), rest);
      steps := [WriteNext(s)] + rest;
    }
  }

  lemma {:induction false} BeatGetsThere(w: World, b: nat, id: UUID) returns (steps: seq<Step>)
    requires IsFinished(w, id) && b in w.beats && BeatRevives(w.beats[b], id)
    ensures Follows(w, steps) && (forall st :: st in steps ==> Spares(st, id))
    ensures id in AfterAll(w, steps).db.instances && !IsFinished(AfterAll(w, steps), id)
    decreases if b in w.beats && w.beats[b].HasRead? then 1 else 0
  {
    if w.beats[b].HasRead? {
      var rest := BeatGetsThere(Next(w, RecordRow(b)), b, id);
      steps := [RecordRow(b)] + rest;
      assert steps[1..] == rest;
    } else {
      BeatDecides(w.beats[b]);
      TransitionIs(w.db, id, BeatDecided(w.beats[b]));
      hide Transition, EvaluateStatus;
      steps := [WriteRow(b)];
      assert steps[1..] == [];
    }
  }

  /**
    An evicted or deregistered instance stays so in every run in which it does not enroll and is not
    pruned, if and only if no call that is open has yet to write to it on the strength of what it was.
   */
  lemma {:induction false} TerminalIsFinalIff(w: World, id: UUID)
    requires Sane(w) && IsFinished(w, id)
    ensures NoLateWriter(w, id) <==>
            forall steps :: Follows(w, steps) && (forall st :: st in steps ==> Spares(st, id))
              ==> IsFinished(AfterAll(w, steps), id)
  {
    hide Sane, IsFinished, Follows, AfterAll, Spares, BeatRevives, SweepRevives;
    if NoLateWriter(w, id) {
      forall steps | Follows(w, steps) && (forall st :: st in steps ==> Spares(st, id))
        ensures IsFinished(AfterAll(w, steps), id)
      {
        FinishedForGood(w, steps, id);
      }
    } else if exists b :: b in w.beats && BeatRevives(w.beats[b], id) {
      var b :| b in w.beats && BeatRevives(w.beats[b], id);
      var steps := BeatGetsThere(w, b, id);
    } else {
      var s: nat, k: nat :| SweepRevives(w, s, k, id);
      var steps := SweepGetsThere(w, s, k, id);
    }
  }

  // ------------------------------------------- an instance left alone decays

  /** The step does not begin a heartbeat of this instance and leaves it alone otherwise. */
  predicate Ignores(st: Step, id: UUID) {
    match st
    case BeginBeat(_, x, _) => x != id
    case Whole(a) => LeavesAlone(a, id)
    case _ => true
  }

  predicate NoBeatOpen(w: World, id: UUID) {
    forall b :: b in w.beats ==> w.beats[b].id != id
  }

  /** A sweep writes a status that ranks below the one that stands there by now. */
  predicate MovesBack(w: World, st: Step, id: UUID) {
    st.WriteNext? && Possible(w, st) && id in w.db.instances
    && var l, at := w.sweeps[st.s].left[0], w.sweeps[st.s].at;
       l.id == id && l.row.lastHeartbeatAt.Some? && Decay(SilenceAt(l, at)) != l.row.status
       && Rank(Decay(SilenceAt(l, at))) < Rank(w.db.instances[id].status)
  }

  /** Only a sweep writes to an instance that is left alone, and only its status. */
  lemma {:induction false} QuietStepExactly(w: World, st: Step, id: UUID)
    requires Sane(w) && Possible(w, st) && Ignores(st, id) && NoBeatOpen(w, id) && id in w.db.instances
    ensures var i := w.db.instances[id];
            var w' := Next(w, st);
            NoBeatOpen(w', id) && id in w'.db.instances
            && w'.db.instances[id] == i.(status := w'.db.instances[id].status)
            && (w'.db.instances[id].status != i.status ==> st.WriteNext? && w.sweeps[st.s].left[0].id == id)
            && (Rank(w'.db.instances[id].status) < Rank(i.status) <==> MovesBack(w, st, id))
  {
    match st
    case WriteNext(s) =>
      if w.sweeps[s].left[0].id in w.db.instances {
        LateSweepExactly(w, s);
      }
      NextListed(w, s);
      hide Sane, EvaluateStatus, Transition, Rank, Decay;
    case WriteRow(b) =>
      TransitionIs(w.db, w.beats[b].id, BeatDecided(w.beats[b]));
      hide Sane, EvaluateStatus, Transition;
    case Whole(a) => WholeQuiet(w, a, id);
    case _ =>
      hide Sane, EvaluateStatus, Transition;
  }

  lemma {:induction false} WholeQuiet(w: World, a: Action, id: UUID)
    requires Possible(w, Whole(a)) && LeavesAlone(a, id) && id in w.db.instances
    ensures id in Next(w, Whole(a)).db.instances && Next(w, Whole(a)).db.instances[id] == w.db.instances[id]
    ensures Next(w, Whole(a)).beats == w.beats && Next(w, Whole(a)).sweeps == w.sweeps && w.now <= Next(w, Whole(a)).now
  {
  }

  /** The list names each row once, and this one as it still is. */
  predicate ListsAsIs(left: seq<Listed>, id: UUID, i: Instance) {
    (forall j, k :: 0 <= j < k < |left| ==> left[j].id != left[k].id)
    && forall j :: 0 <= j < |left| && left[j].id == id ==> left[j].row == i
  }

  /** At most one sweep is open, and what it knows of the instance is so. */
  predicate Watched(w: World, id: UUID) {
    id in w.db.instances && NoBeatOpen(w, id) && RowInOrder(w.db.instances[id], w.now)
    && (forall s, t :: s in w.sweeps && t in w.sweeps ==> s == t)
    && forall s :: s in w.sweeps ==>
         RowInOrder(w.db.instances[id], w.sweeps[s].at)
         && (w.sweeps[s].Listing? ==> ListsAsIs(w.sweeps[s].left, id, w.db.instances[id]))
  }

  /** A sweep begins only when none is open. */
  predicate InTurn(w: World, st: Step) {
    st.BeginSweep? ==> w.sweeps == map[]
  }

  lemma {:induction false} SnapshotIsAsIs(w: World, at: int, order: seq<UUID>, id: UUID)
    requires ListsStale(w.db, at, order) && id in w.db.instances
    ensures ListsAsIs(Snapshot(w.db.instances, order), id, w.db.instances[id])
  {
  }

  lemma {:induction false} RestIsAsIs(left: seq<Listed>, id: UUID, i: Instance, j: Instance)
    requires left != [] && ListsAsIs(left, id, i) && (left[0].id != id ==> i == j)
    ensures ListsAsIs(left[1..], id, j)
  {
  }

  /** Of a row that was in order when the sweep began, the sweep decides on a status further on. */
  lemma {:induction false} DecayGoesOn(i: Instance, at: int)
    requires RowInOrder(i, at) && IsStale(i, at - STALE_AFTER)
    ensures var s := Decay(at - i.lastHeartbeatAt.value);
            Rank(i.status) <= Rank(s) && RowInOrder(i.(status := s), at)
            && SilentLongEnough(s, at - i.lastHeartbeatAt.value)
  {
  }

  lemma {:induction false} LaterIsInOrder(i: Instance, at: int, now: int)
    requires RowInOrder(i, at) && at <= now
    ensures RowInOrder(i, now)
  {
  }

  lemma {:induction false} WatchedWrite(w: World, s: nat, id: UUID)
    requires Sane(w) && Watched(w, id) && Possible(w, WriteNext(s))
    ensures var i := w.db.instances[id];
            var w' := Next(w, WriteNext(s));
            Watched(w', id)
            && w'.db.instances[id] == i.(status := w'.db.instances[id].status)
            && Rank(i.status) <= Rank(w'.db.instances[id].status)
            && (w'.db.instances[id].status != i.status ==>
                  i.lastHeartbeatAt.Some?
                  && SilentLongEnough(w'.db.instances[id].status, w.now - i.lastHeartbeatAt.value))
  {
    var c := w.sweeps[s];
    var l := c.left[0];
    var i := w.db.instances[id];
    var w' := Next(w, WriteNext(s));
    QuietStepExactly(w, WriteNext(s), id);
    NextListed(w, s);
    assert SweepSane(w, c);
    if l.id == id {
      assert l.row == i;
      LateSweepExactly(w, s);
      DecayGoesOn(i, c.at);
      LaterIsInOrder(w'.db.instances[id], c.at, w.now);
    }
    RestIsAsIs(c.left, id, i, w'.db.instances[id]);
    hide Sane, EvaluateStatus, Transition, RowInOrder, Decay, ListsAsIs, NoBeatOpen;
  }

  lemma {:induction false} WatchedList(w: World, s: nat, order: seq<UUID>, id: UUID)
    requires Sane(w) && Watched(w, id) && Possible(w, ListRows(s, order))
    ensures Watched(Next(w, ListRows(s, order)), id)
  {
    SnapshotIsAsIs(w, w.sweeps[s].at, order, id);
    hide Sane, RowInOrder, ListsAsIs, Snapshot, ListsStale;
  }

  lemma {:induction false} WatchedWhole(w: World, a: Action, id: UUID)
    requires Sane(w) && Watched(w, id) && Possible(w, Whole(a)) && Ignores(Whole(a), id)
    ensures Watched(Next(w, Whole(a)), id)
  {
    WholeQuiet(w, a, id);
    LaterIsInOrder(w.db.instances[id], w.now, Next(w, Whole(a)).now);
    hide Sane, RowInOrder, ListsAsIs, Next;
  }

  /** The other steps leave this row and the clock as they are. */
  lemma {:induction false} WatchedOther(w: World, st: Step, id: UUID)
    requires Sane(w) && Watched(w, id) && Possible(w, st) && Ignores(st, id) && InTurn(w, st)
    requires !st.WriteNext? && !st.ListRows? && !st.Whole?
    ensures Watched(Next(w, st), id) && Next(w, st).db.instances[id] == w.db.instances[id]
  {
    var w' := Next(w, st);
    QuietStepExactly(w, st, id);
    assert w'.db.instances[id] == w.db.instances[id];
    assert w'.now == w.now;
    hide Sane, RowInOrder, ListsAsIs, NoBeatOpen, EvaluateStatus, Transition;
    assert forall s :: s in w'.sweeps ==> (s in w.sweeps && w'.sweeps[s] == w.sweeps[s]) || w'.sweeps == map[s := Begun(w.now)];
  }

  lemma {:induction false} WatchedStep(w: World, st: Step, id: UUID)
    requires Sane(w) && Watched(w, id) && Possible(w, st) && Ignores(st, id) && InTurn(w, st)
    ensures var i := w.db.instances[id];
            var w' := Next(w, st);
            Watched(w', id) && w.now <= w'.now
            && w'.db.instances[id] == i.(status := w'.db.instances[id].status)
            && Rank(i.status) <= Rank(w'.db.instances[id].status)
            && (w'.db.instances[id].status != i.status ==>
                  i.lastHeartbeatAt.Some?
                  && SilentLongEnough(w'.db.instances[id].status, w.now - i.lastHeartbeatAt.value))
  {
    StepKeepsSane(w, st);
    QuietStepExactly(w, st, id);
    hide Sane, Next, Possible, Ignores, InTurn, Rank, MovesBack, SilentLongEnough;
    match st
    case WriteNext(s) => WatchedWrite(w, s, id);
    case ListRows(s, order) => WatchedList(w, s, order, id);
    case Whole(a) => WatchedWhole(w, a, id);
    case _ => WatchedOther(w, st, id);
  }

  predicate OneSweepAtATime(w: World, steps: seq<Step>)
    requires Follows(w, steps)
    decreases |steps|
  {
    steps != [] ==> InTurn(w, steps[0]) && OneSweepAtATime(Next(w, steps[0]), steps[1..])
  }

  lemma {:induction false} WatchedDecays(w: World, steps: seq<Step>, id: UUID)
    requires Sane(w) && Watched(w, id) && Follows(w, steps) && OneSweepAtATime(w, steps)
    requires forall st :: st in steps ==> Ignores(st, id)
    ensures var i := w.db.instances[id];
            var w' := AfterAll(w, steps);
            id in w'.db.instances && w.now <= w'.now
            && w'.db.instances[id] == i.(status := w'.db.instances[id].status)
            && Rank(i.status) <= Rank(w'.db.instances[id].status)
            && (w'.db.instances[id].status != i.status ==>
                  i.lastHeartbeatAt.Some?
                  && SilentLongEnough(w'.db.instances[id].status, w'.now - i.lastHeartbeatAt.value))
    decreases |steps|
  {
    hide Sane, Possible, Next, Ignores, RowInOrder, ListsAsIs, NoBeatOpen, InTurn, Rank;
    if steps != [] {
      assert steps[0] in steps;
      WatchedStep(w, steps[0], id);
      StepKeepsSane(w, steps[0]);
      WatchedDecays(Next(w, steps[0]), steps[1..], id);
    }
  }

  /**
    As long as sweeps do not overlap each other, an instance that gets no heartbeat, registration or
    removal moves forward only along degraded, unreachable, evicted, and any new status is backed by
    that much silence, whatever other calls overlap.
   */
  lemma {:induction false} QuietDecaysUnlessSweepsOverlap(w: World, steps: seq<Step>, id: UUID)
    requires Sane(w) && id in w.db.instances && RowInOrder(w.db.instances[id], w.now)
    requires NoBeatOpen(w, id) && w.sweeps == map[]
    requires Follows(w, steps) && OneSweepAtATime(w, steps) && forall st :: st in steps ==> Ignores(st, id)
    ensures var i := w.db.instances[id];
            var w' := AfterAll(w, steps);
            id in w'.db.instances && w.now <= w'.now
            && w'.db.instances[id] == i.(status := w'.db.instances[id].status)
            && Rank(i.status) <= Rank(w'.db.instances[id].status)
            && (w'.db.instances[id].status != i.status ==>
                  i.lastHeartbeatAt.Some?
                  && SilentLongEnough(w'.db.instances[id].status, w'.now - i.lastHeartbeatAt.value))
  {
    hide Sane, Follows, AfterAll, Ignores, RowInOrder, Rank;
    WatchedDecays(w, steps, id);
  }

  // ------------------------------------------------------------- a witness

  /** One instance with these entries in the timeline. */
  function One(key: Key, s: Status, beat: Option<int>, events: seq<EventType>): Tables {
    Tables(map[], map[1 := Instance(key, s, beat, ByToken(0))], seq(|events|, i requires 0 <= i < |events| => Event(1, events[i])))
  }

  /** It enrolls, sends one heartbeat, and a sweep 31 s later lists it. */
  function ListedRun(key: Key): seq<Step> {
    [Whole(RegisterRpc(key, 0, 1))] + BEAT + [Whole(Tick(31 * SECOND)), BeginSweep(0), ListRows(0, [1])]
  }

  const BEAT := [BeginBeat(0, 1, true), ReadRow(0), RecordRow(0), WriteRow(0)]

  function ListedWorld(key: Key): World {
    var db := One(key, Healthy, Some(0), [EventRegistered]);
    World(db, 31 * SECOND, {1}, map[0 := Listing(31 * SECOND, [Listed(1, db.instances[1])])], map[])
  }

  lemma {:induction false} RunsJoin(w: World, a: seq<Step>, b: seq<Step>)
    requires Follows(w, a) && Follows(AfterAll(w, a), b)
    ensures Follows(w, a + b) && AfterAll(w, a + b) == AfterAll(AfterAll(w, a), b)
    decreases |a|
  {
    hide Possible, Next;
    if a == [] {
      assert a + b == b;
    } else {
      assert (a + b)[1..] == a[1..] + b;
      RunsJoin(Next(w, a[0]), a[1..], b);
    }
  }

  lemma {:induction false} Enrolls(key: Key)
    ensures var w, st := Empty(map[], 0), Whole(RegisterRpc(key, 0, 1));
            Possible(w, st) && Next(w, st) == World(One(key, Registering, None, [EventRegistered]), 0, {1}, map[], map[])
  {
  }

  lemma {:induction false} Beats(key: Key)
    ensures var w := World(One(key, Registering, None, [EventRegistered]), 0, {1}, map[], map[]);
            Follows(w, BEAT) && AfterAll(w, BEAT) == w.(db := One(key, Healthy, Some(0), [EventRegistered]))
  {
    var w := World(One(key, Registering, None, [EventRegistered]), 0, {1}, map[], map[]);
    UninterruptedBeat(w, 0, 1, true);
    hide Follows, AfterAll;
  }

  lemma {:induction false} IsListed(key: Key)
    ensures var w := World(One(key, Healthy, Some(0), [EventRegistered]), 0, {1}, map[], map[]);
            var steps := [Whole(Tick(31 * SECOND)), BeginSweep(0), ListRows(0, [1])];
            Follows(w, steps) && AfterAll(w, steps) == ListedWorld(key)
  {
    var w := World(One(key, Healthy, Some(0), [EventRegistered]), 0, {1}, map[], map[]);
    var w1 := w.(now := 31 * SECOND);
    var w2 := w1.(sweeps := map[0 := Begun(31 * SECOND)]);
    assert Next(w, Whole(Tick(31 * SECOND))) == w1;
    assert Next(w1, BeginSweep(0)) == w2;
    assert ListsStale(w2.db, 31 * SECOND, [1]);
    assert Snapshot(w2.db.instances, [1]) == [Listed(1, w2.db.instances[1])];
    assert Next(w2, ListRows(0, [1])) == ListedWorld(key);
    hide Next, One;
    FirstStep(w2, ListRows(0, [1]), []);
    FirstStep(w1, BeginSweep(0), [ListRows(0, [1])]);
    FirstStep(w, Whole(Tick(31 * SECOND)), [BeginSweep(0), ListRows(0, [1])]);
    assert [ListRows(0, [1])] + [] == [ListRows(0, [1])];
    assert [BeginSweep(0)] + [ListRows(0, [1])] == [BeginSweep(0), ListRows(0, [1])];
    assert [Whole(Tick(31 * SECOND))] + [BeginSweep(0), ListRows(0, [1])]
        == [Whole(Tick(31 * SECOND)), BeginSweep(0), ListRows(0, [1])];
  }

  lemma {:induction false} ListedIsReached(key: Key)
    ensures Follows(Empty(map[], 0), ListedRun(key)) && AfterAll(Empty(map[], 0), ListedRun(key)) == ListedWorld(key)
  {
    Enrolls(key);
    Beats(key);
    IsListed(key);
    hide Next, Possible, One, BEAT, ListedWorld, Empty;
    var w := Empty(map[], 0);
    FirstStep(w, Whole(RegisterRpc(key, 0, 1)), BEAT);
    RunsJoin(w, [Whole(RegisterRpc(key, 0, 1))] + BEAT, [Whole(Tick(31 * SECOND)), BeginSweep(0), ListRows(0, [1])]);
  }

  /**
    A run from an empty registry: the instance is evicted by an operator after the sweep has listed
    it, and the sweep makes it degraded again. It did not enroll.
   */
  lemma {:induction false} EvictedComesBack(key: Key)
    ensures var run := ListedRun(key) + [Whole(ForceRemoveRpc(1)), WriteNext(0)];
            Follows(Empty(map[], 0), run)
            && AfterAll(Empty(map[], 0), run).db == One(key, Degraded, Some(0), [EventRegistered, EventEvicted, EventDegraded])
  {
    var w := ListedWorld(key);
    var w1 := w.(db := One(key, Evicted, Some(0), [EventRegistered, EventEvicted]));
    assert Next(w, Whole(ForceRemoveRpc(1))) == w1;
    Thresholds(Healthy, 0, false, 31 * SECOND);
    var w2 := Next(w1, WriteNext(0));
    assert w2.db == One(key, Degraded, Some(0), [EventRegistered, EventEvicted, EventDegraded]);
    hide Next, One, ListedRun, Empty;
    FirstStep(w1, WriteNext(0), []);
    FirstStep(w, Whole(ForceRemoveRpc(1)), [WriteNext(0)]);
    assert [WriteNext(0)] + [] == [WriteNext(0)];
    assert [Whole(ForceRemoveRpc(1))] + [WriteNext(0)] == [Whole(ForceRemoveRpc(1)), WriteNext(0)];
    ListedIsReached(key);
    RunsJoin(Empty(map[], 0), ListedRun(key), [Whole(ForceRemoveRpc(1)), WriteNext(0)]);
  }
}
