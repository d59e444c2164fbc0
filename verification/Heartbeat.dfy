/**
  Replay protection of heartbeats: the nonce store and the drift test of
  argus/internal/transport/grpc/server.go:152-173 and 407-449 with the constants of
  argus/internal/core/instance.go:129-137.
 */
module Heartbeat {
  import opened Bytes
  import opened GoTime

  const WINDOW := 30 * SECOND
  const NONCE_TTL := 2 * WINDOW

  type Nonces = map<bytes, int>
  type Seen = map<bytes, Nonces>

  /** The entries of one instance that have not expired. */
  function Pruned(m: Nonces, now: int): Nonces {
    map n | n in m && now <= m[n] :: m[n]
  }

  function EntriesOf(seen: Seen, id: bytes): Nonces {
    if id in seen then seen[id] else map[]
  }

  /** The nonce is on record for the instance and its entry lies in the future. */
  predicate Blocked(seen: Seen, id: bytes, nonce: bytes, now: int) {
    id in seen && nonce in seen[id] && now < seen[id][nonce]
  }

  function Record(seen: Seen, ttl: int, id: bytes, nonce: bytes, now: int): Seen {
    var m := Pruned(EntriesOf(seen, id), now);
    seen[id := if Blocked(seen, id, nonce, now) then m else m[nonce := now + ttl]]
  }

  class NonceStore {
    var seen: Seen
    const ttl: int

    constructor (ttl: int)
      ensures this.ttl == ttl && seen == map[]
    {
      this.ttl, seen := ttl, map[];
    }

    method CheckAndRecord(id: bytes, nonce: bytes, now: int) returns (ok: bool)
      modifies this
      ensures ok == !Blocked(old(seen), id, nonce, now)
      ensures seen == Record(old(seen), ttl, id, nonce, now)
    {
      var m: Nonces := map[];
      if id in seen {
        m := seen[id];
      }
      ghost var entries := m;
      var pending := m.Keys;
      while pending != {}
        invariant pending <= m.Keys <= entries.Keys
        invariant forall n :: n in m ==> m[n] == entries[n]
        invariant forall n :: n in entries && n !in pending ==> (n in m <==> now <= entries[n])
        decreases pending
      {
        var existing :| existing in pending;
        if now > m[existing] {
          m := m - {existing};
        }
        pending := pending - {existing};
      }
      assert m == Pruned(entries, now);
      if nonce in m && now < m[nonce] {
        seen := seen[id := m];
        return false;
      }
      seen := seen[id := m[nonce := now + ttl]];
      return true;
    }
  }

  // ------------------------------------------- pruning forgets nothing

  datatype Call = Call(id: bytes, nonce: bytes, now: int)

  predicate ClockRuns(calls: seq<Call>, from: int) {
    calls != [] ==> from <= calls[0].now && ClockRuns(calls[1..], calls[0].now)
  }

  function StoreAnswers(seen: Seen, ttl: int, calls: seq<Call>): seq<bool>
    decreases |calls|
  {
    if calls == [] then []
    else
      var c := calls[0];
      [!Blocked(seen, c.id, c.nonce, c.now)] + StoreAnswers(Record(seen, ttl, c.id, c.nonce, c.now), ttl, calls[1..])
  }

  /** The reference: a log of every nonce ever accepted, never pruned. */
  predicate InLog(log: seq<Call>, ttl: int, id: bytes, nonce: bytes, now: int) {
    exists i :: 0 <= i < |log| && log[i].id == id && log[i].nonce == nonce && now < log[i].now + ttl
  }

  function LogAnswers(log: seq<Call>, ttl: int, calls: seq<Call>): seq<bool>
    decreases |calls|
  {
    if calls == [] then []
    else
      var c := calls[0];
      var accept := !InLog(log, ttl, c.id, c.nonce, c.now);
      [accept] + LogAnswers(if accept then log + [c] else log, ttl, calls[1..])
  }

  /** From time t on, store and log give the same answers. */
  ghost predicate Agree(seen: Seen, log: seq<Call>, ttl: int, t: int) {
    forall id, nonce, now :: t <= now ==> (Blocked(seen, id, nonce, now) <==> InLog(log, ttl, id, nonce, now))
  }

  lemma {:induction false} AgreeAfterCall(seen: Seen, log: seq<Call>, ttl: int, t: int, c: Call)
    requires Agree(seen, log, ttl, t) && t <= c.now
    ensures var accept := !InLog(log, ttl, c.id, c.nonce, c.now);
            Agree(Record(seen, ttl, c.id, c.nonce, c.now), if accept then log + [c] else log, ttl, c.now)
  {
    var seen' := Record(seen, ttl, c.id, c.nonce, c.now);
    var accept := !InLog(log, ttl, c.id, c.nonce, c.now);
    var log' := if accept then log + [c] else log;
    forall id, nonce, now | c.now <= now
      ensures Blocked(seen', id, nonce, now) <==> InLog(log', ttl, id, nonce, now)
    {
      assert Blocked(seen, id, nonce, now) <==> InLog(log, ttl, id, nonce, now);
      assert Blocked(seen, c.id, c.nonce, c.now) <==> !accept;
      if InLog(log, ttl, id, nonce, now) {
        var i :| 0 <= i < |log| && log[i].id == id && log[i].nonce == nonce && now < log[i].now + ttl;
        assert log'[i] == log[i];
      }
      if accept && id == c.id && nonce == c.nonce && now < c.now + ttl {
        assert log'[|log|] == c;
      }
    }
  }

  lemma {:induction false} StoreFollowsLog(seen: Seen, log: seq<Call>, ttl: int, t: int, calls: seq<Call>)
    requires Agree(seen, log, ttl, t) && ClockRuns(calls, t)
    ensures StoreAnswers(seen, ttl, calls) == LogAnswers(log, ttl, calls)
    decreases |calls|
  {
    if calls != [] {
      var c := calls[0];
      assert Blocked(seen, c.id, c.nonce, c.now) <==> InLog(log, ttl, c.id, c.nonce, c.now);
      AgreeAfterCall(seen, log, ttl, t, c);
      var accept := !InLog(log, ttl, c.id, c.nonce, c.now);
      StoreFollowsLog(Record(seen, ttl, c.id, c.nonce, c.now), if accept then log + [c] else log, ttl, c.now, calls[1..]);
    }
  }

  /** With a clock that does not run backwards the pruned store answers like an unbounded log. */
  lemma {:induction false} PrunedStoreIsUnboundedLog(ttl: int, calls: seq<Call>, t: int)
    requires ClockRuns(calls, t)
    ensures StoreAnswers(map[], ttl, calls) == LogAnswers([], ttl, calls)
  {
    StoreFollowsLog(map[], [], ttl, t, calls);
  }

  /** And it holds nothing expired for the instance just served. */
  lemma {:induction false} NothingExpiredKept(seen: Seen, ttl: int, id: bytes, nonce: bytes, now: int)
    requires ttl >= 0
    ensures var m := Record(seen, ttl, id, nonce, now)[id];
            (forall n :: n in m ==> now <= m[n])
            && forall n :: n != nonce ==>
                 (n in m <==> id in seen && n in seen[id] && now <= seen[id][n]) && (n in m ==> m[n] == seen[id][n])
  {
  }

  // --------------------------------------------------- the drift test

  /** now.Sub(sentAt), negated if negative (64-bit negation wraps), compared with the window. */
  predicate DriftOk(now: int, sentAt: int) {
    var d := Sub(now, sentAt);
    var drift := if d < 0 then Wrap64(-d) else d;
    drift <= WINDOW
  }

  /**
    What the test accepts: timestamps within the window, and, because the smallest duration is its
    own negation, timestamps at least 2^63 ns ahead.
   */
  lemma {:induction false} DriftOkExactly(now: int, sentAt: int)
    ensures DriftOk(now, sentAt) <==>
            (-30_000_000_000 <= now - sentAt <= 30_000_000_000 || sentAt - now >= 0x8000_0000_0000_0000)
  {
  }

  datatype Message = Message(id: bytes, nonce: bytes, timestampUnix: int64)

  datatype Gate = Missing | OutsideWindow | Replayed | Passed

  /** Seconds from the first instant of year 1 to the Unix epoch. */
  const EPOCH_SECONDS := 62135596800

  /** time.Unix counts seconds from year 1 in 64 bits, so the very last timestamps wrap into the past. */
  function SentAt(m: Message): int {
    (Wrap64(m.timestampUnix + EPOCH_SECONDS) - EPOCH_SECONDS) * SECOND
  }

  /** The checks a heartbeat passes before its signature is looked at, and the nonces afterwards. */
  function Enter(seen: Seen, m: Message, now: int): (Gate, Seen) {
    if m.nonce == [] || m.timestampUnix == 0 then (Missing, seen)
    else if !DriftOk(now, SentAt(m)) then (OutsideWindow, seen)
    else (if Blocked(seen, m.id, m.nonce, now) then Replayed else Passed, Record(seen, NONCE_TTL, m.id, m.nonce, now))
  }

  /** A timestamp is so many seconds, but the last ones of the 64-bit range count from 2^64 s earlier. */
  lemma {:induction false} SentAtIs(m: Message)
    ensures SentAt(m) ==
            (if m.timestampUnix < 0x8000_0000_0000_0000 - 62135596800 then m.timestampUnix
             else m.timestampUnix - 0x1_0000_0000_0000_0000) * 1_000_000_000
  {
  }

  /**
    The gate, in nanoseconds: what is missing comes first, then the drift, and only what is left touches
    the store. Of that a nonce recorded for the instance and not yet expired is a replay; any other is
    recorded for another 60 s.
   */
  lemma {:induction false} GateIs(seen: Seen, m: Message, now: int)
    ensures var (gate, after) := Enter(seen, m, now);
            var drift := now - SentAt(m);
            if m.nonce == "" || m.timestampUnix == 0 then gate == Missing && after == seen
            else if (drift < -30_000_000_000 || 30_000_000_000 < drift) && drift > -0x8000_0000_0000_0000 then
              gate == OutsideWindow && after == seen
            else if m.id in seen && m.nonce in seen[m.id] && now < seen[m.id][m.nonce] then
              gate == Replayed && m.id in after && m.nonce in after[m.id] && after[m.id][m.nonce] == seen[m.id][m.nonce]
            else
              gate == Passed && m.id in after && m.nonce in after[m.id] && after[m.id][m.nonce] == now + 60_000_000_000
  {
    DriftOkExactly(now, SentAt(m));
    hide SentAt, DriftOk;
  }

  method EnterHeartbeat(store: NonceStore, m: Message, now: int) returns (gate: Gate)
    requires store.ttl == NONCE_TTL
    modifies store
    ensures (gate, store.seen) == Enter(old(store.seen), m, now)
  {
    if m.nonce == [] || m.timestampUnix == 0 {
      return Missing;
    }
    var drift := Sub(now, SentAt(m));
    if drift < 0 {
      drift := Wrap64(-drift);
    }
    if drift > WINDOW {
      return OutsideWindow;
    }
    var unused := store.CheckAndRecord(m.id, m.nonce, now);
    return if unused then Passed else Replayed;
  }

  // ------------------------------------------------------------ replays

  datatype Arrival = Arrival(message: Message, now: int)

  predicate ArrivalsOrdered(arrivals: seq<Arrival>, from: int, to: int) {
    if arrivals == [] then from <= to
    else from <= arrivals[0].now && ArrivalsOrdered(arrivals[1..], arrivals[0].now, to)
  }

  function After(seen: Seen, arrivals: seq<Arrival>): Seen
    decreases |arrivals|
  {
    if arrivals == [] then seen
    else After(Enter(seen, arrivals[0].message, arrivals[0].now).1, arrivals[1..])
  }

  /** From time t until `until` the nonce is refused. */
  ghost predicate Remembers(seen: Seen, id: bytes, nonce: bytes, t: int, until: int) {
    forall now :: t <= now < until ==> Blocked(seen, id, nonce, now)
  }

  lemma {:induction false} MemoryLasts(seen: Seen, id: bytes, nonce: bytes, t: int, until: int,
                                       arrivals: seq<Arrival>, to: int)
    requires Remembers(seen, id, nonce, t, until) && ArrivalsOrdered(arrivals, t, to)
    ensures Remembers(After(seen, arrivals), id, nonce, to, until)
    decreases |arrivals|
  {
    if arrivals != [] {
      var a := arrivals[0];
      var seen' := Enter(seen, a.message, a.now).1;
      forall now | a.now <= now < until ensures Blocked(seen', id, nonce, now) {
        assert Blocked(seen, id, nonce, a.now) && Blocked(seen, id, nonce, now);
      }
      MemoryLasts(seen', id, nonce, a.now, until, arrivals[1..], to);
    }
  }

  lemma {:induction false} OrderedBounds(arrivals: seq<Arrival>, from: int, to: int)
    requires ArrivalsOrdered(arrivals, from, to)
    ensures from <= to
    decreases |arrivals|
  {
    if arrivals != [] { OrderedBounds(arrivals[1..], arrivals[0].now, to); }
  }

  /** The instants at which a heartbeat that entered at t1 is not held back any more. */
  predicate MayReenter(m: Message, t1: int, t2: int) {
    (t2 == t1 + 60_000_000_000 && SentAt(m) == t1 + 30_000_000_000)
    || (SentAt(m) - t1 >= TWO63 && t2 >= t1 + 60_000_000_000
        && (SentAt(m) - t2 >= TWO63 || -30_000_000_000 <= t2 - SentAt(m) <= 30_000_000_000))
  }

  /**
    A heartbeat that entered at t1 does not enter again at any t2 >= t1, whatever arrives in
    between, with two exceptions: the single instant t1 + 60 s, if it was stamped exactly t1 + 30 s;
    and, if it was stamped at least 2^63 ns ahead, the instants from t1 + 60 s on at which the drift
    test lets it through again.
   */
  lemma {:induction false} ReplayIsRefused(seen: Seen, m: Message, t1: int, arrivals: seq<Arrival>, t2: int)
    requires Enter(seen, m, t1).0 == Passed && ArrivalsOrdered(arrivals, t1, t2)
    ensures Enter(After(Enter(seen, m, t1).1, arrivals), m, t2).0 == Passed ==> MayReenter(m, t1, t2)
  {
    var seen1 := Enter(seen, m, t1).1;
    OrderedBounds(arrivals, t1, t2);
    assert Remembers(seen1, m.id, m.nonce, t1, t1 + NONCE_TTL);
    MemoryLasts(seen1, m.id, m.nonce, t1, t1 + NONCE_TTL, arrivals, t2);
    DriftOkExactly(t1, SentAt(m));
    DriftOkExactly(t2, SentAt(m));
  }

  /** Nothing arrives for this instance with this nonce. */
  predicate OthersOnly(arrivals: seq<Arrival>, m: Message) {
    forall i :: 0 <= i < |arrivals| ==> arrivals[i].message.id != m.id || arrivals[i].message.nonce != m.nonce
  }

  /** Other arrivals may make the store forget an expired nonce, but not learn one. */
  lemma {:induction false} OthersTeachNothing(seen: Seen, m: Message, arrivals: seq<Arrival>, t: int)
    requires OthersOnly(arrivals, m) && !Blocked(seen, m.id, m.nonce, t)
    ensures !Blocked(After(seen, arrivals), m.id, m.nonce, t)
    decreases |arrivals|
  {
    if arrivals != [] {
      var a := arrivals[0];
      assert a.message.id != m.id || a.message.nonce != m.nonce;
      OthersTeachNothing(Enter(seen, a.message, a.now).1, m, arrivals[1..], t);
    }
  }

  /** Both exceptions are real: as long as nobody else uses the nonce, the heartbeat enters again just then. */
  lemma {:induction false} ReplayEntersExactly(seen: Seen, m: Message, t1: int, arrivals: seq<Arrival>, t2: int)
    requires Enter(seen, m, t1).0 == Passed && ArrivalsOrdered(arrivals, t1, t2) && OthersOnly(arrivals, m)
    ensures Enter(After(Enter(seen, m, t1).1, arrivals), m, t2).0 == Passed <==> MayReenter(m, t1, t2)
  {
    ReplayIsRefused(seen, m, t1, arrivals, t2);
    if MayReenter(m, t1, t2) {
      var seen1 := Enter(seen, m, t1).1;
      assert !Blocked(seen1, m.id, m.nonce, t2);
      OthersTeachNothing(seen1, m, arrivals, t2);
      DriftOkExactly(t2, SentAt(m));
    }
  }
}
