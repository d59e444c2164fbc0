/**
  The notification outbox: the batch loop of ego/internal/worker/worker.go:121-163 over the claim
  and settle statements of ego/internal/storage/postgres/repository.go:1232-1308.
 */
module Outbox {
  import opened GoTime
  import Backoff

  datatype Status = Pending | Processing | Delivered | DeadLetter

  datatype Note = Note(status: Status, attempts: nat, maxAttempts: int, nextAttemptAt: int)

  type Box = map<nat, Note>

  predicate IsDue(n: Note, now: int) {
    n.status == Pending && n.nextAttemptAt <= now
  }

  /**
    ids is an answer of the claiming query: due rows, each once, up to the limit. Which of them is
    left open, since SKIP LOCKED passes over rows that another worker is claiming.
   */
  predicate IsClaim(box: Box, now: int, limit: nat, ids: seq<nat>) {
    |ids| <= limit
    && (forall i, j :: 0 <= i < j < |ids| ==> ids[i] != ids[j])
    && (forall id :: id in ids ==> id in box && IsDue(box[id], now))
  }

  function Claim(box: Box, ids: seq<nat>): Box {
    map id | id in box :: if id in ids then box[id].(status := Processing) else box[id]
  }

  /** The row after a send: delivered, or one attempt more and pending or given up. */
  function Settled(row: Note, sent: bool, retryAt: int): Note {
    if sent then row.(status := Delivered)
    else row.(attempts := row.attempts + 1, nextAttemptAt := retryAt,
              status := if row.attempts + 1 >= row.maxAttempts then DeadLetter else Pending)
  }

  /** The row after handling: delivered, or due again after the backoff and a jitter drawn below a quarter of it. */
  function Handled(before: Note, sent: bool, now: int, rand: nat -> nat): Note {
    var d := Backoff.Delay(before.attempts + 1);
    var row := before.(status := Processing);
    if sent then Settled(row, true, 0) else Settled(row, false, now + d + rand(if d >= 0 then d / 4 else 0))
  }

  /**
    What handling makes of a row, column by column: a failed one is due again after 2^attempts seconds,
    at most 300, and up to a quarter more, and given up when the attempt was the last one allowed.
   */
  lemma {:induction false} HandledIs(before: Note, sent: bool, now: int, rand: nat -> nat)
    requires forall n: nat :: n > 0 ==> rand(n) < n
    ensures var after := Handled(before, sent, now, rand);
            after.maxAttempts == before.maxAttempts
            && if sent then
                 after.status == Delivered && after.attempts == before.attempts
                 && after.nextAttemptAt == before.nextAttemptAt
               else
                 var seconds := if Backoff.Pow2(before.attempts) < 300 then Backoff.Pow2(before.attempts) else 300;
                 var wait := after.nextAttemptAt - now;
                 after.attempts == before.attempts + 1
                 && (after.status == DeadLetter <==> after.attempts >= before.maxAttempts)
                 && (after.status == Pending <==> after.attempts < before.maxAttempts)
                 && 1_000_000_000 * seconds <= wait < 1_250_000_000 * seconds
                 && wait - 1_000_000_000 * seconds == rand(250_000_000 * seconds)
  {
    Backoff.DelayIsSaturatedDoubling(before.attempts + 1);
    hide Backoff.Delay, Backoff.Pow2;
  }

  /** A pending row can be claimed from the instant at which it is due, and no other row ever. */
  lemma {:induction false} DueRowsAreClaimed(box: Box, now: int, limit: nat, id: nat)
    requires limit >= 1
    ensures IsClaim(box, now, limit, [id]) <==> id in box && box[id].status == Pending && box[id].nextAttemptAt <= now
  {
    assert id in [id];
  }

  /** Per notification: the sender, whether the outcome gets written, and the jitter source. */
  datatype Outside = Outside(send: nat -> bool, recorded: nat -> bool, rand: (nat, nat) -> nat)

  ghost predicate RandOk(o: Outside) {
    forall id: nat, n: nat :: n > 0 ==> o.rand(id, n) < n
  }

  /** A failure to write the outcome is logged and passed over: the row stays in processing. */
  predicate IsOutcome(o: Outside, id: nat, before: Note, after: Note, now: int) {
    after == if o.recorded(id) then Handled(before, o.send(id), now, (n: nat) => o.rand(id, n))
             else before.(status := Processing)
  }

  /** An outcome counts exactly when it is written; otherwise the row is left as it was claimed. */
  lemma {:induction false} OutcomeIs(o: Outside, id: nat, before: Note, after: Note, now: int)
    ensures o.recorded(id) ==>
              (IsOutcome(o, id, before, after, now) <==>
                 after == Handled(before, o.send(id), now, (n: nat) => o.rand(id, n)))
    ensures !o.recorded(id) ==>
              (IsOutcome(o, id, before, after, now) <==>
                 after == Note(Processing, before.attempts, before.maxAttempts, before.nextAttemptAt))
  {
  }

  class Worker {
    var box: Box

    constructor (box: Box)
      ensures this.box == box
    {
      this.box := box;
    }

    method Handle(o: Outside, now: int, id: nat, ghost before: Note)
      requires RandOk(o) && id in box && box[id] == before.(status := Processing)
      modifies this
      ensures id in box && box == old(box)[id := box[id]] && IsOutcome(o, id, before, box[id], now)
    {
      if o.send(id) {
        if o.recorded(id) {
          box := box[id := Settled(box[id], true, 0)];
        }
      } else {
        var newAttempts := box[id].attempts + 1;
        var rand := (n: nat) => o.rand(id, n);
        var backoff := Backoff.ComputeBackoff(newAttempts, rand);
        if o.recorded(id) {
          box := box[id := Settled(box[id], false, now + backoff)];
        }
      }
    }

    /**
      Claims a batch and handles it; `steps` is how many notifications are handled before the
      context is cancelled. Handled rows are settled, each once, with a retry no sooner than the
      backoff; rows whose outcome is not written and rows not handled stay in processing; no other
      row changes.
     */
    method ProcessBatch(o: Outside, now: int, ids: seq<nat>, limit: nat, steps: nat) returns (handled: nat)
      requires RandOk(o) && IsClaim(box, now, limit, ids)
      modifies this
      ensures handled == if steps < |ids| then steps else |ids|
      ensures box.Keys == old(box).Keys
      ensures forall id :: id in box && id !in ids ==> box[id] == old(box)[id]
      ensures forall i :: handled <= i < |ids| ==> box[ids[i]] == old(box)[ids[i]].(status := Processing)
      ensures forall i :: 0 <= i < handled ==> IsOutcome(o, ids[i], old(box)[ids[i]], box[ids[i]], now)
    {
      hide IsOutcome, RandOk;
      ghost var start := box;
      box := Claim(box, ids);
      handled := 0;
      while handled < |ids| && handled < steps
        invariant handled <= |ids| && handled <= steps && box.Keys == start.Keys
        invariant forall id :: id in box && id !in ids ==> box[id] == start[id]
        invariant forall i :: handled <= i < |ids| ==> box[ids[i]] == start[ids[i]].(status := Processing)
        invariant forall i :: 0 <= i < handled ==> IsOutcome(o, ids[i], start[ids[i]], box[ids[i]], now)
      {
        Handle(o, now, ids[handled], start[ids[handled]]);
        handled := handled + 1;
      }
    }
  }

  // ---------------------------------------------------- workers side by side

  /** inFlight: rows some worker holds; sends and successes count calls of the sender per row. */
  datatype World = World(box: Box, now: int, inFlight: set<nat>, sends: map<nat, nat>, successes: map<nat, nat>)

  datatype Action =
    | Enqueue(id: nat, maxAttempts: int)
    | Fetch(ids: seq<nat>, limit: nat)
    | Send(id: nat, sent: bool, retryAt: int, recorded: bool)
    | Cancel(id: nat)
    | Tick(now: int)

  predicate Enabled(w: World, a: Action) {
    match a
    case Enqueue(id, _) => id !in w.box
    case Fetch(ids, limit) => IsClaim(w.box, w.now, limit, ids)
    case Send(id, _, _, _) => id in w.inFlight && id in w.box && id in w.sends && id in w.successes
    case Cancel(id) => id in w.inFlight
    case Tick(now) => w.now <= now
  }

  /** A send whose outcome is not recorded leaves the row in processing. */
  function Apply(w: World, a: Action): World
    requires Enabled(w, a)
  {
    match a
    case Enqueue(id, max) =>
      w.(box := w.box[id := Note(Pending, 0, max, w.now)], sends := w.sends[id := 0], successes := w.successes[id := 0])
    case Fetch(ids, _) => w.(box := Claim(w.box, ids), inFlight := w.inFlight + set id | id in ids)
    case Send(id, sent, retryAt, recorded) =>
      w.(box := if recorded then w.box[id := Settled(w.box[id], sent, retryAt)] else w.box,
         inFlight := w.inFlight - {id},
         sends := w.sends[id := w.sends[id] + 1],
         successes := w.successes[id := w.successes[id] + if sent then 1 else 0])
    case Cancel(id) => w.(inFlight := w.inFlight - {id})
    case Tick(now) => w.(now := now)
  }

  /** What one send leaves of the row and of the counters, recorded or not. */
  lemma {:induction false} SendWrites(w: World, id: nat, sent: bool, retryAt: int, recorded: bool)
    requires Enabled(w, Send(id, sent, retryAt, recorded))
    ensures var w', n := Apply(w, Send(id, sent, retryAt, recorded)), w.box[id];
            id in w.inFlight && w'.now == w.now && w'.inFlight == w.inFlight - {id}
            && w'.sends == w.sends[id := 1 + w.sends[id]]
            && (sent ==> w'.successes == w.successes[id := 1 + w.successes[id]])
            && (!sent ==> w'.successes == w.successes)
            && (!recorded ==> w'.box == w.box)
            && (recorded && sent ==>
                  w'.box == w.box[id := Note(Delivered, n.attempts, n.maxAttempts, n.nextAttemptAt)])
            && (recorded && !sent && n.maxAttempts - n.attempts > 1 ==>
                  w'.box == w.box[id := Note(Pending, 1 + n.attempts, n.maxAttempts, retryAt)])
            && (recorded && !sent && n.maxAttempts - n.attempts <= 1 ==>
                  w'.box == w.box[id := Note(DeadLetter, 1 + n.attempts, n.maxAttempts, retryAt)])
  {
  }

  /** A new row is pending at once; a claim takes rows that are, none twice; a worker may stop with any row it holds. */
  lemma {:induction false} OthersWrite(w: World, id: nat, max: int, ids: seq<nat>, limit: nat)
    ensures Enabled(w, Enqueue(id, max)) <==> id !in w.box
    ensures id !in w.box ==>
              Apply(w, Enqueue(id, max))
              == World(w.box[id := Note(Pending, 0, max, w.now)], w.now, w.inFlight, w.sends[id := 0], w.successes[id := 0])
    ensures Enabled(w, Cancel(id)) <==> id in w.inFlight
    ensures id in w.inFlight ==> Apply(w, Cancel(id)) == w.(inFlight := w.inFlight - {id})
    ensures Enabled(w, Fetch(ids, limit)) ==>
              var w' := Apply(w, Fetch(ids, limit));
              |ids| <= limit && multiset(ids)[id] <= 1
              && (id in ids ==> id in w.box && w.box[id].status == Pending && w.box[id].nextAttemptAt <= w.now)
              && (id in w'.inFlight <==> id in w.inFlight || id in ids)
              && w' == World(w'.box, w.now, w'.inFlight, w.sends, w.successes) && w'.box.Keys == w.box.Keys
              && (id in w.box ==> w'.box[id] == if id in ids then w.box[id].(status := Processing) else w.box[id])
  {
    if Enabled(w, Fetch(ids, limit)) {
      NoneTwice(ids, id);
    }
  }

  lemma {:induction false} NoneTwice(ids: seq<nat>, id: nat)
    requires forall i, j :: 0 <= i < j < |ids| ==> ids[i] != ids[j]
    ensures multiset(ids)[id] <= 1
  {
    if ids != [] {
      NoneTwice(ids[1..], id);
      assert ids == [ids[0]] + ids[1..];
    }
  }

  function Limit(n: Note): int {
    if n.maxAttempts > 1 then n.maxAttempts else 1
  }

  /** What the counters of one row may be, by its status. */
  predicate RowOk(w: World, id: nat) {
    id in w.box ==>
      id in w.sends && id in w.successes
      && var n := w.box[id];
         match n.status
         case Pending =>
           id !in w.inFlight && w.sends[id] == n.attempts && w.successes[id] == 0 && n.attempts < Limit(n)
         case Processing =>
           n.attempts < Limit(n)
           && (if id in w.inFlight then w.sends[id] == n.attempts && w.successes[id] == 0
               else w.sends[id] <= n.attempts + 1 && w.successes[id] <= 1)
         case Delivered =>
           id !in w.inFlight && w.sends[id] == n.attempts + 1 && w.successes[id] == 1 && n.attempts < Limit(n)
         case DeadLetter =>
           id !in w.inFlight && w.sends[id] == n.attempts == Limit(n) && w.successes[id] == 0
  }

  ghost predicate Inv(w: World) {
    w.inFlight <= w.box.Keys && forall id :: RowOk(w, id)
  }

  lemma {:induction false} StepKeepsInv(w: World, a: Action)
    requires Inv(w) && Enabled(w, a)
    ensures Inv(Apply(w, a))
  {
    var w' := Apply(w, a);
    forall id ensures RowOk(w', id) {
      assert RowOk(w, id);
      if a.Fetch? && id in a.ids {
        assert IsDue(w.box[id], w.now);
      }
    }
  }

  predicate IsRun(w: World, actions: seq<Action>)
    decreases |actions|
  {
    actions != [] ==> Enabled(w, actions[0]) && IsRun(Apply(w, actions[0]), actions[1..])
  }

  function Run(w: World, actions: seq<Action>): World
    requires IsRun(w, actions)
    decreases |actions|
  {
    if actions == [] then w else Run(Apply(w, actions[0]), actions[1..])
  }

  /** A run is its actions one after another, the last one last. */
  lemma {:induction false} RunEndsWith(w: World, actions: seq<Action>, last: Action)
    requires IsRun(w, actions + [last])
    ensures IsRun(w, actions) && Enabled(Run(w, actions), last)
    ensures Run(w, actions + [last]) == Apply(Run(w, actions), last)
    decreases |actions|
  {
    hide Enabled, Apply;
    if actions != [] {
      assert (actions + [last])[1..] == actions[1..] + [last];
      RunEndsWith(Apply(w, actions[0]), actions[1..], last);
    } else {
      assert [last][1..] == [];
    }
  }

  lemma {:induction false} RunKeepsInv(w: World, actions: seq<Action>)
    requires Inv(w) && IsRun(w, actions)
    ensures Inv(Run(w, actions))
    decreases |actions|
  {
    if actions != [] {
      StepKeepsInv(w, actions[0]);
      RunKeepsInv(Apply(w, actions[0]), actions[1..]);
    }
  }

  const EMPTY := World(map[], 0, {}, map[], map[])

  /**
    With any number of workers, in every run: no notification is sent more than max(1, max_attempts)
    times, none succeeds twice, a delivered one was sent successfully once, and a dead letter used
    exactly its allowance without success.
   */
  lemma {:induction false} SendsAreBounded(actions: seq<Action>, id: nat)
    requires IsRun(EMPTY, actions) && id in Run(EMPTY, actions).box
    ensures var w := Run(EMPTY, actions);
            id in w.sends && id in w.successes
            && w.sends[id] <= Limit(w.box[id]) && w.successes[id] <= 1
            && (w.box[id].status == Delivered ==> w.successes[id] == 1)
            && (w.box[id].status == DeadLetter ==> w.successes[id] == 0 && w.sends[id] == Limit(w.box[id]))
  {
    RunKeepsInv(EMPTY, actions);
    assert RowOk(Run(EMPTY, actions), id);
  }

  lemma {:induction false} DroppedStep(w: World, a: Action, id: nat)
    requires Inv(w) && Enabled(w, a) && id in w.box && w.box[id].status == Processing && id !in w.inFlight
    ensures var w' := Apply(w, a);
            id in w'.box && w'.box[id] == w.box[id] && id !in w'.inFlight
            && id in w.sends && id in w'.sends && w'.sends[id] == w.sends[id]
  {
    assert RowOk(w, id);
    if a.Fetch? {
      assert id !in a.ids;
    }
  }

  /** A row a worker claimed and dropped stays in processing, and is never sent, in any run from there. */
  lemma {:induction false} DroppedRowIsStuck(w: World, actions: seq<Action>, id: nat)
    requires Inv(w) && IsRun(w, actions)
    requires id in w.box && w.box[id].status == Processing && id !in w.inFlight
    ensures var w' := Run(w, actions);
            id in w'.box && w'.box[id] == w.box[id] && id !in w'.inFlight
            && id in w.sends && id in w'.sends && w'.sends[id] == w.sends[id]
    decreases |actions|
  {
    assert RowOk(w, id);
    hide Apply, Enabled, Inv;
    if actions != [] {
      DroppedStep(w, actions[0], id);
      StepKeepsInv(w, actions[0]);
      DroppedRowIsStuck(Apply(w, actions[0]), actions[1..], id);
    }
  }
}
