/**
  Replicas of the Postgres rule store, aegis/internal/storage/postgres/store.go: every mutation
  commits and notifies in one transaction; every replica holds a LISTEN session, reloads its cache
  after LISTEN and after each notification, and reconnects when the session is lost. A reload is
  two steps, reading the table and installing what was read, both under the replica's lock. It does
  not ask whether the rows ended for want of rows or for want of a connection, so what it installs
  may be the first part of the table only. A start that finds the table empty seeds it without a
  notification and without a lock that a mutation would respect.
 */
module RuleReplicas {
  import opened Bytes
  import opened RuleMatcher

  type RuleSet = seq<Rule>

  /** Where a replica's listener is: backing off, about to reload, reloading, or waiting. */
  datatype Position = Idle | NeedsReload | Reading(version: nat) | Waiting

  /** Who holds the replica's lock; a mutation holds it from before its transaction to after its reload. */
  datatype Lock = Free | ListenerHolds | WriterHolds | WriterCommitted | WriterReads(version: nat)

  /** `cache` is served to requests: the first `got` rows of the table after commit `version`. */
  datatype Replica =
    Replica(cache: RuleSet, version: nat, got: nat, session: bool, pending: nat, at: Position, lock: Lock)

  /**
    The table after each commit, oldest first, the last commit that was announced, and whether a
    starting process has found the table empty and not yet committed its seed.
   */
  datatype World = World(log: seq<RuleSet>, announced: nat, seeding: bool, replicas: map<nat, Replica>)

  datatype Action =
    | Boot(i: nat, got: nat)
    | Listen(i: nat, stale: nat)
    | BeginReload(i: nat)
    | EndReload(i: nat, got: nat)
    | ReloadError(i: nat)
    | Receive(i: nat)
    | LoseSession(i: nat)
    | NoticeLoss(i: nat)
    | WriterLock(i: nat)
    | WriterAbort(i: nat)
    | WriterCommit(i: nat, table: RuleSet)
    | WriterRead(i: nat)
    | WriterEnd(i: nat, got: nat)
    | WriterReloadError(i: nat)
    | SeedCheck
    | SeedCommit(table: RuleSet)
    | SeedAbort

  function Latest(w: World): nat
    requires w.log != []
  {
    |w.log| - 1
  }

  function Table(w: World): RuleSet
    requires w.log != []
  {
    w.log[|w.log| - 1]
  }

  predicate Enabled(lib: Lib, w: World, a: Action) {
    w.log != [] &&
    match a
    case Boot(i, got) => i !in w.replicas && got <= |Table(w)| && Compiles(lib, Table(w)[..got])
    case SeedCheck => !w.seeding && Table(w) == []
    case SeedCommit(table) => w.seeding && |Table(w)| < |table|
    case SeedAbort => w.seeding
    case _ => a.i in w.replicas && CanStep(w.log, w.replicas[a.i], a)
  }

  predicate CanStep(log: seq<RuleSet>, r: Replica, a: Action) {
    match a
    case Listen(_, _) => r.at == Idle
    case BeginReload(_) => r.at == NeedsReload && r.lock == Free
    case EndReload(_, got) => r.at.Reading? && r.at.version < |log| && got <= |log[r.at.version]|
    case ReloadError(_) => r.at.Reading?
    case Receive(_) => r.at == Waiting && r.session && r.pending > 0
    case LoseSession(_) => r.session
    case NoticeLoss(_) => r.at == Waiting && !r.session
    case WriterLock(_) => r.lock == Free
    case WriterAbort(_) => r.lock == WriterHolds
    case WriterCommit(_, _) => r.lock == WriterHolds
    case WriterRead(_) => r.lock == WriterCommitted
    case WriterEnd(_, got) => r.lock.WriterReads? && r.lock.version < |log| && got <= |log[r.lock.version]|
    case WriterReloadError(_) => r.lock == WriterCommitted || r.lock.WriterReads?
    case _ => true
  }

  /** The listener gives up its connection and will reconnect. */
  function Drop(r: Replica): Replica {
    r.(session := false, pending := 0, at := Idle)
  }

  /** Installing the rows that were read: replaces the cache only if the matcher compiles. */
  function Install(lib: Lib, log: seq<RuleSet>, r: Replica, v: nat, got: nat): Replica
    requires v < |log| && got <= |log[v]|
  {
    if Compiles(lib, log[v][..got]) then r.(cache := log[v][..got], version := v, got := got) else r
  }

  /** What an action does to the replica it names, given the table history after it. */
  function ReplicaStep(lib: Lib, log: seq<RuleSet>, r: Replica, a: Action): Replica
    requires log != []
    requires CanStep(log, r, a)
  {
    match a
    case Listen(_, stale) => r.(session := true, pending := stale, at := NeedsReload)
    case BeginReload(_) => r.(at := Reading(|log| - 1), lock := ListenerHolds)
    case EndReload(_, got) =>
      var done := Install(lib, log, r, r.at.version, got).(lock := Free);
      if Compiles(lib, log[r.at.version][..got]) then done.(at := Waiting) else Drop(done)
    case ReloadError(_) => Drop(r).(lock := Free)
    case Receive(_) => r.(pending := r.pending - 1, at := NeedsReload)
    case LoseSession(_) => r.(session := false, pending := 0)
    case NoticeLoss(_) => r.(at := Idle)
    case WriterLock(_) => r.(lock := WriterHolds)
    case WriterAbort(_) => r.(lock := Free)
    case WriterCommit(_, _) => r.(lock := WriterCommitted)
    case WriterRead(_) => r.(lock := WriterReads(|log| - 1))
    case WriterEnd(_, got) => Install(lib, log, r, r.lock.version, got).(lock := Free)
    case WriterReloadError(_) => r.(lock := Free)
    case _ => r
  }

  /** A notification reaches every session that is listening. */
  function Notify(r: Replica): Replica {
    if r.session then r.(pending := r.pending + 1) else r
  }

  function Apply(lib: Lib, w: World, a: Action): World
    requires Enabled(lib, w, a)
  {
    match a
    case Boot(i, got) =>
      w.(replicas := w.replicas[i := Replica(Table(w)[..got], Latest(w), got, false, 0, Idle, Free)])
    case SeedCheck => w.(seeding := true)
    case SeedCommit(table) => w.(log := w.log + [table], seeding := false)
    case SeedAbort => w.(seeding := false)
    case WriterCommit(i, table) =>
      var log := w.log + [table];
      var moved := w.replicas[i := ReplicaStep(lib, log, w.replicas[i], a)];
      World(log, |log| - 1, w.seeding, map j | j in moved :: Notify(moved[j]))
    case _ => w.(replicas := w.replicas[a.i := ReplicaStep(lib, w.log, w.replicas[a.i], a)])
  }

  // ------------------------------------------------------------- invariant

  /** The replica serves rows of a committed table that compile; what it is about to install is no older. */
  predicate Sound(lib: Lib, w: World, r: Replica) {
    r.version < |w.log| && r.got <= |w.log[r.version]| && r.cache == w.log[r.version][..r.got] && Compiles(lib, r.cache)
    && (r.at.Reading? ==> r.lock == ListenerHolds && r.version <= r.at.version < |w.log|)
    && (r.lock == ListenerHolds ==> r.at.Reading?)
    && (r.lock.WriterReads? ==> r.version <= r.lock.version < |w.log|)
  }

  /** With a live session and nothing queued, the last announced commit is, or is being, picked up. */
  predicate Covered(w: World, r: Replica) {
    r.session && r.pending == 0 ==>
      match r.at
      case Waiting => w.announced <= r.version
      case Reading(v) => w.announced <= v
      case _ => true
  }

  /** After the last announced commit comes at most one more, a seed, and none while a seed is on its way. */
  predicate HistoryOk(w: World) {
    w.announced < |w.log| <= w.announced + 2
    && (w.seeding ==> |w.log| == w.announced + 1)
    && (|w.log| == w.announced + 2 ==> |w.log[w.announced]| < |w.log[w.announced + 1]|)
  }

  predicate Inv(lib: Lib, w: World) {
    HistoryOk(w) && forall i :: i in w.replicas ==> Sound(lib, w, w.replicas[i]) && Covered(w, w.replicas[i])
  }

  predicate IsSeed(a: Action) {
    a.SeedCheck? || a.SeedCommit? || a.SeedAbort?
  }

  /** A step of one replica that leaves the table alone keeps that replica sound and never sets it back. */
  lemma {:induction false} LocalStep(lib: Lib, w: World, a: Action)
    requires Inv(lib, w) && Enabled(lib, w, a) && !a.Boot? && !IsSeed(a) && !a.WriterCommit?
    ensures var r := w.replicas[a.i];
            var r' := ReplicaStep(lib, w.log, r, a);
            Sound(lib, w, r') && Covered(w, r') && r.version <= r'.version
  {
    assert Sound(lib, w, w.replicas[a.i]) && Covered(w, w.replicas[a.i]);
  }

  lemma {:induction false} CommitKeepsInv(lib: Lib, w: World, a: Action)
    requires Inv(lib, w) && Enabled(lib, w, a) && a.WriterCommit?
    ensures Inv(lib, Apply(lib, w, a))
  {
    var w' := Apply(lib, w, a);
    forall j | j in w'.replicas ensures Sound(lib, w', w'.replicas[j]) && Covered(w', w'.replicas[j]) {
      assert Sound(lib, w, w.replicas[j]) && Covered(w, w.replicas[j]);
      assert w'.log[w.replicas[j].version] == w.log[w.replicas[j].version];
    }
  }

  lemma {:induction false} SeedKeepsInv(lib: Lib, w: World, a: Action)
    requires Inv(lib, w) && Enabled(lib, w, a) && IsSeed(a)
    ensures Inv(lib, Apply(lib, w, a))
  {
    var w' := Apply(lib, w, a);
    forall j | j in w'.replicas ensures Sound(lib, w', w'.replicas[j]) && Covered(w', w'.replicas[j]) {
      assert Sound(lib, w, w.replicas[j]) && Covered(w, w.replicas[j]);
      assert w'.log[w.replicas[j].version] == w.log[w.replicas[j].version];
    }
  }

  lemma {:induction false} LocalKeepsInv(lib: Lib, w: World, a: Action)
    requires Inv(lib, w) && Enabled(lib, w, a)
    requires !a.Boot? && !IsSeed(a) && !a.WriterCommit?
    ensures Inv(lib, Apply(lib, w, a))
  {
    LocalStep(lib, w, a);
    hide ReplicaStep, Sound, Covered, Enabled, Compiles;
    var r' := ReplicaStep(lib, w.log, w.replicas[a.i], a);
    assert Apply(lib, w, a) == w.(replicas := w.replicas[a.i := r']);
    SoundDependsOnLog(lib, w, Apply(lib, w, a));
  }

  lemma {:induction false} SoundDependsOnLog(lib: Lib, w: World, w': World)
    requires w.log == w'.log && w.announced == w'.announced
    ensures forall r :: (Sound(lib, w, r) <==> Sound(lib, w', r)) && (Covered(w, r) <==> Covered(w', r))
  {
  }

  lemma {:induction false} BootKeepsInv(lib: Lib, w: World, a: Action)
    requires Inv(lib, w) && Enabled(lib, w, a) && a.Boot?
    ensures Inv(lib, Apply(lib, w, a))
  {
    hide Compiles;
    SoundDependsOnLog(lib, w, Apply(lib, w, a));
  }

  lemma {:induction false} StepKeepsInv(lib: Lib, w: World, a: Action)
    requires Inv(lib, w) && Enabled(lib, w, a)
    ensures Inv(lib, Apply(lib, w, a))
  {
    hide Inv, Enabled, Apply;
    match a
    case WriterCommit(_, _) => CommitKeepsInv(lib, w, a);
    case Boot(_, _) => BootKeepsInv(lib, w, a);
    case SeedCheck => SeedKeepsInv(lib, w, a);
    case SeedCommit(_) => SeedKeepsInv(lib, w, a);
    case SeedAbort => SeedKeepsInv(lib, w, a);
    case _ => LocalKeepsInv(lib, w, a);
  }

  /** No step takes a replica back to an older table. */
  lemma {:induction false} NeverGoesBack(lib: Lib, w: World, a: Action, i: nat)
    requires Inv(lib, w) && Enabled(lib, w, a) && i in w.replicas
    ensures i in Apply(lib, w, a).replicas && w.replicas[i].version <= Apply(lib, w, a).replicas[i].version
  {
    if !a.Boot? && !IsSeed(a) && !a.WriterCommit? {
      LocalStep(lib, w, a);
    }
  }

  lemma {:induction false} LogGrows(lib: Lib, w: World, a: Action)
    requires Enabled(lib, w, a)
    ensures w.log <= Apply(lib, w, a).log
  {
  }

  // ------------------------------------------------------------------ runs

  ghost predicate IsRun(lib: Lib, w: World, actions: seq<Action>)
    decreases |actions|
  {
    actions != [] ==>
      Enabled(lib, w, actions[0]) && IsRun(lib, Apply(lib, w, actions[0]), actions[1..])
  }

  ghost function Run(lib: Lib, w: World, actions: seq<Action>): World
    requires IsRun(lib, w, actions)
    decreases |actions|
  {
    if actions == [] then w else Run(lib, Apply(lib, w, actions[0]), actions[1..])
  }

  /** A run is its actions one after another, the last one last. */
  lemma {:induction false} RunEndsWith(lib: Lib, w: World, actions: seq<Action>, last: Action)
    requires IsRun(lib, w, actions + [last])
    ensures IsRun(lib, w, actions) && Enabled(lib, Run(lib, w, actions), last)
    ensures Run(lib, w, actions + [last]) == Apply(lib, Run(lib, w, actions), last)
    decreases |actions|
  {
    hide Enabled, Apply;
    if actions != [] {
      assert (actions + [last])[1..] == actions[1..] + [last];
      RunEndsWith(lib, Apply(lib, w, actions[0]), actions[1..], last);
    } else {
      assert [last][1..] == [];
    }
  }

  lemma {:induction false} RunKeepsInv(lib: Lib, w: World, actions: seq<Action>)
    requires Inv(lib, w) && IsRun(lib, w, actions)
    ensures Inv(lib, Run(lib, w, actions)) && w.log <= Run(lib, w, actions).log
    ensures forall i :: i in w.replicas ==>
              i in Run(lib, w, actions).replicas
              && w.replicas[i].version <= Run(lib, w, actions).replicas[i].version
    decreases |actions|
  {
    if actions != [] {
      var a := actions[0];
      StepKeepsInv(lib, w, a);
      var w1 := Apply(lib, w, a);
      forall i | i in w.replicas ensures i in w1.replicas && w.replicas[i].version <= w1.replicas[i].version {
        NeverGoesBack(lib, w, a, i);
      }
      LogGrows(lib, w, a);
      hide Inv, Enabled, Apply;
      RunKeepsInv(lib, w1, actions[1..]);
    }
  }

  /** The replica is past its post-LISTEN reload, its session is up and nothing is queued. */
  predicate Settled(r: Replica) {
    r.at == Waiting && r.session && r.pending == 0
  }

  /** The last commit is a seed, which is not announced. */
  predicate SilentlySeeded(w: World)
    requires HistoryOk(w)
  {
    |w.log| == w.announced + 2
  }

  /** The last read that was installed came to the end of the table. */
  predicate ReadWhole(w: World, r: Replica)
    requires r.version < |w.log|
  {
    r.got == |w.log[r.version]|
  }

  /**
    Replica coherence. From a system without replicas, in every interleaving: each replica serves
    the first rows of some committed table, they compile, and the history only grows. A settled
    replica serves the current table if and only if its last read was whole, unless the last commit
    is a seed: then it may serve the table before.
   */
  lemma {:induction false} ReplicasAreCoherent(lib: Lib, table: RuleSet, actions: seq<Action>, i: nat)
    requires IsRun(lib, World([table], 0, false, map[]), actions)
    requires i in Run(lib, World([table], 0, false, map[]), actions).replicas
    ensures var w := Run(lib, World([table], 0, false, map[]), actions);
            var r := w.replicas[i];
            HistoryOk(w) && r.version < |w.log| && r.cache <= w.log[r.version] && Compiles(lib, r.cache)
            && (r.cache == w.log[r.version] <==> ReadWhole(w, r))
            && (Settled(r) ==>
                  (r.version == Latest(w) && (r.cache == Table(w) <==> ReadWhole(w, r)))
                  || (SilentlySeeded(w) && r.version == w.announced && r.cache != Table(w)))
  {
    hide IsRun, Run, Compiles;
    var w0 := World([table], 0, false, map[]);
    RunKeepsInv(lib, w0, actions);
    var w := Run(lib, w0, actions);
    assert Sound(lib, w, w.replicas[i]) && Covered(w, w.replicas[i]);
  }

  /** The first exception is real: a seed leaves every settled replica behind. */
  lemma {:induction false} SeedLeavesReplicasBehind(lib: Lib, w: World, table: RuleSet, i: nat)
    requires Inv(lib, w) && w.seeding && |Table(w)| < |table| && i in w.replicas && Settled(w.replicas[i])
    ensures Enabled(lib, w, SeedCommit(table))
    ensures var w' := Apply(lib, w, SeedCommit(table));
            Settled(w'.replicas[i]) && w'.replicas[i].cache != Table(w') && SilentlySeeded(w')
  {
    assert Sound(lib, w, w.replicas[i]) && Covered(w, w.replicas[i]);
  }

  /** And the check does not keep the table empty: a mutation may commit before the seed does. */
  lemma {:induction false} SeedMixesIn(lib: Lib, w: World, i: nat, created: RuleSet, table: RuleSet)
    requires Inv(lib, w) && w.seeding && i in w.replicas && w.replicas[i].lock == WriterHolds
    requires created != [] && created < table
    ensures Enabled(lib, w, WriterCommit(i, created))
    ensures var w1 := Apply(lib, w, WriterCommit(i, created));
            Table(w1) == created && Enabled(lib, w1, SeedCommit(table))
            && Table(Apply(lib, w1, SeedCommit(table))) == table
  {
  }

  /**
    The second exception is real: whatever part of a table that compiles a reload got, it installs
    that part, and with a live session and nothing queued it is settled there.
   */
  lemma {:induction false} TruncatedReadIsServed(lib: Lib, w: World, i: nat, got: nat)
    requires Inv(lib, w) && i in w.replicas && w.replicas[i].at == Reading(Latest(w))
    requires Compiles(lib, Table(w)) && got < |Table(w)|
    requires w.replicas[i].session && w.replicas[i].pending == 0
    ensures Enabled(lib, w, EndReload(i, got))
    ensures var r := Apply(lib, w, EndReload(i, got)).replicas[i];
            Settled(r) && r.version == Latest(w) && r.cache == Table(w)[..got] && r.cache != Table(w)
  {
    PartCompiles(lib, Table(w), got);
  }

  lemma {:induction false} PartCompiles(lib: Lib, table: RuleSet, got: nat)
    requires Compiles(lib, table) && got <= |table|
    ensures Compiles(lib, table[..got])
  {
  }

  /**
    Catching up. A replica that needs a reload, has its lock free and reads to the end settles on
    the current table in two steps of its own exactly when that table compiles; otherwise it keeps
    what it served and goes back to reconnecting.
   */
  lemma {:induction false} ReloadCatchesUpIffCompiles(lib: Lib, w: World, i: nat)
    requires Inv(lib, w) && i in w.replicas && w.replicas[i].at == NeedsReload && w.replicas[i].lock == Free
    ensures Enabled(lib, w, BeginReload(i))
    ensures var w1 := Apply(lib, w, BeginReload(i));
            Enabled(lib, w1, EndReload(i, |Table(w)|))
            && var r := Apply(lib, w1, EndReload(i, |Table(w)|)).replicas[i];
               if Compiles(lib, Table(w)) then r.at == Waiting && r.cache == Table(w) && r.version == Latest(w)
               else r.at == Idle && r.cache == w.replicas[i].cache
  {
    assert Table(w)[..|Table(w)|] == Table(w);
  }

  // ------------------------------------------------- the steps, said outright

  /** What the listener of replica i may do, and what that leaves of the replica; the rest of the world stays. */
  lemma {:induction false} ListenerSteps(lib: Lib, w: World, i: nat, stale: nat)
    requires w.log != [] && i in w.replicas
    ensures var r := w.replicas[i];
            (Enabled(lib, w, Listen(i, stale)) <==> r.at == Idle)
            && (Enabled(lib, w, BeginReload(i)) <==> r.at == NeedsReload && r.lock == Free)
            && (Enabled(lib, w, ReloadError(i)) <==> r.at.Reading?)
            && (Enabled(lib, w, Receive(i)) <==> r.at == Waiting && r.session && r.pending > 0)
            && (Enabled(lib, w, LoseSession(i)) <==> r.session)
            && (Enabled(lib, w, NoticeLoss(i)) <==> r.at == Waiting && !r.session)
    ensures var r := w.replicas[i];
            (r.at == Idle ==>
               Apply(lib, w, Listen(i, stale))
               == w.(replicas := w.replicas[i := Replica(r.cache, r.version, r.got, true, stale, NeedsReload, r.lock)]))
            && (r.at == NeedsReload && r.lock == Free ==>
                  Apply(lib, w, BeginReload(i))
                  == w.(replicas := w.replicas[i :=
                       Replica(r.cache, r.version, r.got, r.session, r.pending, Reading(|w.log| - 1), ListenerHolds)]))
            && (r.at.Reading? ==>
                  Apply(lib, w, ReloadError(i))
                  == w.(replicas := w.replicas[i := Replica(r.cache, r.version, r.got, false, 0, Idle, Free)]))
            && (r.at == Waiting && r.session && r.pending > 0 ==>
                  Apply(lib, w, Receive(i))
                  == w.(replicas := w.replicas[i :=
                       Replica(r.cache, r.version, r.got, true, r.pending - 1, NeedsReload, r.lock)]))
            && (r.session ==>
                  Apply(lib, w, LoseSession(i))
                  == w.(replicas := w.replicas[i := Replica(r.cache, r.version, r.got, false, 0, r.at, r.lock)]))
            && (r.at == Waiting && !r.session ==>
                  Apply(lib, w, NoticeLoss(i))
                  == w.(replicas := w.replicas[i := Replica(r.cache, r.version, r.got, false, r.pending, Idle, r.lock)]))
  {
  }

  /** A mutation holds the lock of its own replica from before its transaction to after its reload. */
  lemma {:induction false} WriterSteps(lib: Lib, w: World, i: nat)
    requires w.log != [] && i in w.replicas
    ensures var r := w.replicas[i];
            (Enabled(lib, w, WriterLock(i)) <==> r.lock == Free)
            && (Enabled(lib, w, WriterAbort(i)) <==> r.lock == WriterHolds)
            && (Enabled(lib, w, WriterRead(i)) <==> r.lock == WriterCommitted)
            && (Enabled(lib, w, WriterReloadError(i)) <==> r.lock == WriterCommitted || r.lock.WriterReads?)
    ensures var r := w.replicas[i];
            (r.lock == Free ==> Apply(lib, w, WriterLock(i)) == w.(replicas := w.replicas[i := r.(lock := WriterHolds)]))
            && (r.lock == WriterHolds ==> Apply(lib, w, WriterAbort(i)) == w.(replicas := w.replicas[i := r.(lock := Free)]))
            && (r.lock == WriterCommitted ==>
                  Apply(lib, w, WriterRead(i))
                  == w.(replicas := w.replicas[i := r.(lock := WriterReads(|w.log| - 1))]))
            && (r.lock == WriterCommitted || r.lock.WriterReads? ==>
                  Apply(lib, w, WriterReloadError(i)) == w.(replicas := w.replicas[i := r.(lock := Free)]))
  {
  }

  /** A commit by replica i adds one table and queues one notification for every replica that listens. */
  lemma {:induction false} CommitWrites(lib: Lib, w: World, i: nat, table: RuleSet, j: nat)
    requires w.log != [] && i in w.replicas && w.replicas[i].lock == WriterHolds && j in w.replicas
    ensures Enabled(lib, w, WriterCommit(i, table))
    ensures var w', r := Apply(lib, w, WriterCommit(i, table)), w.replicas[j];
            w'.log == w.log + [table] && w'.announced == |w.log| && w'.seeding == w.seeding
            && w'.replicas.Keys == w.replicas.Keys
            && w'.replicas[j] == Replica(r.cache, r.version, r.got, r.session,
                                         if r.session then r.pending + 1 else r.pending, r.at,
                                         if j == i then WriterCommitted else r.lock)
  {
  }

  /** The end of a reload, by the listener or by a mutation, whole or not: the rows go in if they compile. */
  lemma {:induction false} ReloadWrites(lib: Lib, w: World, i: nat, got: nat)
    requires Inv(lib, w) && i in w.replicas
    ensures var r := w.replicas[i];
            (Enabled(lib, w, EndReload(i, got)) <==> r.at.Reading? && got <= |w.log[r.at.version]|)
            && (Enabled(lib, w, WriterEnd(i, got)) <==> r.lock.WriterReads? && got <= |w.log[r.lock.version]|)
    ensures var r := w.replicas[i];
            Enabled(lib, w, EndReload(i, got)) ==>
              var rows := w.log[r.at.version][..got];
              Apply(lib, w, EndReload(i, got))
              == w.(replicas := w.replicas[i :=
                   if Compiles(lib, rows) then Replica(rows, r.at.version, got, r.session, r.pending, Waiting, Free)
                   else Replica(r.cache, r.version, r.got, false, 0, Idle, Free)])
    ensures var r := w.replicas[i];
            Enabled(lib, w, WriterEnd(i, got)) ==>
              var rows := w.log[r.lock.version][..got];
              Apply(lib, w, WriterEnd(i, got))
              == w.(replicas := w.replicas[i :=
                   if Compiles(lib, rows) then Replica(rows, r.lock.version, got, r.session, r.pending, r.at, Free)
                   else Replica(r.cache, r.version, r.got, r.session, r.pending, r.at, Free)])
  {
    assert Sound(lib, w, w.replicas[i]);
    hide Compiles;
  }

  /** A start: the rows read, if they compile, no session and nothing queued. */
  lemma {:induction false} BootWrites(lib: Lib, w: World, i: nat, got: nat)
    requires w.log != [] && i !in w.replicas && got <= |w.log[|w.log| - 1]|
    ensures var rows := w.log[|w.log| - 1][..got];
            (Enabled(lib, w, Boot(i, got)) <==> Compiles(lib, rows))
            && (Compiles(lib, rows) ==>
               Apply(lib, w, Boot(i, got))
               == w.(replicas := w.replicas[i := Replica(rows, |w.log| - 1, got, false, 0, Idle, Free)]))
  {
    hide Compiles;
  }

  /** A seed looks for an empty table once and later commits a longer one than stands there, or gives up. */
  lemma {:induction false} SeedSteps(lib: Lib, w: World, table: RuleSet)
    requires w.log != []
    ensures Enabled(lib, w, SeedCheck) <==> !w.seeding && w.log[|w.log| - 1] == []
    ensures Enabled(lib, w, SeedAbort) <==> w.seeding
    ensures Enabled(lib, w, SeedCommit(table)) <==> w.seeding && |w.log[|w.log| - 1]| < |table|
    ensures !w.seeding && w.log[|w.log| - 1] == [] ==>
              Apply(lib, w, SeedCheck) == World(w.log, w.announced, true, w.replicas)
    ensures w.seeding ==> Apply(lib, w, SeedAbort) == World(w.log, w.announced, false, w.replicas)
    ensures w.seeding && |w.log[|w.log| - 1]| < |table| ==>
              Apply(lib, w, SeedCommit(table)) == World(w.log + [table], w.announced, false, w.replicas)
  {
  }

  // ------------------------------------------------------- reading one's own writes

  /** The mutation has committed and will install nothing older than commit n. */
  predicate WillRead(r: Replica, n: nat) {
    r.lock == WriterCommitted || (r.lock.WriterReads? && n <= r.lock.version)
  }

  lemma {:induction false} StepKeepsWillRead(lib: Lib, w: World, a: Action, i: nat, n: nat)
    requires Inv(lib, w) && Enabled(lib, w, a) && i in w.replicas && n < |w.log| && WillRead(w.replicas[i], n)
    requires a != WriterReloadError(i) && !(a.WriterEnd? && a.i == i)
    ensures i in Apply(lib, w, a).replicas && WillRead(Apply(lib, w, a).replicas[i], n)
  {
    assert Sound(lib, w, w.replicas[i]);
    hide Compiles, Covered;
  }

  lemma {:induction false} RunKeepsWillRead(lib: Lib, w: World, actions: seq<Action>, i: nat, n: nat)
    requires Inv(lib, w) && IsRun(lib, w, actions) && i in w.replicas && n < |w.log| && WillRead(w.replicas[i], n)
    requires forall a :: a in actions ==> a != WriterReloadError(i) && !(a.WriterEnd? && a.i == i)
    ensures i in Run(lib, w, actions).replicas && WillRead(Run(lib, w, actions).replicas[i], n)
    decreases |actions|
  {
    if actions != [] {
      hide WillRead, Inv, Enabled, Apply;
      StepKeepsWillRead(lib, w, actions[0], i, n);
      StepKeepsInv(lib, w, actions[0]);
      LogGrows(lib, w, actions[0]);
      RunKeepsWillRead(lib, Apply(lib, w, actions[0]), actions[1..], i, n);
    }
  }

  /**
    A mutation reads its own write: whatever happens between its commit and the end of its reload,
    if the rows it reads compile its replica serves them, and they are of a table no older than the commit.
   */
  lemma {:induction false} ReadsOwnWrite(lib: Lib, w: World, actions: seq<Action>, i: nat, got: nat)
    requires Inv(lib, w) && i in w.replicas && w.replicas[i].lock == WriterCommitted
    requires IsRun(lib, w, actions) && Enabled(lib, Run(lib, w, actions), WriterEnd(i, got))
    requires forall a :: a in actions ==> a != WriterReloadError(i) && !(a.WriterEnd? && a.i == i)
    ensures var w1 := Run(lib, w, actions);
            var r := Apply(lib, w1, WriterEnd(i, got)).replicas[i];
            i in w1.replicas && w1.replicas[i].lock.WriterReads?
            && var v := w1.replicas[i].lock.version;
               Latest(w) <= v < |w1.log| && got <= |w1.log[v]|
               && (Compiles(lib, w1.log[v][..got]) ==> r.cache == w1.log[v][..got] && r.version == v)
               && (!Compiles(lib, w1.log[v][..got]) ==> r.cache == w1.replicas[i].cache)
  {
    hide Run, IsRun, Compiles;
    RunKeepsWillRead(lib, w, actions, i, Latest(w));
  }

  // --------------------------------------------------------------- recovery

  /** The replica serves the whole current table and will go on doing so while nothing happens. */
  predicate UpToDate(w: World, r: Replica)
    requires w.log != []
  {
    Settled(r) && r.version == Latest(w) && r.got == |Table(w)|
  }

  /** How many steps of its own separate a replica from that. */
  function Distance(w: World, r: Replica): nat
    requires w.log != []
  {
    if UpToDate(w, r) then 0
    else
      (if r.lock == Free || r.lock == ListenerHolds then 0 else 1)
      + match r.at
        case Idle => 3
        case Waiting => if r.session then 5 else 4
        case NeedsReload => if r.session && r.pending == 0 then 2 else 5
        case Reading(v) => if r.session && r.pending == 0 && v == Latest(w) then 1 else 4
  }

  function OneCloser(w: World, i: nat): Action
    requires w.log != [] && i in w.replicas
  {
    var r := w.replicas[i];
    if r.lock == WriterHolds then WriterAbort(i)
    else if r.lock == WriterCommitted || r.lock.WriterReads? then WriterReloadError(i)
    else
      match r.at
      case Idle => Listen(i, 0)
      case Waiting => if r.session then LoseSession(i) else NoticeLoss(i)
      case NeedsReload => BeginReload(i)
      case Reading(v) =>
        if r.session && r.pending == 0 && v == Latest(w) then EndReload(i, |Table(w)|) else ReloadError(i)
  }

  lemma {:induction false} LockReleased(lib: Lib, w: World, i: nat)
    requires Inv(lib, w) && i in w.replicas && !UpToDate(w, w.replicas[i])
    requires w.replicas[i].lock != Free && w.replicas[i].lock != ListenerHolds
    ensures Enabled(lib, w, OneCloser(w, i))
    ensures var w' := Apply(lib, w, OneCloser(w, i));
            w'.log == w.log && i in w'.replicas && Distance(w', w'.replicas[i]) < Distance(w, w.replicas[i])
  {
    assert w.log != [];
    hide Inv, Compiles, Install;
  }

  lemma {:induction false} ListenerMoves(lib: Lib, w: World, i: nat)
    requires Inv(lib, w) && i in w.replicas && Compiles(lib, Table(w)) && !UpToDate(w, w.replicas[i])
    requires w.replicas[i].lock == Free || w.replicas[i].lock == ListenerHolds
    ensures Enabled(lib, w, OneCloser(w, i))
    ensures var w' := Apply(lib, w, OneCloser(w, i));
            w'.log == w.log && i in w'.replicas && Distance(w', w'.replicas[i]) < Distance(w, w.replicas[i])
  {
    assert Sound(lib, w, w.replicas[i]);
    assert Table(w)[..|Table(w)|] == Table(w);
    hide Compiles, Covered;
  }

  lemma {:induction false} OneCloserIsCloser(lib: Lib, w: World, i: nat)
    requires Inv(lib, w) && i in w.replicas && Compiles(lib, Table(w)) && !UpToDate(w, w.replicas[i])
    ensures Enabled(lib, w, OneCloser(w, i))
    ensures var w' := Apply(lib, w, OneCloser(w, i));
            w'.log == w.log && i in w'.replicas && Distance(w', w'.replicas[i]) < Distance(w, w.replicas[i])
  {
    hide UpToDate, Compiles, Apply, Enabled, Distance, OneCloser;
    if w.replicas[i].lock == Free || w.replicas[i].lock == ListenerHolds {
      ListenerMoves(lib, w, i);
    } else {
      LockReleased(lib, w, i);
    }
  }

  predicate IsOwn(a: Action, i: nat) {
    !a.Boot? && !IsSeed(a) && a.i == i
  }

  lemma {:induction false} OneCloserIsOwn(w: World, i: nat)
    requires w.log != [] && i in w.replicas
    ensures IsOwn(OneCloser(w, i), i)
  {
  }

  lemma {:induction false} UpToDateServes(lib: Lib, w: World, i: nat)
    requires Inv(lib, w) && i in w.replicas && UpToDate(w, w.replicas[i])
    ensures Settled(w.replicas[i]) && w.replicas[i].cache == Table(w)
  {
    assert Sound(lib, w, w.replicas[i]);
    hide Compiles;
  }

  lemma {:induction false} StepsToCatchUp(lib: Lib, w: World, i: nat) returns (actions: seq<Action>)
    requires Inv(lib, w) && i in w.replicas && Compiles(lib, Table(w))
    ensures |actions| <= Distance(w, w.replicas[i]) && IsRun(lib, w, actions)
    ensures forall a :: a in actions ==> IsOwn(a, i)
    ensures var w' := Run(lib, w, actions);
            i in w'.replicas && w'.log == w.log && Settled(w'.replicas[i]) && w'.replicas[i].cache == Table(w)
    decreases Distance(w, w.replicas[i])
  {
    assert w.log != [];
    hide Inv, Enabled, Apply, Distance, Compiles, UpToDate, Settled, OneCloser;
    if UpToDate(w, w.replicas[i]) {
      UpToDateServes(lib, w, i);
      actions := [];
    } else {
      OneCloserIsCloser(lib, w, i);
      OneCloserIsOwn(w, i);
      StepKeepsInv(lib, w, OneCloser(w, i));
      var rest := StepsToCatchUp(lib, Apply(lib, w, OneCloser(w, i)), i);
      actions := [OneCloser(w, i)] + rest;
      assert actions[1..] == rest;
    }
  }

  /**
    No state is a dead end: while nothing else happens and the table compiles, at most six steps of
    its own lead a replica from wherever it is to serving the whole current table.
   */
  lemma {:induction false} EveryReplicaCanCatchUp(lib: Lib, w: World, i: nat) returns (actions: seq<Action>)
    requires Inv(lib, w) && i in w.replicas && Compiles(lib, Table(w))
    ensures |actions| <= 6 && IsRun(lib, w, actions) && forall a :: a in actions ==> IsOwn(a, i)
    ensures var w' := Run(lib, w, actions);
            i in w'.replicas && w'.log == w.log && Settled(w'.replicas[i]) && w'.replicas[i].cache == Table(w)
  {
    actions := StepsToCatchUp(lib, w, i);
  }

  // --------------------------------------------------- the store of one replica

  class PostgresStore {
    const lib: Lib
    var rules: RuleSet
    var matcher: Option<Matcher>

    predicate Valid()
      reads this
    {
      matcher.Some? ==> IsMatcherOf(lib, matcher.value, rules)
    }

    constructor (lib: Lib)
      ensures Valid() && this.lib == lib && rules == [] && matcher.None?
    {
      this.lib, rules, matcher := lib, [], None;
    }

    /** Compiles the rows that were read, all or not, and swaps them in, or changes nothing. */
    method ReloadLocked(table: RuleSet) returns (ok: bool)
      requires Valid()
      modifies this
      ensures Valid() && ok == Compiles(lib, table)
      ensures ok ==> rules == table && matcher.Some?
      ensures !ok ==> rules == old(rules) && matcher == old(matcher)
    {
      var m := CompileRules(lib, table);
      if m.None? {
        return false;
      }
      rules := table;
      matcher := m;
      return true;
    }

    /** None: no matcher yet, an error; otherwise the first-match choice among the cached rules. */
    method MatchRequest(verb: bytes, path: bytes) returns (r: Option<Option<Rule>>)
      requires Valid()
      ensures r == if matcher.None? then None else Some(Choose(lib, matcher.value, verb, path))
    {
      if matcher.None? {
        return None;
      }
      var chosen := Match(lib, matcher.value, verb, path);
      return Some(chosen);
    }
  }
}
