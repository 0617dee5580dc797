/**
 * The scheduler cutover (src/migrate.js, with the drain marker of src/state.js). The state root is one `Disk` value;
 * every durable write is one call of `Write`, whose fate is chosen from outside: it takes effect, it throws before or
 * after taking effect, or the process dies there. A method that returns `Died` did nothing after that point, so what it
 * ensures in that case holds at every crash point.
 */
module Migration {
  import opened Common

  type Pid = int
  type Contents = seq<string>

  /** `queue.legacy-<stamp>` is `(stamp, 1)`; `queue.legacy-<stamp>-<n>` is `(stamp, n)`. */
  type AsideName = (string, nat)

  datatype FileState = Missing | Invalid | Valid

  datatype QueueEntry = Directory(contents: Contents) | Absent | Fence | Other

  datatype Reason = DrainReason(pid: Pid) | OtherReason(text: string)

  datatype DrainFile = NoMarker | Unjudgeable | Marker(pid: Pid, startTime: string, pausedByDrain: bool)

  datatype Disk = Disk(
    migrating: Option<Option<Pid>>,
    fairness: FileState,
    schedFence: FileState,
    queue: QueueEntry,
    queueV2: bool,
    pendingFence: bool,
    asides: map<AsideName, Contents>,
    singletons: set<string>,
    archived: set<(string, string)>,
    pause: Option<Reason>,
    draining: DrainFile)

  datatype Fate = Ok | Fails | FailsLate | Crash

  datatype Io = Done | Threw | Died {
    predicate IsFailure() { !Done? }
    function PropagateFailure(): Io requires IsFailure() { this }
  }

  function Report(f: Fate): Io { match f case Ok => Done case Crash => Died case _ => Threw }

  predicate Takes(f: Fate) { f == Ok || f == FailsLate }

  /** What a strict listing says: nothing there, something there, or a record that cannot be read. */
  datatype Verdict = Clear | Busy | Unreadable

  datatype Look = Look(throws: bool, queued: Verdict, leases: Verdict, attempts: Verdict, tableReadable: bool,
    processes: bool)

  /** What one locked call sees beside the disk: live pids, live (pid, start time) pairs, and the listings. */
  datatype Sight = Sight(alivePids: set<Pid>, aliveProcesses: set<(Pid, string)>, look: Look)

  datatype Identity = Identity(pid: Pid, startTime: string)

  datatype Mode = DryRun | Plain | FromDrain(identity: Identity)

  datatype Status =
    | Migrated | Recovered | AlreadyMigrated | FairnessInvalid | Refused(busyOnly: bool) | Ready | Timeout | Aborted

  // ---------------------------------------------------------------- what the disk promises

  /** The scheduler fence stands only over a valid fairness file and a fenced queue. */
  predicate Committed(d: Disk) { d.schedFence == Valid ==> d.fairness == Valid && d.queue == Fence }

  /** A pause made by a drain is covered by the marker that records that drain as its owner. */
  predicate Covered(d: Disk)
  {
    d.pause.Some? && d.pause.value.DrainReason? ==>
      d.draining.Marker? && d.draining.pid == d.pause.value.pid && d.draining.pausedByDrain
  }

  /** From `a` to `b` no moved-aside directory is lost or overwritten, nor is the legacy queue directory. */
  predicate KeepsDirectories(a: Disk, b: Disk)
  {
    && (forall n :: n in a.asides ==> n in b.asides && b.asides[n] == a.asides[n])
    && (a.queue.Directory? ==>
          b.queue == a.queue || exists n :: n in b.asides && n !in a.asides && b.asides[n] == a.queue.contents)
  }

  /** No step of the cutover is undone, and the queue entry never becomes something else. */
  predicate Forward(a: Disk, b: Disk)
  {
    && (a.schedFence == Valid ==> b.schedFence == Valid)
    && (a.fairness == Valid ==> b.fairness == Valid)
    && (a.queue == Fence ==> b.queue == Fence)
    && (a.queue != Other ==> b.queue != Other)
  }

  predicate SameMarkers(a: Disk, b: Disk)
  {
    a.migrating == b.migrating && a.pause == b.pause && a.draining == b.draining
  }

  /** `a` and `b` agree on everything but the two markers and the pause. */
  predicate SameCore(a: Disk, b: Disk)
  {
    a.(migrating := None, pause := None, draining := NoMarker) ==
      b.(migrating := None, pause := None, draining := NoMarker)
  }

  /** No archived file is lost, and a legacy file that is gone is archived. */
  predicate KeepsFiles(a: Disk, b: Disk)
  {
    && a.archived <= b.archived
    && forall f :: f in a.singletons && f !in b.singletons ==> exists x :: x in b.archived && x.0 == f
  }

  /** Files archived under one stamp are not lost. */
  lemma ArchivedKeeps(a: Disk, b: Disk, stamp: string)
    requires b.singletons <= a.singletons
    requires b.archived == a.archived + set f | f in a.singletons - b.singletons :: (f, stamp)
    ensures KeepsTheRest(a, b.(queue := a.queue, queueV2 := a.queueV2))
  {
    forall f | f in a.singletons && f !in b.singletons ensures exists x :: x in b.archived && x.0 == f {
      assert (f, stamp) in b.archived;
    }
  }

  /** Where old code is fenced off the queue, the queue of new code is there. */
  predicate HasNewQueue(d: Disk) { d.queue == Fence ==> d.queueV2 }

  predicate Progress(a: Disk, b: Disk)
  {
    (Committed(a) ==> Committed(b)) && KeepsDirectories(a, b) && Forward(a, b)
  }

  /** Beside that, no legacy file is lost, and a fenced queue has its successor. */
  predicate KeepsTheRest(a: Disk, b: Disk) { KeepsFiles(a, b) && (HasNewQueue(a) ==> HasNewQueue(b)) }

  lemma ProgressTransitive(a: Disk, b: Disk, c: Disk)
    requires Progress(a, b) && Progress(b, c)
    ensures Progress(a, c)
  {
    if a.queue.Directory? && c.queue != a.queue {
      if b.queue == a.queue {
        var n :| n in c.asides && n !in b.asides && c.asides[n] == b.queue.contents;
        assert n !in a.asides;
      } else {
        var n :| n in b.asides && n !in a.asides && b.asides[n] == a.queue.contents;
        assert n in c.asides && c.asides[n] == a.queue.contents;
      }
    }
  }

  lemma RestTransitive(a: Disk, b: Disk, c: Disk)
    requires KeepsTheRest(a, b) && KeepsTheRest(b, c)
    ensures KeepsTheRest(a, c)
  {
    forall f | f in a.singletons && f !in c.singletons ensures exists x :: x in c.archived && x.0 == f {
      if f !in b.singletons {
        var x :| x in b.archived && x.0 == f;
        assert x in c.archived;
      }
    }
  }

  predicate Idle(look: Look)
  {
    && !look.throws && look.queued == Clear && look.leases == Clear && look.attempts == Clear && look.tableReadable
    && !look.processes
  }

  predicate AllClear(d: Disk, look: Look) { d.pause.Some? && d.queue != Other && Idle(look) }

  /** Every failing check, if any, clears by itself. */
  predicate OnlyBusy(paused: bool, d: Disk, look: Look)
  {
    && paused && d.queue != Other && look.tableReadable && look.queued != Unreadable && look.leases != Unreadable
    && look.attempts != Unreadable
  }

  predicate LiveMigrator(d: Disk, pid: Pid, sight: Sight)
  {
    && d.migrating.Some? && d.migrating.value.Some? && d.migrating.value.value != pid
    && d.migrating.value.value in sight.alivePids
  }

  /** The `migrating` marker names another pid, and that process lives. */
  predicate OtherMigrates(d: Disk, pid: Pid, sight: Sight)
  {
    exists p :: d.migrating == Some(Some(p)) && p != pid && p in sight.alivePids
  }

  predicate IsStale(m: DrainFile, sight: Sight) { m.Marker? && (m.pid, m.startTime) !in sight.aliveProcesses }

  /** The marker's drain owns the pause: it says so, and PAUSE still holds that drain's reason. */
  predicate OwnsPause(d: Disk)
  {
    d.draining.Marker? && d.draining.pausedByDrain && d.pause == Some(DrainReason(d.draining.pid))
  }

  function Resumed(d: Disk): Disk { if OwnsPause(d) then d.(pause := None) else d }

  function DrainPaused(d: Disk, identity: Identity): Disk
  {
    d.(draining := Marker(identity.pid, identity.startTime, true), pause := Some(DrainReason(identity.pid)))
  }

  /** What a call on an uncommitted disk answers. */
  function Verdicts(d: Disk, pid: Pid, mode: Mode, sight: Sight): Status
  {
    var paused := d.pause.Some? || mode.FromDrain?;
    if LiveMigrator(d, pid, sight) then Refused(false)
    else if !(paused && d.queue != Other && Idle(sight.look)) then Refused(OnlyBusy(paused, d, sight.look))
    else if mode.DryRun? then Ready else Migrated
  }

  /**
   * The verdicts in what the disk and the look say. With another migrator alive it is a refusal for good; if the broker
   * is or will be paused, the queue entry is known and the look met no error, no ticket, no lease, no attempt and no
   * process, the cutover may run; else it is a refusal, which clears by itself unless something could not be read, the
   * queue entry is unknown or nobody pauses.
   */
  lemma VerdictMeaning(d: Disk, pid: Pid, mode: Mode, sight: Sight)
    ensures
      var look, paused := sight.look, d.pause.Some? || mode.FromDrain?;
      var v := Verdicts(d, pid, mode, sight);
      if OtherMigrates(d, pid, sight) then v == Refused(false)
      else if
        && paused && d.queue != Other && !look.throws && look.queued == Clear && look.leases == Clear
        && look.attempts == Clear && look.tableReadable && !look.processes
      then v == if mode == DryRun then Ready else Migrated
      else
        && v.Refused?
        && (v.busyOnly <==>
              && paused && d.queue != Other && look.tableReadable
              && look.queued != Unreadable && look.leases != Unreadable && look.attempts != Unreadable)
  {}

  /** A pause is released only for a marker that owns it, and only if it is that drain's own. */
  lemma ResumedMeaning(d: Disk)
    ensures Resumed(d) != d <==>
      exists p, s :: d.draining == Marker(p, s, true) && d.pause == Some(DrainReason(p))
    ensures Resumed(d) != d ==> Resumed(d) == d.(pause := None)
  {
    if d.draining.Marker? && d.draining.pausedByDrain {
      assert d.draining == Marker(d.draining.pid, d.draining.startTime, true);
    }
  }

  /** `SameCore` leaves nothing out but the two markers and the pause. */
  lemma SameCoreMeaning(a: Disk, b: Disk)
    ensures SameCore(a, b) <==>
      && a.fairness == b.fairness && a.schedFence == b.schedFence && a.queue == b.queue && a.queueV2 == b.queueV2
      && a.pendingFence == b.pendingFence && a.asides == b.asides && a.singletons == b.singletons
      && a.archived == b.archived
  {}

  predicate MayDrain(d: Disk, pid: Pid, startTime: Option<string>, sight: Sight)
  {
    startTime.Some? && !LiveMigrator(d, pid, sight) && !d.draining.Unjudgeable?
    && (d.draining.Marker? && !IsStale(d.draining, sight) ==> d.draining.pid == pid)
  }

  /** A marker of this very pid, judged alive, that owns the pause. */
  predicate OwnLiveMarker(d: Disk, pid: Pid, sight: Sight)
  {
    OwnsPause(d) && d.draining.pid == pid && !IsStale(d.draining, sight)
  }

  /**
   * One poll of the drain: what its checks see, what the locked call that may follow sees, the clock, and what an
   * operator did to PAUSE since the last poll (a reason of the operator's own, or a resume).
   */
  datatype Poll = Poll(aborted: bool, sight: Sight, second: Sight, now: int, operator: Option<Option<OperatorReason>>)

  /** The drain sleeps between its polls. */
  ghost predicate TimeMoves(polls: nat -> Poll) { forall i: nat, j: nat :: i < j ==> polls(i).now < polls(j).now }

  function Operated(d: Disk, poll: Poll): Disk { if poll.operator.Some? then d.(pause := poll.operator.value) else d }

  type OperatorReason = r: Reason | r.OtherReason? witness OtherReason("paused by operator")

  predicate NoDrainPause(d: Disk) { !(d.pause.Some? && d.pause.value.DrainReason?) }

  /** The drain waits: its marker is there and owns no pause. */
  predicate Waiting(d: Disk, identity: Identity)
  {
    d.draining == Marker(identity.pid, identity.startTime, false) && d.schedFence != Valid
  }

  /** An idle broker, no other migrator, a queue entry the cutover knows, and a pause or a drain that will make one. */
  predicate CanFinish(d: Disk, pid: Pid, mode: Mode, sight: Sight)
  {
    && Committed(d) && d.queue != Other && !mode.DryRun? && (d.pause.Some? || mode.FromDrain?)
    && !LiveMigrator(d, pid, sight) && Idle(sight.look)
  }

  predicate Finished(d: Disk)
  {
    d.schedFence == Valid && d.fairness == Valid && d.queue == Fence && d.migrating == None
  }

  /** How many of `p` writes planned from number `n` on are made: the first that does not succeed is the last. */
  function Ran(fate: nat -> Fate, n: nat, p: nat): nat
    decreases p
  {
    if p == 0 then 0 else if fate(n) != Ok then 1 else 1 + Ran(fate, n + 1, p - 1)
  }

  /** What those writes report. */
  function Outcome(fate: nat -> Fate, n: nat, p: nat): Io
    decreases p
  {
    if p == 0 then Done else if fate(n) != Ok then Report(fate(n)) else Outcome(fate, n + 1, p - 1)
  }

  /** After `p - left` successful writes of a plan, the rest of it is what is still to run. */
  ghost predicate OnPlan(fate: nat -> Fate, n: nat, p: nat, now: nat, left: nat)
  {
    && left <= p && now == n + (p - left) && Ran(fate, n, p) == (p - left) + Ran(fate, now, left)
    && Outcome(fate, n, p) == Outcome(fate, now, left)
  }

  /** A plan that begins with `a` writes goes on only if they all succeed. */
  lemma {:induction false} PlanInTwo(fate: nat -> Fate, n: nat, a: nat, b: nat)
    ensures if Outcome(fate, n, a).Done?
      then
        && Ran(fate, n, a) == a && Ran(fate, n, a + b) == a + Ran(fate, n + a, b)
        && Outcome(fate, n, a + b) == Outcome(fate, n + a, b)
      else Ran(fate, n, a + b) == Ran(fate, n, a) && Outcome(fate, n, a + b) == Outcome(fate, n, a)
    decreases a
  {
    if a > 0 && fate(n) == Ok { PlanInTwo(fate, n + 1, a - 1, b); }
  }

  lemma OneWrite(fate: nat -> Fate, n: nat)
    ensures Ran(fate, n, 1) == 1 && Outcome(fate, n, 1) == Report(fate(n))
  {
    assert Outcome(fate, n + 1, 0) == Done;
  }

  /** The writes that fence the queue. */
  function FencePlan(q: QueueEntry): nat
  {
    match q case Fence => 1 case Directory(_) => 4 case Absent => 3 case Other => 0
  }

  /** The writes of a cutover: none unless every check is clear. */
  function CutoverPlan(d: Disk, look: Look): nat
  {
    if AllClear(d, look) then 1 + FencePlan(d.queue) + 1 + |d.singletons| else 0
  }

  /**
   * How a marked cutover begun at write `n` ends, and with which write number: marker, cutover, and the marker's
   * removal unless it died.
   */
  function MarkedEnd(fate: nat -> Fate, d: Disk, look: Look, n: nat): (Io, nat)
  {
    if fate(n) != Ok then (Report(fate(n)), n + 1)
    else
      var io := if look.throws then Threw else Outcome(fate, n + 1, CutoverPlan(d, look));
      var m := n + 1 + Ran(fate, n + 1, CutoverPlan(d, look));
      if io.Died? then (Died, m) else (if fate(m) == Ok then io else Report(fate(m)), m + 1)
  }

  /** One call of the command by some process. */
  datatype Call = Call(pid: Pid, mode: Mode, sight: Sight, stamp: string)

  /** A drain's call on an idle broker where no other migrator lives. */
  predicate IdleRerun(c: Call)
  {
    c.mode.FromDrain? && c.mode.identity.pid == c.pid && Idle(c.sight.look) && c.sight.alivePids <= {c.pid}
  }

  /** The disk after a drain's own clean-up wrote the removal of its marker, with that fate. */
  function CleanedUp(d: Disk, pid: Pid, removal: Fate): Disk
  {
    if d.draining.Marker? && d.draining.pid == pid && Takes(removal) then d.(draining := NoMarker) else d
  }

  /** The disk a drain starts to wait on, and the writes it takes to get there. */
  function Started(d: Disk, identity: Identity, sight: Sight): Disk
  {
    (if IsStale(d.draining, sight) then Resumed(d) else d).(draining := Marker(identity.pid, identity.startTime, false))
  }

  function StartWrites(d: Disk, sight: Sight): nat
  {
    if !IsStale(d.draining, sight) then 1 else if OwnsPause(d) then 3 else 2
  }

  /** The writes of a drain's call that is refused: marker and its removal, and around them the drain's pause. */
  function CallWrites(d: Disk): nat { if d.pause.None? then 6 else 2 }

  /** A point of a call: what it reports, the disk, and the number of the next write. */
  datatype Stand = At(io: Io, disk: Disk, n: nat)

  class StateRoot {
    var disk: Disk
    var writes: nat
    const fate: nat -> Fate

    constructor (d: Disk, f: nat -> Fate)
      ensures disk == d && writes == 0 && fate == f
    {
      disk, writes, fate := d, 0, f;
    }

    /** No write from number `n` on fails or crashes. */
    ghost predicate Steady(n: nat) { forall k: nat :: k >= n ==> fate(k) == Ok }

    /** One durable write: its fate decides whether it takes effect and what the caller sees. */
    method Write(next: Disk) returns (io: Io)
      modifies this
      ensures writes == old(writes) + 1
      ensures io == Report(fate(old(writes)))
      ensures disk == if Takes(fate(old(writes))) then next else old(disk)
    {
      io := Report(fate(writes));
      if Takes(fate(writes)) { disk := next; }
      writes := writes + 1;
    }

    method FenceLegacyQueue(stamp: string) returns (io: Io)
      modifies this
      ensures KeepsTheRest(old(disk), disk)
      ensures writes >= old(writes)
      ensures Progress(old(disk), disk) && SameMarkers(old(disk), disk)
      ensures disk.schedFence == old(disk).schedFence && disk.fairness == old(disk).fairness
      ensures disk.singletons == old(disk).singletons && disk.archived == old(disk).archived
      ensures io.Done? ==> disk.queue == Fence
      ensures old(disk).queue != Other && Steady(old(writes)) ==> io.Done?
      ensures old(disk).queue != Other ==>
        && writes == old(writes) + Ran(fate, old(writes), FencePlan(old(disk).queue))
        && io == Outcome(fate, old(writes), FencePlan(old(disk).queue))
    {
      OneWrite(fate, writes);
      if disk.queue == Fence {
        io := Write(disk);
        return;
      }
      if disk.queue == Other { return Threw; }
      ghost var d0, w0, swap := disk, writes, if disk.queue.Directory? then 2 else 1;
      PlanInTwo(fate, w0, 1, 1 + swap);
      PlanInTwo(fate, w0 + 1, 1, swap);
      OneWrite(fate, w0 + 1);
      :- Write(disk.(queueV2 := true));
      :- Write(disk.(pendingFence := true));
      ghost var d1 := disk;
      assert Progress(d0, d1);
      io := SwapQueue(stamp);
      ProgressTransitive(d0, d1, disk);
    }

    /** The renames: a legacy directory moves aside under a fresh name, then the pending fence takes its place. */
    method SwapQueue(stamp: string) returns (io: Io)
      requires (disk.queue.Directory? || disk.queue == Absent) && disk.queueV2
      modifies this
      ensures KeepsTheRest(old(disk), disk)
      ensures Progress(old(disk), disk) && SameMarkers(old(disk), disk)
      ensures disk.schedFence == old(disk).schedFence && disk.fairness == old(disk).fairness
      ensures disk.singletons == old(disk).singletons && disk.archived == old(disk).archived
      ensures io.Done? ==> disk.queue == Fence
      ensures var plan := if old(disk).queue.Directory? then 2 else 1;
        writes == old(writes) + Ran(fate, old(writes), plan) && io == Outcome(fate, old(writes), plan)
    {
      ghost var d0 := disk;
      PlanInTwo(fate, writes, 1, 1);
      OneWrite(fate, writes);
      OneWrite(fate, writes + 1);
      if disk.queue.Directory? {
        var n := FreshAside(disk.asides, stamp);
        var moved := disk.(asides := disk.asides[(stamp, n) := disk.queue.contents], queue := Absent);
        assert (stamp, n) in moved.asides && Progress(d0, moved);
        :- Write(moved);
      }
      ghost var d1 := disk;
      ProgressTransitive(d0, d1, d1.(queue := Fence, pendingFence := false));
      io := Write(disk.(queue := Fence, pendingFence := false));
    }

    /** Checks, then the three cutover writes in order: fairness file, queue fence, scheduler fence. */
    method Cutover(dry: bool, look: Look, stamp: string) returns (io: Io, status: Status)
      requires disk.schedFence != Valid
      modifies this
      ensures KeepsTheRest(old(disk), disk)
      ensures writes >= old(writes)
      ensures Progress(old(disk), disk) && SameMarkers(old(disk), disk)
      ensures io.Done? ==>
        status ==
          if !AllClear(old(disk), look) then Refused(OnlyBusy(old(disk).pause.Some?, old(disk), look))
          else if dry then Ready else Migrated
      ensures dry || !AllClear(old(disk), look) ==> disk == old(disk) && io == (if look.throws then Threw else Done)
      ensures
        || (SameCore(old(disk), disk) && !(io.Done? && status == Migrated))
        || (&& !look.throws && look.queued == Clear && look.leases == Clear && look.attempts == Clear
            && look.tableReadable && !look.processes
            && !dry && old(disk).pause.Some? && old(disk).queue != Other)
      ensures io.Done? && status == Migrated ==>
        disk.schedFence == Valid && disk.fairness == Valid && disk.queue == Fence && disk.singletons == {}
      ensures AllClear(old(disk), look) && Steady(old(writes)) ==> io.Done?
      ensures Steady(old(writes)) ==> !io.Died?
      ensures !dry ==> writes == old(writes) + Ran(fate, old(writes), CutoverPlan(old(disk), look))
      ensures !dry ==> io == if look.throws then Threw else Outcome(fate, old(writes), CutoverPlan(old(disk), look))
    {
      status := Refused(false);
      if look.throws { return Threw, status; }
      if !AllClear(disk, look) { return Done, Refused(OnlyBusy(disk.pause.Some?, disk, look)); }
      if dry { return Done, Ready; }
      status := Migrated;
      :- CutOver(stamp);
      return Done, Migrated;
    }

    /** The writes themselves. */
    method CutOver(stamp: string) returns (io: Io)
      requires disk.schedFence != Valid && disk.queue != Other
      modifies this
      ensures KeepsTheRest(old(disk), disk)
      ensures Progress(old(disk), disk) && SameMarkers(old(disk), disk)
      ensures io.Done? ==>
        disk.schedFence == Valid && disk.fairness == Valid && disk.queue == Fence && disk.singletons == {}
      ensures Steady(old(writes)) ==> io.Done?
      ensures var plan := 1 + FencePlan(old(disk).queue) + 1 + |old(disk).singletons|;
        writes == old(writes) + Ran(fate, old(writes), plan) && io == Outcome(fate, old(writes), plan)
    {
      ghost var d0, w0, fence := disk, writes, FencePlan(disk.queue);
      PlanInTwo(fate, w0, 1 + fence, 1 + |disk.singletons|);
      :- PrepareCutover(stamp);
      ghost var d1 := disk;
      io := FenceScheduler(stamp);
      ProgressTransitive(d0, d1, disk);
      RestTransitive(d0, d1, disk);
    }

    /** Everything the fence stands on: the fairness file, then the fenced queue. */
    method PrepareCutover(stamp: string) returns (io: Io)
      requires disk.queue != Other
      modifies this
      ensures KeepsTheRest(old(disk), disk)
      ensures Progress(old(disk), disk) && SameMarkers(old(disk), disk)
      ensures disk.schedFence == old(disk).schedFence && disk.singletons == old(disk).singletons
      ensures io.Done? ==> disk.fairness == Valid && disk.queue == Fence
      ensures Steady(old(writes)) ==> io.Done?
      ensures var plan := 1 + FencePlan(old(disk).queue);
        writes == old(writes) + Ran(fate, old(writes), plan) && io == Outcome(fate, old(writes), plan)
    {
      PlanInTwo(fate, writes, 1, FencePlan(disk.queue));
      OneWrite(fate, writes);
      ghost var d0 := disk;
      :- Write(disk.(fairness := Valid));
      ghost var d1 := disk;
      io := FenceLegacyQueue(stamp);
      ProgressTransitive(d0, d1, disk);
      RestTransitive(d0, d1, disk);
    }

    /** The commit point, and the legacy files it leaves behind. */
    method FenceScheduler(stamp: string) returns (io: Io)
      requires disk.fairness == Valid && disk.queue == Fence
      modifies this
      ensures KeepsTheRest(old(disk), disk)
      ensures Progress(old(disk), disk) && SameMarkers(old(disk), disk) && disk.fairness == Valid && disk.queue == Fence
      ensures io.Done? ==> disk.schedFence == Valid && disk.singletons == {}
      ensures Steady(old(writes)) ==> io.Done?
      ensures writes == old(writes) + Ran(fate, old(writes), 1 + |old(disk).singletons|)
      ensures io == Outcome(fate, old(writes), 1 + |old(disk).singletons|)
    {
      PlanInTwo(fate, writes, 1, |disk.singletons|);
      OneWrite(fate, writes);
      var fenced := disk.(schedFence := Valid);
      :- Write(fenced);
      io := ArchiveSingletons(stamp);
      ArchivedKeeps(fenced, disk, stamp);
    }

    method ArchiveSingletons(stamp: string) returns (io: Io)
      modifies this
      ensures writes >= old(writes)
      ensures disk == old(disk).(singletons := disk.singletons, archived := disk.archived)
      ensures disk.singletons <= old(disk).singletons
      ensures disk.archived ==
        old(disk).archived + set f | f in old(disk).singletons - disk.singletons :: (f, stamp)
      ensures io.Done? ==>
        disk.singletons == {} && disk.archived == old(disk).archived + set f | f in old(disk).singletons :: (f, stamp)
      ensures Steady(old(writes)) ==> io.Done?
      ensures writes == old(writes) + Ran(fate, old(writes), |old(disk).singletons|)
      ensures io == Outcome(fate, old(writes), |old(disk).singletons|)
    {
      ghost var all := disk.singletons;
      ghost var before := disk.archived;
      ghost var d0 := disk;
      ghost var w0 := writes;
      while disk.singletons != {}
        invariant writes >= w0 && disk == d0.(singletons := disk.singletons, archived := disk.archived)
        invariant disk.singletons <= all && disk.archived == before + set f | f in all - disk.singletons :: (f, stamp)
        invariant |disk.singletons| <= |all| && OnPlan(fate, w0, |all|, writes, |disk.singletons|)
        decreases disk.singletons
      {
        var f :| f in disk.singletons;
        :- Write(disk.(singletons := disk.singletons - {f}, archived := disk.archived + {(f, stamp)}));
      }
      return Done;
    }

    /** Resume a pause that a dead drain owns, then remove its marker. */
    method ClearStaleDrainMarker(sight: Sight) returns (io: Io, removed: bool)
      modifies this
      ensures writes >= old(writes)
      ensures SameCore(old(disk), disk) && disk.migrating == old(disk).migrating
      ensures Covered(old(disk)) ==> Covered(disk)
      ensures !IsStale(old(disk).draining, sight) ==> disk == old(disk) && writes == old(writes) && io.Done? && !removed
      ensures IsStale(old(disk).draining, sight) ==>
        var w := if OwnsPause(old(disk)) then 2 else 1;
        (io.Done? <==> AllOk(old(writes), old(writes) + w)) && (io.Done? ==> writes == old(writes) + w)
      ensures old(disk).pause.Some? && old(disk).pause.value.OtherReason? ==> disk.pause == old(disk).pause
      ensures removed ==> exists p, s, owns ::
        old(disk).draining == Marker(p, s, owns) && (p, s) !in sight.aliveProcesses
      ensures IsStale(old(disk).draining, sight) && io.Done? ==>
        removed && disk == Resumed(old(disk)).(draining := NoMarker)
      ensures disk == old(disk) || disk == Resumed(old(disk)) || disk == Resumed(old(disk)).(draining := NoMarker)
      ensures Steady(old(writes)) ==> io.Done?
    {
      removed := false;
      if !IsStale(disk.draining, sight) { return Done, false; }
      if OwnsPause(disk) {
        var resumed := disk.(pause := None);
        :- Write(resumed);
      }
      :- Write(disk.(draining := NoMarker));
      return Done, true;
    }

    method RemoveDrainMarker(pid: Pid) returns (io: Io)
      modifies this
      ensures disk == CleanedUp(old(disk), pid, fate(old(writes)))
      ensures !(old(disk).draining.Marker? && old(disk).draining.pid == pid) ==>
        io.Done? && disk == old(disk) && writes == old(writes)
      ensures old(disk).draining.Marker? && old(disk).draining.pid == pid ==>
        && writes == old(writes) + 1 && io == Report(fate(old(writes)))
        && disk == if Takes(fate(old(writes))) then old(disk).(draining := NoMarker) else old(disk)
    {
      if !(disk.draining.Marker? && disk.draining.pid == pid) { return Done; }
      io := Write(disk.(draining := NoMarker));
    }

    /** The fence is durable: clean up after a migrator or a drain that died behind it. */
    method FinishCommitted(dry: bool, sight: Sight) returns (io: Io, status: Status)
      requires disk.schedFence == Valid
      modifies this
      ensures writes >= old(writes)
      ensures SameCore(old(disk), disk) && (Covered(old(disk)) ==> Covered(disk))
      ensures dry ==> disk == old(disk)
      ensures disk.pause == old(disk).pause || disk.pause == Resumed(old(disk)).pause
      ensures io.Done? ==>
        status ==
          if disk.fairness != Valid then FairnessInvalid
          else if !dry && old(disk).migrating.Some? then Recovered else AlreadyMigrated
      ensures !dry && writes == old(writes) ==> disk.migrating == None
      ensures io.Done? && !dry ==>
        disk.migrating == None
        && disk.draining == (if IsStale(old(disk).draining, sight) then NoMarker else old(disk).draining)
        && disk.pause == (if IsStale(old(disk).draining, sight) then Resumed(old(disk)).pause else old(disk).pause)
      ensures Steady(old(writes)) ==> io.Done?
    {
      status := Refused(false);
      var recovered := !dry && disk.migrating.Some?;
      if recovered {
        var unmarked := disk.(migrating := None);
        :- Write(unmarked);
      }
      if !dry { var removed :- ClearStaleDrainMarker(sight); }
      return Done, if disk.fairness != Valid then FairnessInvalid else if recovered then Recovered else AlreadyMigrated;
    }

    /** Ownership is durable before the pause exists. */
    method PauseForDrain(identity: Identity) returns (io: Io)
      requires disk.pause.None?
      modifies this
      ensures writes > old(writes) && Covered(disk)
      ensures io.Done? ==> disk == DrainPaused(old(disk), identity) && writes == old(writes) + 2
      ensures
        || disk == old(disk) || disk == old(disk).(draining := Marker(identity.pid, identity.startTime, true))
        || disk == DrainPaused(old(disk), identity)
      ensures !io.Done? && disk.pause.Some? <==> fate(old(writes)) == Ok && fate(old(writes) + 1) == FailsLate
      ensures !io.Done? && disk.pause.Some? ==> io.Threw? && writes == old(writes) + 2
      ensures io.Done? <==> fate(old(writes)) == Ok && fate(old(writes) + 1) == Ok
      ensures Steady(old(writes)) ==> io.Done?
    {
      var owned := disk.(draining := Marker(identity.pid, identity.startTime, true));
      :- Write(owned);
      io := Write(disk.(pause := Some(DrainReason(identity.pid))));
    }

    /** The cutover under the `migrating` marker, which is removed however the cutover ended. */
    method MarkedCutover(pid: Pid, dry: bool, look: Look, stamp: string) returns (io: Io, status: Status)
      requires disk.schedFence != Valid
      modifies this
      ensures KeepsTheRest(old(disk), disk)
      ensures writes >= old(writes)
      ensures Progress(old(disk), disk) && disk.pause == old(disk).pause && disk.draining == old(disk).draining
      ensures dry ==> disk == old(disk)
      ensures io.Done? ==>
        status ==
          if !AllClear(old(disk), look) then Refused(OnlyBusy(old(disk).pause.Some?, old(disk), look))
          else if dry then Ready else Migrated
      ensures io.Done? && !dry ==> disk.migrating == None
      ensures !dry ==> writes > old(writes)
      ensures io.Done? && status == Migrated ==> Finished(disk) && disk.singletons == {}
      ensures
        || (SameCore(old(disk), disk) && !(io.Done? && status == Migrated))
        || (&& !look.throws && look.queued == Clear && look.leases == Clear && look.attempts == Clear
            && look.tableReadable && !look.processes
            && !dry && old(disk).pause.Some? && old(disk).queue != Other)
      ensures io.Died? && !SameCore(old(disk), disk) ==> disk.migrating == Some(Some(pid))
      ensures !dry ==> (io, writes) == MarkedEnd(fate, old(disk), look, old(writes))
      ensures Steady(old(writes)) ==> !io.Died? && (!look.throws ==> io.Done?)
    {
      status := Refused(false);
      if !dry {
        var marked := disk.(migrating := Some(Some(pid)));
        :- Write(marked);
      }
      ghost var d1 := disk;
      io, status := Cutover(dry, look, stamp);
      if io.Died? { return; }
      if !dry {
        var io2 := Write(disk.(migrating := None));
        if !io2.Done? { io := io2; }
      }
    }

    /** The body of the command, without the drain's own clean-up. */
    method MigrateLocked(pid: Pid, mode: Mode, sight: Sight, stamp: string)
      returns (io: Io, status: Status, pausedHere: bool)
      requires mode.FromDrain? ==> mode.identity.pid == pid
      modifies this
      ensures KeepsTheRest(old(disk), disk)
      ensures writes >= old(writes)
      ensures Progress(old(disk), disk)
      ensures Covered(old(disk)) ==> Covered(disk)
      ensures mode.DryRun? ==> disk == old(disk)
      ensures mode.FromDrain? ==>
        LockedEndsAt(old(disk), mode.identity, sight, old(writes), pausedHere, At(io, disk, writes))
      ensures !mode.FromDrain? ==> !pausedHere && (old(disk).pause.None? ==> disk.pause.None?)
      ensures !mode.FromDrain? && old(disk).schedFence != Valid ==> disk.pause == old(disk).pause
      ensures io.Done? && old(disk).schedFence != Valid ==> status == Verdicts(old(disk), pid, mode, sight)
      ensures io.Done? && status == Migrated ==> Finished(disk)
      ensures
        || (SameCore(old(disk), disk) && !(io.Done? && status == Migrated))
        || (&& !sight.look.throws && sight.look.queued == Clear && sight.look.leases == Clear
            && sight.look.attempts == Clear && sight.look.tableReadable && !sight.look.processes
            && !mode.DryRun? && (old(disk).pause.Some? || mode.FromDrain?) && old(disk).queue != Other
            && old(disk).schedFence != Valid && !OtherMigrates(old(disk), pid, sight))
      ensures io.Done? && old(disk).schedFence == Valid ==>
        && !pausedHere
        && (status ==
              if disk.fairness != Valid then FairnessInvalid
              else if !mode.DryRun? && old(disk).migrating.Some? then Recovered else AlreadyMigrated)
      ensures io.Done? && old(disk).schedFence == Valid && !mode.DryRun? ==>
        disk.migrating == None && !(IsStale(disk.draining, sight))
      ensures io.Done? && !mode.DryRun? && !LiveMigrator(old(disk), pid, sight) ==> disk.migrating == None
      ensures Steady(old(writes)) ==> !io.Died? && (!sight.look.throws ==> io.Done?)
      ensures old(disk).pause.Some? ==> disk.pause == old(disk).pause || disk.pause == Resumed(old(disk)).pause
      ensures CanFinish(old(disk), pid, mode, sight) ==> writes > old(writes) || Finished(disk)
    {
      pausedHere, status := false, Refused(false);
      if disk.schedFence == Valid {
        io, status := FinishCommitted(mode.DryRun?, sight);
        return;
      }
      if LiveMigrator(disk, pid, sight) { return Done, Refused(false), false; }
      if mode.FromDrain? && disk.pause.None? {
        var identity := mode.identity;
        :- PauseForDrain(identity);
        pausedHere := true;
      }
      ghost var d1 := disk;
      assert Progress(old(disk), d1);
      io, status := MarkedCutover(pid, mode.DryRun?, sight.look, stamp);
      ProgressTransitive(old(disk), d1, disk);
    }

    /** This call gets as far as the marked cutover, if the pause it may need is made. */
    predicate CutsOver(d: Disk, pid: Pid, mode: Mode, sight: Sight)
    {
      !mode.DryRun? && d.schedFence != Valid && !LiveMigrator(d, pid, sight)
    }

    /** Whether all writes of a drain's call that is refused succeed, and the write number after them. */
    function RefusedEnd(d: Disk, identity: Identity, sight: Sight, n: nat): (bool, nat)
    {
      var (ends, m) := LockedEnd(d, identity, sight, n);
      if d.pause.Some? then (ends, m) else (ends && fate(m) == Ok && fate(m + 1) == Ok, m + 2)
    }

    /** The same before the call's clean-up. */
    function LockedEnd(d: Disk, identity: Identity, sight: Sight, n: nat): (bool, nat)
    {
      if d.pause.Some? then
        var (io, m) := MarkedEnd(fate, d, sight.look, n);
        (io.Done?, m)
      else
        var (io, m) := MarkedEnd(fate, DrainPaused(d, identity), sight.look, n + 2);
        (fate(n) == Ok && fate(n + 1) == Ok && io.Done?, m)
    }

    /** A drain's call that was paused already is refused for something busy when its two writes succeed. */
    lemma RefusedWhilePaused(d: Disk, identity: Identity, sight: Sight, n: nat)
      requires CutsOver(d, identity.pid, FromDrain(identity), sight) && d.pause.Some?
      requires Verdicts(d, identity.pid, FromDrain(identity), sight) == Refused(true)
      ensures var (ends, m) := RefusedEnd(d, identity, sight, n);
        (ends <==> CallWaits(d, identity, sight, n)) && (ends ==> m == n + CallWrites(d))
    {
      assert CutoverPlan(d, sight.look) == 0;
      assert AllOk(n, n + 2) <==> fate(n) == Ok && fate(n + 1) == Ok;
    }

    /** One that pauses by itself makes two writes before those, and two after them. */
    lemma RefusedInOwnPause(d: Disk, identity: Identity, sight: Sight, n: nat)
      requires PausesHere(d, identity.pid, FromDrain(identity), sight)
      requires Verdicts(d, identity.pid, FromDrain(identity), sight) == Refused(true)
      ensures var (ends, m) := RefusedEnd(d, identity, sight, n);
        (ends <==> CallWaits(d, identity, sight, n)) && (ends ==> m == n + CallWrites(d))
    {
      assert CutoverPlan(DrainPaused(d, identity), sight.look) == 0;
      assert CallWaits(d, identity, sight, n) ==> fate(n + 2) == Ok && fate(n + 3) == Ok;
    }

    lemma RefusedCall(d: Disk, identity: Identity, sight: Sight, n: nat)
      requires d.schedFence != Valid && Verdicts(d, identity.pid, FromDrain(identity), sight) == Refused(true)
      ensures var (ends, m) := RefusedEnd(d, identity, sight, n);
        (ends <==> CallWaits(d, identity, sight, n)) && (ends ==> m == n + CallWrites(d))
    {
      if d.pause.Some? { RefusedWhilePaused(d, identity, sight, n); } else { RefusedInOwnPause(d, identity, sight, n); }
    }

    /** This call is the one that pauses: a drain's call, not committed yet, no other migrator, and no pause. */
    predicate PausesHere(d: Disk, pid: Pid, mode: Mode, sight: Sight)
    {
      mode.FromDrain? && d.schedFence != Valid && !LiveMigrator(d, pid, sight) && d.pause.None?
    }

    /** The write of PAUSE, the second of such a call, takes effect and throws all the same. */
    predicate LateOnPause(d: Disk, pid: Pid, mode: Mode, sight: Sight, n: nat)
    {
      PausesHere(d, pid, mode, sight) && fate(n) == Ok && fate(n + 1) == FailsLate
    }

    /** The number of the write that removes the pause such a call made; none if it does not get that far. */
    function UnpauseAt(d: Disk, pid: Pid, mode: Mode, sight: Sight, n: nat): Option<nat>
    {
      if PausesHere(d, pid, mode, sight) && fate(n) == Ok && fate(n + 1) == Ok then
        var (io, m) := MarkedEnd(fate, DrainPaused(d, mode.identity), sight.look, n + 2);
        if io.Died? then None else Some(m)
      else None
    }

    /** Removing the pause throws without taking effect. */
    predicate EarlyOnPause(d: Disk, pid: Pid, mode: Mode, sight: Sight, n: nat)
    {
      var u := UnpauseAt(d, pid, mode, sight, n);
      u.Some? && fate(u.value) == Fails
    }

    /**
     * The whole command in one lock hold. A drain's call that begins unpaused leaves its own pause behind exactly when
     * writing PAUSE threw late or removing it threw early.
     */
    method MigrateScheduler(pid: Pid, mode: Mode, sight: Sight, stamp: string)
      returns (io: Io, status: Status, resumed: bool)
      requires mode.FromDrain? ==> mode.identity.pid == pid
      modifies this
      ensures KeepsTheRest(old(disk), disk)
      ensures writes >= old(writes)
      ensures Progress(old(disk), disk)
      ensures mode.DryRun? ==> disk == old(disk)
      ensures io.Done? && old(disk).schedFence != Valid ==>
        status == Verdicts(old(disk), pid, mode, sight) && disk.pause == old(disk).pause
      ensures io.Done? && old(disk).schedFence == Valid ==>
        status ==
          if disk.fairness != Valid then FairnessInvalid
          else if !mode.DryRun? && old(disk).migrating.Some? then Recovered else AlreadyMigrated
      ensures io.Done? && status == Migrated ==> Finished(disk)
      ensures io.Done? && !mode.DryRun? && !LiveMigrator(old(disk), pid, sight) ==> disk.migrating == None
      ensures
        || (SameCore(old(disk), disk) && !(io.Done? && status == Migrated))
        || (&& !sight.look.throws && sight.look.queued == Clear && sight.look.leases == Clear
            && sight.look.attempts == Clear && sight.look.tableReadable && !sight.look.processes
            && !mode.DryRun? && (old(disk).pause.Some? || mode.FromDrain?) && old(disk).queue != Other
            && old(disk).schedFence != Valid && !OtherMigrates(old(disk), pid, sight))
      ensures io.Done? && mode.FromDrain? ==>
        if status == Refused(true)
        then disk.draining == (if resumed then Marker(pid, mode.identity.startTime, false) else old(disk).draining)
        else !(disk.draining.Marker? && disk.draining.pid == pid)
      ensures resumed ==> io.Done? && PausesHere(old(disk), pid, mode, sight)
      ensures Steady(old(writes)) ==> !io.Died? && (!sight.look.throws ==> io.Done?)
      ensures mode.FromDrain? ==>
        DrainCallEnds(old(disk), mode.identity, sight, old(writes), At(io, disk, writes))
      ensures !mode.FromDrain? ==>
        (Covered(old(disk)) ==> Covered(disk)) && (old(disk).pause.None? ==> disk.pause.None?)
      ensures old(disk).pause.Some? ==> disk.pause == old(disk).pause || disk.pause == Resumed(old(disk)).pause
      ensures old(disk).pause.Some? && old(disk).pause.value.OtherReason? ==> disk.pause == old(disk).pause
      ensures CanFinish(old(disk), pid, mode, sight) ==> writes > old(writes) || Finished(disk)
      ensures
        mode.FromDrain? && old(disk).schedFence != Valid && Verdicts(old(disk), pid, mode, sight) == Refused(true) ==>
        var (ends, m) := RefusedEnd(old(disk), mode.identity, sight, old(writes));
        (io.Done? <==> ends) && (ends ==> writes == m)
    {
      resumed := false;
      var pausedHere;
      io, status, pausedHere := MigrateLocked(pid, mode, sight, stamp);
      if io.Died? || !mode.FromDrain? { return; }
      ghost var d, n, locked := old(disk), old(writes), At(io, disk, writes);
      var keep := io.Done? && status == Refused(true);
      var f := EndDrainCall(mode.identity, pausedHere, keep);
      ghost var end := At(f, disk, writes);
      if !f.Done? { io := f; }
      DrainCallCoverage(d, mode.identity, sight, n, pausedHere, keep, locked, end, io);
      if d.schedFence != Valid && Verdicts(d, pid, mode, sight) == Refused(true) {
        RefusedThenEnd(d, mode.identity, sight, n, pausedHere, keep, locked, end);
      }
      resumed := pausedHere && io.Done?;
    }

    /**
     * A drain's call up to its clean-up: whether it paused, and what it left of pause and marker when it did not end
     * well.
     */
    predicate LockedEndsAt(d: Disk, identity: Identity, sight: Sight, n: nat, pausedHere: bool, locked: Stand)
    {
      var pid, mode := identity.pid, FromDrain(identity);
      && (pausedHere <==> PausesHere(d, pid, mode, sight) && fate(n) == Ok && fate(n + 1) == Ok)
      && (locked.io.Done? && PausesHere(d, pid, mode, sight) ==> pausedHere)
      && (pausedHere ==>
            && (locked.io, locked.n) == MarkedEnd(fate, DrainPaused(d, identity), sight.look, n + 2)
            && locked.disk.pause == DrainPaused(d, identity).pause
            && locked.disk.draining == DrainPaused(d, identity).draining)
      && (LateOnPause(d, pid, mode, sight, n) <==> !pausedHere && d.pause.None? && locked.disk.pause.Some?)
      && (LateOnPause(d, pid, mode, sight, n) ==>
            locked.io.Threw? && locked.n == n + 2 && locked.disk == DrainPaused(d, identity))
      && (d.schedFence != Valid && !PausesHere(d, pid, mode, sight) ==>
            locked.disk.pause == d.pause && locked.disk.draining == d.draining)
      && (CutsOver(d, pid, mode, sight) ==>
            var (ends, m) := LockedEnd(d, identity, sight, n);
            (locked.io.Done? <==> ends) && (ends ==> locked.n == m))
    }

    /** The clean-up of a drain's call, begun at `from` and write `n`. */
    predicate CleansUp(identity: Identity, pausedHere: bool, keep: bool, from: Disk, n: nat, end: Stand)
    {
      var own := from.draining.Marker? && from.draining.pid == identity.pid;
      && end.n >= n
      && (pausedHere ==> end.n > n)
      && (pausedHere && keep ==> (end.io.Done? <==> fate(n) == Ok && fate(n + 1) == Ok))
      && (pausedHere && keep && end.io.Done? ==> end.n == n + 2)
      && (!pausedHere && keep ==> end == At(Done, from, n))
      && (pausedHere && !Takes(fate(n)) ==> end == At(Report(fate(n)), from, n + 1) && !end.io.Done?)
      && end.disk.pause == (if pausedHere && Takes(fate(n)) then None else from.pause)
      && (end.io.Done? && keep ==>
            end.disk.draining == if pausedHere then Marker(identity.pid, identity.startTime, false) else from.draining)
      && (end.io.Done? && !keep ==> !(end.disk.draining.Marker? && end.disk.draining.pid == identity.pid))
      && (!pausedHere && !keep && own ==>
            end == At(Report(fate(n)), if Takes(fate(n)) then from.(draining := NoMarker) else from, n + 1))
      && (!pausedHere && !own ==> end.disk == from)
    }

    /** What the clean-up of a drain's call leaves of pause and marker, from what there was before the call. */
    lemma DrainCallCoverage(
      d: Disk, identity: Identity, sight: Sight, n: nat, pausedHere: bool, keep: bool, locked: Stand, end: Stand,
      io: Io)
      requires LockedEndsAt(d, identity, sight, n, pausedHere, locked) && !locked.io.Died?
      requires CleansUp(identity, pausedHere, keep, locked.disk, locked.n, end) && (keep ==> locked.io.Done?)
      requires Covered(d) ==> Covered(locked.disk)
      requires d.pause.Some? ==> locked.disk.pause == d.pause || locked.disk.pause == Resumed(d).pause
      requires io == if end.io.Done? then locked.io else end.io
      ensures DrainCallEnds(d, identity, sight, n, At(io, end.disk, end.n))
    {
    }

    /** A drain's call leaves its pause and its marker so, in the fates of the writes of PAUSE. */
    predicate DrainCallEnds(d: Disk, identity: Identity, sight: Sight, n: nat, end: Stand)
    {
      var pid, mode := identity.pid, FromDrain(identity);
      && (d.pause.None? && !end.io.Died? ==>
            (end.disk.pause == Some(DrainReason(pid)) <==>
               LateOnPause(d, pid, mode, sight, n) || EarlyOnPause(d, pid, mode, sight, n)))
      && (EarlyOnPause(d, pid, mode, sight, n) ==>
            && end.io.Threw? && end.disk.draining == Marker(pid, identity.startTime, true)
            && end.n == UnpauseAt(d, pid, mode, sight, n).value + 1)
      && (LateOnPause(d, pid, mode, sight, n) ==>
            && end.io == (if fate(n + 2) == Crash then Died else Threw) && end.n == n + 3
            && end.disk.draining == if Takes(fate(n + 2)) then NoMarker else Marker(pid, identity.startTime, true))
      && (d.pause.None? && !end.io.Died? && end.disk.pause.Some? ==>
            && end.io.Threw? && end.disk.pause == Some(DrainReason(pid))
            && (end.disk.draining == NoMarker || end.disk.draining == Marker(pid, identity.startTime, true)))
      && (Covered(d) && d.pause != Some(DrainReason(pid)) ==>
            (Covered(end.disk) <==> !(LateOnPause(d, pid, mode, sight, n) && Takes(fate(n + 2)))))
      && (d.schedFence != Valid && d.pause.Some? ==>
            end.disk.pause == d.pause && (end.disk.draining == d.draining || end.disk.draining == NoMarker))
    }

    /** The clean-up of a refused call goes well exactly when the call's last two writes, if it paused, do. */
    lemma RefusedThenEnd(
      d: Disk, identity: Identity, sight: Sight, n: nat, pausedHere: bool, keep: bool, locked: Stand, end: Stand)
      requires LockedEndsAt(d, identity, sight, n, pausedHere, locked)
      requires CleansUp(identity, pausedHere, keep, locked.disk, locked.n, end) && (locked.io.Done? ==> keep)
      requires d.schedFence != Valid && Verdicts(d, identity.pid, FromDrain(identity), sight) == Refused(true)
      ensures var (ends, k) := RefusedEnd(d, identity, sight, n);
        (locked.io.Done? && end.io.Done? <==> ends) && (ends ==> end.n == k)
    {
    }

    /** However a drain's call ended: resume what it paused, then drop the marker, or keep one that owns no pause. */
    method EndDrainCall(identity: Identity, pausedHere: bool, keep: bool) returns (io: Io)
      modifies this
      ensures SameCore(old(disk), disk) && disk.migrating == old(disk).migrating
      ensures CleansUp(identity, pausedHere, keep, old(disk), old(writes), At(io, disk, writes))
      ensures Steady(old(writes)) ==> io.Done?
    {
      io := Done;
      if pausedHere {
        var unpaused := disk.(pause := None);
        :- Write(unpaused);
      }
      if !keep {
        io := RemoveDrainMarker(identity.pid);
      } else if pausedHere {
        io := Write(disk.(draining := Marker(identity.pid, identity.startTime, false)));
      }
    }

    /** Take the drain marker; a stale one is taken over, and the pause its dead owner made is released first. */
    method StartDrain(pid: Pid, startTime: Option<string>, sight: Sight)
      returns (io: Io, identity: Option<Identity>, tookOver: bool)
      modifies this
      ensures writes >= old(writes)
      ensures SameCore(old(disk), disk) && disk.migrating == old(disk).migrating
      ensures io.Done? ==> (identity.Some? <==> MayDrain(old(disk), pid, startTime, sight))
      ensures io.Done? ==> (identity.Some? <==>
        && startTime.Some? && !OtherMigrates(old(disk), pid, sight)
        && (old(disk).draining == NoMarker
            || exists p, s, owns ::
                 old(disk).draining == Marker(p, s, owns) && (p == pid || (p, s) !in sight.aliveProcesses)))
      ensures MayDrain(old(disk), pid, startTime, sight) ==>
        (io.Done? <==> AllOk(old(writes), old(writes) + StartWrites(old(disk), sight)))
      ensures io.Done? && identity.Some? ==>
        writes == old(writes) + StartWrites(old(disk), sight) && disk == Started(old(disk), identity.value, sight)
      ensures io.Done? && identity.Some? ==>
        identity.value == Identity(pid, startTime.value) && disk.draining == Marker(pid, startTime.value, false)
        && disk.pause == if IsStale(old(disk).draining, sight) then Resumed(old(disk)).pause else old(disk).pause
      ensures !MayDrain(old(disk), pid, startTime, sight) ==> disk == old(disk) && io.Done? && identity.None?
      ensures Covered(old(disk)) ==>
        var takenOver := MayDrain(old(disk), pid, startTime, sight) && OwnLiveMarker(old(disk), pid, sight);
        (Covered(disk) <==> !(takenOver && Takes(fate(old(writes)))))
      ensures Steady(old(writes)) ==> io.Done?
    {
      identity, tookOver := None, false;
      if startTime.None? || LiveMigrator(disk, pid, sight) || disk.draining.Unjudgeable? { return Done, None, false; }
      if disk.draining.Marker? && !IsStale(disk.draining, sight) && disk.draining.pid != pid {
        return Done, None, false;
      }
      io, tookOver := ClearStaleDrainMarker(sight);
      if !io.Done? { return; }
      :- Write(disk.(draining := Marker(pid, startTime.value, false)));
      return Done, Some(Identity(pid, startTime.value)), tookOver;
    }

    /** A call that begins unpaused and ends in these ways: the fates decide what its clean-up leaves covered. */
    lemma CoverageAtEnd(d: Disk, identity: Identity, sight: Sight, n: nat, end: Stand)
      requires d.pause.None? && DrainCallEnds(d, identity, sight, n, end)
      ensures !Covered(if end.io.Died? then end.disk else CleanedUp(end.disk, identity.pid, fate(end.n))) <==>
        Uncovers(d, identity, sight, n)
    {
    }

    /**
     * A waiting drain's migration, begun with every drain pause covered: what it leaves of its pause and its marker.
     */
    method CallWaiting(identity: Identity, sight: Sight, stamp: string) returns (io: Io, status: Status)
      requires Waiting(disk, identity)
      modifies this
      ensures writes >= old(writes) && Progress(old(disk), disk)
      ensures Steady(old(writes)) ==> !io.Died?
      ensures io.Done? && status == Migrated ==> Finished(disk)
      ensures
        || (SameCore(old(disk), disk) && !(io.Done? && status == Migrated))
        || (&& !sight.look.throws && sight.look.queued == Clear && sight.look.leases == Clear
            && sight.look.attempts == Clear && sight.look.tableReadable && !sight.look.processes)
      ensures Covered(old(disk)) && NoFailure(old(writes), writes) ==>
        Covered(disk) && (!io.Died? ==> disk.pause != Some(DrainReason(identity.pid)))
      ensures io.Done? && status == Refused(true) <==> CallWaits(old(disk), identity, sight, old(writes))
      ensures CallWaits(old(disk), identity, sight, old(writes)) ==>
        disk == old(disk).(migrating := None) && writes == old(writes) + CallWrites(old(disk))
      ensures !Covered(AtEnd(io, identity.pid)) <==> CallUncovers(old(disk), identity, sight, old(writes))
    {
      if Verdicts(disk, identity.pid, FromDrain(identity), sight) == Refused(true) {
        RefusedCall(disk, identity, sight, writes);
      }
      var r;
      io, status, r := MigrateScheduler(identity.pid, FromDrain(identity), sight, stamp);
      if old(disk).pause.None? { CoverageAtEnd(old(disk), identity, sight, old(writes), At(io, disk, writes)); }
    }

    /** One poll: the checks, and the migration if nothing is busy. `again` means that the drain keeps waiting. */
    method PollOnce(identity: Identity, poll: Poll, deadline: int, stamp: string)
      returns (io: Io, status: Status, again: bool)
      requires Waiting(disk, identity)
      modifies this
      ensures writes >= old(writes) && Progress(old(disk), disk)
      ensures again ==> io.Done? && Waiting(disk, identity) && poll.now < deadline
      ensures poll.aborted ==> io.Done? && status == Aborted && !again
      ensures
        && !poll.aborted && !poll.sight.look.throws
        && (!poll.sight.look.tableReadable || poll.sight.look.queued == Unreadable
            || poll.sight.look.leases == Unreadable || poll.sight.look.attempts == Unreadable
            || old(disk).queue == Other) ==>
        io.Done? && status == Refused(false) && !again
      ensures
        || (SameCore(old(disk), disk) && !(io.Done? && status == Migrated))
        || (SawNothing(poll.sight.look) && SawNothing(poll.second.look) && !poll.aborted)
      ensures Covered(old(disk)) && NoFailure(old(writes), writes) ==>
        Covered(disk) && (!io.Died? ==> disk.pause != Some(DrainReason(identity.pid)))
      ensures Steady(old(writes)) ==> !io.Died?
      ensures io.Done? && status == Migrated ==> Finished(disk)
      ensures io.Done? && !again ==> status != Refused(true)
      ensures again <==> PollWaits(old(disk), identity, poll, deadline, old(writes))
      ensures again ==> disk == Polled(old(disk), poll) && writes == old(writes) + PollWrites(old(disk), poll)
      ensures !again ==> (!Covered(AtEnd(io, identity.pid)) <==> PollUncovers(old(disk), identity, poll, old(writes)))
    {
      io, status, again := Done, Timeout, false;
      disk := Operated(disk, poll);
      if poll.aborted { return Done, Aborted, false; }
      if poll.sight.look.throws { return Threw, status, false; }
      if !OnlyBusy(true, disk, poll.sight.look) { return Done, Refused(false), false; }
      ghost var d1 := disk;
      assert Progress(old(disk), d1) && (Covered(old(disk)) ==> Covered(d1));
      assert Covered(d1) ==> d1.pause != Some(DrainReason(identity.pid));
      if Idle(poll.sight.look) {
        io, status := CallWaiting(identity, poll.second, stamp);
        ProgressTransitive(old(disk), d1, disk);
        if !io.Done? || status != Refused(true) { return; }
      }
      again := poll.now < deadline;
      if !again { status := Timeout; }
    }

    /** One turn of the loop, in what it means for the polls from `k` on. */
    method PollTurn(identity: Identity, polls: nat -> Poll, k: nat, deadline: int, stamp: string)
      returns (io: Io, status: Status, again: bool)
      requires TimeMoves(polls) && Waiting(disk, identity)
      modifies this
      ensures writes >= old(writes) && Progress(old(disk), disk)
      ensures again ==> Waiting(disk, identity) && polls(k).now < deadline && (Covered(old(disk)) ==> Covered(disk))
      ensures Covered(old(disk)) && NoFailure(old(writes), writes) ==>
        Covered(disk) && (!io.Died? ==> disk.pause != Some(DrainReason(identity.pid)))
      ensures PollsUncover(old(disk), identity, polls, k, deadline, old(writes)) <==>
        if again then PollsUncover(disk, identity, polls, k + 1, deadline, writes)
        else !Covered(AtEnd(io, identity.pid))
      ensures Steady(old(writes)) ==> !io.Died?
      ensures !again && io.Done? ==> status != Refused(true) && (status == Migrated ==> Finished(disk))
      ensures
        || (SameCore(old(disk), disk) && (again || !(io.Done? && status == Migrated)))
        || SomePollSawNothing(polls)
    {
      assert polls(k).now < polls(k + 1).now;
      StaysCovered(disk, identity, polls(k));
      io, status, again := PollOnce(identity, polls(k), deadline, stamp);
    }

    /** A waiting drain has no pause of its own, and an operator makes none. */
    lemma StaysCovered(d: Disk, identity: Identity, poll: Poll)
      requires Waiting(d, identity)
      ensures Covered(d) ==> Covered(Polled(d, poll))
    {
    }

    /** The polling loop. Poll `k` sees `polls(k)`; between polls an operator may set or clear PAUSE. */
    method PollUntilDone(identity: Identity, polls: nat -> Poll, deadline: int, stamp: string)
      returns (io: Io, status: Status)
      requires TimeMoves(polls)
      requires Waiting(disk, identity)
      modifies this
      ensures writes >= old(writes)
      ensures Progress(old(disk), disk)
      ensures
        || (SameCore(old(disk), disk) && !(io.Done? && status == Migrated))
        || SomePollSawNothing(polls)
      ensures Covered(old(disk)) && NoFailure(old(writes), writes) ==>
        Covered(disk) && (!io.Died? ==> disk.pause != Some(DrainReason(identity.pid)))
      ensures Covered(AtEnd(io, identity.pid)) <==> !PollsUncover(old(disk), identity, polls, 0, deadline, old(writes))
      ensures Steady(old(writes)) ==> !io.Died?
      ensures io.Done? && status == Migrated ==> Finished(disk)
      ensures io.Done? ==> status != Refused(true)
    {
      var k, again := 0, true;
      io, status := Done, Timeout;
      ghost var uncovers := PollsUncover(disk, identity, polls, 0, deadline, writes);
      while again
        invariant writes >= old(writes) && Progress(old(disk), disk)
        invariant again ==> Waiting(disk, identity) && (Covered(old(disk)) ==> Covered(disk))
        invariant !again && Covered(old(disk)) && NoFailure(old(writes), writes) ==>
          Covered(disk) && (!io.Died? ==> disk.pause != Some(DrainReason(identity.pid)))
        invariant again ==> (uncovers <==> PollsUncover(disk, identity, polls, k, deadline, writes))
        invariant !again ==> (uncovers <==> !Covered(AtEnd(io, identity.pid)))
        invariant Steady(old(writes)) ==> !io.Died?
        invariant !again && io.Done? ==> status != Refused(true) && (status == Migrated ==> Finished(disk))
        invariant
          || (SameCore(old(disk), disk) && (again || !(io.Done? && status == Migrated)))
          || SomePollSawNothing(polls)
        decreases again, deadline - polls(k).now
      {
        ghost var d1 := disk;
        ghost var n1 := writes;
        io, status, again := PollTurn(identity, polls, k, deadline, stamp);
        ProgressTransitive(old(disk), d1, disk);
        assert NoFailure(old(writes), writes) ==> NoFailure(n1, writes);
        k := k + 1;
      }
    }

    /**
     * The drain once it waits. Unless some write failed, every drain pause stays covered; if all of them succeed, the
     * drain's marker and its pause are gone.
     */
    method WaitAndMigrate(identity: Identity, polls: nat -> Poll, deadline: int, stamp: string)
      returns (io: Io, status: Status)
      requires TimeMoves(polls)
      requires Waiting(disk, identity)
      modifies this
      ensures writes >= old(writes)
      ensures Progress(old(disk), disk)
      ensures
        || (SameCore(old(disk), disk) && !(io.Done? && status == Migrated))
        || SomePollSawNothing(polls)
      ensures Covered(old(disk)) && NoFailure(old(writes), writes) ==> Covered(disk)
      ensures Covered(disk) <==> !PollsUncover(old(disk), identity, polls, 0, deadline, old(writes))
      ensures Steady(old(writes)) ==> !io.Died? && !(disk.draining.Marker? && disk.draining.pid == identity.pid)
      ensures Steady(old(writes)) && Covered(old(disk)) ==> disk.pause != Some(DrainReason(identity.pid))
      ensures io.Done? && status == Migrated ==> Finished(disk)
      ensures io.Done? ==> status != Refused(true)
    {
      io, status := PollUntilDone(identity, polls, deadline, stamp);
      if io.Died? { return; }
      var f := RemoveDrainMarker(identity.pid);
      if !f.Done? { io := f; }
    }

    /** Drain, then migrate. The drain ends with a pause uncovered exactly when `DrainUncovers` says so. */
    method DrainMigrateScheduler(
      pid: Pid, startTime: Option<string>, sight: Sight, polls: nat -> Poll, deadline: int, stamp: string)
      returns (io: Io, status: Status)
      requires TimeMoves(polls)
      modifies this
      ensures writes >= old(writes)
      ensures Progress(old(disk), disk)
      ensures
        || (SameCore(old(disk), disk) && !(io.Done? && status == Migrated))
        || SomePollSawNothing(polls)
      ensures Covered(old(disk)) && !OwnLiveMarker(old(disk), pid, sight) && NoFailure(old(writes), writes) ==>
        Covered(disk)
      ensures Covered(old(disk)) ==>
        (Covered(disk) <==> !DrainUncovers(old(disk), pid, startTime, sight, polls, deadline, old(writes)))
      ensures Steady(old(writes)) ==> !io.Died?
      ensures
        && Steady(old(writes)) && Covered(old(disk)) && !OwnLiveMarker(old(disk), pid, sight)
        && old(disk).schedFence != Valid && MayDrain(old(disk), pid, startTime, sight) ==>
        disk.pause != Some(DrainReason(pid)) && !(disk.draining.Marker? && disk.draining.pid == pid)
      ensures io.Done? && status == Migrated ==> Finished(disk)
      ensures io.Done? ==> status != Refused(true)
    {
      status := Refused(false);
      if disk.schedFence == Valid {
        var r;
        io, status, r := MigrateScheduler(pid, Plain, sight, stamp);
        return;
      }
      var started, took;
      io, started, took := StartDrain(pid, startTime, sight);
      if !io.Done? || started.None? { return; }
      ghost var d1 := disk;
      assert Progress(old(disk), d1);
      io, status := WaitAndMigrate(started.value, polls, deadline, stamp);
      ProgressTransitive(old(disk), d1, disk);
    }

    /** Between writes `a` and `b` a crash may have happened, but no write reported a failure. */
    ghost predicate NoFailure(a: nat, b: nat) { forall k :: a <= k < b ==> fate(k) == Ok || fate(k) == Crash }

    /** Any calls by any processes, each ending in any way, keep what the fence promises and every legacy directory. */
    method AnyCalls(calls: seq<Call>)
      requires Committed(disk) && disk.queue != Other
      requires forall c :: c in calls ==> c.mode.FromDrain? ==> c.mode.identity.pid == c.pid
      modifies this
      ensures KeepsTheRest(old(disk), disk)
      ensures Progress(old(disk), disk) && Committed(disk) && disk.queue != Other
    {
      for i := 0 to |calls|
        invariant Progress(old(disk), disk) && KeepsTheRest(old(disk), disk)
      {
        ghost var d := disk;
        var io, status, r := MigrateScheduler(calls[i].pid, calls[i].mode, calls[i].sight, calls[i].stamp);
        ProgressTransitive(old(disk), d, disk);
        RestTransitive(old(disk), d, disk);
      }
    }

    /** A call that can finish does so, unless one of its writes does not succeed. */
    method MigrateWhenIdle(pid: Pid, mode: Mode, sight: Sight, stamp: string) returns (io: Io, status: Status)
      requires mode.FromDrain? ==> mode.identity.pid == pid
      requires CanFinish(disk, pid, mode, sight)
      modifies this
      ensures KeepsTheRest(old(disk), disk)
      ensures Progress(old(disk), disk) && writes >= old(writes)
      ensures Finished(disk) || (writes > old(writes) && !Steady(old(writes)))
      ensures Steady(old(writes)) ==>
        io.Done? && (status == Migrated || status == Recovered || status == AlreadyMigrated)
    {
      var r;
      io, status, r := MigrateScheduler(pid, mode, sight, stamp);
    }

    /**
     * Whatever such calls left behind, crashes included, drains' calls on an idle broker finish the cutover if they are
     * repeated: each of them that does not finish meets one of the failures, which end at write `bound`.
     */
    method RerunsFinish(reruns: nat -> Call, ghost bound: nat) returns (k: nat)
      requires Committed(disk) && disk.queue != Other && Steady(bound)
      requires forall i: nat :: IdleRerun(reruns(i))
      modifies this
      ensures KeepsTheRest(old(disk), disk)
      ensures Finished(disk) && Progress(old(disk), disk)
      ensures k <= 1 + Max(0, bound - old(writes))
    {
      k := 0;
      while !Finished(disk)
        invariant KeepsTheRest(old(disk), disk)
        invariant Progress(old(disk), disk) && writes >= old(writes)
        invariant !Finished(disk) ==> k == 0 || k <= Min(writes, bound) - old(writes)
        invariant k <= 1 + Max(0, bound - old(writes))
        decreases if Finished(disk) then 0 else 1 + Max(0, bound - writes)
      {
        ghost var d := disk;
        var c := reruns(k);
        assert IdleRerun(c) && CanFinish(disk, c.pid, c.mode, c.sight);
        var io, status := MigrateWhenIdle(c.pid, c.mode, c.sight, c.stamp);
        ProgressTransitive(old(disk), d, disk);
        RestTransitive(old(disk), d, disk);
        k := k + 1;
      }
    }

    /** The same, after any calls. */
    method AnyCallsThenReruns(calls: seq<Call>, reruns: nat -> Call, ghost bound: nat)
      requires Committed(disk) && disk.queue != Other && Steady(bound)
      requires forall c :: c in calls ==> c.mode.FromDrain? ==> c.mode.identity.pid == c.pid
      requires forall i: nat :: IdleRerun(reruns(i))
      modifies this
      ensures Finished(disk) && Progress(old(disk), disk)
    {
      AnyCalls(calls);
      ghost var d := disk;
      var k := RerunsFinish(reruns, bound);
      ProgressTransitive(old(disk), d, disk);
    }

    /**
     * What uncovers the pause of a drain's last call, in the fates of its writes from number `n` on: PAUSE written with
     * a throw, or its removal thrown, and then a removal of the marker that takes effect. A late PAUSE meets two such
     * removals.
     */
    predicate Uncovers(d: Disk, identity: Identity, sight: Sight, n: nat)
    {
      || (&& LateOnPause(d, identity.pid, FromDrain(identity), sight, n)
          && (Takes(fate(n + 2)) || (fate(n + 2) == Fails && Takes(fate(n + 3)))))
      || (&& EarlyOnPause(d, identity.pid, FromDrain(identity), sight, n)
          && Takes(fate(UnpauseAt(d, identity.pid, FromDrain(identity), sight, n).value + 1)))
    }

    /** A look that met no error, no ticket, no lease, no attempt and no process, and could read the process table. */
    predicate SawNothing(look: Look)
    {
      && !look.throws && look.queued == Clear && look.leases == Clear && look.attempts == Clear
      && look.tableReadable && !look.processes
    }

    /** Both looks of some poll, that of the drain and that of the migration it called. */
    ghost predicate SomePollSawNothing(polls: nat -> Poll)
    {
      exists k: nat :: SawNothing(polls(k).sight.look) && SawNothing(polls(k).second.look) && !polls(k).aborted
    }

    /** Every write from number `a` up to `b` succeeds. */
    ghost predicate AllOk(a: nat, b: nat) { forall k :: a <= k < b ==> fate(k) == Ok }

    /** A waiting drain's call finds something busy, and its writes succeed: the drain goes on waiting. */
    ghost predicate CallWaits(d: Disk, identity: Identity, sight: Sight, n: nat)
    {
      && !sight.look.throws
      && Verdicts(d, identity.pid, FromDrain(identity), sight) == Refused(true)
      && AllOk(n, n + CallWrites(d))
    }

    /** If the drain ends with this call, a pause stands uncovered: one it found, or its own. */
    predicate CallUncovers(d: Disk, identity: Identity, sight: Sight, n: nat)
    {
      if d.pause.Some? then !NoDrainPause(d) else Uncovers(d, identity, sight, n)
    }

    /** The poll's checks pass, so that it calls the migration. */
    predicate PollCalls(d: Disk, poll: Poll)
    {
      !poll.aborted && OnlyBusy(true, d, poll.sight.look) && Idle(poll.sight.look)
    }

    ghost predicate PollWaits(d: Disk, identity: Identity, poll: Poll, deadline: int, n: nat)
    {
      var seen := Operated(d, poll);
      && !poll.aborted && !poll.sight.look.throws && OnlyBusy(true, seen, poll.sight.look) && poll.now < deadline
      && (PollCalls(seen, poll) ==> CallWaits(seen, identity, poll.second, n))
    }

    predicate PollUncovers(d: Disk, identity: Identity, poll: Poll, n: nat)
    {
      var seen := Operated(d, poll);
      if PollCalls(seen, poll) then CallUncovers(seen, identity, poll.second, n) else !NoDrainPause(seen)
    }

    /** The disk after a poll that waits, and the writes it took. */
    function Polled(d: Disk, poll: Poll): Disk
    {
      var seen := Operated(d, poll);
      if PollCalls(seen, poll) then seen.(migrating := None) else seen
    }

    function PollWrites(d: Disk, poll: Poll): nat
    {
      var seen := Operated(d, poll);
      if PollCalls(seen, poll) then CallWrites(seen) else 0
    }

    /** From poll `k` on, begun on `d` at write `n`: the first poll that does not wait leaves a pause uncovered. */
    ghost predicate PollsUncover(d: Disk, identity: Identity, polls: nat -> Poll, k: nat, deadline: int, n: nat)
      requires TimeMoves(polls)
      decreases deadline - polls(k).now
    {
      if PollWaits(d, identity, polls(k), deadline, n) then
        assert polls(k).now < polls(k + 1).now;
        PollsUncover(Polled(d, polls(k)), identity, polls, k + 1, deadline, n + PollWrites(d, polls(k)))
      else PollUncovers(d, identity, polls(k), n)
    }

    /** That poll finds the queue, the files and the fences that the drain began with. */
    lemma {:induction false} OnePollUncovers(
      d: Disk, identity: Identity, polls: nat -> Poll, k: nat, deadline: int, n: nat)
      requires TimeMoves(polls)
      requires Waiting(d, identity) && PollsUncover(d, identity, polls, k, deadline, n)
      ensures exists j: nat, e, m: nat ::
        j >= k && m >= n && Waiting(e, identity) && SameCore(d, e) && PollUncovers(e, identity, polls(j), m)
      decreases deadline - polls(k).now
    {
      if PollWaits(d, identity, polls(k), deadline, n) {
        assert polls(k).now < polls(k + 1).now;
        OnePollUncovers(Polled(d, polls(k)), identity, polls, k + 1, deadline, n + PollWrites(d, polls(k)));
      }
    }

    /**
     * The whole drain leaves a pause uncovered, in what there is before it: it may start, and either its polls do so,
     * or the marker that owned the pause was its own and the write over it threw late.
     */
    ghost predicate DrainUncovers(
      d: Disk, pid: Pid, startTime: Option<string>, sight: Sight, polls: nat -> Poll, deadline: int, n: nat)
      requires TimeMoves(polls)
    {
      d.schedFence != Valid && MayDrain(d, pid, startTime, sight) &&
      var identity := Identity(pid, startTime.value);
      if AllOk(n, n + StartWrites(d, sight))
      then PollsUncover(Started(d, identity, sight), identity, polls, 0, deadline, n + StartWrites(d, sight))
      else OwnLiveMarker(d, pid, sight) && Takes(fate(n))
    }

    /** What a drain leaves if it ends here: nothing more if it died, else its marker's removal. */
    function AtEnd(io: Io, pid: Pid): Disk
      reads this
    {
      if io.Died? then disk else CleanedUp(disk, pid, fate(writes))
    }

    /**
     * The last migration of a drain and the drain's own clean-up end with a pause uncovered exactly when the fates say
     * so.
     */
    method MigrateThenCleanUp(identity: Identity, sight: Sight, stamp: string) returns (io: Io, status: Status)
      requires Waiting(disk, identity) && Covered(disk)
      modifies this
      ensures writes >= old(writes) && Progress(old(disk), disk)
      ensures Covered(disk) <==> !Uncovers(old(disk), identity, sight, old(writes))
    {
      io, status := CallWaiting(identity, sight, stamp);
      if io.Died? { return; }
      var f := RemoveDrainMarker(identity.pid);
      if !f.Done? { io := f; }
    }
  }

  /** The first name for `stamp` that is not taken. */
  method FreshAside(asides: map<AsideName, Contents>, stamp: string) returns (n: nat)
    ensures (stamp, n) !in asides && n >= 1
    ensures forall m :: 1 <= m < n ==> (stamp, m) in asides
  {
    n := 1;
    while (stamp, n) in asides
      invariant n >= 1 && forall m :: 1 <= m < n ==> (stamp, m) in asides
      decreases |set a | a in asides && a.0 == stamp && a.1 >= n|
    {
      ghost var left := set a | a in asides && a.0 == stamp && a.1 >= n;
      ghost var after := set a | a in asides && a.0 == stamp && a.1 >= n + 1;
      assert after == left - {(stamp, n)};
      n := n + 1;
    }
  }

  /** The promise that a drain's pause stays covered fails when PAUSE is written and its directory sync throws. */
  method LateFailureUncovers() returns (root: StateRoot, before: Disk, sight: Sight)
    ensures Waiting(before, Identity(7, "t")) && Covered(before)
    ensures root.LateOnPause(before, 7, FromDrain(Identity(7, "t")), sight, 0)
    ensures forall k: nat :: root.fate(k) == if k == 1 then FailsLate else Ok
    ensures root.writes == 3 && root.disk.pause == Some(DrainReason(7)) && root.disk.draining == NoMarker
    ensures !Covered(root.disk) && Progress(before, root.disk)
  {
    before := Disk(None, Missing, Missing, Directory([]), false, false, map[], {}, {}, None, Marker(7, "t", false));
    root := new StateRoot(before, k => if k == 1 then FailsLate else Ok);
    sight := Sight({}, {(7, "t")}, Look(false, Clear, Clear, Clear, true, false));
    var io, status, resumed := root.MigrateScheduler(7, FromDrain(Identity(7, "t")), sight, "s");
    assert root.LateOnPause(before, 7, FromDrain(Identity(7, "t")), sight, 0);
  }

  /** It fails as well when removing PAUSE throws and the drain's clean-up then removes the marker. */
  method FailedResumeUncovers() returns (root: StateRoot, before: Disk, sight: Sight)
    ensures Waiting(before, Identity(7, "t")) && Covered(before)
    ensures root.EarlyOnPause(before, 7, FromDrain(Identity(7, "t")), sight, 0)
    ensures root.Uncovers(before, Identity(7, "t"), sight, 0)
    ensures forall k: nat :: root.fate(k) == if k == 4 then Fails else Ok
    ensures !Covered(root.disk) && Progress(before, root.disk)
  {
    before := Disk(None, Missing, Missing, Directory([]), false, false, map[], {}, {}, None, Marker(7, "t", false));
    root := new StateRoot(before, k => if k == 4 then Fails else Ok);
    var identity := Identity(7, "t");
    sight := Sight({}, {(7, "t")}, Look(false, Busy, Clear, Clear, true, false));
    assert CutoverPlan(DrainPaused(before, identity), sight.look) == 0;
    assert root.UnpauseAt(before, 7, FromDrain(identity), sight, 0) == Some(4);
    assert root.Uncovers(before, identity, sight, 0);
    var io, status := root.MigrateThenCleanUp(identity, sight, "s");
  }

  /**
   * And so does a drain whose pid a killed drain had before it, when the probe of that one fails and it counts as
   * alive.
   */
  method OwnMarkerUncovers() returns (root: StateRoot, before: Disk, sight: Sight)
    ensures Covered(before) && MayDrain(before, 7, Some("now"), sight) && OwnLiveMarker(before, 7, sight)
    ensures forall k: nat :: root.fate(k) == Ok
    ensures root.writes == 1 && root.disk == Started(before, Identity(7, "now"), sight) && !Covered(root.disk)
  {
    before := DrainPaused(Disk(None, Missing, Missing, Directory([]), false, false, map[], {}, {}, None, NoMarker),
      Identity(7, "before"));
    root := new StateRoot(before, k => Ok);
    sight := Sight({7}, {(7, "before"), (7, "now")}, Look(false, Clear, Clear, Clear, true, false));
    var io, identity, tookOver := root.StartDrain(7, Some("now"), sight);
  }
}
