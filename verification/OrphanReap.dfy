/**
 * The lease whose supervisor and process group are gone (src/lease.js): every pass over it rescans its tree, signals
 * what is new, and either writes the advanced record back or removes the lease. A pass is one locked call; what it can
 * see (clock, boot id, liveness probes, process table) is its input.
 */
module OrphanReap {
  import opened Common
  import opened Descendants

  const KILL_GIVE_UP := 30_000
  const UNREADABLE_GIVE_UP := 60_000

  datatype LeaseState = RUNNING | ORPHANED

  datatype Progress = Progress(termAt: int,
    killAt: Option<int>, signalled: nat, termed: set<(Pid, Token)>, killed: set<(Pid, Token)>)

  datatype Lease = Lease(bootId: string, state: LeaseState, descendants: map<Pid, Token>, orphanReap: Option<Progress>)

  /** What one pass sees; `prot` holds the pids of the passing process and its parent. */
  datatype Pass = Pass(now: int, bootId: string, supervisorAlive: bool, groupAlive: bool,
    rows: Option<seq<Row>>, prot: set<Pid>)

  datatype Outcome = Kept | Orphaned | Rebooted | Released(signalled: nat, survivors: set<Pid>, complete: bool)

  /** One pass that found the lease: what it saw, what its scan recorded, whom it signalled, and what it left. */
  datatype Event = Event(
    pass: Pass, before: Lease, found: map<Pid, Token>, signal: Signal, pids: seq<Pid>, after: Option<Lease>,
    outcome: Outcome)

  /** The reaper runs in this pass: same boot, supervisor and group gone. */
  predicate Steps(e: Event) { e.pass.bootId == e.before.bootId && !e.pass.supervisorAlive && !e.pass.groupAlive }

  function Begun(lease: Lease, now: int): Progress { lease.orphanReap.GetOr(Progress(now, None, 0, {}, {})) }

  function Unprotected(recorded: map<Pid, Token>, prot: set<Pid>): map<Pid, Token>
  {
    map p | p in recorded && p !in prot :: recorded[p]
  }

  ghost function LiveIn(rows: seq<Row>, found: map<Pid, Token>, prot: set<Pid>): set<Pid>
  {
    set p | p in found && IsLive(rows, found, prot, p)
  }

  ghost predicate Scanned(e: Event)
  {
    ScanStep(None, e.pass.prot, e.pass.rows, Memory(Unprotected(e.before.descendants, e.pass.prot), None),
      Memory(e.found, None))
  }

  ghost function Survivors(e: Event): set<Pid>
  {
    if e.pass.rows.Some? then LiveIn(e.pass.rows.value, e.found, e.pass.prot) else {}
  }

  /** The pass found nothing running. */
  ghost predicate AllGone(e: Event) { e.pass.rows.Some? && LiveIn(e.pass.rows.value, e.found, e.pass.prot) == {} }

  /** The pass may not go on: the table stayed unreadable, or the KILL was sent long ago. */
  predicate GaveUp(e: Event)
  {
    var p := Begun(e.before, e.pass.now);
    || (e.pass.rows.None? && e.pass.now - p.termAt >= UNREADABLE_GIVE_UP)
    || (p.killAt.Some? && e.pass.now - p.killAt.value >= KILL_GIVE_UP)
  }

  /** The grace is over: never in the pass that begins, and never without a table. */
  predicate PastGrace(grace: int, e: Event)
  {
    e.pass.rows.Some? && e.before.orphanReap.Some? && e.pass.now - e.before.orphanReap.value.termAt >= grace
  }

  /**
   * Whom the pass signalled: exactly the members that are due for the signal of its phase, or nobody without a table.
   */
  ghost predicate Signalled(grace: int, e: Event)
  {
    var p := Begun(e.before, e.pass.now);
    && e.signal == (if p.killAt.Some? || PastGrace(grace, e) then SIGKILL else SIGTERM)
    && (forall i, j :: 0 <= i < j < |e.pids| ==> e.pids[i] != e.pids[j])
    && (e.pass.rows.None? ==> e.pids == [])
    && (e.pass.rows.Some? ==>
          forall q ::
            q in e.pids <==>
              IsDue(e.pass.rows.value, e.found, e.pass.prot, if e.signal == SIGKILL then p.killed else p.termed, q))
  }

  /** The (pid, token) keys signalled by the pass. */
  function Keys(e: Event): set<(Pid, Token)> { set p | p in e.pids && p in e.found :: (p, e.found[p]) }

  function KillAtAfter(grace: int, e: Event): Option<int>
  {
    var p := Begun(e.before, e.pass.now);
    if p.killAt.Some? then p.killAt else if PastGrace(grace, e) && e.pids != [] then Some(e.pass.now) else None
  }

  /** The record a held pass writes. */
  function Advanced(grace: int, e: Event): Lease
  {
    var p := Begun(e.before, e.pass.now);
    e.before.(state := ORPHANED, descendants := e.found,
              orphanReap := Some(Progress(p.termAt, KillAtAfter(grace, e), p.signalled + |e.pids|,
                                          if e.signal == SIGTERM then p.termed + Keys(e) else p.termed,
                                          if e.signal == SIGKILL then p.killed + Keys(e) else p.killed)))
  }

  /** `e` is a pass of the reaper. */
  ghost predicate IsStep(grace: int, e: Event)
  {
    var p := Begun(e.before, e.pass.now);
    && Scanned(e)
    && if AllGone(e) then
         e.pids == [] && e.after == None && e.outcome == Released(p.signalled, {}, true)
       else if GaveUp(e) then
         e.pids == [] && e.after == None && e.outcome == Released(p.signalled, Survivors(e), false)
       else if KillAtAfter(grace, e).None? && e.pass.now - p.termAt >= UNREADABLE_GIVE_UP then
         Signalled(grace, e) && e.after == None
         && e.outcome == Released(p.signalled + |e.pids|, Survivors(e), false)
       else
         Signalled(grace, e) && e.after == Some(Advanced(grace, e)) && e.outcome == Orphaned
  }

  /** `e` is one call on an existing lease. */
  ghost predicate IsPass(grace: int, e: Event)
  {
    if e.pass.bootId != e.before.bootId then e.pids == [] && e.after == None && e.outcome == Rebooted
    else if e.pass.supervisorAlive then e.pids == [] && e.after == Some(e.before) && e.outcome == Kept
    else if e.pass.groupAlive then e.pids == [] && e.after == Some(e.before.(state := ORPHANED))
      && e.outcome == Orphaned
    else IsStep(grace, e)
  }

  /** The lease record on disk, None once removed. */
  class LeaseFile {
    var record: Option<Lease>

    constructor (lease: Lease)
      ensures record == Some(lease)
    {
      record := Some(lease);
    }

    /** The part of a pass that signals and then writes the record back, or gives up at last. */
    method SignalAndHold(
      grace: int, pass: Pass, lease: Lease, tracker: DescendantTracker, live: Option<set<Pid>>, ghost e0: Event)
      returns (released: bool, ghost e: Event)
      requires tracker.protectedPids == pass.prot && live.Some? == pass.rows.Some?
      requires live.Some? ==> live.value == LiveIn(pass.rows.value, tracker.recorded, pass.prot)
      requires e0.pass == pass && e0.before == lease && e0.found == tracker.recorded && Scanned(e0) && !AllGone(e0)
      requires !GaveUp(e0)
      modifies this
      ensures e.pass == pass && e.before == lease && e.after == record && IsStep(grace, e)
      ensures released == record.None? == e.outcome.Released?
    {
      var state := lease.orphanReap.GetOr(Progress(pass.now, None, 0, {}, {}));
      var pastGrace := pass.rows.Some? && lease.orphanReap.Some? && pass.now - state.termAt >= grace;
      var phaseKill := state.killAt.Some? || pastGrace;
      var pids: seq<Pid>, sent := [], if phaseKill then state.killed else state.termed;
      if pass.rows.Some? { pids, sent := tracker.SignalLive(pass.rows.value, sent); }
      e := e0.(signal := if phaseKill then SIGKILL else SIGTERM, pids := pids);
      assert Signalled(grace, e);
      var killAt :=
        if state.killAt.Some? then state.killAt else if pastGrace && pids != [] then Some(pass.now) else None;
      if killAt.None? && pass.now - state.termAt >= UNREADABLE_GIVE_UP {
        record := None;
        return true, e.(after := None, outcome := Released(state.signalled + |pids|, live.GetOr({}), false));
      }
      record := Some(lease.(state := ORPHANED, descendants := tracker.recorded,
                            orphanReap := Some(Progress(state.termAt, killAt, state.signalled + |pids|,
                                                        if phaseKill then state.termed else sent,
                                                        if phaseKill then sent else state.killed))));
      assert sent == (if phaseKill then state.killed else state.termed) + Keys(e);
      return false, e.(after := record, outcome := Orphaned);
    }

    method StepOrphanReap(grace: int, pass: Pass) returns (released: bool, ghost e: Event)
      requires record.Some? && (pass.rows.Some? ==> DistinctPids(pass.rows.value))
      modifies this
      ensures e.pass == pass && e.before == old(record).value && e.after == record && IsStep(grace, e)
      ensures released == record.None? == e.outcome.Released?
      ensures !released ==> record.value.descendants == e.found && record.value.state == ORPHANED
    {
      var lease := record.value;
      var state := lease.orphanReap.GetOr(Progress(pass.now, None, 0, {}, {}));
      var tracker := new DescendantTracker.FromSnapshot(None, lease.descendants, pass.prot);
      tracker.Scan(pass.rows);
      var live: Option<set<Pid>> := None;
      if pass.rows.Some? { live := Some(tracker.Live(pass.rows.value)); }
      e := Event(pass, lease, tracker.recorded, SIGTERM, [], None, Kept);
      assert tracker.Now().rootToken == None;
      assert Scanned(e);
      assert live.Some? ==> live.value == LiveIn(pass.rows.value, tracker.recorded, pass.prot);
      if live == Some({}) {
        record := None;
        return true, e.(outcome := Released(state.signalled, {}, true));
      }
      if live.None? && pass.now - state.termAt >= UNREADABLE_GIVE_UP {
        record := None;
        return true, e.(outcome := Released(state.signalled, {}, false));
      }
      if state.killAt.Some? && pass.now - state.killAt.value >= KILL_GIVE_UP {
        record := None;
        return true, e.(outcome := Released(state.signalled, live.GetOr({}), false));
      }
      released, e := SignalAndHold(grace, pass, lease, tracker, live, e);
    }

    method ReapIfStale(grace: int, pass: Pass) returns (ghost e: Event)
      requires record.Some? && (pass.rows.Some? ==> DistinctPids(pass.rows.value))
      modifies this
      ensures e.pass == pass && e.before == old(record).value && e.after == record && IsPass(grace, e)
      ensures pass.bootId != old(record).value.bootId ==> record == None && e.pids == []
      ensures pass.bootId == old(record).value.bootId && pass.supervisorAlive ==> record == old(record) && e.pids == []
      ensures pass.bootId == old(record).value.bootId && !pass.supervisorAlive && pass.groupAlive ==>
        record == Some(old(record).value.(state := ORPHANED)) && e.pids == []
      ensures record.Some? && !pass.supervisorAlive ==> record.value.state == ORPHANED
    {
      var lease := record.value;
      e := Event(pass, lease, map[], SIGTERM, [], record, Kept);
      if lease.bootId != pass.bootId {
        record := None;
        e := e.(after := None, outcome := Rebooted);
      } else if pass.supervisorAlive {
        return;
      } else if !pass.groupAlive {
        var released;
        released, e := StepOrphanReap(grace, pass);
      } else {
        if lease.state != ORPHANED { record := Some(lease.(state := ORPHANED)); }
        e := e.(after := record, outcome := Orphaned);
      }
    }
  }

  // ---------------------------------------------------------------- over every sequence of passes

  /** Passes over one lease from its first orphan pass on, under a clock that never goes back. */
  ghost predicate IsRun(grace: int, run: seq<Event>)
  {
    && (forall i :: 0 <= i < |run| ==> IsPass(grace, run[i]))
    && (forall i :: 0 <= i < |run| - 1 ==> run[i].after == Some(run[i + 1].before))
    && (forall i, j :: 0 <= i <= j < |run| ==> run[i].pass.now <= run[j].pass.now)
    && (run != [] ==> run[0].before.orphanReap.None?)
  }

  /** The pass that begins sends no KILL. */
  lemma FirstPassNeverKills(grace: int, e: Event)
    requires IsPass(grace, e) && e.before.orphanReap.None? && e.signal == SIGKILL
    ensures e.pids == []
  {}

  /** One pass: TERM time and KILL time are written once, and a KILL time only by a pass that sent a KILL. */
  lemma PassKeepsTimes(grace: int, e: Event)
    requires IsPass(grace, e) && e.after.Some?
    ensures e.before.orphanReap.Some? ==> e.after.value.orphanReap.Some?
    ensures e.before.orphanReap.Some? ==> e.after.value.orphanReap.value.termAt == e.before.orphanReap.value.termAt
    ensures e.before.orphanReap.Some? && e.before.orphanReap.value.killAt.Some? ==>
      e.after.value.orphanReap.value.killAt == e.before.orphanReap.value.killAt
    ensures e.after.value.orphanReap.Some? ==>
      e.after.value.orphanReap == e.before.orphanReap
      || (&& Steps(e)
          && (e.before.orphanReap.None? ==>
                e.after.value.orphanReap.value.termAt == e.pass.now && e.after.value.orphanReap.value.killAt == None))
    ensures
      && e.after.value.orphanReap.Some? && e.after.value.orphanReap.value.killAt.Some?
      && !(e.before.orphanReap.Some? && e.before.orphanReap.value.killAt.Some?) ==>
      e.signal == SIGKILL && e.pids != [] && e.after.value.orphanReap.value.killAt.value == e.pass.now
  {}

  /** Over a run, a KILL time never lies in the future, and the TERM time is that of an earlier pass. */
  lemma {:induction false} TimesAreOfPasses(grace: int, run: seq<Event>, i: nat)
    requires IsRun(grace, run) && i < |run| && run[i].before.orphanReap.Some?
    ensures exists j :: 0 <= j < i && Steps(run[j]) && run[j].pass.now == run[i].before.orphanReap.value.termAt
    ensures var k := run[i].before.orphanReap.value.killAt;
      k.Some? ==> exists j :: 0 <= j < i && run[j].signal == SIGKILL && run[j].pids != [] && run[j].pass.now == k.value
  {
    assert i > 0;
    var e := run[i - 1];
    assert e.after == Some(run[i].before);
    PassKeepsTimes(grace, e);
    if e.before.orphanReap.Some? { TimesAreOfPasses(grace, run, i - 1); }
  }

  /** Once written, both times stay for as long as the lease does. */
  lemma {:induction false} TimesStay(grace: int, run: seq<Event>, i: nat, j: nat)
    requires IsRun(grace, run) && i <= j < |run| && run[i].before.orphanReap.Some?
    ensures run[j].before.orphanReap.Some?
    ensures run[j].before.orphanReap.value.termAt == run[i].before.orphanReap.value.termAt
    ensures run[i].before.orphanReap.value.killAt.Some? ==>
      run[j].before.orphanReap.value.killAt == run[i].before.orphanReap.value.killAt
  {
    if i < j {
      TimesStay(grace, run, i, j - 1);
      assert run[j - 1].after == Some(run[j].before);
      PassKeepsTimes(grace, run[j - 1]);
    }
  }

  /**
   * An incomplete release comes only long after a KILL or long after the first TERM, both sent by passes of this run.
   */
  lemma IncompleteReleaseIsLate(grace: int, run: seq<Event>, i: nat)
    requires IsRun(grace, run) && i < |run| && run[i].outcome.Released? && !run[i].outcome.complete
    ensures
      || (exists j ::
            && 0 <= j < i && run[j].signal == SIGKILL && run[j].pids != []
            && run[i].pass.now - run[j].pass.now >= 30_000)
      || (exists j :: 0 <= j < i && Steps(run[j]) && run[i].pass.now - run[j].pass.now >= 60_000)
  {
    assert IsPass(grace, run[i]);
    TimesAreOfPasses(grace, run, i);
  }

  /** A pass of the reaper long after the first TERM releases the lease or leaves a KILL time. */
  lemma LatePassReleasesOrKilled(grace: int, e: Event)
    requires IsPass(grace, e) && Steps(e) && e.before.orphanReap.Some?
    requires e.pass.now - e.before.orphanReap.value.termAt >= UNREADABLE_GIVE_UP
    ensures e.after.None? || (e.after.value.orphanReap.Some? && e.after.value.orphanReap.value.killAt.Some?)
  {}

  /**
   * When a pass of the reaper removes the lease: the table is readable and nothing runs; or the table is unreadable and
   * a minute has passed since the first pass; or half a minute has passed since a KILL; or a minute has passed since
   * the first pass and no KILL was sent, not by this one either. Otherwise it is held.
   */
  lemma ReleasedExactly(grace: int, e: Event)
    requires IsPass(grace, e) && Steps(e)
    ensures
      var first := if e.before.orphanReap.Some? then e.before.orphanReap.value.termAt else e.pass.now;
      var kill := if e.before.orphanReap.Some? then e.before.orphanReap.value.killAt else None;
      e.after == None <==>
        || (e.pass.rows.Some? && forall p :: p in e.found ==> !IsLive(e.pass.rows.value, e.found, e.pass.prot, p))
        || (e.pass.rows.None? && e.pass.now - first >= 60_000)
        || (kill.Some? && e.pass.now - kill.value >= 30_000)
        || (kill.None? && e.pass.now - first >= 60_000 && !(e.signal == SIGKILL && e.pids != []))
  {
    if e.pass.rows.Some? {
      assert forall p ::
        p in LiveIn(e.pass.rows.value, e.found, e.pass.prot) <==>
          p in e.found && IsLive(e.pass.rows.value, e.found, e.pass.prot, p);
    }
  }

  /**
   * A pass that holds the lease and sees the table sends KILL exactly if one was sent before or the grace has passed
   * since the first pass, and else TERM; and the time of the first KILL is then on record.
   */
  lemma KillIsDue(grace: int, e: Event)
    requires IsPass(grace, e) && Steps(e) && e.pass.rows.Some? && e.after.Some?
    ensures e.signal == SIGKILL <==>
      e.before.orphanReap.Some?
      && (e.before.orphanReap.value.killAt.Some? || e.pass.now - e.before.orphanReap.value.termAt >= grace)
    ensures e.signal == SIGKILL && e.pids != [] ==> e.after.value.orphanReap.value.killAt.Some?
    ensures e.after.value.orphanReap.Some? && e.after.value.state == ORPHANED
  {}

  /** So no lease outlives a pass a minute after its first one followed by a pass half a minute later. */
  lemma ReleasedInBoundedTime(grace: int, run: seq<Event>, i: nat, j: nat, k: nat)
    requires IsRun(grace, run) && i < j < k < |run| && Steps(run[i]) && Steps(run[j]) && Steps(run[k])
    requires run[j].pass.now - run[i].pass.now >= 60_000
    requires run[k].pass.now - run[j].pass.now >= 30_000
    ensures run[k].after == None && k == |run| - 1
  {
    assert run[i].after == Some(run[i + 1].before);
    TermAtIsPast(grace, run, i);
    KilledBy(grace, run, i + 1, j);
    TimesStay(grace, run, j + 1, k);
    LongAfterKillReleases(grace, run[k]);
    LastIfRemoved(grace, run, k);
  }

  /** A removed lease gets no further pass. */
  lemma LastIfRemoved(grace: int, run: seq<Event>, k: nat)
    requires IsRun(grace, run) && k < |run|
    ensures run[k].after.None? ==> k == |run| - 1
  {
    if k < |run| - 1 { assert run[k].after == Some(run[k + 1].before); }
  }

  /** A pass of the reaper long after the KILL time releases the lease. */
  lemma LongAfterKillReleases(grace: int, e: Event)
    requires IsPass(grace, e) && Steps(e) && e.before.orphanReap.Some? && e.before.orphanReap.value.killAt.Some?
    requires e.pass.now - e.before.orphanReap.value.killAt.value >= KILL_GIVE_UP
    ensures e.after == None
  {}

  lemma KilledBy(grace: int, run: seq<Event>, i: nat, j: nat)
    requires IsRun(grace, run) && 0 < i <= j < |run| - 1 && Steps(run[j])
    requires run[i].before.orphanReap.Some?
    requires run[j].pass.now - run[i].before.orphanReap.value.termAt >= UNREADABLE_GIVE_UP
    ensures
      var p := run[j + 1].before.orphanReap; p.Some? && p.value.killAt.Some? && p.value.killAt.value <= run[j].pass.now
  {
    TimesStay(grace, run, i, j);
    LatePassReleasesOrKilled(grace, run[j]);
    assert run[j].after == Some(run[j + 1].before);
    TimesAreOfPasses(grace, run, j + 1);
  }

  lemma TermAtIsPast(grace: int, run: seq<Event>, i: nat)
    requires IsRun(grace, run) && i < |run| && Steps(run[i]) && run[i].after.Some?
    ensures run[i].after.value.orphanReap.Some? && run[i].after.value.orphanReap.value.termAt <= run[i].pass.now
  {
    assert IsPass(grace, run[i]);
    if run[i].before.orphanReap.Some? { TimesAreOfPasses(grace, run, i); }
  }

  /** The keys a run has sent `signal` to before pass `i` are the ones recorded. */
  lemma {:induction false} SentIsRecorded(grace: int, run: seq<Event>, i: nat, j: nat)
    requires IsRun(grace, run) && i < j < |run|
    ensures run[i].signal == SIGTERM ==> Keys(run[i]) <= Begun(run[j].before, 0).termed
    ensures run[i].signal == SIGKILL ==> Keys(run[i]) <= Begun(run[j].before, 0).killed
  {
    assert run[j - 1].after == Some(run[j].before) && IsPass(grace, run[j - 1]);
    if i < j - 1 { SentIsRecorded(grace, run, i, j - 1); } else { assert run[i].pids == [] ==> Keys(run[i]) == {}; }
  }

  /** Over all passes no process gets the same signal twice under one token. */
  lemma OncePerRun(grace: int, run: seq<Event>, i: nat, j: nat)
    requires IsRun(grace, run) && i < j < |run| && run[i].signal == run[j].signal
    ensures Keys(run[i]) !! Keys(run[j])
  {
    SentIsRecorded(grace, run, i, j);
    assert IsPass(grace, run[j]);
    assert Begun(run[j].before, 0).termed == Begun(run[j].before, run[j].pass.now).termed;
  }

  /** Only unprotected processes above pid 1 are signalled, whose row in that pass carries the recorded token. */
  lemma OnlyVerifiedAreSignalled(grace: int, e: Event, p: Pid)
    requires IsPass(grace, e) && p in e.pids
    ensures p > 1 && p !in e.pass.prot && p in e.found && e.pass.rows.Some?
    ensures exists r :: r in e.pass.rows.value && r.pid == p && r.token == e.found[p] && !r.unknown
  {
    var rows := e.pass.rows.value;
    var i :| 0 <= i < |rows| && rows[i].pid == p && (rows[i].token == e.found[p] || rows[i].unknown);
    assert rows[i] in rows && !rows[i].unknown;
  }

  /** After the KILL time no pass sends TERM, and every KILL comes at least the grace after the first pass. */
  lemma KillComesAfterGrace(grace: int, run: seq<Event>, i: nat)
    requires IsRun(grace, run) && i < |run| && run[i].signal == SIGKILL && run[i].pids != []
    ensures exists j :: 0 <= j < i && Steps(run[j]) && run[i].pass.now - run[j].pass.now >= grace
    decreases i
  {
    assert IsPass(grace, run[i]);
    assert Steps(run[i]) && run[i].before.orphanReap.Some?;
    TimesAreOfPasses(grace, run, i);
    if !PastGrace(grace, run[i]) {
      var j :| 0 <= j < i && run[j].signal == SIGKILL && run[j].pids != []
        && run[j].pass.now == run[i].before.orphanReap.value.killAt.value;
      KillComesAfterGrace(grace, run, j);
    }
  }

  /** A complete release means that nothing recorded or found was running in a readable table. */
  lemma CompleteMeansGone(grace: int, e: Event)
    requires IsPass(grace, e) && e.outcome.Released?
    ensures e.outcome.complete <==>
      e.pass.rows.Some? && forall p :: p in e.found ==> !IsLive(e.pass.rows.value, e.found, e.pass.prot, p)
  {
    if e.pass.rows.Some? {
      assert forall p ::
        p in LiveIn(e.pass.rows.value, e.found, e.pass.prot) <==>
          p in e.found && IsLive(e.pass.rows.value, e.found, e.pass.prot, p);
    }
  }

  // ---------------------------------------------------------------- nothing found is forgotten

  /** A pass of the reaper finds every row of the tree below what the lease records, under its current token. */
  lemma PassFindsTree(grace: int, e: Event)
    requires IsPass(grace, e) && Steps(e) && e.pass.rows.Some? && DistinctPids(e.pass.rows.value)
    ensures
      FindsTree(e.pass.rows.value, e.pass.prot, None, None, Unprotected(e.before.descendants, e.pass.prot), e.found)
  {
    ScanFindsTree(e.pass.rows.value, e.pass.prot, None, None, Unprotected(e.before.descendants, e.pass.prot), e.found);
  }

  /** In this pass the pid is unprotected and no row gives it to a process with another token. */
  ghost predicate NotReplaced(pass: Pass, p: Pid, t: Token)
  {
    p !in pass.prot && (pass.rows.Some? ==> forall r :: r in pass.rows.value && r.pid == p ==> r.token == t)
  }

  /** `p` is recorded under `t`. */
  predicate HasRecord(m: map<Pid, Token>, p: Pid, t: Token) { p in m && m[p] == t }

  /** Each pass finds in the lease what the pass before it found, or what that one's lease recorded. */
  ghost predicate HandsOn(run: seq<Event>)
  {
    forall k :: 0 < k < |run| ==>
      run[k].before.descendants == if Steps(run[k - 1]) then run[k - 1].found else run[k - 1].before.descendants
  }

  lemma RunHandsOn(grace: int, run: seq<Event>)
    requires IsRun(grace, run)
    ensures HandsOn(run)
  {
    forall k | 0 < k < |run|
      ensures run[k].before.descendants ==
        if Steps(run[k - 1]) then run[k - 1].found else run[k - 1].before.descendants
    {
      assert run[k - 1].after == Some(run[k].before);
      PassRecordsFound(grace, run[k - 1]);
    }
  }

  lemma PassRecordsFound(grace: int, e: Event)
    requires IsPass(grace, e) && e.after.Some?
    ensures e.after.value.descendants == if Steps(e) then e.found else e.before.descendants
  {}

  /** The lease that pass `j` finds still records what an earlier pass found. */
  lemma {:induction false} FoundIsRecorded(run: seq<Event>, i: nat, j: nat, p: Pid, t: Token)
    requires HandsOn(run) && i < j < |run| && Steps(run[i]) && HasRecord(run[i].found, p, t)
    requires forall k :: i < k < j && Steps(run[k]) && HasRecord(run[k].before.descendants, p, t) ==>
      HasRecord(run[k].found, p, t)
    ensures HasRecord(run[j].before.descendants, p, t)
  {
    if i < j - 1 { FoundIsRecorded(run, i, j - 1, p, t); }
  }

  /** A pass that finds a process recorded, unprotected and not replaced has it among what it found. */
  lemma StaysFound(grace: int, e: Event, p: Pid, t: Token)
    requires IsPass(grace, e) && Steps(e) && NotReplaced(e.pass, p, t)
    requires HasRecord(e.before.descendants, p, t)
    ensures HasRecord(e.found, p, t)
  {
    assert p in Unprotected(e.before.descendants, e.pass.prot);
  }

  /**
   * Over every run: what a pass found under a token, every later pass of the reaper finds as well, as long as no pass
   * protects the pid and no table gives it to another process. While its row is in the table, no release is complete.
   */
  lemma FoundStaysFound(grace: int, run: seq<Event>, i: nat, j: nat, p: Pid)
    requires IsRun(grace, run) && i < j < |run| && Steps(run[i]) && Steps(run[j]) && p in run[i].found
    requires forall k :: i < k <= j ==> NotReplaced(run[k].pass, p, run[i].found[p])
    ensures p in run[j].found && run[j].found[p] == run[i].found[p]
    ensures run[j].pass.rows.Some? && HasRow(run[j].pass.rows.value, p, run[i].found[p]) ==>
      !(run[j].outcome.Released? && run[j].outcome.complete)
  {
    var t := run[i].found[p];
    RunHandsOn(grace, run);
    forall k | i < k < j && Steps(run[k]) && HasRecord(run[k].before.descendants, p, t)
      ensures HasRecord(run[k].found, p, t)
    {
      StaysFound(grace, run[k], p, t);
    }
    FoundIsRecorded(run, i, j, p, t);
    StaysFound(grace, run[j], p, t);
    if run[j].pass.rows.Some? && HasRow(run[j].pass.rows.value, p, run[i].found[p]) {
      RowIsLive(run[j], p);
      if run[j].outcome.Released? { CompleteMeansGone(grace, run[j]); }
    }
  }

  lemma RowIsLive(e: Event, p: Pid)
    requires e.pass.rows.Some? && p in e.found && p !in e.pass.prot && HasRow(e.pass.rows.value, p, e.found[p])
    ensures IsLive(e.pass.rows.value, e.found, e.pass.prot, p)
  {
    var r :| r in e.pass.rows.value && r.pid == p && r.token == e.found[p];
    var i :| 0 <= i < |e.pass.rows.value| && e.pass.rows.value[i] == r;
  }

  // ---------------------------------------------------------------- nobody is passed over, and all are counted

  /** The keys that the lease records for one signal. */
  function SentKeys(lease: Lease, signal: Signal): set<(Pid, Token)>
  {
    if lease.orphanReap.None? then {}
    else if signal == SIGTERM then lease.orphanReap.value.termed else lease.orphanReap.value.killed
  }

  lemma PassRecordsKeys(grace: int, e: Event, signal: Signal)
    requires IsPass(grace, e) && e.after.Some?
    ensures SentKeys(e.after.value, signal) <= SentKeys(e.before, signal) + SentIn(e, signal)
  {}

  /** Keys come into the lease only from passes that sent them. */
  ghost predicate KeysGrow(run: seq<Event>, signal: Signal)
  {
    && (run != [] ==> SentKeys(run[0].before, signal) == {})
    && forall k :: 0 < k < |run| ==>
         SentKeys(run[k].before, signal) <= SentKeys(run[k - 1].before, signal) + SentIn(run[k - 1], signal)
  }

  function SentIn(e: Event, signal: Signal): set<(Pid, Token)> { if e.signal == signal then Keys(e) else {} }

  lemma RunGrowsKeys(grace: int, run: seq<Event>, signal: Signal)
    requires IsRun(grace, run)
    ensures KeysGrow(run, signal)
  {
    forall k | 0 < k < |run|
      ensures SentKeys(run[k].before, signal) <= SentKeys(run[k - 1].before, signal) + SentIn(run[k - 1], signal)
    {
      assert run[k - 1].after == Some(run[k].before);
      PassRecordsKeys(grace, run[k - 1], signal);
    }
  }

  /** What the lease records as signalled was signalled by an earlier pass of the run. */
  lemma {:induction false} RecordedWasSent(run: seq<Event>, i: nat, key: (Pid, Token), signal: Signal)
    requires KeysGrow(run, signal) && i < |run| && key in SentKeys(run[i].before, signal)
    ensures exists j :: 0 <= j < i && key in SentIn(run[j], signal)
  {
    assert i > 0;
    if key !in SentIn(run[i - 1], signal) { RecordedWasSent(run, i - 1, key, signal); }
  }

  /**
   * A pass that holds the lease leaves no verifiable process of it without its signal: each one above pid 1 whose row
   * carries the recorded token gets it in this pass, or got it in an earlier one under that token.
   */
  lemma NobodyIsPassedOver(grace: int, run: seq<Event>, i: nat, p: Pid)
    requires IsRun(grace, run) && i < |run| && Steps(run[i]) && run[i].after.Some? && run[i].pass.rows.Some?
    requires p in run[i].found && MustSignal(run[i].pass.rows.value, run[i].found, run[i].pass.prot, {}, p)
    ensures exists j :: 0 <= j <= i && (p, run[i].found[p]) in SentIn(run[j], run[i].signal)
  {
    var e, key := run[i], (p, run[i].found[p]);
    assert IsPass(grace, e);
    var sent := SentKeys(e.before, e.signal);
    DueMeaning(e.pass.rows.value, e.found, e.pass.prot, sent, p);
    if key in sent {
      RunGrowsKeys(grace, run, e.signal);
      RecordedWasSent(run, i, key, e.signal);
    } else {
      assert p in e.pids && key in SentIn(e, e.signal);
    }
  }

  /** How many signals the first `n` passes sent. */
  function SentBy(run: seq<Event>, n: nat): nat
    requires n <= |run|
  {
    if n == 0 then 0 else SentBy(run, n - 1) + |run[n - 1].pids|
  }

  lemma {:induction false} LeaseCountsSignals(grace: int, run: seq<Event>, i: nat)
    requires IsRun(grace, run) && i < |run|
    ensures Begun(run[i].before, 0).signalled == SentBy(run, i)
  {
    if i > 0 {
      LeaseCountsSignals(grace, run, i - 1);
      assert run[i - 1].after == Some(run[i].before) && IsPass(grace, run[i - 1]);
    }
  }

  /** A release reports how many signals the run has sent. */
  lemma ReleaseCountsSignals(grace: int, run: seq<Event>, i: nat)
    requires IsRun(grace, run) && i < |run| && run[i].outcome.Released?
    ensures run[i].outcome.signalled == SentBy(run, i + 1)
  {
    LeaseCountsSignals(grace, run, i);
    assert IsPass(grace, run[i]);
  }
}
