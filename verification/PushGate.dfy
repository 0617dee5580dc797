/**
 * Push gates (src/push-gate.js): which queued pre-push gate waits behind which other push of the same caller.
 * `PushHolds` is the one pass over gates sorted once; `HolderOf` is the plain definition it computes. The last part
 * runs the gates: only unheld gates start, so one caller's live running gates are always of one push, and waiting never
 * deadlocks.
 */
module PushGate {
  import opened Common
  import opened Sorting

  type Id = string
  type Caller = string

  /** What a pre-push gate knows of its push; gates of one push share the git process. */
  datatype Stamp = Stamp(caller: Caller, gitPid: int, startEpoch: int)

  datatype Ticket = Ticket(id: Id, gate: Option<Stamp>)

  datatype LeaseState = Running | Orphaned | Done

  datatype Lease = Lease(id: Id, gate: Option<Stamp>, state: LeaseState)

  /** A gate with a stamp, queued or running. */
  datatype Gate = Gate(id: Id, stamp: Stamp)

  /** Earlier push first: by the git process's start, then its pid. */
  predicate PushBefore(a: Stamp, b: Stamp)
  {
    a.startEpoch < b.startEpoch || (a.startEpoch == b.startEpoch && a.gitPid < b.gitPid)
  }

  function Earlier(): (Gate, Gate) -> bool { (a: Gate, b: Gate) => PushBefore(a.stamp, b.stamp) }

  lemma EarlierIsOrder()
    ensures StrictWeakOrder(Earlier())
  {}

  // ---------------------------------------------------------------- the plain definition

  /** A lease as a live running gate of `caller`: one gate or none. */
  function RunningGate(l: Lease, dead: set<Id>, caller: Caller): seq<Gate>
  {
    if l.gate.Some? && l.state == Running && l.id !in dead && l.gate.value.caller == caller
    then [Gate(l.id, l.gate.value)]
    else []
  }

  /** The caller's live running gates, in lease order. */
  function RunningOf(leases: seq<Lease>, dead: set<Id>, caller: Caller): seq<Gate>
  {
    if leases == [] then [] else RunningGate(leases[0], dead, caller) + RunningOf(leases[1..], dead, caller)
  }

  /** A queue record as a gate of `caller`; an unreadable record is None and no gate. */
  function QueuedGate(t: Option<Ticket>, caller: Caller): seq<Gate>
  {
    if t.Some? && t.value.gate.Some? && t.value.gate.value.caller == caller then [Gate(t.value.id, t.value.gate.value)]
    else []
  }

  /** The caller's queued gates, in queue order. */
  function QueuedOf(queue: seq<Option<Ticket>>, caller: Caller): seq<Gate>
  {
    if queue == [] then [] else QueuedGate(queue[0], caller) + QueuedOf(queue[1..], caller)
  }

  function OtherPush(pid: int): Gate -> bool { (g: Gate) => g.stamp.gitPid != pid }

  function LiveOther(dead: set<Id>, pid: int): Gate -> bool { (g: Gate) => g.id !in dead && g.stamp.gitPid != pid }

  function LiveEarlierOther(dead: set<Id>, s: Stamp): Gate -> bool
  {
    (g: Gate) => g.id !in dead && g.stamp.gitPid != s.gitPid && PushBefore(g.stamp, s)
  }

  /**
   * Who a gate of push `s` waits behind: the caller's first live running gate of another push, else the earliest live
   * queued gate of another push that comes strictly before it, else nobody.
   */
  function HolderOf(running: seq<Gate>, queued: seq<Gate>, dead: set<Id>, s: Stamp): Option<Gate>
  {
    var r := FirstThat(running, OtherPush(s.gitPid));
    if r.Some? then r else LeastThat(queued, LiveEarlierOther(dead, s), Earlier())
  }

  // ---------------------------------------------------------------- the one pass refines it

  /** The two candidates the pass keeps: the first live gate seen, and the first live one of another push than its. */
  datatype Candidates = Candidates(earliest: Option<Gate>, ofAnotherPush: Option<Gate>)

  ghost predicate AreCandidates(c: Candidates, seen: seq<Gate>, dead: set<Id>)
  {
    && c.earliest == FirstThat(seen, Live(dead))
    && c.ofAnotherPush ==
         if c.earliest.None? then None else FirstThat(seen, LiveOther(dead, c.earliest.value.stamp.gitPid))
  }

  function Consider(c: Candidates, t: Gate, dead: set<Id>): Candidates
  {
    if t.id in dead then c
    else if c.earliest.None? then c.(earliest := Some(t))
    else if c.ofAnotherPush.None? && t.stamp.gitPid != c.earliest.value.stamp.gitPid then c.(ofAnotherPush := Some(t))
    else c
  }

  function HolderInPass(firstRunning: Option<Gate>, otherRunning: Option<Gate>, c: Candidates, pid: int): Option<Gate>
  {
    var runningHolder :=
      if firstRunning.Some? && firstRunning.value.stamp.gitPid != pid then firstRunning else otherRunning;
    if runningHolder.Some? then runningHolder
    else if c.earliest.Some? && c.earliest.value.stamp.gitPid != pid then c.earliest
    else c.ofAnotherPush
  }

  function First(running: seq<Gate>): Option<Gate> { if running == [] then None else Some(running[0]) }

  function FirstOfAnother(running: seq<Gate>): Option<Gate>
  {
    if running == [] then None else FirstThat(running, OtherPush(running[0].stamp.gitPid))
  }

  lemma ConsiderKeeps(c: Candidates, seen: seq<Gate>, t: Gate, dead: set<Id>)
    requires AreCandidates(c, seen, dead)
    ensures AreCandidates(Consider(c, t, dead), seen + [t], dead)
  {
    FirstOfAppend(seen, t, Live(dead));
    if c.earliest.Some? {
      FirstOfAppend(seen, t, LiveOther(dead, c.earliest.value.stamp.gitPid));
    } else {
      NoOtherAfterFirst(seen, t, dead);
    }
  }

  /** Two candidates, and two running gates, are enough to answer for every push. */
  lemma PassAnswers(running: seq<Gate>, queued: seq<Gate>, sorted: seq<Gate>, k: nat, dead: set<Id>, c: Candidates)
    requires sorted == StableSort(queued, Earlier()) && Sorted(sorted, Earlier()) && k < |sorted|
    requires AreCandidates(c, sorted[..k], dead)
    ensures HolderInPass(First(running), FirstOfAnother(running), c, sorted[k].stamp.gitPid) ==
      HolderOf(running, queued, dead, sorted[k].stamp)
  {
    RunningAnswer(running, sorted[k].stamp.gitPid);
    QueuedAnswer(sorted[..k], dead, sorted[k].stamp.gitPid);
    EarlierAreThoseSeen(queued, sorted, k, dead);
  }

  function Ids(gates: seq<Gate>): set<Id> { set g | g in gates :: g.id }

  /** `sorted` is the caller's queued gates in push order. */
  ghost predicate InPushOrder(queued: seq<Gate>, sorted: seq<Gate>)
  {
    && sorted == StableSort(queued, Earlier()) && Sorted(sorted, Earlier()) && DistinctBy(sorted, IdOf())
    && forall g :: g in sorted <==> g in queued
  }

  lemma SortingGivesPushOrder(queued: seq<Gate>)
    requires DistinctBy(queued, IdOf())
    ensures InPushOrder(queued, StableSort(queued, Earlier()))
  {
    EarlierIsOrder();
    SortSorts(queued, Earlier());
    SortMembers(queued, Earlier());
    SortKeepsDistinct(queued, Earlier(), IdOf());
  }

  /** One turn of the walk. */
  lemma OneTurn(
    holds: map<Id, Id>, running: seq<Gate>, queued: seq<Gate>, sorted: seq<Gate>, k: nat, dead: set<Id>, c: Candidates)
    requires InPushOrder(queued, sorted) && k < |sorted|
    requires AreCandidates(c, sorted[..k], dead) && RecordedUpTo(holds, running, queued, sorted, k, dead)
    ensures AreCandidates(Consider(c, sorted[k], dead), sorted[..k + 1], dead)
    ensures var holder := HolderInPass(First(running), FirstOfAnother(running), c, sorted[k].stamp.gitPid);
      RecordedUpTo(
        if holder.Some? then holds[sorted[k].id := holder.value.id] else holds, running, queued, sorted, k + 1, dead)
  {
    PassAnswers(running, queued, sorted, k, dead, c);
    assert sorted[k] in sorted;
    AddRecord(holds, running, queued, sorted, k, dead,
      HolderInPass(First(running), FirstOfAnother(running), c, sorted[k].stamp.gitPid));
    assert sorted[..k + 1] == sorted[..k] + [sorted[k]];
    ConsiderKeeps(c, sorted[..k], sorted[k], dead);
  }

  /** The walk over one caller's gates sorted once. */
  method HoldsOfCaller(running: seq<Gate>, queued: seq<Gate>, dead: set<Id>) returns (holds: map<Id, Id>)
    requires DistinctBy(queued, IdOf())
    ensures forall g :: g in queued ==> Records(holds, g, HolderOf(running, queued, dead, g.stamp))
    ensures holds.Keys <= Ids(queued)
  {
    var sorted := StableSort(queued, Earlier());
    SortingGivesPushOrder(queued);
    var firstRunning := First(running);
    var otherRunning := FirstOfAnother(running);
    var c := Candidates(None, None);
    holds := map[];
    for k := 0 to |sorted|
      invariant AreCandidates(c, sorted[..k], dead)
      invariant RecordedUpTo(holds, running, queued, sorted, k, dead)
    {
      OneTurn(holds, running, queued, sorted, k, dead, c);
      var t := sorted[k];
      var holder := HolderInPass(firstRunning, otherRunning, c, t.stamp.gitPid);
      if holder.Some? { holds := holds[t.id := holder.value.id]; }
      c := Consider(c, t, dead);
    }
  }

  ghost predicate RecordedUpTo(
    holds: map<Id, Id>, running: seq<Gate>, queued: seq<Gate>, sorted: seq<Gate>, k: nat, dead: set<Id>)
  {
    && k <= |sorted| && holds.Keys <= Ids(queued)
    && (forall i :: 0 <= i < k ==> Records(holds, sorted[i], HolderOf(running, queued, dead, sorted[i].stamp)))
    && (forall i :: k <= i < |sorted| ==> sorted[i].id !in holds)
  }

  lemma AddRecord(
    holds: map<Id, Id>, running: seq<Gate>, queued: seq<Gate>, sorted: seq<Gate>, k: nat, dead: set<Id>,
    holder: Option<Gate>)
    requires k < |sorted| && DistinctBy(sorted, IdOf()) && sorted[k] in queued
    requires RecordedUpTo(holds, running, queued, sorted, k, dead)
    requires holder == HolderOf(running, queued, dead, sorted[k].stamp)
    ensures RecordedUpTo(
      if holder.Some? then holds[sorted[k].id := holder.value.id] else holds, running, queued, sorted, k + 1, dead)
  {
    forall i | 0 <= i < |sorted| && i != k ensures sorted[i].id != sorted[k].id {
      assert IdOf()(sorted[i]) != IdOf()(sorted[k]);
    }
  }

  function IdOf(): Gate -> Id { (g: Gate) => g.id }

  predicate Records(holds: map<Id, Id>, g: Gate, holder: Option<Gate>)
  {
    if holder.Some? then g.id in holds && holds[g.id] == holder.value.id else g.id !in holds
  }

  function Live(dead: set<Id>): Gate -> bool { (g: Gate) => g.id !in dead }

  /** The first running gate, or the first of a push other than its, is the first of a push other than `pid`'s. */
  lemma RunningAnswer(running: seq<Gate>, pid: int)
    ensures FirstThat(running, OtherPush(pid)) ==
            if running == [] then None
            else if running[0].stamp.gitPid != pid then Some(running[0])
            else FirstThat(running, OtherPush(running[0].stamp.gitPid))
  {}

  lemma {:induction false} FirstSkips(s: seq<Gate>, dead: set<Id>, pid: int)
    ensures FirstThat(s, LiveOther(dead, pid)) ==
            var e := FirstThat(s, Live(dead));
            if e.None? then None
            else if e.value.stamp.gitPid != pid then e else FirstThat(s, LiveOther(dead, e.value.stamp.gitPid))
  {
    if s != [] && s[0].id in dead { FirstSkips(s[1..], dead, pid); }
  }

  lemma QueuedAnswer(s: seq<Gate>, dead: set<Id>, pid: int)
    ensures FirstThat(s, LiveOther(dead, pid)) ==
            var e := FirstThat(s, Live(dead));
            if e.Some? && e.value.stamp.gitPid != pid then e
            else if e.None? then None else FirstThat(s, LiveOther(dead, e.value.stamp.gitPid))
  {
    FirstSkips(s, dead, pid);
  }

  lemma {:induction false} NoOtherAfterFirst(s: seq<Gate>, t: Gate, dead: set<Id>)
    requires FirstThat(s, Live(dead)).None?
    ensures FirstThat(s + [t], LiveOther(dead, t.stamp.gitPid)).None?
  {
    if s != [] {
      assert (s + [t])[1..] == s[1..] + [t];
      NoOtherAfterFirst(s[1..], t, dead);
    }
  }

  /** Among sorted gates those of another push before position `k` are exactly those strictly earlier in push order. */
  lemma EarlierAreThoseSeen(queued: seq<Gate>, sorted: seq<Gate>, k: nat, dead: set<Id>)
    requires sorted == StableSort(queued, Earlier()) && Sorted(sorted, Earlier()) && k < |sorted|
    ensures FirstThat(sorted[..k], LiveOther(dead, sorted[k].stamp.gitPid)) ==
      LeastThat(queued, LiveEarlierOther(dead, sorted[k].stamp), Earlier())
  {
    var s := sorted[k].stamp;
    EarlierIsOrder();
    FirstOfSorted(queued, LiveEarlierOther(dead, s), Earlier());
    FirstOfPrefix(sorted, 0, k, LiveOther(dead, s.gitPid), LiveEarlierOther(dead, s));
  }

  lemma {:induction false} FirstOfPrefix(s: seq<Gate>, from: nat, k: nat, p: Gate -> bool, q: Gate -> bool)
    requires from <= k <= |s|
    requires forall i :: from <= i < k ==> (p(s[i]) <==> q(s[i]))
    requires forall i :: k <= i < |s| ==> !q(s[i])
    ensures FirstThat(s[from..k], p) == FirstThat(s[from..], q)
    decreases k - from
  {
    if from < k {
      assert s[from..k][1..] == s[from + 1..k] && s[from..][1..] == s[from + 1..];
      FirstOfPrefix(s, from + 1, k, p, q);
    } else {
      FirstIsMember(s[from..], q);
      assert s[from..k] == [];
    }
  }

  // ---------------------------------------------------------------- every caller

  predicate IsGateAt(queue: seq<Option<Ticket>>, i: nat)
    requires i < |queue|
  {
    queue[i].Some? && queue[i].value.gate.Some?
  }

  /** One queue file per ticket: readable records have distinct ids. */
  predicate DistinctIds(queue: seq<Option<Ticket>>)
  {
    forall i, j :: 0 <= i < j < |queue| && queue[i].Some? && queue[j].Some? ==> queue[i].value.id != queue[j].value.id
  }

  function Group(m: map<Caller, seq<Gate>>, c: Caller): seq<Gate> { if c in m then m[c] else [] }

  lemma {:induction false} RunningOfAppend(leases: seq<Lease>, l: Lease, dead: set<Id>, c: Caller)
    ensures RunningOf(leases + [l], dead, c) == RunningOf(leases, dead, c) + RunningGate(l, dead, c)
  {
    if leases != [] {
      assert (leases + [l])[1..] == leases[1..] + [l];
      RunningOfAppend(leases[1..], l, dead, c);
    }
  }

  lemma {:induction false} QueuedOfAppend(queue: seq<Option<Ticket>>, t: Option<Ticket>, c: Caller)
    ensures QueuedOf(queue + [t], c) == QueuedOf(queue, c) + QueuedGate(t, c)
  {
    if queue != [] {
      assert (queue + [t])[1..] == queue[1..] + [t];
      QueuedOfAppend(queue[1..], t, c);
    }
  }

  method GroupLeases(leases: seq<Lease>, dead: set<Id>) returns (running: map<Caller, seq<Gate>>)
    ensures forall c :: Group(running, c) == RunningOf(leases, dead, c)
  {
    running := map[];
    for i := 0 to |leases|
      invariant forall c :: Group(running, c) == RunningOf(leases[..i], dead, c)
    {
      var l := leases[i];
      assert leases[..i + 1] == leases[..i] + [l];
      ghost var before := running;
      if l.gate.Some? && l.state == Running && l.id !in dead {
        var c := l.gate.value.caller;
        running := running[c := Group(running, c) + [Gate(l.id, l.gate.value)]];
      }
      forall c ensures Group(running, c) == RunningOf(leases[..i + 1], dead, c) {
        RunningOfAppend(leases[..i], l, dead, c);
        assert Group(before, c) + [] == Group(before, c);
      }
    }
    assert leases[..|leases|] == leases;
  }

  method GroupQueue(queue: seq<Option<Ticket>>) returns (queued: map<Caller, seq<Gate>>)
    ensures forall c :: Group(queued, c) == QueuedOf(queue, c)
  {
    queued := map[];
    for i := 0 to |queue|
      invariant forall c :: Group(queued, c) == QueuedOf(queue[..i], c)
    {
      var t := queue[i];
      assert queue[..i + 1] == queue[..i] + [t];
      ghost var before := queued;
      if t.Some? && t.value.gate.Some? {
        var c := t.value.gate.value.caller;
        queued := queued[c := Group(queued, c) + [Gate(t.value.id, t.value.gate.value)]];
      }
      forall c ensures Group(queued, c) == QueuedOf(queue[..i + 1], c) {
        QueuedOfAppend(queue[..i], t, c);
        assert Group(before, c) + [] == Group(before, c);
      }
    }
    assert queue[..|queue|] == queue;
  }

  lemma {:induction false} QueuedOfMember(queue: seq<Option<Ticket>>, c: Caller, k: nat) returns (i: nat)
    requires k < |QueuedOf(queue, c)|
    ensures k <= i < |queue| && IsGateAt(queue, i) && queue[i].value.gate.value.caller == c
    ensures QueuedOf(queue, c)[k] == Gate(queue[i].value.id, queue[i].value.gate.value)
  {
    var n := |QueuedGate(queue[0], c)|;
    if k == 0 && n == 1 { i := 0; }
    else {
      var r := QueuedOfMember(queue[1..], c, k - n);
      i := r + 1;
    }
  }

  lemma {:induction false} QueuedOfIncreasing(queue: seq<Option<Ticket>>, c: Caller, k: nat, l: nat)
    requires DistinctIds(queue) && k < l < |QueuedOf(queue, c)|
    ensures QueuedOf(queue, c)[k].id != QueuedOf(queue, c)[l].id
  {
    var n := |QueuedGate(queue[0], c)|;
    if k == 0 && n == 1 {
      var j := QueuedOfMember(queue[1..], c, l - 1);
      assert queue[j + 1] == queue[1..][j];
    } else {
      QueuedOfIncreasing(queue[1..], c, k - n, l - n);
    }
  }

  lemma GatesDistinct(queue: seq<Option<Ticket>>, c: Caller)
    requires DistinctIds(queue)
    ensures DistinctBy(QueuedOf(queue, c), IdOf())
  {
    var q := QueuedOf(queue, c);
    forall k, l | 0 <= k < l < |q| ensures IdOf()(q[k]) != IdOf()(q[l]) { QueuedOfIncreasing(queue, c, k, l); }
  }

  lemma CallersDisjoint(queue: seq<Option<Ticket>>, c: Caller, d: Caller)
    requires DistinctIds(queue) && c != d
    ensures Ids(QueuedOf(queue, c)) !! Ids(QueuedOf(queue, d))
  {
    forall id | id in Ids(QueuedOf(queue, c)) ensures id !in Ids(QueuedOf(queue, d)) {
      if id in Ids(QueuedOf(queue, d)) {
        var k :| 0 <= k < |QueuedOf(queue, c)| && QueuedOf(queue, c)[k].id == id;
        var l :| 0 <= l < |QueuedOf(queue, d)| && QueuedOf(queue, d)[l].id == id;
        var i := QueuedOfMember(queue, c, k);
        var j := QueuedOfMember(queue, d, l);
      }
    }
  }

  /** Who holds a gate of push `s`, from the queue and the leases. */
  function Holder(queue: seq<Option<Ticket>>, leases: seq<Lease>, dead: set<Id>, s: Stamp): Option<Gate>
  {
    HolderOf(RunningOf(leases, dead, s.caller), QueuedOf(queue, s.caller), dead, s)
  }

  // ---------------------------------------------------------------- the same, in the records themselves

  /** A live running gate of another push of the same caller: it holds whatever its order. */
  predicate Blocks(l: Lease, dead: set<Id>, s: Stamp)
  {
    && l.gate.Some? && l.state == Running && l.id !in dead
    && l.gate.value.caller == s.caller && l.gate.value.gitPid != s.gitPid
  }

  /**
   * A live queued gate of another push of the same caller whose git process started earlier, or at once with a lower
   * pid.
   */
  predicate Precedes(t: Option<Ticket>, dead: set<Id>, s: Stamp)
  {
    && t.Some? && t.value.gate.Some? && t.value.id !in dead
    && t.value.gate.value.caller == s.caller && t.value.gate.value.gitPid != s.gitPid
    && (|| t.value.gate.value.startEpoch < s.startEpoch
        || (t.value.gate.value.startEpoch == s.startEpoch && t.value.gate.value.gitPid < s.gitPid))
  }

  /** `h` is the first running gate that blocks; if none does, of the queued ones that precede one before all others. */
  ghost predicate IsHolderId(queue: seq<Option<Ticket>>, leases: seq<Lease>, dead: set<Id>, s: Stamp, h: Option<Id>)
  {
    if exists k :: 0 <= k < |leases| && Blocks(leases[k], dead, s) then
      exists k ::
        && 0 <= k < |leases| && Blocks(leases[k], dead, s) && h == Some(leases[k].id)
        && forall i :: 0 <= i < k ==> !Blocks(leases[i], dead, s)
    else if exists j :: 0 <= j < |queue| && Precedes(queue[j], dead, s) then
      exists j ::
        && 0 <= j < |queue| && Precedes(queue[j], dead, s) && h == Some(queue[j].value.id)
        && forall i :: 0 <= i < |queue| && Precedes(queue[i], dead, s) ==>
             var a, b := queue[i].value.gate.value, queue[j].value.gate.value;
             a.startEpoch > b.startEpoch || (a.startEpoch == b.startEpoch && a.gitPid >= b.gitPid)
    else h == None
  }

  function IdOfGate(g: Option<Gate>): Option<Id> { if g.Some? then Some(g.value.id) else None }

  /** The running part of the plain definition is the first lease that blocks. */
  lemma {:induction false} FirstThatBlocks(leases: seq<Lease>, dead: set<Id>, s: Stamp) returns (k: nat)
    ensures var r := FirstThat(RunningOf(leases, dead, s.caller), OtherPush(s.gitPid));
      if r.None? then forall i :: 0 <= i < |leases| ==> !Blocks(leases[i], dead, s)
      else
        && k < |leases| && Blocks(leases[k], dead, s) && r.value.id == leases[k].id
        && forall i :: 0 <= i < k ==> !Blocks(leases[i], dead, s)
  {
    k := 0;
    if leases != [] && !Blocks(leases[0], dead, s) {
      var m := FirstThatBlocks(leases[1..], dead, s);
      k := m + 1;
      var head, rest := RunningGate(leases[0], dead, s.caller), RunningOf(leases[1..], dead, s.caller);
      if head != [] { assert (head + rest)[1..] == rest; } else { assert head + rest == rest; }
    }
  }

  /** The queued part is one of those that precede, before all others. */
  lemma EarliestThatPrecedes(queue: seq<Option<Ticket>>, dead: set<Id>, s: Stamp) returns (j: nat)
    ensures var q := LeastThat(QueuedOf(queue, s.caller), LiveEarlierOther(dead, s), Earlier());
      if q.None? then forall i :: 0 <= i < |queue| ==> !Precedes(queue[i], dead, s)
      else
        && j < |queue| && Precedes(queue[j], dead, s) && q.value.id == queue[j].value.id
        && forall i :: 0 <= i < |queue| && Precedes(queue[i], dead, s) ==>
             var a, b := queue[i].value.gate.value, queue[j].value.gate.value;
             a.startEpoch > b.startEpoch || (a.startEpoch == b.startEpoch && a.gitPid >= b.gitPid)
  {
    j := 0;
    var gates := QueuedOf(queue, s.caller);
    EarlierIsOrder();
    var m := LeastMeaning(gates, LiveEarlierOther(dead, s), Earlier());
    var q := LeastThat(gates, LiveEarlierOther(dead, s), Earlier());
    if q.Some? { j := QueuedOfMember(queue, s.caller, m); }
    forall i | 0 <= i < |queue| && Precedes(queue[i], dead, s)
      ensures q.Some? && !PushBefore(queue[i].value.gate.value, q.value.stamp)
    {
      GateIsQueued(queue, i);
      var g := Gate(queue[i].value.id, queue[i].value.gate.value);
      var n :| 0 <= n < |gates| && gates[n] == g;
      assert LiveEarlierOther(dead, s)(gates[n]);
      assert q.Some? ==> !Earlier()(gates[n], gates[m]);
    }
  }

  lemma HolderIsThat(queue: seq<Option<Ticket>>, leases: seq<Lease>, dead: set<Id>, s: Stamp)
    ensures IsHolderId(queue, leases, dead, s, IdOfGate(Holder(queue, leases, dead, s)))
  {
    var k := FirstThatBlocks(leases, dead, s);
    var j := EarliestThatPrecedes(queue, dead, s);
  }

  /** `holds` answers for every gate of the given callers, and for nothing else. */
  ghost predicate AnswersFor(
    holds: map<Id, Id>, callers: set<Caller>, queue: seq<Option<Ticket>>, leases: seq<Lease>, dead: set<Id>)
  {
    && (forall c, g :: c in callers && g in QueuedOf(queue, c) ==>
          Records(holds, g, HolderOf(RunningOf(leases, dead, c), QueuedOf(queue, c), dead, g.stamp)))
    && (forall id :: id in holds ==> exists c :: c in callers && id in Ids(QueuedOf(queue, c)))
  }

  method PushHolds(queue: seq<Option<Ticket>>, leases: seq<Lease>, dead: set<Id>) returns (holds: map<Id, Id>)
    requires DistinctIds(queue)
    ensures IsHoldMap(holds, queue, leases, dead)
    ensures forall i :: 0 <= i < |queue| && IsGateAt(queue, i) ==> IsHeldInRecords(holds, queue, leases, dead, i)
  {
    var running := GroupLeases(leases, dead);
    var queued := GroupQueue(queue);
    holds := map[];
    var todo, done := queued.Keys, {};
    while todo != {}
      invariant todo + done == queued.Keys && todo !! done
      invariant AnswersFor(holds, done, queue, leases, dead)
      decreases todo
    {
      var c :| c in todo;
      GatesDistinct(queue, c);
      assert Group(queued, c) == QueuedOf(queue, c) && Group(running, c) == RunningOf(leases, dead, c);
      var more := HoldsOfCaller(Group(running, c), Group(queued, c), dead);
      AddCaller(holds, more, done, c, queue, leases, dead);
      holds := holds + more;
      todo, done := todo - {c}, done + {c};
    }
    AllAnswered(holds, queued, queue, leases, dead);
    forall i | 0 <= i < |queue| && IsGateAt(queue, i) ensures IsHeldInRecords(holds, queue, leases, dead, i) {
      HolderIsThat(queue, leases, dead, queue[i].value.gate.value);
      assert IsAnswered(holds, queue, leases, dead, i);
    }
  }

  /** The entry of the gate at `i`, if there is one, is the id of its holder. */
  ghost predicate IsHeldInRecords(
    holds: map<Id, Id>, queue: seq<Option<Ticket>>, leases: seq<Lease>, dead: set<Id>, i: nat)
    requires i < |queue| && IsGateAt(queue, i)
  {
    var id := queue[i].value.id;
    IsHolderId(queue, leases, dead, queue[i].value.gate.value, if id in holds then Some(holds[id]) else None)
  }

  lemma AddCaller(
    holds: map<Id, Id>, more: map<Id, Id>, done: set<Caller>, c: Caller, queue: seq<Option<Ticket>>, leases: seq<Lease>,
    dead: set<Id>)
    requires DistinctIds(queue) && c !in done && AnswersFor(holds, done, queue, leases, dead)
    requires forall g :: g in QueuedOf(queue, c) ==>
      Records(more, g, HolderOf(RunningOf(leases, dead, c), QueuedOf(queue, c), dead, g.stamp))
    requires more.Keys <= Ids(QueuedOf(queue, c))
    ensures AnswersFor(holds + more, done + {c}, queue, leases, dead)
  {
    forall d, g | d in done + {c} && g in QueuedOf(queue, d)
      ensures Records(holds + more, g, HolderOf(RunningOf(leases, dead, d), QueuedOf(queue, d), dead, g.stamp))
    {
      assert g.id in Ids(QueuedOf(queue, d));
      if d == c {
        forall e | e in done ensures g.id !in Ids(QueuedOf(queue, e)) { CallersDisjoint(queue, c, e); }
      } else {
        CallersDisjoint(queue, c, d);
      }
    }
  }

  /** Every stamped record is answered as the plain definition says. */
  ghost predicate IsHoldMap(holds: map<Id, Id>, queue: seq<Option<Ticket>>, leases: seq<Lease>, dead: set<Id>)
  {
    && (forall i :: 0 <= i < |queue| && IsGateAt(queue, i) ==> IsAnswered(holds, queue, leases, dead, i))
    && (forall id :: id in holds ==> IsGateId(queue, id))
  }

  /** The hold of the gate at `i` is the plain definition's, or it has none. */
  ghost predicate IsAnswered(holds: map<Id, Id>, queue: seq<Option<Ticket>>, leases: seq<Lease>, dead: set<Id>, i: nat)
    requires i < |queue| && IsGateAt(queue, i)
  {
    Records(holds, Gate(queue[i].value.id, queue[i].value.gate.value),
      Holder(queue, leases, dead, queue[i].value.gate.value))
  }

  ghost predicate IsGateId(queue: seq<Option<Ticket>>, id: Id)
  {
    exists i :: 0 <= i < |queue| && IsGateAt(queue, i) && queue[i].value.id == id
  }

  lemma AllAnswered(
    holds: map<Id, Id>, queued: map<Caller, seq<Gate>>, queue: seq<Option<Ticket>>, leases: seq<Lease>, dead: set<Id>)
    requires AnswersFor(holds, queued.Keys, queue, leases, dead) && forall c :: Group(queued, c) == QueuedOf(queue, c)
    ensures IsHoldMap(holds, queue, leases, dead)
  {
    forall i | 0 <= i < |queue| && IsGateAt(queue, i) ensures IsAnswered(holds, queue, leases, dead, i) {
      AnswerAt(holds, queued, queue, leases, dead, i);
    }
    forall id | id in holds ensures IsGateId(queue, id) {
      var c :| c in queued.Keys && id in Ids(QueuedOf(queue, c));
      ListedIsGate(queue, c, id);
    }
  }

  lemma ListedIsGate(queue: seq<Option<Ticket>>, c: Caller, id: Id)
    requires id in Ids(QueuedOf(queue, c))
    ensures IsGateId(queue, id)
  {
    var k :| 0 <= k < |QueuedOf(queue, c)| && QueuedOf(queue, c)[k].id == id;
    var i := QueuedOfMember(queue, c, k);
  }

  lemma AnswerAt(
    holds: map<Id, Id>, queued: map<Caller, seq<Gate>>, queue: seq<Option<Ticket>>, leases: seq<Lease>, dead: set<Id>,
    i: nat)
    requires AnswersFor(holds, queued.Keys, queue, leases, dead) && forall c :: Group(queued, c) == QueuedOf(queue, c)
    requires i < |queue| && IsGateAt(queue, i)
    ensures IsAnswered(holds, queue, leases, dead, i)
  {
    var c := queue[i].value.gate.value.caller;
    GateIsQueued(queue, i);
    assert Group(queued, c) == QueuedOf(queue, c);
    assert c in queued.Keys;
  }

  lemma {:induction false} GateIsQueued(queue: seq<Option<Ticket>>, i: nat)
    requires i < |queue| && IsGateAt(queue, i)
    ensures Gate(queue[i].value.id, queue[i].value.gate.value) in QueuedOf(queue, queue[i].value.gate.value.caller)
  {
    if i > 0 {
      GateIsQueued(queue[1..], i - 1);
      assert queue[1..][i - 1] == queue[i];
    }
  }

  predicate HasId(queue: seq<Option<Ticket>>, id: Id)
  {
    exists i :: 0 <= i < |queue| && queue[i].Some? && queue[i].value.id == id
  }

  /** The queue a ticket is judged in: one not yet queued counts as its last entry. */
  function QueueWith(queue: seq<Option<Ticket>>, ticket: Ticket): seq<Option<Ticket>>
  {
    if HasId(queue, ticket.id) then queue else queue + [Some(ticket)]
  }

  method PushHoldBehind(ticket: Ticket, queue: seq<Option<Ticket>>, leases: seq<Lease>, dead: set<Id>)
    returns (behind: Option<Id>)
    requires DistinctIds(queue)
    ensures var q := QueueWith(queue, ticket);
      forall i :: 0 <= i < |q| && q[i].Some? && q[i].value.id == ticket.id ==> IsHeldBehind(q, leases, dead, i, behind)
    ensures var q := if HasId(queue, ticket.id) then queue else queue + [Some(ticket)];
      forall i :: 0 <= i < |q| && q[i].Some? && q[i].value.id == ticket.id ==>
        IsBehindInRecords(q, leases, dead, i, behind)
  {
    var q := QueueWith(queue, ticket);
    var holds := PushHolds(q, leases, dead);
    behind := if ticket.id in holds then Some(holds[ticket.id]) else None;
    forall i | 0 <= i < |q| && q[i].Some? && q[i].value.id == ticket.id
      ensures IsHeldBehind(q, leases, dead, i, behind) && IsBehindInRecords(q, leases, dead, i, behind)
    {
      LookupIsHolder(holds, q, leases, dead, i);
      if q[i].value.gate.Some? { HolderIsThat(q, leases, dead, q[i].value.gate.value); }
    }
  }

  /** `behind` is the id of the holder of the gate at `i`; a ticket that is no gate has none. */
  ghost predicate IsBehindInRecords(
    q: seq<Option<Ticket>>, leases: seq<Lease>, dead: set<Id>, i: nat, behind: Option<Id>)
    requires i < |q| && q[i].Some?
  {
    if q[i].value.gate.Some? then IsHolderId(q, leases, dead, q[i].value.gate.value, behind) else behind == None
  }

  /** `behind` is the id of whoever holds the ticket at `i`, or nothing if nobody does or it is no gate. */
  ghost predicate IsHeldBehind(q: seq<Option<Ticket>>, leases: seq<Lease>, dead: set<Id>, i: nat, behind: Option<Id>)
    requires i < |q| && q[i].Some?
  {
    if IsGateAt(q, i) && Holder(q, leases, dead, q[i].value.gate.value).Some?
    then behind == Some(Holder(q, leases, dead, q[i].value.gate.value).value.id) else behind == None
  }

  lemma LookupIsHolder(holds: map<Id, Id>, q: seq<Option<Ticket>>, leases: seq<Lease>, dead: set<Id>, i: nat)
    requires DistinctIds(q) && IsHoldMap(holds, q, leases, dead) && i < |q| && q[i].Some?
    ensures IsHeldBehind(q, leases, dead, i, if q[i].value.id in holds then Some(holds[q[i].value.id]) else None)
  {
    assert IsGateAt(q, i) ==> IsAnswered(holds, q, leases, dead, i);
    assert q[i].value.id in holds ==> IsGateId(q, q[i].value.id);
  }

  // ---------------------------------------------------------------- runs

  /** The queue, the leases, and the ids marked cancelled or superseded. */
  datatype World = World(queue: seq<Option<Ticket>>, leases: seq<Lease>, dead: set<Id>)

  datatype Step =
    | Enqueue(t: Option<Ticket>) | Start(i: nat) | Leave(i: nat) | Finish(i: nat) | Orphan(i: nat) | Mark(id: Id)
    | ClearMarkers(id: Id)

  /**
   * A queued ticket starts only while the hold map has nothing for it; markers are cleared only once the lease is gone.
   */
  predicate Enabled(w: World, s: Step)
  {
    match s
    case Start(i) =>
      && i < |w.queue| && w.queue[i].Some?
      && (w.queue[i].value.gate.Some? ==> Holder(w.queue, w.leases, w.dead, w.queue[i].value.gate.value).None?)
    case Leave(i) => i < |w.queue|
    case Finish(i) => i < |w.leases|
    case Orphan(i) => i < |w.leases|
    case ClearMarkers(id) => forall l :: l in w.leases ==> l.id != id
    case _ => true
  }

  function Without<T>(s: seq<T>, i: nat): seq<T>
    requires i < |s|
  {
    s[..i] + s[i + 1..]
  }

  function Next(w: World, s: Step): World
    requires Enabled(w, s)
  {
    match s
    case Enqueue(t) => w.(queue := w.queue + [t])
    case Start(i) =>
      World(Without(w.queue, i), w.leases + [Lease(w.queue[i].value.id, w.queue[i].value.gate, Running)], w.dead)
    case Leave(i) => w.(queue := Without(w.queue, i))
    case Finish(i) => w.(leases := Without(w.leases, i))
    case Orphan(i) => w.(leases := w.leases[i := w.leases[i].(state := Orphaned)])
    case Mark(id) => w.(dead := w.dead + {id})
    case ClearMarkers(id) => w.(dead := w.dead - {id})
  }

  predicate LiveRunning(w: World, l: Lease) { l.gate.Some? && l.state == Running && l.id !in w.dead }

  /** All live running gates of one caller belong to one push. */
  ghost predicate OnePush(w: World)
  {
    forall l, m ::
      && l in w.leases && m in w.leases && LiveRunning(w, l) && LiveRunning(w, m)
      && l.gate.value.caller == m.gate.value.caller
      ==> l.gate.value.gitPid == m.gate.value.gitPid
  }

  lemma {:induction false} RunningIsListed(leases: seq<Lease>, dead: set<Id>, l: Lease)
    requires l in leases && l.gate.Some? && l.state == Running && l.id !in dead
    ensures Gate(l.id, l.gate.value) in RunningOf(leases, dead, l.gate.value.caller)
  {
    if leases[0] != l { RunningIsListed(leases[1..], dead, l); }
  }

  lemma StepKeepsOnePush(w: World, s: Step)
    requires OnePush(w) && Enabled(w, s)
    ensures OnePush(Next(w, s))
  {
    if s.Start? && w.queue[s.i].value.gate.Some? {
      var stamp := w.queue[s.i].value.gate.value;
      var running := RunningOf(w.leases, w.dead, stamp.caller);
      FirstIsMember(running, OtherPush(stamp.gitPid));
      forall l | l in w.leases && LiveRunning(w, l) && l.gate.value.caller == stamp.caller
        ensures l.gate.value.gitPid == stamp.gitPid
      {
        RunningIsListed(w.leases, w.dead, l);
        assert !OtherPush(stamp.gitPid)(Gate(l.id, l.gate.value));
      }
    }
  }

  ghost predicate IsRun(worlds: seq<World>, steps: seq<Step>)
  {
    && |worlds| == |steps| + 1
    && forall k :: 0 <= k < |steps| ==> Enabled(worlds[k], steps[k]) && worlds[k + 1] == Next(worlds[k], steps[k])
  }

  /** Mutual exclusion: in every state of every run, a caller's live running gates are of one push. */
  lemma {:induction false} AlwaysOnePush(worlds: seq<World>, steps: seq<Step>, k: nat)
    requires IsRun(worlds, steps) && OnePush(worlds[0]) && k < |worlds|
    ensures OnePush(worlds[k])
  {
    if k > 0 {
      AlwaysOnePush(worlds, steps, k - 1);
      StepKeepsOnePush(worlds[k - 1], steps[k - 1]);
    }
  }

  /** A holder is a live running gate of another push, or a live queued one that is strictly earlier. */
  lemma HolderMeaning(w: World, s: Stamp)
    requires Holder(w.queue, w.leases, w.dead, s).Some?
    ensures
      var h := Holder(w.queue, w.leases, w.dead, s).value;
      && h.stamp.gitPid != s.gitPid
      && (|| h in RunningOf(w.leases, w.dead, s.caller)
          || (h in QueuedOf(w.queue, s.caller) && h.id !in w.dead && PushBefore(h.stamp, s)))
  {
    EarlierIsOrder();
    FirstIsMember(RunningOf(w.leases, w.dead, s.caller), OtherPush(s.gitPid));
    var k := LeastMeaning(QueuedOf(w.queue, s.caller), LiveEarlierOther(w.dead, s), Earlier());
  }

  /** Progress: with no live running gate, the caller's earliest live queued gate is held by nobody. */
  lemma SomeGateIsFree(w: World, c: Caller) returns (i: nat)
    requires RunningOf(w.leases, w.dead, c) == []
    requires exists g :: g in QueuedOf(w.queue, c) && g.id !in w.dead
    ensures i < |w.queue| && IsGateAt(w.queue, i) && w.queue[i].value.gate.value.caller == c
    ensures w.queue[i].value.id !in w.dead
    ensures Enabled(w, Start(i))
  {
    var q := QueuedOf(w.queue, c);
    EarlierIsOrder();
    var k := LeastMeaning(q, Live(w.dead), Earlier());
    var g :| g in q && g.id !in w.dead;
    var m :| 0 <= m < |q| && q[m] == g;
    i := QueuedOfMember(w.queue, c, k);
    var s := q[k].stamp;
    var j := LeastMeaning(q, LiveEarlierOther(w.dead, s), Earlier());
  }

  /** `b` is a queued gate, not a running one, that holds `a`. */
  ghost predicate WaitsBehind(w: World, a: Gate, b: Gate)
  {
    Holder(w.queue, w.leases, w.dead, a.stamp) == Some(b) && b !in RunningOf(w.leases, w.dead, a.stamp.caller)
  }

  ghost predicate WaitChain(w: World, chain: seq<Gate>)
  {
    |chain| >= 2 ==> WaitsBehind(w, chain[0], chain[1]) && WaitChain(w, chain[1..])
  }

  /** Waiting among queued gates only ever leads to earlier pushes, so it never comes back. */
  lemma {:induction false} WaitingDescends(w: World, chain: seq<Gate>)
    requires |chain| >= 2 && WaitChain(w, chain)
    ensures PushBefore(chain[|chain| - 1].stamp, chain[0].stamp) && chain[|chain| - 1] != chain[0]
    ensures chain[|chain| - 1].stamp.startEpoch <= chain[0].stamp.startEpoch
  {
    HolderMeaning(w, chain[0].stamp);
    if |chain| > 2 { WaitingDescends(w, chain[1..]); }
  }
}
