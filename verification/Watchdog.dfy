/**
 * The idle watchdog (src/no-progress.js). One observation reads the lease's tree; an interval is idle when nothing was
 * written, no process joined or left, and the tree used next to no CPU. What the returned streak claims about the whole
 * window behind it is proved over the history of observations. Times are milliseconds of a monotonic clock, as reals.
 */
module Watchdog {
  import opened Common

  type Pid = int

  /** A process by pid and start token. */
  type Ident = (Pid, string)

  type Usage = map<Ident, real>

  datatype CpuRow = CpuRow(token: string, cpuSec: real, childCpuSec: Option<real>)

  /** The CPU share, in cores, up to which an interval is idle: 0.05 CPU seconds a minute. */
  const LIMIT := 0.05 / 60.0

  datatype Observation = Observation(at: real, outputBytes: int, cpu: Option<Usage>)

  datatype Baseline = Baseline(at: real, outputBytes: int, cpu: Usage)

  /** Cores used over an interval: `Churn` when a process joined or left, `Infinite` for CPU in no time. */
  datatype Cores = Churn | Infinite | Cores(value: real)

  // ---------------------------------------------------------------- CPU between two snapshots

  function Positive(x: real): real { if x > 0.0 then x else 0.0 }

  function Growth(before: Usage, after: Usage): Ident -> real
  {
    (k: Ident) => if k in before && k in after then Positive(after[k] - before[k]) else 0.0
  }

  ghost function Sum(keys: set<Ident>, f: Ident -> real): real
  {
    if keys == {} then 0.0 else var k :| k in keys; f(k) + Sum(keys - {k}, f)
  }

  /** The sum does not depend on the order in which the keys are taken. */
  lemma {:induction false} SumTakeAny(keys: set<Ident>, f: Ident -> real, k: Ident)
    requires k in keys
    ensures Sum(keys, f) == f(k) + Sum(keys - {k}, f)
  {
    var first :| first in keys && Sum(keys, f) == f(first) + Sum(keys - {first}, f);
    if first != k {
      SumTakeAny(keys - {first}, f, k);
      SumTakeAny(keys - {k}, f, first);
      assert keys - {first} - {k} == keys - {k} - {first};
    }
  }

  lemma {:induction false} SumNonNegative(keys: set<Ident>, before: Usage, after: Usage)
    ensures Sum(keys, Growth(before, after)) >= 0.0
  {
    if keys != {} {
      var k :| k in keys;
      SumTakeAny(keys, Growth(before, after), k);
      SumNonNegative(keys - {k}, before, after);
    }
  }

  /** CPU seconds the tree gained from one snapshot to the next. */
  ghost function Gained(before: Usage, after: Usage): real { Sum(after.Keys, Growth(before, after)) }

  /** Growth over two intervals is at most the growth over each. */
  lemma {:induction false} SumTriangle(keys: set<Ident>, a: Usage, b: Usage, c: Usage)
    requires keys <= a.Keys && keys <= b.Keys && keys <= c.Keys
    ensures Sum(keys, Growth(a, c)) <= Sum(keys, Growth(a, b)) + Sum(keys, Growth(b, c))
  {
    if keys != {} {
      var k :| k in keys;
      SumTakeAny(keys, Growth(a, c), k);
      SumTakeAny(keys, Growth(a, b), k);
      SumTakeAny(keys, Growth(b, c), k);
      SumTriangle(keys - {k}, a, b, c);
    }
  }

  lemma {:induction false} SumNothing(keys: set<Ident>, a: Usage)
    ensures Sum(keys, Growth(a, a)) == 0.0
  {
    if keys != {} {
      var k :| k in keys;
      SumTakeAny(keys, Growth(a, a), k);
      SumNothing(keys - {k}, a);
    }
  }

  /** The CPU seconds gained, or nothing when some process is new. */
  method SumGrowth(before: Usage, after: Usage) returns (delta: Option<real>)
    ensures delta.Some? <==> after.Keys <= before.Keys
    ensures delta.Some? ==> delta.value == Gained(before, after)
  {
    var sum := 0.0;
    var todo := after.Keys;
    ghost var f := Growth(before, after);
    while todo != {}
      invariant todo <= after.Keys && forall k :: k in after.Keys && k !in todo ==> k in before
      invariant sum + Sum(todo, f) == Sum(after.Keys, f)
    {
      var key :| key in todo;
      SumTakeAny(todo, f, key);
      todo := todo - {key};
      if key !in before { return None; }
      sum := sum + Positive(after[key] - before[key]);
    }
    return Some(sum);
  }

  /** The cores used between two snapshots, or churn exactly when the processes differ. */
  method IntervalCores(previous: Baseline, current: Usage, now: real) returns (cores: Cores)
    ensures cores == Churn <==> previous.cpu.Keys != current.Keys
    ensures cores != Churn ==>
      var seconds := (now - previous.at) / 1000.0;
      var gained := Gained(previous.cpu, current);
      cores == if seconds > 0.0 then Cores(gained / seconds) else if gained > 0.0 then Infinite else Cores(0.0)
  {
    var seconds := (now - previous.at) / 1000.0;
    if |previous.cpu.Keys| != |current.Keys| { return Churn; }
    var delta := SumGrowth(previous.cpu, current);
    if delta.None? { return Churn; }
    SubsetSize(current.Keys, previous.cpu.Keys);
    return if seconds > 0.0 then Cores(delta.value / seconds) else if delta.value > 0.0 then Infinite else Cores(0.0);
  }

  // ---------------------------------------------------------------- idle windows

  /** From `a` to `b` the tree was readable, had the same processes, wrote nothing and gained next to no CPU. */
  ghost predicate IdleStep(a: Observation, b: Observation)
  {
    && a.cpu.Some? && b.cpu.Some? && a.cpu.value.Keys == b.cpu.value.Keys && a.outputBytes == b.outputBytes
    && Gained(a.cpu.value, b.cpu.value) <= LIMIT * (b.at - a.at) / 1000.0
  }

  ghost predicate Monotonic(h: seq<Observation>) { forall i, j :: 0 <= i <= j < |h| ==> h[i].at <= h[j].at }

  /** The first observation of the idle streak that ends with the last one. */
  ghost function StreakStart(h: seq<Observation>): (s: nat)
    requires h != []
    ensures s < |h|
  {
    if |h| > 1 && IdleStep(h[|h| - 2], h[|h| - 1]) then StreakStart(h[..|h| - 1]) else |h| - 1
  }

  /** What the fields say about the observations made so far. */
  ghost predicate Tracks(h: seq<Observation>, baseline: Option<Baseline>, idleSince: Option<real>)
  {
    && Monotonic(h)
    && baseline == (if h == [] then None else BaselineOf(h[|h| - 1]))
    && idleSince == (if h == [] then None else Some(h[StreakStart(h)].at))
  }

  function BaselineOf(o: Observation): Option<Baseline>
  {
    if o.cpu.Some? then Some(Baseline(o.at, o.outputBytes, o.cpu.value)) else None
  }

  lemma StreakGrows(h: seq<Observation>, o: Observation)
    ensures StreakStart(h + [o]) == if h != [] && IdleStep(h[|h| - 1], o) then StreakStart(h) else |h|
  {
    var longer := h + [o];
    assert longer[..|h|] == h && longer[|h|] == o;
    assert h != [] ==> longer[|h| - 1] == h[|h| - 1];
  }

  lemma TracksNext(h: seq<Observation>, baseline: Option<Baseline>, idleSince: Option<real>, o: Observation, idle: bool)
    requires Tracks(h, baseline, idleSince) && (h != [] ==> h[|h| - 1].at <= o.at)
    requires idle <==> h != [] && IdleStep(h[|h| - 1], o)
    ensures Tracks(h + [o], BaselineOf(o), if idle then idleSince else Some(o.at))
    ensures StreakStart(h + [o]) < |h| <==> idle
  {
    StreakGrows(h, o);
    var longer := h + [o];
    forall i, j | 0 <= i <= j < |longer| ensures longer[i].at <= longer[j].at {
      if i < |h| && j == |h| { assert h[i].at <= h[|h| - 1].at; }
    }
  }

  /** Every step from observation `s` on is idle. */
  ghost predicate IdleFrom(h: seq<Observation>, s: nat) { forall i :: s <= i < |h| - 1 ==> IdleStep(h[i], h[i + 1]) }

  /** The streak is the longest run of idle steps at the end of the history. */
  lemma {:induction false} StreakIsIdle(h: seq<Observation>)
    requires h != []
    ensures IdleFrom(h, StreakStart(h))
    ensures StreakStart(h) > 0 ==> !IdleStep(h[StreakStart(h) - 1], h[StreakStart(h)])
  {
    if |h| > 1 && IdleStep(h[|h| - 2], h[|h| - 1]) {
      var shorter := h[..|h| - 1];
      StreakIsIdle(shorter);
      assert forall i :: 0 <= i < |shorter| ==> shorter[i] == h[i];
    }
  }

  /** Over a window of idle steps the processes and the output never change, and the CPU gained is under the limit. */
  lemma {:induction false} WindowIsIdle(h: seq<Observation>, s: nat, e: nat)
    requires s < e < |h| && forall i :: s <= i < e ==> IdleStep(h[i], h[i + 1])
    ensures h[s].cpu.Some? && h[e].cpu.Some? && h[e].cpu.value.Keys == h[s].cpu.value.Keys
    ensures h[e].outputBytes == h[s].outputBytes
    ensures Gained(h[s].cpu.value, h[e].cpu.value) <= LIMIT * (h[e].at - h[s].at) / 1000.0
  {
    assert IdleStep(h[e - 1], h[e]);
    if s < e - 1 {
      WindowIsIdle(h, s, e - 1);
      SumTriangle(h[e].cpu.value.Keys, h[s].cpu.value, h[e - 1].cpu.value, h[e].cpu.value);
    }
  }

  /** `a` and `b` saw the same processes and the same output. */
  ghost predicate SamePicture(a: Observation, b: Observation)
  {
    a.cpu.Some? && b.cpu.Some? && a.cpu.value.Keys == b.cpu.value.Keys && a.outputBytes == b.outputBytes
  }

  /** From `a` to `b` the CPU gained stays under the limit. */
  ghost predicate Frugal(a: Observation, b: Observation)
  {
    a.cpu.Some? && b.cpu.Some? && Gained(a.cpu.value, b.cpu.value) <= LIMIT * (b.at - a.at) / 1000.0
  }

  /** `h` ends with a window that starts at `s` and in which nothing happened. */
  ghost predicate NothingHappened(h: seq<Observation>, s: nat)
    requires s < |h|
  {
    (forall i :: s <= i < |h| ==> SamePicture(h[i], h[|h| - 1])) && Frugal(h[s], h[|h| - 1])
  }

  lemma StreakMeaning(h: seq<Observation>)
    requires h != [] && StreakStart(h) < |h| - 1
    ensures NothingHappened(h, StreakStart(h))
  {
    StreakIsIdle(h);
    WindowMeaning(h, StreakStart(h));
  }

  lemma WindowMeaning(h: seq<Observation>, s: nat)
    requires s < |h| - 1 && IdleFrom(h, s)
    ensures NothingHappened(h, s)
  {
    var e := |h| - 1;
    forall i | s <= i < |h| ensures SamePicture(h[i], h[e]) {
      WindowIsIdle(h, Min(i, e - 1), e);
    }
    WindowIsIdle(h, s, e);
  }

  // ---------------------------------------------------------------- the watchdog

  /** The tree's usage by identity, or nothing exactly when any member could not be read. */
  predicate IsUsage(tree: Option<seq<Pid>>, rows: Option<map<Pid, CpuRow>>, cpu: Option<Usage>)
  {
    && (cpu.Some? <==> tree.Some? && rows.Some? && forall p :: p in tree.value ==> p in rows.value)
    && (cpu.Some? ==> forall p :: p in tree.value ==> (p, rows.value[p].token) in cpu.value)
    && (cpu.Some? ==> forall k :: k in cpu.value ==> k.0 in tree.value && IsCpuOf(rows.value, k, cpu.value[k]))
  }

  predicate IsCpuOf(rows: map<Pid, CpuRow>, k: Ident, cpu: real)
  {
    k.0 in rows && rows[k.0].token == k.1 && cpu == rows[k.0].cpuSec + rows[k.0].childCpuSec.GetOr(0.0)
  }

  method Snapshot(tree: Option<seq<Pid>>, rows: Option<map<Pid, CpuRow>>) returns (cpu: Option<Usage>)
    ensures IsUsage(tree, rows, cpu)
  {
    if tree.None? || rows.None? { return None; }
    var usage: Usage := map[];
    for i := 0 to |tree.value|
      invariant forall j :: 0 <= j < i ==> tree.value[j] in rows.value
      invariant forall k :: k in usage <==> k.0 in tree.value[..i] && k.0 in rows.value && rows.value[k.0].token == k.1
      invariant forall k :: k in usage ==>
        k.0 in rows.value && usage[k] == rows.value[k.0].cpuSec + rows.value[k.0].childCpuSec.GetOr(0.0)
    {
      var pid := tree.value[i];
      if pid !in rows.value { return None; }
      var row := rows.value[pid];
      usage := usage[(pid, row.token) := row.cpuSec + row.childCpuSec.GetOr(0.0)];
    }
    return Some(usage);
  }

  /** CPU seconds of a process and of the children it has reaped. */
  function OwnAndReaped(row: CpuRow): real
  {
    row.cpuSec + if row.childCpuSec.Some? then row.childCpuSec.value else 0.0
  }

  lemma GainedAtLeast(before: Usage, after: Usage, k: Ident)
    requires k in before && k in after
    ensures Gained(before, after) >= after[k] - before[k]
  {
    SumTakeAny(after.Keys, Growth(before, after), k);
    SumNonNegative(after.Keys - {k}, before, after);
  }

  /**
   * In an idle interval every process of the tree was there before, nothing was written, and the process used, with the
   * children it reaped, at most 0.05 CPU seconds a minute.
   */
  lemma IdleIsQuiet(
    a: Observation, b: Observation, tree: Option<seq<Pid>>, rows: Option<map<Pid, CpuRow>>, tree': seq<Pid>,
    rows': map<Pid, CpuRow>, p: Pid)
    requires IsUsage(tree, rows, a.cpu) && IsUsage(Some(tree'), Some(rows'), b.cpu) && IdleStep(a, b) && p in tree'
    ensures tree.Some? && rows.Some? && p in tree.value && p in rows.value && p in rows'
    ensures rows.value[p].token == rows'[p].token && a.outputBytes == b.outputBytes
    ensures OwnAndReaped(rows'[p]) - OwnAndReaped(rows.value[p]) <= 0.05 * (b.at - a.at) / 60_000.0
  {
    var k := (p, rows'[p].token);
    assert k in b.cpu.value && k in a.cpu.value;
    GainedAtLeast(a.cpu.value, b.cpu.value, k);
    assert a.cpu.value[k] == OwnAndReaped(rows.value[p]) && b.cpu.value[k] == OwnAndReaped(rows'[p]);
    assert LIMIT * (b.at - a.at) / 1000.0 == 0.05 * (b.at - a.at) / 60_000.0;
  }

  class NoProgressWatchdog {
    const timeoutMs: real
    var outputBytes: int
    var baseline: Option<Baseline>
    var idleSince: Option<real>
    var maxIdleMs: real
    var lastIntervalCores: Option<Cores>
    /** Every observation made so far. */
    ghost var history: seq<Observation>

    ghost predicate Valid()
      reads this
    {
      Tracks(history, baseline, idleSince)
    }

    constructor (timeout: real)
      ensures Valid() && timeoutMs == timeout && history == [] && outputBytes == 0
    {
      timeoutMs, outputBytes, baseline, idleSince, maxIdleMs, lastIntervalCores, history :=
        timeout, 0, None, None, 0.0, None, [];
    }

    method NoteOutput(bytes: nat)
      requires Valid()
      modifies this`outputBytes
      ensures Valid() && outputBytes == old(outputBytes) + bytes
    {
      outputBytes := outputBytes + bytes;
    }

    /** Idle exactly when the step from the previous observation was. */
    method IdleBetween(previous: Baseline, current: Usage, now: real) returns (idle: bool)
      requires previous.at <= now
      ensures idle <==> IdleStep(Observation(previous.at, previous.outputBytes, Some(previous.cpu)),
        Observation(now, outputBytes, Some(current)))
    {
      if previous.outputBytes != outputBytes { return false; }
      var cores := IntervalCores(previous, current, now);
      idle := cores.Cores? && cores.value <= LIMIT;
      SumNonNegative(current.Keys, previous.cpu, current);
      ghost var seconds := (now - previous.at) / 1000.0;
      if cores.Cores? && seconds > 0.0 { QuotientBound(Gained(previous.cpu, current), seconds); }
    }

    /** The step from the last observation to this one, judged from the baseline. */
    method Judge(now: real, current: Option<Usage>) returns (cores: Option<Cores>, idle: bool)
      requires Valid() && (history != [] ==> history[|history| - 1].at <= now)
      ensures idle <==> history != [] && IdleStep(history[|history| - 1], Observation(now, outputBytes, current))
      ensures cores.Some? <==> current.Some? && baseline.Some?
    {
      if current.None? || baseline.None? { return None, false; }
      var c := IntervalCores(baseline.value, current.value, now);
      idle := IdleBetween(baseline.value, current.value, now);
      return Some(c), idle;
    }

    /** Take note of an observation that continues the streak or ends it. */
    method Note(now: real, current: Option<Usage>, cores: Option<Cores>, idle: bool) returns (idleMs: real)
      requires Valid() && (history != [] ==> history[|history| - 1].at <= now)
      requires idle <==> history != [] && IdleStep(history[|history| - 1], Observation(now, outputBytes, current))
      modifies this
      ensures Valid() && outputBytes == old(outputBytes)
      ensures history == old(history) + [Observation(now, outputBytes, current)]
      ensures idle <==> StreakStart(history) < |history| - 1
      ensures idleMs == now - history[StreakStart(history)].at
      ensures maxIdleMs == if idle && idleMs > old(maxIdleMs) then idleMs else old(maxIdleMs)
    {
      var o := Observation(now, outputBytes, current);
      TracksNext(history, baseline, idleSince, o, idle);
      ghost var next := history + [o];
      lastIntervalCores, baseline, history := cores, BaselineOf(o), next;
      if !idle { idleSince := Some(now); }
      assert Tracks(next, baseline, idleSince);
      idleMs := if idle then now - idleSince.value else 0.0;
      if idle && idleMs > maxIdleMs { maxIdleMs := idleMs; }
    }

    /**
     * One observation. The result is the length of the idle streak that ends here, and whenever it is positive nothing
     * happened in that window.
     */
    method Observe(now: real, tree: Option<seq<Pid>>, rows: Option<map<Pid, CpuRow>>) returns (idleMs: real)
      requires Valid() && (history != [] ==> history[|history| - 1].at <= now)
      modifies this
      ensures Valid() && outputBytes == old(outputBytes)
      ensures |history| == |old(history)| + 1 && old(history) <= history
      ensures var o := history[|history| - 1];
        o.at == now && o.outputBytes == outputBytes && IsUsage(tree, rows, o.cpu)
      ensures idleMs == now - history[StreakStart(history)].at && idleMs >= 0.0
      ensures idleMs > 0.0 ==> NothingHappened(history, StreakStart(history))
      ensures
        maxIdleMs == if StreakStart(history) < |history| - 1 && idleMs > old(maxIdleMs) then idleMs else old(maxIdleMs)
    {
      var current := Snapshot(tree, rows);
      var cores, idle := Judge(now, current);
      idleMs := Note(now, current, cores, idle);
      if idle { StreakMeaning(history); }
    }

    /** A kill is asked for only with a timeout in force and a streak that reached it. */
    method ShouldKill(idleMs: real) returns (kill: bool)
      requires Valid() && history != [] && idleMs == history[|history| - 1].at - history[StreakStart(history)].at
      ensures kill <==> timeoutMs > 0.0 && idleMs >= timeoutMs
      ensures kill ==>
        && NothingHappened(history, StreakStart(history))
        && history[|history| - 1].at - history[StreakStart(history)].at >= timeoutMs
    {
      kill := timeoutMs > 0.0 && idleMs >= timeoutMs;
      if kill { StreakMeaning(history); }
    }
  }

  lemma QuotientBound(gained: real, seconds: real)
    requires seconds > 0.0
    ensures gained / seconds <= LIMIT <==> gained <= LIMIT * seconds
  {
    var q := gained / seconds;
    assert q * seconds == gained;
    if q <= LIMIT { assert q * seconds <= LIMIT * seconds; } else { assert q * seconds > LIMIT * seconds; }
  }
}
