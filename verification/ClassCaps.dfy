/**
 * Reservation caps of the sim class (src/classes.js, with the claim arithmetic of src/resources.js): what the live sim
 * leases have booked, why a further sim would breach a cap, and how an elastic sim's claim is lowered to what is left.
 * Cores and bytes are reals; floors, ceilings and rounding are explicit.
 */
module ClassCaps {
  import opened Common

  datatype Mode = Off | Shadow | Active

  datatype Classes = Classes(mode: Mode, valid: bool, reserveCores: real, capCores: real, maxTickets: int,
    capMemory: real)

  /** What a claim or a grant amounts to. */
  datatype Grant = Grant(cores: real, memory: real)

  datatype Booked = Booked(cores: real, memory: real, count: nat)

  /** A claim as declared: missing numbers fall back to the weight. */
  datatype Claim = Claim(weight: real, cpuCores: Option<real>, minCpuCores: Option<real>, memory: Option<real>)

  datatype Lease = Lease(isSim: bool, granted: Option<real>, claim: Claim)

  datatype Ticket = Ticket(id: string, isSim: bool, exclusive: bool, requiresEnforcement: bool, claim: Claim)

  /**
   * The fixed part of an evaluation: the CPU budget of the host, its whole budget, and the default memory per weight.
   */
  datatype Host = Host(budgetCores: real, whole: Grant, memoryPerWeight: real)

  datatype Reason = EnforcementUnavailable | ConfigInvalid | MaxTickets | CapCores | CapMemory | TestReserve

  function Ceil(x: real): int { -((-x).Floor) }

  /** Half up, as `Math.round` does. */
  function Round(x: real): real { (x + 0.5).Floor as real }

  function Resolve(c: Claim, host: Host): Grant
  {
    Grant(c.cpuCores.GetOr(c.weight), MemoryOf(c.memory, c.weight, host.memoryPerWeight))
  }

  function MemoryOf(memory: Option<real>, weight: real, perWeight: real): real
  {
    Round(memory.GetOr(MaxReal(1.0, if weight == 0.0 then 1.0 else weight) * perWeight))
  }

  /** What a lease is charged: the elastic grant if there is one, else its claim. */
  function Charged(l: Lease, host: Host): Grant
  {
    Resolve(if l.granted.Some? then l.claim.(cpuCores := l.granted) else l.claim, host)
  }

  // ---------------------------------------------------------------- what is booked

  function SumSims(held: seq<Lease>, host: Host): Booked
  {
    if held == [] then Booked(0.0, 0.0, 0)
    else
      var rest := SumSims(held[..|held| - 1], host);
      var last := held[|held| - 1];
      if last.isSim
      then Booked(rest.cores + Charged(last, host).cores, rest.memory + Charged(last, host).memory, rest.count + 1)
      else rest
  }

  method BookedSims(held: seq<Lease>, host: Host) returns (b: Booked)
    ensures b == SumSims(held, host)
  {
    b := Booked(0.0, 0.0, 0);
    for i := 0 to |held|
      invariant b == SumSims(held[..i], host)
    {
      assert held[..i + 1][..i] == held[..i];
      if !held[i].isSim { continue; }
      var r := Charged(held[i], host);
      b := Booked(b.cores + r.cores, b.memory + r.memory, b.count + 1);
    }
    assert held[..|held|] == held;
  }

  /** The most cores sims may hold together. */
  function CoreLimit(c: Classes, host: Host): real { MinReal(c.capCores, host.budgetCores - c.reserveCores) }

  function SimCoreCeiling(c: Classes, b: Booked, host: Host): real { CoreLimit(c, host) - b.cores }

  function SimCapReason(c: Classes, b: Booked, g: Grant, host: Host): Option<Reason>
  {
    if b.count >= c.maxTickets then Some(MaxTickets)
    else if b.cores + g.cores > c.capCores then Some(CapCores)
    else if b.memory + g.memory > c.capMemory then Some(CapMemory)
    else if g.cores > SimCoreCeiling(c, b, host) then Some(TestReserve)
    else None
  }

  /** No reason means that the booking with the grant added is within every cap, and the other way round. */
  lemma NoReasonMeansWithin(c: Classes, b: Booked, g: Grant, host: Host)
    ensures SimCapReason(c, b, g, host).None? <==>
      b.count + 1 <= c.maxTickets && b.memory + g.memory <= c.capMemory
      && b.cores + g.cores <= c.capCores && b.cores + g.cores <= host.budgetCores - c.reserveCores
  {}

  /**
   * Of several caps that a grant would breach the first one is named: tickets, cores, memory, the cores of the tests.
   */
  lemma ReasonNamed(c: Classes, b: Booked, g: Grant, host: Host)
    ensures SimCapReason(c, b, g, host) == Some(MaxTickets) <==> b.count + 1 > c.maxTickets
    ensures SimCapReason(c, b, g, host) == Some(CapCores) <==>
      b.count + 1 <= c.maxTickets && b.cores + g.cores > c.capCores
    ensures SimCapReason(c, b, g, host) == Some(CapMemory) <==>
      b.count + 1 <= c.maxTickets && b.cores + g.cores <= c.capCores && b.memory + g.memory > c.capMemory
    ensures SimCapReason(c, b, g, host).Some? ==>
      SimCapReason(c, b, g, host).value in {MaxTickets, CapCores, CapMemory, TestReserve}
  {}

  /**
   * What a lease is charged: the cores it was granted, else those it declares, else its weight; the memory it declares,
   * else the default per unit of a weight of at least one, to the nearest byte.
   */
  lemma ChargedMeaning(l: Lease, host: Host)
    ensures var g := Charged(l, host);
      && (l.granted.Some? ==> g.cores == l.granted.value)
      && (l.granted.None? && l.claim.cpuCores.Some? ==> g.cores == l.claim.cpuCores.value)
      && (l.granted.None? && l.claim.cpuCores.None? ==> g.cores == l.claim.weight)
      && (l.claim.memory.Some? ==> l.claim.memory.value - 0.5 < g.memory <= l.claim.memory.value + 0.5)
      && (l.claim.memory.None? && l.claim.weight > 1.0 ==>
            var m := l.claim.weight * host.memoryPerWeight; m - 0.5 < g.memory <= m + 0.5)
      && (l.claim.memory.None? && l.claim.weight <= 1.0 ==>
            host.memoryPerWeight - 0.5 < g.memory <= host.memoryPerWeight + 0.5)
      && g.memory == g.memory.Floor as real
  {
    MemoryMeaning(l.claim.memory, l.claim.weight, host.memoryPerWeight);
    assert Charged(l, host).memory == MemoryOf(l.claim.memory, l.claim.weight, host.memoryPerWeight);
  }

  lemma MemoryMeaning(memory: Option<real>, weight: real, perWeight: real)
    ensures var r := MemoryOf(memory, weight, perWeight);
      && (memory.Some? ==> memory.value - 0.5 < r <= memory.value + 0.5)
      && (memory.None? && weight > 1.0 ==> weight * perWeight - 0.5 < r <= weight * perWeight + 0.5)
      && (memory.None? && weight <= 1.0 ==> perWeight - 0.5 < r <= perWeight + 0.5)
      && r == r.Floor as real
  {
    var times := MaxReal(1.0, if weight == 0.0 then 1.0 else weight);
    assert weight <= 1.0 ==> times * perWeight == perWeight;
  }

  // ---------------------------------------------------------------- over runs of grants and releases

  predicate NonNegative(l: Lease, host: Host) { Charged(l, host).cores >= 0.0 && Charged(l, host).memory >= 0.0 }

  datatype Step = GrantLease(lease: Lease) | Release(index: nat)

  /** A sim is granted only without a cap reason; anything else, and every release, is free. */
  predicate CanStep(c: Classes, held: seq<Lease>, s: Step, host: Host)
  {
    match s
    case GrantLease(l) =>
      NonNegative(l, host) && (l.isSim ==> SimCapReason(c, SumSims(held, host), Charged(l, host), host).None?)
    case Release(i) => i < |held|
  }

  function After(held: seq<Lease>, s: Step): seq<Lease>
  {
    match s
    case GrantLease(l) => held + [l]
    case Release(i) => if i < |held| then held[..i] + held[i + 1..] else held
  }

  ghost predicate IsRun(c: Classes, states: seq<seq<Lease>>, steps: seq<Step>, host: Host)
  {
    && |states| == |steps| + 1 && states[0] == []
    && forall i :: 0 <= i < |steps| ==>
         CanStep(c, states[i], steps[i], host) && states[i + 1] == After(states[i], steps[i])
  }

  /** Within every cap and out of the cores reserved for tests; without a sim nothing is booked. */
  predicate WithinCaps(c: Classes, b: Booked, host: Host)
  {
    if b.count == 0 then b.cores == 0.0 && b.memory == 0.0
    else
      && b.count <= c.maxTickets && b.memory <= c.capMemory && b.cores <= c.capCores
      && b.cores <= host.budgetCores - c.reserveCores
  }

  lemma SumOfAppend(held: seq<Lease>, l: Lease, host: Host)
    ensures SumSims(held + [l], host) ==
      var b := SumSims(held, host);
      if l.isSim then Booked(b.cores + Charged(l, host).cores, b.memory + Charged(l, host).memory, b.count + 1) else b
  {
    assert (held + [l])[..|held|] == held;
  }

  /** Releasing one lease takes off exactly what it was charged. */
  lemma {:induction false} SumWithout(held: seq<Lease>, i: nat, host: Host)
    requires i < |held|
    ensures var b, less := SumSims(held, host), SumSims(held[..i] + held[i + 1..], host);
      if held[i].isSim then b.count == less.count + 1 && b.cores == less.cores + Charged(held[i], host).cores
        && b.memory == less.memory + Charged(held[i], host).memory
      else b == less
  {
    var n := |held| - 1;
    if i == n {
      assert held[..i] + held[i + 1..] == held[..n];
    } else {
      SumWithout(held[..n], i, host);
      assert held[..i] + held[i + 1..] == (held[..n][..i] + held[..n][i + 1..]) + [held[n]];
      SumOfAppend(held[..n][..i] + held[..n][i + 1..], held[n], host);
    }
  }

  lemma {:induction false} SumNonNegative(held: seq<Lease>, host: Host)
    requires forall l :: l in held ==> NonNegative(l, host)
    ensures SumSims(held, host).cores >= 0.0 && SumSims(held, host).memory >= 0.0
    ensures SumSims(held, host).count == 0 ==> SumSims(held, host).cores == 0.0 && SumSims(held, host).memory == 0.0
  {
    if held != [] {
      assert held[|held| - 1] in held;
      SumNonNegative(held[..|held| - 1], host);
    }
  }

  lemma StepKeepsCaps(c: Classes, held: seq<Lease>, s: Step, host: Host)
    requires CanStep(c, held, s, host) && WithinCaps(c, SumSims(held, host), host)
    requires forall l :: l in held ==> NonNegative(l, host)
    ensures WithinCaps(c, SumSims(After(held, s), host), host)
    ensures forall l :: l in After(held, s) ==> NonNegative(l, host)
  {
    match s
    case GrantLease(l) => SumOfAppend(held, l, host);
    case Release(i) =>
      SumWithout(held, i, host);
      assert held[i] in held;
      SumNonNegative(held[..i] + held[i + 1..], host);
  }

  /** Whatever is granted and released, the sims stay within every cap and out of the test reserve. */
  lemma {:induction false} AlwaysWithinCaps(c: Classes, states: seq<seq<Lease>>, steps: seq<Step>, host: Host, i: nat)
    requires IsRun(c, states, steps, host) && i < |states|
    ensures WithinCaps(c, SumSims(states[i], host), host) && forall l :: l in states[i] ==> NonNegative(l, host)
  {
    if i > 0 {
      AlwaysWithinCaps(c, states, steps, host, i - 1);
      assert CanStep(c, states[i - 1], steps[i - 1], host) && states[i] == After(states[i - 1], steps[i - 1]);
      StepKeepsCaps(c, states[i - 1], steps[i - 1], host);
    }
  }

  // ---------------------------------------------------------------- queued sims

  function SmallestSimGrant(t: Ticket, host: Host): Grant
  {
    if t.exclusive then host.whole
    else
      var declared := Resolve(t.claim, host);
      if t.claim.minCpuCores.Some?
      then Grant(MinReal(declared.cores, Ceil(t.claim.minCpuCores.value) as real), declared.memory)
      else declared
  }

  function Denial(t: Ticket, c: Classes, b: Booked, host: Host): Option<Reason>
  {
    if t.requiresEnforcement && !(c.mode == Active && c.valid) then Some(EnforcementUnavailable)
    else if !t.isSim then None
    else if !c.valid then Some(ConfigInvalid)
    else if c.mode == Off then None
    else SimCapReason(c, b, SmallestSimGrant(t, host), host)
  }

  /** Every queued ticket the class policy forbids to start, and only those, each with the reason of its record. */
  method CapDeniedSims(raw: seq<Option<Ticket>>, c: Classes, held: seq<Lease>, host: Host)
    returns (denied: map<string, Reason>)
    ensures forall i :: 0 <= i < |raw| && raw[i].Some? && Denial(raw[i].value, c, SumSims(held, host), host).Some? ==>
      raw[i].value.id in denied
    ensures forall id :: id in denied ==>
      exists i ::
        && 0 <= i < |raw| && raw[i].Some? && raw[i].value.id == id
        && Denial(raw[i].value, c, SumSims(held, host), host) == Some(denied[id])
  {
    denied := map[];
    var booked := BookedSims(held, host);
    for n := 0 to |raw|
      invariant forall i :: 0 <= i < n && raw[i].Some? && Denial(raw[i].value, c, booked, host).Some? ==>
        raw[i].value.id in denied
      invariant forall id :: id in denied ==>
        exists i ::
          && 0 <= i < n && raw[i].Some? && raw[i].value.id == id
          && Denial(raw[i].value, c, booked, host) == Some(denied[id])
    {
      if raw[n].None? { continue; }
      var t := raw[n].value;
      if t.requiresEnforcement && !(c.mode == Active && c.valid) {
        denied := denied[t.id := EnforcementUnavailable];
      } else if !t.isSim {
        continue;
      } else if !c.valid {
        denied := denied[t.id := ConfigInvalid];
      } else if c.mode != Off {
        var reason := SimCapReason(c, booked, SmallestSimGrant(t, host), host);
        if reason.Some? { denied := denied[t.id := reason.value]; }
      }
      assert Denial(t, c, booked, host).Some? ==> denied[t.id] == Denial(t, c, booked, host).value;
    }
  }

  /**
   * Who may not start. A ticket that requires enforcement where the caps are not in force; a sim under a configuration
   * that did not load; and, unless the caps are off, a sim that breaches one even with the least it can be granted: for
   * an exclusive one the whole host, else the lesser of its cores and its floor in whole cores.
   */
  lemma DenialMeaning(t: Ticket, c: Classes, b: Booked, host: Host)
    ensures var d := Denial(t, c, b, host);
      && (d == Some(EnforcementUnavailable) <==> t.requiresEnforcement && (c.mode != Active || !c.valid))
      && (d == Some(ConfigInvalid) <==> t.isSim && !c.valid && !t.requiresEnforcement)
      && (d.Some? && d.value != EnforcementUnavailable && d.value != ConfigInvalid ==>
            t.isSim && c.valid && c.mode != Off && !FitsAtLeast(t, c, b, host))
      && (d.None? && t.isSim && c.mode != Off ==> c.valid && FitsAtLeast(t, c, b, host))
  {
    SmallestFits(t, c, b, host);
  }

  /** The smallest grant passes exactly if some grant the ticket can get does. */
  lemma SmallestFits(t: Ticket, c: Classes, b: Booked, host: Host)
    ensures SimCapReason(c, b, SmallestSimGrant(t, host), host).None? <==> FitsAtLeast(t, c, b, host)
  {
    var small := SmallestSimGrant(t, host);
    NoReasonMeansWithin(c, b, small, host);
    if t.claim.minCpuCores.Some? {
      var whole := Ceil(t.claim.minCpuCores.value);
      CeilBound(t.claim.minCpuCores.value);
      assert (whole as real).Floor == whole;
    }
    if SimCapReason(c, b, small, host).None? { assert FitsWith(t, c, b, host, small.cores); }
    if FitsAtLeast(t, c, b, host) {
      var cores :| FitsWith(t, c, b, host, cores);
      SmallestIsLeast(t, c, b, host, cores);
    }
  }

  lemma SmallestIsLeast(t: Ticket, c: Classes, b: Booked, host: Host, cores: real)
    requires FitsWith(t, c, b, host, cores)
    ensures SmallestSimGrant(t, host).cores <= cores
  {
    if !t.exclusive && t.claim.minCpuCores.Some? && cores != t.claim.cpuCores.GetOr(t.claim.weight) {
      WholeReaches(t.claim.minCpuCores.value, cores);
    }
  }

  lemma WholeReaches(min: real, cores: real)
    requires cores >= min && cores == cores.Floor as real
    ensures cores >= Ceil(min) as real
  {
    var n := -cores.Floor;
    assert n as real == -cores;
    FloorFits(-min, n);
  }

  /**
   * There is a grant the ticket can get, of at least its floor and in whole cores if it has one, that fits every cap.
   */
  ghost predicate FitsAtLeast(t: Ticket, c: Classes, b: Booked, host: Host)
  {
    exists cores :: FitsWith(t, c, b, host, cores)
  }

  predicate FitsWith(t: Ticket, c: Classes, b: Booked, host: Host, cores: real)
  {
    var declared := t.claim.cpuCores.GetOr(t.claim.weight);
      && (t.exclusive ==> cores == host.whole.cores)
      && (!t.exclusive && t.claim.minCpuCores.None? ==> cores == declared)
      && (!t.exclusive && t.claim.minCpuCores.Some? ==>
            || cores == declared
            || (cores <= declared && cores >= t.claim.minCpuCores.value && cores == cores.Floor as real))
      && b.count + 1 <= c.maxTickets && b.cores + cores <= c.capCores
      && b.cores + cores <= host.budgetCores - c.reserveCores
      && b.memory + (if t.exclusive then host.whole.memory else Resolve(t.claim, host).memory) <= c.capMemory
  }

  function CapSimClaim(t: Ticket, c: Classes, b: Booked, host: Host): Ticket
  {
    if !t.isSim || t.claim.minCpuCores.None? || !c.valid || c.mode != Active then t
    else
      var min := t.claim.minCpuCores.value;
      var ceiling := SimCoreCeiling(c, b, host).Floor;
      if !(t.claim.cpuCores.Some? && t.claim.cpuCores.value > ceiling as real) || ceiling < Ceil(min) then t
      else t.(claim := t.claim.(
        cpuCores := Some(ceiling as real), minCpuCores := if min < ceiling as real then Some(min) else None))
  }

  lemma FloorFits(x: real, n: int)
    ensures n as real <= x <==> n <= x.Floor
  {}

  lemma CeilBound(x: real)
    ensures x <= Ceil(x) as real < x + 1.0
  {}

  /** Beside a grant that passes, one of the same memory passes exactly when its cores fit. */
  lemma PassesByCores(c: Classes, b: Booked, small: Grant, g: Grant, host: Host)
    requires SimCapReason(c, b, small, host).None? && g.memory == small.memory
    ensures SimCapReason(c, b, g, host).None? <==> g.cores <= SimCoreCeiling(c, b, host)
  {}

  /**
   * A queued sim that the caps do not deny gets a claim that passes them, exactly unless it declares a floor but no
   * cores and weighs too much.
   */
  lemma NotDeniedPasses(t: Ticket, c: Classes, b: Booked, host: Host)
    requires t.isSim && !t.exclusive && c.valid && c.mode == Active && Denial(t, c, b, host).None?
    ensures SimCapReason(c, b, Resolve(CapSimClaim(t, c, b, host).claim, host), host).None?
      <==> !(t.claim.minCpuCores.Some? && t.claim.cpuCores.None? && t.claim.weight > SimCoreCeiling(c, b, host))
  {
    var C := SimCoreCeiling(c, b, host);
    var small, u := SmallestSimGrant(t, host), CapSimClaim(t, c, b, host);
    var grant := Resolve(u.claim, host);
    assert SimCapReason(c, b, small, host).None? && small.cores <= C;
    assert u.claim.memory == t.claim.memory && u.claim.weight == t.claim.weight;
    PassesByCores(c, b, small, grant, host);
    if t.claim.minCpuCores.Some? {
      FloorFits(C, Ceil(t.claim.minCpuCores.value));
      FloorFits(C, C.Floor);
      if t.claim.cpuCores.Some? { assert grant.cores <= C; }
    }
  }

  /** A claim as tickets carry it: an elastic floor comes with a core claim above it. */
  predicate WellFormed(c: Claim)
  {
    c.minCpuCores.Some? ==> c.cpuCores.Some? && 0.0 < c.minCpuCores.value < c.cpuCores.value
  }

  /** The claim a submission resolves to: the cores asked for, else the weight; the floor only if it lies below them. */
  function ResolveClaim(
    weight: real, cpuCores: Option<real>, minCpuCores: Option<real>, memory: Option<real>, perWeight: real): Claim
  {
    var cpu := cpuCores.GetOr(weight);
    Claim(weight, Some(cpu),
      if minCpuCores.Some? && 0.0 < minCpuCores.value < cpu then minCpuCores else None,
      Some(MemoryOf(memory, weight, perWeight)))
  }

  lemma ResolvedIsWellFormed(
    weight: real, cpuCores: Option<real>, minCpuCores: Option<real>, memory: Option<real>, perWeight: real)
    ensures WellFormed(ResolveClaim(weight, cpuCores, minCpuCores, memory, perWeight))
    ensures var r := ResolveClaim(weight, cpuCores, minCpuCores, memory, perWeight);
      && r.weight == weight && r.cpuCores.Some? && r.memory.Some?
      && r.cpuCores.value == (if cpuCores.Some? then cpuCores.value else weight)
      && (r.minCpuCores.Some? <==> minCpuCores.Some? && 0.0 < minCpuCores.value < r.cpuCores.value)
      && (r.minCpuCores.Some? ==> r.minCpuCores == minCpuCores)
      && (memory.Some? ==> memory.value - 0.5 < r.memory.value <= memory.value + 0.5)
  {
    MemoryMeaning(memory, weight, perWeight);
  }

  /**
   * A submitted sim that the caps do not deny always gets a claim that passes them, and the claim stays well formed.
   */
  lemma SubmittedPasses(t: Ticket, c: Classes, b: Booked, host: Host)
    requires t.isSim && !t.exclusive && c.valid && c.mode == Active && Denial(t, c, b, host).None?
    requires WellFormed(t.claim)
    ensures SimCapReason(c, b, Resolve(CapSimClaim(t, c, b, host).claim, host), host).None?
    ensures WellFormed(CapSimClaim(t, c, b, host).claim)
  {
    NotDeniedPasses(t, c, b, host);
    NeverBelowFloor(t, c, b, host);
  }

  /** Lowering keeps everything but the CPU claim, never raises it, and never goes below the elastic floor. */
  lemma NeverBelowFloor(t: Ticket, c: Classes, b: Booked, host: Host)
    ensures var u := CapSimClaim(t, c, b, host);
      u != t ==>
        && u == t.(claim := u.claim) && u.claim.memory == t.claim.memory && u.claim.weight == t.claim.weight
        && t.claim.minCpuCores.Some? && t.claim.cpuCores.Some? && u.claim.cpuCores.Some?
        && t.claim.minCpuCores.value <= u.claim.cpuCores.value < t.claim.cpuCores.value
        && u.claim.cpuCores.value <= SimCoreCeiling(c, b, host)
        && (u.claim.minCpuCores.Some? ==>
              u.claim.minCpuCores == t.claim.minCpuCores && u.claim.minCpuCores.value < u.claim.cpuCores.value)
  {
    if t.claim.minCpuCores.Some? {
      CeilBound(t.claim.minCpuCores.value);
      FloorFits(SimCoreCeiling(c, b, host), SimCoreCeiling(c, b, host).Floor);
    }
  }

  /**
   * When a claim is lowered, and to what. It is that of an elastic sim under caps in force, it asks for more than the
   * whole cores that the caps leave, and those reach its floor; and it gets just those whole cores. What they leave is
   * the smaller of the cap and the budget without the cores of the tests, less what is booked. The floor stays exactly
   * if it is below them.
   */
  lemma LoweredExactly(t: Ticket, c: Classes, b: Booked, host: Host)
    ensures
      var u := CapSimClaim(t, c, b, host);
      var left := (if c.capCores < host.budgetCores - c.reserveCores then c.capCores
                   else host.budgetCores - c.reserveCores) - b.cores;
      var whole := left.Floor as real;
      && (u != t <==>
            && t.isSim && c.valid && c.mode == Active && t.claim.minCpuCores.Some? && t.claim.cpuCores.Some?
            && t.claim.minCpuCores.value <= whole < t.claim.cpuCores.value)
      && (u != t ==>
            && u.claim.cpuCores == Some(whole) && whole <= left < whole + 1.0
            && u.claim.minCpuCores == if t.claim.minCpuCores.value < whole then t.claim.minCpuCores else None)
  {
    if t.claim.minCpuCores.Some? {
      CeilBound(t.claim.minCpuCores.value);
    }
  }

  /** A sim denied on its smallest grant is refused at every larger one. */
  lemma DeniedAtEveryLargerGrant(c: Classes, b: Booked, small: Grant, large: Grant, host: Host)
    requires SimCapReason(c, b, small, host).Some? && small.cores <= large.cores && small.memory <= large.memory
    ensures SimCapReason(c, b, large, host).Some?
  {}
}
