/**
 * Settlement of one remote-eligible ticket (src/attempts.js, with src/local-reconcile.js, src/pending.js and the locked
 * steps of src/cancel.js). Several processes act on the ticket's records, each action one body under the broker lock,
 * so a run is a sequence of `Action`s; `Apply` is what one locked body does and `Ticket` is the records it is done to.
 */
module Attempts {
  import opened Common

  datatype Executor = Remote | Local

  /** The attempt record: the generation is the fence; `fields` are the parts nothing here decides on. */
  datatype Attempt = Attempt(generation: nat, executor: Executor, moving: bool, fields: map<string, string>)

  /** A patch leaves the generation alone, as every patch the broker writes does; an undefined field drops its key. */
  datatype Patch = Patch(executor: Option<Executor>, moving: Option<bool>, fields: map<string, Option<string>>)

  datatype Result = Result(exit: int, cancelled: bool, reason: string)

  const CANCELLED_RESULT := Result(130, true, "")
  const LOST_LOCAL := Result(75, false, "supervisor-died-while-queued")
  const LOST_PENDING := Result(75, false, "supervisor-died-before-register")

  /** What a publisher's result writer does when told whether the ticket is cancelled. */
  datatype Writer =
    | Honours(outcome: Result)   // the cancelled result if told so, else its own outcome
    | Fixed(outcome: Result)     // its own result whatever it is told
    | IfUnsettled(outcome: Result) // its own result, unless a result is already there (the lost-settler)

  /** What a publisher read of the record it means to settle. The locked body compares the generation only. */
  datatype Seen = Seen(epoch: nat, generation: nat)

  /**
   * One call of a result writer: the record it settled, what its publisher had read, what it was told, found and wrote.
   */
  datatype Write = Write(
    epoch: nat, recordGeneration: nat, asked: Seen, writer: Writer, toldCancelled: bool, found: Option<Result>,
    wrote: Option<Result>)

  /** Everything on disk about the ticket, the liveness of the processes it names, and the writer calls so far. */
  datatype State = State(
    attempt: Option<Attempt>,
    epoch: nat,
    cancelMarker: bool,
    result: Option<Result>,
    queued: bool,
    parked: bool,
    leased: bool,
    pending: bool,
    supervisorAlive: bool,
    pendingAlive: bool,
    writes: seq<Write>)

  const EMPTY := State(None, 0, false, None, false, false, false, false, false, false, [])

  datatype Action =
    | Create(dedup: bool, migrating: bool)
    | PatchLocked(patch: Patch)
    | Update(fence: nat, patch: Patch, refuseWhileMigrating: bool, migrating: bool)
    | Fallback(reason: string)
    | Publish(asked: Seen, expected: bool, writer: Writer)
    | SettleAbandoned(asked: Seen)
    | SettleDeadPending
    | MarkCancelled
    | CancelQueued
    | ReapDeadQueued
    | Enqueue | Park | Unpark | Admit | ReleaseLease
    | WritePending | SupervisorDies | PendingDies | ClearMarkers

  // ---------------------------------------------------------------- one locked body

  function Merge(a: Attempt, p: Patch): Attempt
  {
    Attempt(a.generation,
            if p.executor.Some? then p.executor.value else a.executor,
            if p.moving.Some? then p.moving.value else a.moving,
            map k | k in a.fields.Keys + p.fields.Keys && (k in p.fields ==> p.fields[k].Some?) ::
              if k in p.fields then p.fields[k].value else a.fields[k])
  }

  /** `b` is `a` with what the patch names replaced or dropped, and everything else as it was. */
  ghost predicate Patched(a: Attempt, p: Patch, b: Attempt)
  {
    && b.generation == a.generation
    && (p.executor.Some? ==> b.executor == p.executor.value) && (p.executor.None? ==> b.executor == a.executor)
    && (p.moving.Some? ==> b.moving == p.moving.value) && (p.moving.None? ==> b.moving == a.moving)
    && (forall k :: k in p.fields && p.fields[k].Some? ==> k in b.fields && b.fields[k] == p.fields[k].value)
    && (forall k :: k in p.fields && p.fields[k].None? ==> k !in b.fields)
    && (forall k :: k !in p.fields ==> SameField(a, b, k))
  }

  /** Both records have the field with the same value, or neither has it. */
  predicate SameField(a: Attempt, b: Attempt, key: string)
  {
    (key in b.fields <==> key in a.fields) && (key in a.fields ==> b.fields[key] == a.fields[key])
  }

  lemma MergeMeaning(a: Attempt, p: Patch)
    ensures Patched(a, p, Merge(a, p))
  {}

  /** Does some record already own this id? */
  predicate Known(s: State) { s.attempt.Some? || s.queued || s.leased || s.result.Some? }

  predicate IsAbandoned(s: State)
    requires s.attempt.Some?
  {
    && s.attempt.value.executor == Local && !s.supervisorAlive && !s.attempt.value.moving
    && !s.leased && !s.queued && !s.parked
  }

  function Written(w: Writer, cancelled: bool, current: Option<Result>): Option<Result>
  {
    match w
    case Honours(outcome) => Some(if cancelled then CANCELLED_RESULT else outcome)
    case Fixed(outcome) => Some(outcome)
    case IfUnsettled(outcome) => if current.Some? then current else Some(outcome)
  }

  /** The record is gone and its result written in one step. */
  function Settle(s: State, asked: Seen, w: Writer, cancelled: bool): State
    requires s.attempt.Some?
  {
    s.(attempt := None,
       result := Written(w, cancelled, s.result),
       writes := s.writes + [Write(s.epoch, s.attempt.value.generation, asked, w, cancelled, s.result,
         Written(w, cancelled, s.result))])
  }

  /** The four tests of a publish, in order: no record, not as expected, cancelled, another generation. */
  function PublishStep(s: State, asked: Seen, expected: bool, w: Writer): State
  {
    if s.attempt.None? || !expected then s
    else if s.cancelMarker then Settle(s, asked, w, true)
    else if s.attempt.value.generation != asked.generation then s
    else Settle(s, asked, w, false)
  }

  function Apply(s: State, a: Action): State
  {
    match a
    case Create(dedup, migrating) =>
      if (dedup && Known(s)) || migrating then s
      else s.(attempt := Some(Attempt(0, Remote, false, map["phase" := "probe"])),
        epoch := s.epoch + 1, supervisorAlive := true)
    case PatchLocked(p) =>
      if s.attempt.None? then s else s.(attempt := Some(Merge(s.attempt.value, p)))
    case Update(expected, p, refuse, migrating) =>
      if (refuse && migrating) || s.attempt.None? || s.attempt.value.generation != expected then s
      else s.(attempt := Some(Merge(s.attempt.value, p)))
    case Fallback(reason) =>
      if s.cancelMarker || s.attempt.None? then s
      else
        var c := s.attempt.value;
        s.(attempt := Some(Attempt(c.generation + 1, Local, c.moving,
          c.fields + map["phase" := "queued", "fallbackReason" := reason])))
    case Publish(g, expected, w) => PublishStep(s, g, expected, w)
    case SettleAbandoned(g) => PublishStep(s, g, s.attempt.Some? && IsAbandoned(s), IfUnsettled(LOST_LOCAL))
    case SettleDeadPending =>
      if !s.pending || s.pendingAlive || s.result.Some? || s.attempt.Some? || s.leased || s.queued || s.parked then s
      else s.(result := Some(LOST_PENDING))
    case MarkCancelled => s.(cancelMarker := true)
    case CancelQueued => if !s.queued then s else s.(queued := false, cancelMarker := true)
    case ReapDeadQueued => if !s.queued || s.supervisorAlive then s else s.(result := Some(LOST_LOCAL), queued := false)
    case Enqueue => if s.leased || s.parked then s else s.(queued := true)
    case Park => if !s.queued then s else s.(queued := false, parked := true)
    case Unpark => if !s.parked then s else s.(parked := false, queued := true)
    case Admit => if !s.queued then s else s.(queued := false, leased := true)
    case ReleaseLease => s.(leased := false)
    case WritePending => s.(pending := true, pendingAlive := true)
    case SupervisorDies => s.(supervisorAlive := false)
    case PendingDies => s.(pendingAlive := false)
    // markers are cleared by a supervisor on its way out, once its attempt is settled
    case ClearMarkers => if s.attempt.Some? then s else s.(cancelMarker := false)
  }

  function Run(s: State, actions: seq<Action>): State
    decreases |actions|
  {
    if actions == [] then s else Run(Apply(s, actions[0]), actions[1..])
  }

  // ---------------------------------------------------------------- the records and the locked bodies

  class Ticket {
    var attempt: Option<Attempt>
    var cancelMarker: bool
    var result: Option<Result>
    var queued: bool
    var parked: bool
    var leased: bool
    var pending: bool
    var supervisorAlive: bool
    var pendingAlive: bool
    ghost var epoch: nat
    ghost var writes: seq<Write>

    ghost function View(): State
      reads this
    {
      State(attempt, epoch, cancelMarker, result, queued, parked, leased, pending, supervisorAlive, pendingAlive,
        writes)
    }

    constructor ()
      ensures View() == EMPTY
    {
      attempt, cancelMarker, result, queued, parked := None, false, None, false, false;
      leased, pending, supervisorAlive, pendingAlive := false, false, false, false;
      epoch, writes := 0, [];
    }

    method CreateAttempt(dedup: bool, migrating: bool) returns (created: bool)
      modifies this
      ensures View() == Apply(old(View()), Create(dedup, migrating))
      ensures created <==>
        !migrating && !(dedup && (old(attempt).Some? || old(queued) || old(leased) || old(result).Some?))
      ensures created ==>
        attempt == Some(Attempt(0, Remote, false, map["phase" := "probe"])) && epoch == old(epoch) + 1
      ensures !created ==> View() == old(View())
    {
      created := false;
      if dedup && (attempt.Some? || queued || leased || result.Some?) { return; }
      if migrating { return; }
      attempt := Some(Attempt(0, Remote, false, map["phase" := "probe"]));
      supervisorAlive := true;
      epoch := epoch + 1;
      created := true;
    }

    method PatchAttemptLocked(patch: Patch) returns (next: Option<Attempt>)
      modifies this`attempt
      ensures View() == Apply(old(View()), PatchLocked(patch)) && next == attempt
      ensures old(attempt).Some? == attempt.Some?
      ensures old(attempt).Some? ==> Patched(old(attempt).value, patch, attempt.value)
    {
      if attempt.Some? { MergeMeaning(attempt.value, patch); }
      if attempt.Some? { attempt := Some(Merge(attempt.value, patch)); }
      next := attempt;
    }

    method UpdateAttempt(expected: nat, patch: Patch, refuse: bool, migrating: bool) returns (ok: bool)
      modifies this`attempt
      ensures View() == Apply(old(View()), Update(expected, patch, refuse, migrating))
      ensures ok <==> !(refuse && migrating) && old(attempt).Some? && old(attempt).value.generation == expected
      ensures ok ==> attempt.Some? && Patched(old(attempt).value, patch, attempt.value)
      ensures !ok ==> attempt == old(attempt)
    {
      if refuse && migrating { return false; }
      if attempt.None? || attempt.value.generation != expected { return false; }
      MergeMeaning(attempt.value, patch);
      attempt := Some(Merge(attempt.value, patch));
      ok := true;
    }

    method FallbackToLocal(reason: string) returns (ok: bool)
      modifies this`attempt
      ensures View() == Apply(old(View()), Fallback(reason))
      ensures ok <==> !old(cancelMarker) && old(attempt).Some?
      ensures !ok ==> attempt == old(attempt)
      ensures ok ==>
        && attempt.Some? && attempt.value.generation == old(attempt).value.generation + 1
        && attempt.value.executor == Local && attempt.value.moving == old(attempt).value.moving
        && attempt.value.fields == old(attempt).value.fields["phase" := "queued"]["fallbackReason" := reason]
    {
      if cancelMarker || attempt.None? { return false; }
      var c := attempt.value;
      attempt := Some(Attempt(c.generation + 1, Local, c.moving,
        c.fields + map["phase" := "queued", "fallbackReason" := reason]));
      ok := true;
    }

    /** The caller's writer, run under the lock. */
    method CallWriter(w: Writer, cancelled: bool)
      modifies this`result
      ensures result == Written(w, cancelled, old(result))
    {
      match w
      case Honours(outcome) => result := Some(if cancelled then CANCELLED_RESULT else outcome);
      case Fixed(outcome) => result := Some(outcome);
      case IfUnsettled(outcome) => if result.None? { result := Some(outcome); }
    }

    /** The result each writer leaves: a cancelled one has exit code 130, a lost one the code 75. */
    predicate WrittenAs(w: Writer, cancelled: bool, before: Option<Result>, after: Option<Result>)
    {
      && after.Some?
      && (w.Honours? && cancelled ==> after.value.exit == 130 && after.value.cancelled)
      && (w.Honours? && !cancelled ==> after.value == w.outcome)
      && (w.Fixed? ==> after.value == w.outcome)
      && (w.IfUnsettled? ==> after.value == if before.Some? then before.value else w.outcome)
    }

    method PublishTerminal(generation: nat, expected: bool, w: Writer, ghost seen: nat)
      returns (ok: bool, cancelled: bool)
      modifies this`attempt, this`result, this`writes
      ensures View() == Apply(old(View()), Publish(Seen(seen, generation), expected, w))
      ensures ok <==>
        && old(attempt).Some? && expected
        && (old(cancelMarker) || old(attempt).value.generation == generation)
      ensures ok ==> attempt.None? && cancelled == old(cancelMarker) && WrittenAs(w, cancelled, old(result), result)
      ensures !ok ==> attempt == old(attempt) && result == old(result)
    {
      ok, cancelled := false, false;
      if attempt.None? || !expected { return; }
      var current := attempt.value;
      ghost var found := result;
      if cancelMarker {
        CallWriter(w, true);
        attempt := None;
        writes := writes + [Write(epoch, current.generation, Seen(seen, generation), w, true, found, result)];
        return true, true;
      }
      if current.generation != generation { return; }
      CallWriter(w, false);
      attempt := None;
      writes := writes + [Write(epoch, current.generation, Seen(seen, generation), w, false, found, result)];
      ok := true;
    }

    method SettleAbandonedLocalAttempt(generation: nat, ghost seen: nat) returns (settled: bool)
      modifies this`attempt, this`result, this`writes
      ensures View() == Apply(old(View()), SettleAbandoned(Seen(seen, generation)))
      ensures settled <==>
        && old(attempt).Some? && old(attempt).value.executor == Local && !old(attempt).value.moving
        && !supervisorAlive && !leased && !queued && !parked
        && (cancelMarker || old(attempt).value.generation == generation)
      ensures settled ==>
        attempt.None? && result.Some? && result.value.exit == (if old(result).Some? then old(result).value.exit else 75)
      ensures !settled ==> attempt == old(attempt) && result == old(result)
    {
      var abandoned := attempt.Some? && attempt.value.executor == Local && !supervisorAlive && !attempt.value.moving
                       && !leased && !queued && !parked;
      var cancelled;
      settled, cancelled := PublishTerminal(generation, abandoned, IfUnsettled(LOST_LOCAL), seen);
    }

    method SettleDeadPendingId() returns (settled: bool)
      modifies this`result
      ensures View() == Apply(old(View()), SettleDeadPending)
      ensures settled <==>
        && pending && !pendingAlive
        && (old(result).Some? || !(attempt.Some? || leased || queued || parked))
      ensures settled ==>
        result.Some? && result.value.exit == (if old(result).Some? then old(result).value.exit else 75)
      ensures old(result).Some? || !settled ==> result == old(result)
    {
      if !pending || pendingAlive { return false; }
      if result.Some? { return true; }
      if attempt.Some? || leased || queued || parked { return false; }
      result := Some(LOST_PENDING);
      settled := true;
    }

    /** `lane cancel` of a queued ticket: dequeue and mark in one hold of the lock. */
    method DequeueAndMark() returns (dequeued: bool)
      modifies this`queued, this`cancelMarker
      ensures View() == Apply(old(View()), CancelQueued)
      ensures dequeued == old(queued) && !queued
      ensures cancelMarker == (dequeued || old(cancelMarker))
    {
      dequeued := queued;
      if queued {
        queued := false;
        cancelMarker := true;
      }
    }
  }

  // ---------------------------------------------------------------- every run

  /** Writer calls name distinct records, none of them the one that is still open. */
  ghost predicate Inv(s: State)
  {
    && (s.attempt.Some? ==> s.epoch > 0)
    && (forall i :: 0 <= i < |s.writes| ==> 0 < s.writes[i].epoch <= s.epoch)
    && (forall i, j :: 0 <= i < j < |s.writes| ==> s.writes[i].epoch < s.writes[j].epoch)
    && (s.attempt.Some? ==> forall i :: 0 <= i < |s.writes| ==> s.writes[i].epoch < s.epoch)
    && (forall i :: 0 <= i < |s.writes| ==>
          s.writes[i].toldCancelled || s.writes[i].asked.generation == s.writes[i].recordGeneration)
    && (forall i :: 0 <= i < |s.writes| ==>
          s.writes[i].wrote == Written(s.writes[i].writer, s.writes[i].toldCancelled, s.writes[i].found))
  }

  /** No record appears, changes or goes, and a marker on an open record stays. */
  ghost predicate Quiet(s: State, t: State)
  {
    && t.attempt == s.attempt && t.epoch == s.epoch && t.writes == s.writes
    && (s.attempt.Some? && s.cancelMarker ==> t.cancelMarker)
  }

  ghost predicate Created(s: State, t: State)
  {
    && t.attempt.Some? && t.attempt.value.generation == 0 && t.epoch == s.epoch + 1 && t.writes == s.writes
    && t.cancelMarker == s.cancelMarker
  }

  ghost predicate Changed(s: State, t: State)
  {
    && s.attempt.Some? && t.attempt.Some? && t.epoch == s.epoch && t.writes == s.writes
    && t.cancelMarker == s.cancelMarker
    && t.attempt.value.generation >= s.attempt.value.generation
    && (s.cancelMarker ==> t.attempt.value.generation == s.attempt.value.generation)
  }

  ghost predicate Settled(s: State, t: State)
  {
    && s.attempt.Some? && t.attempt.None? && t.epoch == s.epoch && |t.writes| == |s.writes| + 1
    && var w := t.writes[|s.writes|];
    && t.writes == s.writes + [w] && w.epoch == s.epoch && w.recordGeneration == s.attempt.value.generation
    && w.toldCancelled == s.cancelMarker && (w.toldCancelled || w.asked.generation == w.recordGeneration)
    && w.wrote == Written(w.writer, w.toldCancelled, w.found) && t.result == w.wrote && s.result == w.found
  }

  ghost predicate OneKind(s: State, t: State) { Quiet(s, t) || Created(s, t) || Changed(s, t) || Settled(s, t) }

  /** Every locked body is one of four kinds of step on the attempt record. */
  lemma StepKind(s: State, a: Action)
    ensures OneKind(s, Apply(s, a))
  {
    match a
    case Publish(g, expected, w) => PublishKind(s, g, expected, w);
    case SettleAbandoned(g) => PublishKind(s, g, s.attempt.Some? && IsAbandoned(s), IfUnsettled(LOST_LOCAL));
    case Create(_, _) => EditKind(s, a);
    case PatchLocked(_) => EditKind(s, a);
    case Update(_, _, _, _) => EditKind(s, a);
    case Fallback(_) => EditKind(s, a);
    case _ => QuietKind(s, a);
  }

  lemma EditKind(s: State, a: Action)
    requires a.Create? || a.PatchLocked? || a.Update? || a.Fallback?
    ensures OneKind(s, Apply(s, a))
  {
    var t := Apply(s, a);
    if t == s {
      assert Quiet(s, t);
    } else if a.Create? {
      assert Created(s, t);
    } else {
      ReplacedIsChanged(s, t.attempt.value);
      assert t == s.(attempt := t.attempt);
    }
  }

  lemma ReplacedIsChanged(s: State, next: Attempt)
    requires s.attempt.Some? && next.generation >= s.attempt.value.generation
    requires (s.cancelMarker ==> next.generation == s.attempt.value.generation)
    ensures OneKind(s, s.(attempt := Some(next)))
  {
    assert Changed(s, s.(attempt := Some(next)));
  }

  lemma QuietKind(s: State, a: Action)
    requires !(a.Create? || a.PatchLocked? || a.Update? || a.Fallback? || a.Publish? || a.SettleAbandoned?)
    ensures OneKind(s, Apply(s, a))
  {
    assert Quiet(s, Apply(s, a));
  }

  lemma PublishKind(s: State, g: Seen, expected: bool, w: Writer)
    ensures OneKind(s, PublishStep(s, g, expected, w))
  {
    if s.attempt.Some? {
      var call := Write(s.epoch, s.attempt.value.generation, g, w, s.cancelMarker, s.result,
        Written(w, s.cancelMarker, s.result));
      assert (s.writes + [call])[|s.writes|] == call;
    }
  }

  lemma KindKeepsInv(s: State, t: State)
    requires Inv(s) && OneKind(s, t)
    ensures Inv(t)
  {
    if Settled(s, t) {
      var n := |s.writes|;
      forall i | 0 <= i < |t.writes|
        ensures 0 < t.writes[i].epoch <= t.epoch && (i < n ==> t.writes[i] == s.writes[i])
      {
      }
      forall i, j | 0 <= i < j < |t.writes| ensures t.writes[i].epoch < t.writes[j].epoch {
        assert t.writes[i] == s.writes[i];
      }
    }
  }

  lemma StepKeepsInv(s: State, a: Action)
    requires Inv(s)
    ensures Inv(Apply(s, a))
  {
    StepKind(s, a);
    KindKeepsInv(s, Apply(s, a));
  }

  lemma {:induction false} RunKeepsInv(s: State, actions: seq<Action>)
    requires Inv(s)
    ensures Inv(Run(s, actions))
    decreases |actions|
  {
    if actions != [] {
      StepKeepsInv(s, actions[0]);
      RunKeepsInv(Apply(s, actions[0]), actions[1..]);
    }
  }

  /** Settle once: over every interleaving the writer is called at most once per attempt record. */
  lemma WriterAtMostOncePerRecord(actions: seq<Action>, i: nat, j: nat)
    requires i < j < |Run(EMPTY, actions).writes|
    ensures Run(EMPTY, actions).writes[i].epoch != Run(EMPTY, actions).writes[j].epoch
  {
    RunKeepsInv(EMPTY, actions);
  }

  /** A publisher with another generation than the record's only ever gets the cancelled outcome written. */
  lemma StaleNeverWritesOutcome(actions: seq<Action>, i: nat)
    requires i < |Run(EMPTY, actions).writes|
    requires Run(EMPTY, actions).writes[i].asked.generation != Run(EMPTY, actions).writes[i].recordGeneration
    ensures Run(EMPTY, actions).writes[i].toldCancelled
  {
    RunKeepsInv(EMPTY, actions);
  }

  /** What a run does to one record: it stays open with generation and marker only growing, or it has been settled. */
  ghost predicate SameRecordLater(s: State, t: State)
    requires s.attempt.Some?
  {
    && s.epoch <= t.epoch && |s.writes| <= |t.writes| && t.writes[..|s.writes|] == s.writes
    && (t.epoch == s.epoch && t.attempt.Some? ==>
          && t.attempt.value.generation >= s.attempt.value.generation
          && (s.cancelMarker ==> t.cancelMarker && t.attempt.value.generation == s.attempt.value.generation)
          && t.writes == s.writes)
    && (forall i :: |s.writes| <= i < |t.writes| && t.writes[i].epoch == s.epoch ==>
          && t.writes[i].recordGeneration >= s.attempt.value.generation
          && (s.cancelMarker ==> t.writes[i].toldCancelled))
  }

  lemma KindSameRecord(s: State, t: State)
    requires Inv(s) && s.attempt.Some? && (Quiet(s, t) || Created(s, t) || Changed(s, t) || Settled(s, t))
    ensures SameRecordLater(s, t)
  {}

  /** What was written before a later state, and that nothing was written since for record `e`. */
  ghost predicate ClosedSince(s: State, e: nat, t: State)
  {
    && s.epoch <= t.epoch && |s.writes| <= |t.writes| && t.writes[..|s.writes|] == s.writes
    && (t.attempt.Some? ==> e < t.epoch)
    && forall i :: |s.writes| <= i < |t.writes| ==> t.writes[i].epoch != e
  }

  lemma ClosedTransitive(s: State, m: State, e: nat, t: State)
    requires ClosedSince(s, e, m) && ClosedSince(m, e, t)
    ensures ClosedSince(s, e, t)
  {
    assert t.writes[..|s.writes|] == t.writes[..|m.writes|][..|s.writes|];
    forall i | |s.writes| <= i < |t.writes| ensures t.writes[i].epoch != e {
      if i < |m.writes| { assert t.writes[..|m.writes|][i] == m.writes[i]; }
    }
  }

  lemma KindClosed(s: State, e: nat, t: State)
    requires Inv(s) && e <= s.epoch && (s.attempt.Some? ==> e < s.epoch)
    requires Quiet(s, t) || Created(s, t) || Changed(s, t) || Settled(s, t)
    ensures ClosedSince(s, e, t)
  {}

  /** Once the record is settled or replaced no later step writes for it. */
  lemma {:induction false} SettledStays(s: State, e: nat, actions: seq<Action>)
    requires Inv(s) && e <= s.epoch && (s.attempt.Some? ==> e < s.epoch)
    ensures ClosedSince(s, e, Run(s, actions))
    decreases |actions|
  {
    if actions == [] {
      KindClosed(s, e, s);
    } else {
      var m := Apply(s, actions[0]);
      StepKind(s, actions[0]);
      KindKeepsInv(s, m);
      KindClosed(s, e, m);
      SettledStays(m, e, actions[1..]);
      ClosedTransitive(s, m, e, Run(m, actions[1..]));
    }
  }

  lemma SameThenSame(s: State, m: State, t: State)
    requires s.attempt.Some? && m.attempt.Some? && m.epoch == s.epoch && SameRecordLater(s, m) && SameRecordLater(m, t)
    ensures SameRecordLater(s, t)
  {}

  lemma SameThenClosed(s: State, m: State, t: State)
    requires s.attempt.Some? && SameRecordLater(s, m) && ClosedSince(m, s.epoch, t)
    ensures SameRecordLater(s, t)
  {
    assert t.writes[..|s.writes|] == t.writes[..|m.writes|][..|s.writes|];
    forall i | |s.writes| <= i < |t.writes| && t.writes[i].epoch == s.epoch
      ensures i < |m.writes| && t.writes[i] == m.writes[i]
    {
      if i < |m.writes| { assert t.writes[..|m.writes|][i] == m.writes[i]; }
    }
  }

  lemma {:induction false} RunSameRecord(s: State, actions: seq<Action>)
    requires Inv(s) && s.attempt.Some?
    ensures SameRecordLater(s, Run(s, actions))
    decreases |actions|
  {
    if actions == [] {
      KindSameRecord(s, s);
    } else {
      var m := Apply(s, actions[0]);
      StepKind(s, actions[0]);
      KindKeepsInv(s, m);
      KindSameRecord(s, m);
      if m.attempt.Some? && m.epoch == s.epoch {
        RunSameRecord(m, actions[1..]);
        SameThenSame(s, m, Run(m, actions[1..]));
      } else {
        SettledStays(m, s.epoch, actions[1..]);
        SameThenClosed(s, m, Run(m, actions[1..]));
      }
    }
  }

  /** Generations of one record never decrease, and a publisher that saw an older one never gets its outcome written. */
  lemma GenerationFence(s: State, actions: seq<Action>, seen: nat, w: Writer, expected: bool)
    requires Inv(s) && s.attempt.Some? && seen < s.attempt.value.generation && Run(s, actions).epoch == s.epoch
    ensures
      var t := Run(s, actions);
      var u := Apply(t, Publish(Seen(s.epoch, seen), expected, w));
      && (t.attempt.Some? ==> t.attempt.value.generation >= s.attempt.value.generation)
      && (u == t || (|u.writes| == |t.writes| + 1 && u.writes[|t.writes|].toldCancelled))
  {
    RunSameRecord(s, actions);
  }

  /**
   * A cancel marker on an open record is final: no fallback follows it (the generation and executor's fence stay put),
   * the marker stays, and whoever settles the record is told it is cancelled.
   */
  lemma CancelWins(s: State, actions: seq<Action>)
    requires Inv(s) && s.attempt.Some? && s.cancelMarker
    ensures
      var t := Run(s, actions);
      && (t.epoch == s.epoch && t.attempt.Some? ==>
            t.cancelMarker && t.attempt.value.generation == s.attempt.value.generation)
      && forall i :: |s.writes| <= i < |t.writes| && t.writes[i].epoch == s.epoch ==> t.writes[i].toldCancelled
  {
    RunSameRecord(s, actions);
  }

  /**
   * The result is a cancelled one: the writer heeds what it is told, writes one anyway, or leaves one that is there.
   */
  predicate EndsCancelled(w: Writer, found: Option<Result>)
  {
    match w
    case Honours(_) => true
    case Fixed(outcome) => outcome.cancelled
    case IfUnsettled(outcome) => if found.Some? then found.value.cancelled else outcome.cancelled
  }

  /**
   * Over every run from a marked, open record: whoever settles it leaves a cancelled result exactly when its writer
   * heeds what it is told, writes a cancelled result anyway, or keeps a cancelled one. The lost-settler's writer does
   * none of these unless a cancelled result was there already.
   */
  lemma MarkedSettlement(s: State, actions: seq<Action>, i: nat)
    requires Inv(s) && s.attempt.Some? && s.cancelMarker
    requires |s.writes| <= i < |Run(s, actions).writes| && Run(s, actions).writes[i].epoch == s.epoch
    ensures
      var w := Run(s, actions).writes[i];
      w.wrote.Some? && (w.wrote.value.cancelled <==> EndsCancelled(w.writer, w.found))
  {
    CancelWins(s, actions);
    RunKeepsInv(s, actions);
  }

  /** A ticket cancelled while queued locally, whose supervisor then dies, ends as lost and not as cancelled. */
  lemma LostDespiteCancel()
    ensures
      var s := Run(EMPTY, [Create(true, false), Fallback("busy"), Enqueue, CancelQueued, SupervisorDies,
        SettleAbandoned(Seen(1, 1))]);
      s.cancelMarker && s.attempt.None? && s.result == Some(LOST_LOCAL) && !s.result.value.cancelled
  {
    var s1 := Apply(EMPTY, Create(true, false));
    var s2 := Apply(s1, Fallback("busy"));
    var s3 := Apply(s2, Enqueue);
    var s4 := Apply(s3, CancelQueued);
    var s5 := Apply(s4, SupervisorDies);
    var s6 := Apply(s5, SettleAbandoned(Seen(1, 1)));
    assert Run(s5, [SettleAbandoned(Seen(1, 1))]) == s6;
    assert Run(s4, [SupervisorDies, SettleAbandoned(Seen(1, 1))]) == Run(s5, [SettleAbandoned(Seen(1, 1))]);
    assert Run(s3, [CancelQueued, SupervisorDies, SettleAbandoned(Seen(1, 1))]) ==
      Run(s4, [SupervisorDies, SettleAbandoned(Seen(1, 1))]);
    assert Run(s2, [Enqueue, CancelQueued, SupervisorDies, SettleAbandoned(Seen(1, 1))]) ==
      Run(s3, [CancelQueued, SupervisorDies, SettleAbandoned(Seen(1, 1))]);
    assert Run(s1, [Fallback("busy"), Enqueue, CancelQueued, SupervisorDies, SettleAbandoned(Seen(1, 1))])
        == Run(s2, [Enqueue, CancelQueued, SupervisorDies, SettleAbandoned(Seen(1, 1))]);
  }

  /** The lost-settlers act only where nothing can still produce a result, and never touch a result that is there. */
  lemma LostSettlersKeepResults(s: State, a: Action)
    requires a.SettleAbandoned? || a.SettleDeadPending?
    ensures s.result.Some? ==> Apply(s, a).result == s.result
    ensures Apply(s, a) != s ==> !s.leased && !s.queued && !s.parked
    ensures Apply(s, a) != s && a.SettleAbandoned? ==>
      !s.supervisorAlive && s.attempt.Some? && s.attempt.value.executor == Local && !s.attempt.value.moving
    ensures Apply(s, a) != s && a.SettleDeadPending? ==> !s.pendingAlive && s.attempt.None?
    ensures Apply(s, a) != s ==> Apply(s, a).attempt.None? && Apply(s, a).result.Some?
  {}

  // ---------------------------------------------------------------- what an update wrote stays

  /** The action may write the field, if it finds the record. */
  predicate WritesField(a: Action, key: string)
  {
    match a
    case PatchLocked(p) => key in p.fields
    case Update(_, p, _, _) => key in p.fields
    case Fallback(_) => key == "phase" || key == "fallbackReason"
    case _ => false
  }

  /** In `t` the record of `s` is still open with that field unchanged, or it is settled, or another has replaced it. */
  ghost predicate KeepsField(s: State, key: string, t: State)
    requires s.attempt.Some?
  {
    && s.epoch <= t.epoch
    && (t.epoch == s.epoch && t.attempt.Some? ==> SameField(s.attempt.value, t.attempt.value, key))
  }

  /** A locked body that is no edit leaves the record as it is, settles it, or opens one under a new epoch. */
  lemma OthersKeepRecord(s: State, a: Action)
    requires !(a.PatchLocked? || a.Update? || a.Fallback?)
    ensures
      var t := Apply(s, a); t.epoch > s.epoch || (t.epoch == s.epoch && (t.attempt == s.attempt || t.attempt.None?))
  {
    match a
    case Publish(asked, expected, w) => PublishKeepsKnown(s, asked, expected, w);
    case SettleAbandoned(asked) =>
      PublishKeepsKnown(s, asked, s.attempt.Some? && IsAbandoned(s), IfUnsettled(LOST_LOCAL));
    case _ =>
  }

  /** One locked body keeps a field that it does not write. */
  lemma StepKeepsField(s: State, a: Action, key: string)
    requires s.attempt.Some? && !WritesField(a, key)
    ensures KeepsField(s, key, Apply(s, a))
  {
    match a
    case PatchLocked(p) => MergeMeaning(s.attempt.value, p);
    case Update(_, p, _, _) => MergeMeaning(s.attempt.value, p);
    case Fallback(_) =>
    case _ => OthersKeepRecord(s, a);
  }

  /** Once no record of an epoch is open, none is ever again. */
  lemma {:induction false} ClosedForGood(s: State, e: nat, actions: seq<Action>)
    requires e <= s.epoch && (s.attempt.Some? ==> e < s.epoch)
    ensures var t := Run(s, actions); e <= t.epoch && (t.attempt.Some? ==> e < t.epoch)
    decreases |actions|
  {
    if actions != [] {
      StepEpoch(s, actions[0]);
      OpensByCreate(s, actions[0]);
      ClosedForGood(Apply(s, actions[0]), e, actions[1..]);
    }
  }

  lemma OpensByCreate(s: State, a: Action)
    ensures s.attempt.None? && Apply(s, a).attempt.Some? ==> Apply(s, a).epoch == s.epoch + 1
  {
    StepKind(s, a);
  }

  /** A field keeps its value as long as no action of the run writes it and the record is open. */
  lemma {:induction false} FieldStays(s: State, actions: seq<Action>, key: string)
    requires s.attempt.Some? && forall a :: a in actions ==> !WritesField(a, key)
    ensures KeepsField(s, key, Run(s, actions))
    decreases |actions|
  {
    if actions != [] {
      var m := Apply(s, actions[0]);
      StepKeepsField(s, actions[0], key);
      if m.attempt.Some? && m.epoch == s.epoch {
        FieldStays(m, actions[1..], key);
      } else {
        ClosedForGood(m, s.epoch, actions[1..]);
      }
    }
  }

  /**
   * What an update wrote stands in the record through every run in which nothing writes that field, for as long as the
   * record is open; a field it dropped stays away.
   */
  lemma UpdateIsKept(s: State, patch: Patch, fenced: bool, actions: seq<Action>, key: string)
    requires s.attempt.Some? && key in patch.fields && forall a :: a in actions ==> !WritesField(a, key)
    ensures
      var update := if fenced then Update(s.attempt.value.generation, patch, false, false) else PatchLocked(patch);
      var t := Run(Apply(s, update), actions);
      t.epoch == s.epoch && t.attempt.Some? ==>
        if patch.fields[key].Some?
        then key in t.attempt.value.fields && t.attempt.value.fields[key] == patch.fields[key].value
        else key !in t.attempt.value.fields
  {
    var m := s.(attempt := Some(Merge(s.attempt.value, patch)));
    MergeMeaning(s.attempt.value, patch);
    FieldStays(m, actions, key);
  }

  // ---------------------------------------------------------------- one record per id

  /** Every create of the run deduplicates, or its id is one that nothing knows yet. */
  ghost predicate Careful(s: State, actions: seq<Action>)
    decreases |actions|
  {
    || actions == []
    || ((actions[0].Create? ==> actions[0].dedup || !Known(s)) && Careful(Apply(s, actions[0]), actions[1..]))
  }

  /** A settled ticket keeps a result, so a careful create is refused from then on. */
  ghost predicate OneRecord(s: State)
  {
    s.epoch <= 1 && (s.epoch == 1 ==> s.attempt.Some? || s.result.Some?) && (s.epoch == 0 ==> s.attempt.None?)
  }

  lemma {:induction false} WritesCountRecords(s: State, i: nat)
    requires Inv(s) && i < |s.writes|
    ensures i < s.writes[i].epoch <= s.epoch
  {
    if i > 0 { WritesCountRecords(s, i - 1); }
  }

  lemma StepOneRecord(s: State, a: Action)
    requires OneRecord(s) && (a.Create? ==> a.dedup || !Known(s))
    ensures OneRecord(Apply(s, a))
  {}

  /** With careful creates an id has at most one attempt record ever, so the writer runs at most once at all. */
  lemma {:induction false} DedupedSettlesOnce(s: State, actions: seq<Action>)
    requires Inv(s) && OneRecord(s) && Careful(s, actions)
    ensures OneRecord(Run(s, actions)) && |Run(s, actions).writes| <= 1
    decreases |actions|
  {
    if actions == [] {
      if s.writes != [] { WritesCountRecords(s, |s.writes| - 1); }
    } else {
      StepKeepsInv(s, actions[0]);
      StepOneRecord(s, actions[0]);
      DedupedSettlesOnce(Apply(s, actions[0]), actions[1..]);
    }
  }

  // ---------------------------------------------------------------- whose record a publisher settles

  /** A create that writes a record. */
  predicate Creates(s: State, a: Action) { a.Create? && !(a.dedup && Known(s)) && !a.migrating }

  function CreatesIn(s: State, actions: seq<Action>): nat
    decreases |actions|
  {
    if actions == [] then 0
    else (if Creates(s, actions[0]) then 1 else 0) + CreatesIn(Apply(s, actions[0]), actions[1..])
  }

  lemma {:induction false} EpochsCountCreates(s: State, actions: seq<Action>)
    ensures Run(s, actions).epoch == s.epoch + CreatesIn(s, actions)
    decreases |actions|
  {
    if actions != [] {
      StepEpoch(s, actions[0]);
      EpochsCountCreates(Apply(s, actions[0]), actions[1..]);
    }
  }

  lemma StepEpoch(s: State, a: Action)
    ensures Apply(s, a).epoch == s.epoch + if Creates(s, a) then 1 else 0
  {
    match a
    case Publish(asked, expected, w) => PublishKeepsKnown(s, asked, expected, w);
    case SettleAbandoned(asked) =>
      PublishKeepsKnown(s, asked, s.attempt.Some? && IsAbandoned(s), IfUnsettled(LOST_LOCAL));
    case _ =>
  }

  lemma PublishKeepsKnown(s: State, asked: Seen, expected: bool, w: Writer)
    ensures var t := PublishStep(s, asked, expected, w);
      t.epoch == s.epoch && (s.attempt.Some? || s.result.Some? ==> t.attempt.Some? || t.result.Some?)
  {
    if s.attempt.Some? {
      SettleLeavesResult(s, asked, w, true);
      SettleLeavesResult(s, asked, w, false);
    }
  }

  lemma SettleLeavesResult(s: State, asked: Seen, w: Writer, cancelled: bool)
    requires s.attempt.Some?
    ensures Settle(s, asked, w, cancelled).result.Some? && Settle(s, asked, w, cancelled).epoch == s.epoch
  {
    match w
    case Honours(_) =>
    case Fixed(_) =>
    case IfUnsettled(_) =>
  }

  /** From `t` to `u` an outcome that is not a cancellation was written, for another record than `epoch`. */
  ghost predicate Misdirected(t: State, u: State, epoch: nat)
  {
    |u.writes| == |t.writes| + 1 && u.writes[|t.writes|].epoch != epoch && !u.writes[|t.writes|].toldCancelled
  }

  /**
   * A publisher that read a record in `s` and acts after any run writes its outcome for another record exactly when a
   * create succeeded in between and the record open by then is unmarked and of the generation the publisher read.
   */
  lemma MisdirectedExactly(s: State, actions: seq<Action>, expected: bool, w: Writer)
    requires s.attempt.Some?
    ensures var g, t := s.attempt.value.generation, Run(s, actions);
      Misdirected(t, Apply(t, Publish(Seen(s.epoch, g), expected, w)), s.epoch)
       <==>
        CreatesIn(s, actions) > 0 && expected && t.attempt.Some? && !t.cancelMarker && t.attempt.value.generation == g
  {
    EpochsCountCreates(s, actions);
  }

  /** Careful creates never do that: while a record is open, and after it is settled, its id is known. */
  lemma {:induction false} CarefulNeverMisdirects(s: State, actions: seq<Action>)
    requires (s.attempt.Some? || s.result.Some?) && Careful(s, actions)
    ensures CreatesIn(s, actions) == 0
    decreases |actions|
  {
    if actions != [] {
      StaysKnown(s, actions[0]);
      CarefulNeverMisdirects(Apply(s, actions[0]), actions[1..]);
    }
  }

  lemma StaysKnown(s: State, a: Action)
    requires s.attempt.Some? || s.result.Some?
    ensures Apply(s, a).attempt.Some? || Apply(s, a).result.Some?
  {
    match a
    case Publish(asked, expected, w) => PublishKeepsKnown(s, asked, expected, w);
    case SettleAbandoned(asked) =>
      PublishKeepsKnown(s, asked, s.attempt.Some? && IsAbandoned(s), IfUnsettled(LOST_LOCAL));
    case _ =>
  }

  /** A second create of an open id without deduplication: the first record's publisher settles the second. */
  lemma ReusedIdNeedsDedup(w: Writer)
    ensures
      var s := Run(EMPTY, [Create(false, false)]);
      var t := Run(s, [Create(false, false)]);
      s.epoch == 1 && s.attempt.Some? && Misdirected(t, Apply(t, Publish(Seen(1, 0), true, w)), 1)
  {
    var s := Apply(EMPTY, Create(false, false));
    assert Run(s, []) == s && Run(EMPTY, [Create(false, false)]) == s;
    var t := Apply(s, Create(false, false));
    assert Run(t, []) == t && Run(s, [Create(false, false)]) == t;
  }
}
