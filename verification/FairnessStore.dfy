/**
 * The per-ticket counters of the scheduler (src/fairness.js): a map in memory that is kept equal to the file it was
 * last persisted to, whatever persist fails. A stored object is a map from keys to values; an undefined value is an
 * absent key.
 */
module FairnessStore {
  import opened Common
  import EffectiveView

  type Id = string

  datatype Kind = Conflict | Capacity | Resource

  datatype Value = Null | Num(n: int) | Flag(b: bool) | Text(s: string)

  /** The keys the store itself knows, and any other. */
  datatype Key =
    | HeadId | Count | SkipsCharged | BlockedSince | GraceStartedAt | ReasonKey | Reserved | ReservationSeq
    | BehindConflict | InScope | OtherKey(name: string)

  type Obj = map<Key, Value>

  type Tickets = map<Id, map<Kind, Obj>>

  function KindName(kind: Kind): string
  {
    match kind case Conflict => "conflict" case Capacity => "capacity" case Resource => "resource"
  }

  // ---------------------------------------------------------------- the two shapes

  function Pick(o: Obj, key: Key): Option<Value> { if key in o then Some(o[key]) else None }

  /** The object with one key, or none when the value is undefined. */
  function Single(key: Key, v: Option<Value>): Obj { if v.Some? then map[key := v.value] else map[] }

  /** `graceStartedAt ?? blockedSince` */
  function Coalesce(a: Option<Value>, b: Option<Value>): Option<Value> { if a.Some? && a.value != Null then a else b }

  function ToRecord(kind: Kind, raw: Obj): Obj
  {
    var rest := raw - {HeadId, Count};
    if kind == Conflict then
      var blocked := Pick(rest, BlockedSince);
      map[ReasonKey := Text(KindName(kind))] + Single(SkipsCharged, Pick(raw, Count))
      + Single(BlockedSince, blocked) + Single(GraceStartedAt, blocked)
      + (rest - {BlockedSince})
    else
      map[ReasonKey := Text(KindName(kind))] + Single(SkipsCharged, Pick(raw, Count)) + rest
  }

  function ToRaw(kind: Kind, headId: Id, rec: Obj): Obj
  {
    var rest := rec - {SkipsCharged, GraceStartedAt, BlockedSince, ReasonKey};
    var head := map[HeadId := Text(headId)] + Single(Count, Pick(rec, SkipsCharged));
    if kind == Conflict then
      head + Single(BlockedSince, Coalesce(Pick(rec, GraceStartedAt), Pick(rec, BlockedSince))) + rest
    else head + rest
  }

  /** Keys of a raw object that the stored shape has another use for. */
  function ReservedKeys(kind: Kind): set<Key>
  {
    {ReasonKey, SkipsCharged, GraceStartedAt} + (if kind == Conflict then {} else {BlockedSince})
  }

  /**
   * Storing and reading back gives what was stored, under the reader's head id, exactly when no reserved key was used.
   */
  lemma RecordRoundTrip(kind: Kind, headId: Id, raw: Obj)
    ensures ToRaw(kind, headId, ToRecord(kind, raw)) == raw[HeadId := Text(headId)] <==> raw.Keys !! ReservedKeys(kind)
  {
    var back := ToRaw(kind, headId, ToRecord(kind, raw));
    var want := raw[HeadId := Text(headId)];
    if raw.Keys !! ReservedKeys(kind) {
      forall key ensures Pick(back, key) == Pick(want, key) { BackPicks(kind, headId, raw, key); }
      assert forall key :: key in back <==> Pick(back, key).Some?;
      assert forall key :: key in want <==> Pick(want, key).Some?;
      assert forall key :: key in back ==> back[key] == Pick(back, key).value;
      assert back == want;
    } else {
      var key :| key in raw && key in ReservedKeys(kind);
      ReservedNeverComesBack(kind, headId, ToRecord(kind, raw), key);
      assert key in want;
    }
  }

  /** The keys of the objects the scheduler writes; what is left open is under other names. */
  predicate SchedulerKey(kind: Kind, key: Key)
  {
    key in {HeadId, Count} || key.OtherKey? || (kind == Conflict && key == BlockedSince)
    || (kind == Resource && key in {Reserved, ReservationSeq, InScope, BehindConflict})
  }

  /** So whatever the scheduler stores comes back. */
  lemma SchedulerObjectsSurvive(kind: Kind, headId: Id, raw: Obj)
    requires forall key :: key in raw ==> SchedulerKey(kind, key)
    ensures ToRaw(kind, headId, ToRecord(kind, raw)) == raw[HeadId := Text(headId)]
  {
    assert raw.Keys !! ReservedKeys(kind);
    RecordRoundTrip(kind, headId, raw);
  }

  lemma BackPicks(kind: Kind, headId: Id, raw: Obj, key: Key)
    requires raw.Keys !! ReservedKeys(kind)
    ensures Pick(ToRaw(kind, headId, ToRecord(kind, raw)), key) == Pick(raw[HeadId := Text(headId)], key)
  {
    var rec := ToRecord(kind, raw);
    RecordPicks(kind, raw, key);
    RawPicks(kind, headId, rec, key);
    if key == Count {
      RecordPicks(kind, raw, SkipsCharged);
    } else if key == BlockedSince {
      RecordPicks(kind, raw, GraceStartedAt);
    }
  }

  /** What the stored record holds under a key. */
  lemma RecordPicks(kind: Kind, raw: Obj, key: Key)
    requires raw.Keys !! ReservedKeys(kind)
    ensures Pick(ToRecord(kind, raw), key) ==
      if key == ReasonKey then Some(Text(KindName(kind)))
      else if key == SkipsCharged then Pick(raw, Count)
      else if key == GraceStartedAt && kind == Conflict then Pick(raw, BlockedSince)
      else if key == HeadId || key == Count then None
      else Pick(raw, key)
  {
    var rest, skips := raw - {HeadId, Count}, Single(SkipsCharged, Pick(raw, Count));
    var named := map[ReasonKey := Text(KindName(kind))];
    if kind == Conflict {
      var blocked, grace :=
        Single(BlockedSince, Pick(rest, BlockedSince)), Single(GraceStartedAt, Pick(rest, BlockedSince));
      PickOverlay(named, skips, key);
      PickOverlay(named + skips, blocked, key);
      PickOverlay(named + skips + blocked, grace, key);
      PickOverlay(named + skips + blocked + grace, rest - {BlockedSince}, key);
    } else {
      PickOverlay(named, skips, key);
      PickOverlay(named + skips, rest, key);
    }
  }

  /** `{...a, ...b}`: what `b` has wins. */
  lemma PickOverlay(a: Obj, b: Obj, key: Key)
    ensures Pick(a + b, key) == if key in b then Pick(b, key) else Pick(a, key)
  {}

  /** What reading it back yields under a key. */
  lemma RawPicks(kind: Kind, headId: Id, rec: Obj, key: Key)
    requires HeadId !in rec && Count !in rec
    ensures Pick(ToRaw(kind, headId, rec), key) ==
      if key == HeadId then Some(Text(headId))
      else if key == Count then Pick(rec, SkipsCharged)
      else if key == BlockedSince && kind == Conflict then Coalesce(Pick(rec, GraceStartedAt), Pick(rec, BlockedSince))
      else if key in {SkipsCharged, GraceStartedAt, BlockedSince, ReasonKey} then None
      else Pick(rec, key)
  {}

  /** The record says which of the three it is. */
  lemma RecordNamesItsKind(raw: Obj)
    requires ReasonKey !in raw
    ensures Pick(ToRecord(Conflict, raw), ReasonKey) == Some(Text("conflict"))
    ensures Pick(ToRecord(Capacity, raw), ReasonKey) == Some(Text("capacity"))
    ensures Pick(ToRecord(Resource, raw), ReasonKey) == Some(Text("resource"))
  {}

  /** A conflict counts from the start of its grace if that is known, else from when it was blocked. */
  lemma BlockedSinceMeaning(headId: Id, rec: Obj)
    requires HeadId !in rec && Count !in rec
    ensures Pick(ToRaw(Conflict, headId, rec), BlockedSince) ==
      if GraceStartedAt in rec && rec[GraceStartedAt] != Null then Some(rec[GraceStartedAt])
      else if BlockedSince in rec then Some(rec[BlockedSince]) else None
  {
    RawPicks(Conflict, headId, rec, BlockedSince);
  }

  lemma ReservedNeverComesBack(kind: Kind, headId: Id, rec: Obj, key: Key)
    requires key in ReservedKeys(kind)
    ensures key !in ToRaw(kind, headId, rec)
  {}

  // ---------------------------------------------------------------- the operations

  datatype Op =
    | Write(kind: Kind, id: Id, raw: Obj)
    | DropResource(id: Id)
    | Depart(id: Id)
    | Prune(queue: seq<Option<Id>>, provisional: set<Id>)
    | ReleaseReservations

  function RecordsOf(t: Tickets, id: Id): map<Kind, Obj> { if id in t then t[id] else map[] }

  predicate Latched(records: map<Kind, Obj>)
  {
    Resource in records && Pick(records[Resource], Reserved) == Some(Flag(true))
  }

  /**
   * The records a ticket has after `op`, None when it has no entry. This is what each operation means, ticket by
   * ticket.
   */
  function EntryAfter(t: Tickets, op: Op, id: Id): Option<map<Kind, Obj>>
  {
    var now := if id in t then Some(t[id]) else None;
    match op
    case Write(kind, head, raw) => if id == head then Some(RecordsOf(t, id)[kind := ToRecord(kind, raw)]) else now
    case DropResource(head) =>
      if id == head && now.Some? && Resource in now.value
      then
        Some(now.value[Resource := now.value[Resource][BehindConflict := Flag(false)][InScope := Flag(false)]]) else now
    case Depart(gone) => if id == gone then None else now
    case Prune(queue, provisional) => if None in queue || Some(id) in queue || id in provisional then now else None
    case ReleaseReservations => if now.Some? && Latched(now.value) then Some(now.value - {Resource}) else now
  }

  /** The record of this kind of this ticket is there in both with the same content, or in neither. */
  predicate SameRecord(t: Tickets, t': Tickets, kind: Kind, id: Id)
  {
    && (id in t && kind in t[id] <==> id in t' && kind in t'[id])
    && (id in t && kind in t[id] && id in t' && kind in t'[id] ==> t'[id][kind] == t[id][kind])
  }

  ghost predicate IsNext(t: Tickets, op: Op, t': Tickets)
  {
    forall id :: (if id in t' then Some(t'[id]) else None) == EntryAfter(t, op, id)
  }

  /** Where the operations act: the map in memory and the file. `Valid` says that they agree. */
  class Store {
    var tickets: Tickets
    var persisted: Tickets

    predicate Valid() reads this { tickets == persisted }

    constructor (loaded: Tickets)
      ensures Valid() && tickets == loaded
    {
      tickets, persisted := loaded, loaded;
    }

    /** Writing the file; it may fail and then changes nothing. */
    method Persist(next: Tickets, fails: bool) returns (ok: bool)
      modifies this`persisted
      ensures ok == !fails && persisted == if fails then old(persisted) else next
    {
      if !fails { persisted := next; }
      return !fails;
    }

    method Read(kind: Kind, id: Id) returns (raw: Option<Obj>)
      ensures raw == ReadIn(tickets, kind, id)
    {
      if id in tickets && kind in tickets[id] { return Some(ToRaw(kind, id, tickets[id][kind])); }
      return None;
    }

    /** A failed write is reported to the caller; every other failure below is swallowed. */
    method WriteRecord(kind: Kind, id: Id, raw: Obj, fails: bool) returns (ok: bool)
      requires Valid()
      modifies this
      ensures Valid() && ok == !fails
      ensures if ok then IsNext(old(tickets), Write(kind, id, raw), tickets) else tickets == old(tickets)
      ensures ok ==> id in tickets && kind in tickets[id] && tickets.Keys == old(tickets.Keys) + {id}
      ensures ok ==> forall k :: k != kind ==> SameRecord(old(tickets), tickets, k, id)
      ensures forall other, k :: other != id ==> SameRecord(old(tickets), tickets, k, other)
    {
      var next := tickets[id := (if id in tickets then tickets[id] else map[])[kind := ToRecord(kind, raw)]];
      ok := Persist(next, fails);
      if ok { tickets := tickets + next; assert tickets == next; }
    }

    method DropResourceRecord(id: Id, fails: bool)
      requires Valid()
      modifies this
      ensures Valid()
      ensures if fails then tickets == old(tickets) else IsNext(old(tickets), DropResource(id), tickets)
      ensures !fails && id in old(tickets) && Resource in old(tickets)[id] ==>
        && id in tickets && Resource in tickets[id]
        && forall key ::
             Pick(tickets[id][Resource], key) ==
               if key == BehindConflict || key == InScope then Some(Flag(false))
               else Pick(old(tickets)[id][Resource], key)
      ensures forall other, k :: other != id || k != Resource ==> SameRecord(old(tickets), tickets, k, other)
    {
      if !(id in tickets && Resource in tickets[id]) { return; }
      var out := tickets[id][Resource][BehindConflict := Flag(false)][InScope := Flag(false)];
      var next := tickets[id := tickets[id][Resource := out]];
      var ok := Persist(next, fails);
      if ok { tickets := tickets + next; assert tickets == next; }
    }

    method DepartTicket(id: Id, fails: bool)
      requires Valid()
      modifies this
      ensures Valid()
      ensures if fails then tickets == old(tickets) else IsNext(old(tickets), Depart(id), tickets)
      ensures !fails ==> id !in tickets
      ensures forall other, k :: other != id ==> SameRecord(old(tickets), tickets, k, other)
    {
      if id !in tickets { return; }
      var ok := Persist(tickets - {id}, fails);
      if ok { tickets := tickets - {id}; }
    }

    /** Entries leave the map one by one, after the file without them is written. */
    method PruneDeparted(queue: seq<Option<Id>>, provisional: set<Id>, fails: bool)
      requires Valid()
      modifies this
      ensures Valid()
      ensures if fails then tickets == old(tickets) else IsNext(old(tickets), Prune(queue, provisional), tickets)
      ensures !fails && None !in queue ==> forall id :: id in tickets ==> Some(id) in queue || id in provisional
      ensures forall id, k ::
        fails || None in queue || Some(id) in queue || id in provisional ==> SameRecord(old(tickets), tickets, k, id)
    {
      if None in queue { return; }
      var next := map id | id in tickets && (Some(id) in queue || id in provisional) :: tickets[id];
      if |next.Keys| == |tickets.Keys| {
        assert next.Keys <= tickets.Keys;
        SubsetSize(next.Keys, tickets.Keys);
        return;
      }
      var ok := Persist(next, fails);
      if !ok { return; }
      var todo := tickets.Keys;
      ghost var all := tickets;
      while todo != {}
        invariant todo <= all.Keys
        invariant tickets == map id | id in all && (id in todo || Some(id) in queue || id in provisional) :: all[id]
        invariant persisted == next
      {
        var id :| id in todo;
        todo := todo - {id};
        if !(Some(id) in queue || id in provisional) { tickets := tickets - {id}; }
      }
      assert tickets == next;
    }

    method ReleaseLatches(fails: bool)
      requires Valid()
      modifies this
      ensures Valid()
      ensures if fails then tickets == old(tickets) else IsNext(old(tickets), ReleaseReservations, tickets)
      ensures !fails ==> forall id :: id in tickets && Resource in tickets[id] ==>
        Pick(tickets[id][Resource], Reserved) != Some(Flag(true))
      ensures forall id, k ::
        k != Resource || (id in old(tickets) && Resource in old(tickets)[id]
                          && Pick(old(tickets)[id][Resource], Reserved) != Some(Flag(true))) ==>
        SameRecord(old(tickets), tickets, k, id)
    {
      var held := set id | id in tickets && Latched(tickets[id]);
      if held == {} {
        assert forall id :: id in tickets && Latched(tickets[id]) ==> id in held;
        return;
      }
      var next := tickets;
      var todo := held;
      while todo != {}
        invariant todo <= held && next.Keys == tickets.Keys
        invariant
          forall id :: id in tickets ==> next[id] == if id in held - todo then tickets[id] - {Resource} else tickets[id]
      {
        var id :| id in todo;
        todo := todo - {id};
        next := next[id := tickets[id] - {Resource}];
      }
      var ok := Persist(next, fails);
      if ok { tickets := tickets + next; assert tickets == next; }
    }

    /** The latched tickets with an integer sequence number, each once. */
    method Reservations() returns (list: seq<EffectiveView.Reservation>)
      ensures forall r :: r in list <==> IsReservation(tickets, r)
      ensures forall r ::
        r in list <==>
          && r.id in tickets && Resource in tickets[r.id]
          && Pick(tickets[r.id][Resource], Reserved) == Some(Flag(true))
          && Pick(tickets[r.id][Resource], ReservationSeq) == Some(Num(r.number))
      ensures forall i, j :: 0 <= i < j < |list| ==> list[i].id != list[j].id
    {
      list := [];
      var todo := tickets.Keys;
      while todo != {}
        invariant todo <= tickets.Keys
        invariant forall r :: r in list <==> IsReservation(tickets, r) && r.id !in todo
        invariant forall i, j :: 0 <= i < j < |list| ==> list[i].id != list[j].id
      {
        var id :| id in todo;
        todo := todo - {id};
        if Latched(tickets[id]) {
          var v := Pick(tickets[id][Resource], ReservationSeq);
          if v.Some? && v.value.Num? { list := list + [EffectiveView.Reservation(id, v.value.n)]; }
        }
      }
    }
  }

  function ReadIn(t: Tickets, kind: Kind, id: Id): Option<Obj>
  {
    if id in t && kind in t[id] then Some(ToRaw(kind, id, t[id][kind])) else None
  }

  predicate IsReservation(t: Tickets, r: EffectiveView.Reservation)
  {
    r.id in t && Latched(t[r.id]) && Pick(t[r.id][Resource], ReservationSeq) == Some(Num(r.number))
  }

  // ---------------------------------------------------------------- over every sequence of operations

  /** An operation, and whether its persist succeeded. */
  datatype Step = Step(op: Op, ok: bool)

  /** The states before, between and after the steps: a failed persist leaves everything as it was. */
  ghost predicate IsRun(states: seq<Tickets>, steps: seq<Step>)
  {
    && |states| == |steps| + 1
    && forall i :: 0 <= i < |steps| ==>
         if steps[i].ok then IsNext(states[i], steps[i].op, states[i + 1]) else states[i + 1] == states[i]
  }

  /** `op` may change or remove the record of this kind of this ticket. */
  predicate Touches(t: Tickets, op: Op, kind: Kind, id: Id)
  {
    match op
    case Write(k, head, _) => k == kind && head == id
    case DropResource(head) => kind == Resource && head == id
    case Depart(gone) => gone == id
    case Prune(queue, provisional) => None !in queue && Some(id) !in queue && id !in provisional
    case ReleaseReservations => kind == Resource && Latched(RecordsOf(t, id))
  }

  /** No successful step from `i` to `j` touches the record. */
  ghost predicate Quiet(states: seq<Tickets>, steps: seq<Step>, i: nat, j: nat, kind: Kind, id: Id)
    requires |states| > |steps| >= j
  {
    forall k :: i <= k < j && steps[k].ok ==> !Touches(states[k], steps[k].op, kind, id)
  }

  lemma {:induction false} UntouchedIsKept(states: seq<Tickets>, steps: seq<Step>, i: nat, j: nat, kind: Kind, id: Id)
    requires IsRun(states, steps) && i <= j <= |steps| && Quiet(states, steps, i, j, kind, id)
    ensures ReadIn(states[j], kind, id) == ReadIn(states[i], kind, id)
  {
    if i < j {
      var k := j - 1;
      assert Quiet(states, steps, i, k, kind, id);
      UntouchedIsKept(states, steps, i, k, kind, id);
      StepKeeps(states[k], steps[k], states[k + 1], kind, id);
    }
  }

  lemma StepKeeps(t: Tickets, step: Step, t': Tickets, kind: Kind, id: Id)
    requires if step.ok then IsNext(t, step.op, t') && !Touches(t, step.op, kind, id) else t' == t
    ensures ReadIn(t', kind, id) == ReadIn(t, kind, id)
  {
    if step.ok { OneStepKeeps(t, step.op, t', kind, id); }
  }

  lemma OneStepKeeps(t: Tickets, op: Op, t': Tickets, kind: Kind, id: Id)
    requires IsNext(t, op, t') && !Touches(t, op, kind, id)
    ensures ReadIn(t', kind, id) == ReadIn(t, kind, id)
  {
    assert (if id in t' then Some(t'[id]) else None) == EntryAfter(t, op, id);
  }

  /** What a successful write stored is what every later read returns, failed steps and steps on others in between. */
  lemma WrittenIsRead(states: seq<Tickets>, steps: seq<Step>, i: nat, j: nat)
    requires IsRun(states, steps) && i < j <= |steps| && steps[i].ok && steps[i].op.Write?
    requires Quiet(states, steps, i + 1, j, steps[i].op.kind, steps[i].op.id)
    ensures var w := steps[i].op;
      ReadIn(states[j], w.kind, w.id) == Some(w.raw[HeadId := Text(w.id)]) <==> w.raw.Keys !! ReservedKeys(w.kind)
  {
    var w := steps[i].op;
    UntouchedIsKept(states, steps, i + 1, j, w.kind, w.id);
    assert IsNext(states[i], w, states[i + 1]);
    assert (if w.id in states[i + 1] then Some(states[i + 1][w.id]) else None) == EntryAfter(states[i], w, w.id);
    RecordRoundTrip(w.kind, w.id, w.raw);
  }

  /** No step from `i` to `j` writes a record of this ticket. */
  ghost predicate Unwritten(steps: seq<Step>, i: nat, j: nat, id: Id)
    requires j <= |steps|
  {
    forall k :: i <= k < j ==> !(steps[k].op.Write? && steps[k].op.id == id)
  }

  lemma NextHas(t: Tickets, op: Op, t': Tickets, id: Id)
    requires IsNext(t, op, t')
    ensures id in t' <==> EntryAfter(t, op, id).Some?
  {
    assert (if id in t' then Some(t'[id]) else None) == EntryAfter(t, op, id);
  }

  lemma {:induction false} GoneStaysGone(states: seq<Tickets>, steps: seq<Step>, i: nat, j: nat, id: Id)
    requires IsRun(states, steps) && i <= j <= |steps| && Unwritten(steps, i, j, id) && id !in states[i]
    ensures id !in states[j]
  {
    if i < j {
      GoneStaysGone(states, steps, i, j - 1, id);
      if steps[j - 1].ok {
        assert IsNext(states[j - 1], steps[j - 1].op, states[j]);
        NextHas(states[j - 1], steps[j - 1].op, states[j], id);
      }
    }
  }

  /**
   * A ticket that departed, or that a prune of a readable queue did not find there nor among the provisional ones, has
   * no record of any kind from then on, until one is written for it.
   */
  lemma DepartedIsGone(states: seq<Tickets>, steps: seq<Step>, i: nat, j: nat, id: Id, kind: Kind)
    requires IsRun(states, steps) && i < j <= |steps| && steps[i].ok && Unwritten(steps, i + 1, j, id)
    requires match steps[i].op
      case Depart(gone) => gone == id
      case Prune(queue, provisional) => None !in queue && Some(id) !in queue && id !in provisional
      case _ => false
    ensures id !in states[j] && ReadIn(states[j], kind, id) == None
  {
    assert IsNext(states[i], steps[i].op, states[i + 1]);
    NextHas(states[i], steps[i].op, states[i + 1], id);
    GoneStaysGone(states, steps, i + 1, j, id);
  }

  /** The operation is about this ticket: it names it, or proves it departed, or releases its latch. */
  predicate About(t: Tickets, op: Op, id: Id)
  {
    match op
    case Write(_, head, _) => head == id
    case DropResource(head) => head == id
    case Depart(gone) => gone == id
    case Prune(queue, provisional) => None !in queue && Some(id) !in queue && id !in provisional
    case ReleaseReservations => Latched(RecordsOf(t, id))
  }

  /** An operation changes no ticket it is not about; a prune that sees an unreadable record changes none. */
  lemma OthersUnchanged(t: Tickets, op: Op, t': Tickets, id: Id)
    requires IsNext(t, op, t') && !About(t, op, id)
    ensures id in t' <==> id in t
    ensures id in t ==> t'[id] == t[id]
  {
    assert (if id in t' then Some(t'[id]) else None) == EntryAfter(t, op, id);
  }

  lemma UnreadablePruneRemovesNothing(t: Tickets, queue: seq<Option<Id>>, provisional: set<Id>, t': Tickets)
    requires IsNext(t, Prune(queue, provisional), t') && None in queue
    ensures t' == t
  {
    forall id
      ensures (id in t' <==> id in t) && (id in t ==> t'[id] == t[id])
    {
      OthersUnchanged(t, Prune(queue, provisional), t', id);
    }
  }

  /** After a release nothing is reserved, and a departed ticket reserves nothing. */
  lemma ReleasedReservesNothing(t: Tickets, t': Tickets, r: EffectiveView.Reservation)
    requires IsNext(t, ReleaseReservations, t')
    ensures !IsReservation(t', r)
  {
    assert (if r.id in t' then Some(t'[r.id]) else None) == EntryAfter(t, ReleaseReservations, r.id);
  }

  /** Failed steps might as well not have happened: dropping one leaves a run with the same end. */
  lemma FailedStepVanishes(states: seq<Tickets>, steps: seq<Step>, k: nat)
    requires IsRun(states, steps) && k < |steps| && !steps[k].ok
    ensures var states', steps' := states[..k] + states[k + 1..], steps[..k] + steps[k + 1..];
      IsRun(states', steps') && states'[0] == states[0] && states'[|steps'|] == states[|steps|]
  {
    var states', steps' := states[..k] + states[k + 1..], steps[..k] + steps[k + 1..];
    forall i | 0 <= i < |steps'|
      ensures if steps'[i].ok then IsNext(states'[i], steps'[i].op, states'[i + 1]) else states'[i + 1] == states'[i]
    {
      var j := if i < k then i else i + 1;
      assert steps'[i] == steps[j] && states'[i] == states[j] && states'[i + 1] == states[j + 1];
    }
  }
}
