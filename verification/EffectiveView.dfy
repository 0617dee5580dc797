/**
 * The one list every selector walks (src/priority.js `promoteReservationOwner`, src/fairness.js `effectiveView`): the
 * queue in priority order, then at most one reservation owner moved to the front.
 */
module EffectiveView {
  import opened Common
  import opened Sorting
  import opened Priority

  datatype Reservation = Reservation(id: string, number: int)

  /** Lower number first, then lower id. */
  predicate OlderThan(a: Reservation, b: Reservation)
  {
    a.number < b.number || (a.number == b.number && TextLess(a.id, b.id))
  }

  function Older(): (Reservation, Reservation) -> bool { (a: Reservation, b: Reservation) => OlderThan(a, b) }

  lemma OlderIsOrder()
    ensures StrictWeakOrder(Older())
  {
    var before := Older();
    forall x, y ensures before(x, y) ==> !before(y, x) { TextOrder(x.id, y.id, x.id); }
    forall x, y, z ensures before(x, y) && before(y, z) ==> before(x, z) { TextOrder(x.id, y.id, z.id); }
    forall x, y, z ensures before(x, z) ==> before(x, y) || before(y, z) { TextOrder(x.id, y.id, z.id); }
  }

  /** The first record of the queue with this id. */
  function IndexOfId(q: Queue, id: string): (r: Option<nat>)
    ensures r.Some? ==>
      && r.value < |q| && q[r.value].Some? && q[r.value].value.id == id
      && forall i :: 0 <= i < r.value && q[i].Some? ==> q[i].value.id != id
    ensures r.None? ==> forall i :: 0 <= i < |q| && q[i].Some? ==> q[i].value.id != id
  {
    if q == [] then None
    else if q[0].Some? && q[0].value.id == id then Some(0)
    else
      var r := IndexOfId(q[1..], id);
      assert forall i :: 1 <= i < |q| ==> q[i] == q[1..][i - 1];
      if r.Some? then Some(r.value + 1) else None
  }

  /**
   * Owner `id` may be promoted: queued with no unreadable record before it, and not a sim behind another kind of
   * ticket.
   */
  predicate MayPromote(q: Queue, id: string)
  {
    var i := IndexOfId(q, id);
    && i.Some?
    && (forall k :: 0 <= k < i.value ==> q[k].Some?)
    && (q[i.value].value.isSim ==> forall k :: 0 <= k < i.value && q[k].Some? ==> q[k].value.isSim)
  }

  function Promotable(q: Queue): Reservation -> bool { (r: Reservation) => MayPromote(q, r.id) }

  function MovedToFront(q: Queue, i: nat): Queue
    requires i < |q|
  {
    [q[i]] + q[..i] + q[i + 1..]
  }

  /**
   * What promotion does: with no reservation that may be promoted the queue stays; otherwise the oldest such
   * reservation's owner goes to the front and everything else keeps its order.
   */
  ghost predicate IsPromotion(q: Queue, reservations: seq<Reservation>, out: Queue, owner: Option<string>)
  {
    if owner.None? then out == q && forall r :: r in reservations ==> !MayPromote(q, r.id)
    else
      && MayPromote(q, owner.value) && out == MovedToFront(q, IndexOfId(q, owner.value).value)
      && exists r ::
           && r in reservations && r.id == owner.value
           && forall other :: other in reservations && MayPromote(q, other.id) ==> !OlderThan(other, r)
  }

  /** The first promotable reservation in age order is the oldest promotable one. */
  lemma FirstIsOldest(q: Queue, reservations: seq<Reservation>, r: Reservation)
    requires FirstThat(StableSort(reservations, Older()), Promotable(q)) == Some(r)
    ensures r in reservations
    ensures forall other :: other in reservations && MayPromote(q, other.id) ==> !OlderThan(other, r)
  {
    OlderIsOrder();
    FirstOfSorted(reservations, Promotable(q), Older());
    var k := LeastMeaning(reservations, Promotable(q), Older());
    forall other | other in reservations && MayPromote(q, other.id) ensures !OlderThan(other, r) {
      var i :| 0 <= i < |reservations| && reservations[i] == other;
      assert Promotable(q)(reservations[i]) && !Older()(reservations[i], reservations[k]);
    }
  }

  lemma NoneIsPromotable(q: Queue, reservations: seq<Reservation>)
    requires FirstThat(StableSort(reservations, Older()), Promotable(q)).None?
    ensures forall r :: r in reservations ==> !MayPromote(q, r.id)
  {
    FirstIsMember(StableSort(reservations, Older()), Promotable(q));
    SortMembers(reservations, Older());
    assert forall r :: r in reservations ==> !Promotable(q)(r);
  }

  /** The index the loop promotes from, if the owner `id` qualifies. */
  method PromotionIndex(q: Queue, reach: nat, id: string) returns (index: Option<nat>)
    requires reach == Reach(q)
    ensures index.Some? <==> MayPromote(q, id)
    ensures index.Some? ==> index == IndexOfId(q, id)
  {
    index := IndexOfId(q, id);
    if index.None? || index.value >= reach { return None; }
    var i := index.value;
    var testAhead := exists k :: 0 <= k < i && q[k].Some? && !q[k].value.isSim;
    if q[i].value.isSim && testAhead { return None; }
  }

  /**
   * In records: the first one with this id is reached without an unreadable record, and if it is a sim, only sims are
   * before it.
   */
  predicate CanMoveUp(q: Queue, id: string) { exists i :: 0 <= i < |q| && CanMoveFrom(q, id, i) }

  predicate CanMoveFrom(q: Queue, id: string, i: int)
  {
    && 0 <= i < |q| && q[i].Some? && q[i].value.id == id
    && (forall k :: 0 <= k < i ==> q[k].Some? && q[k].value.id != id)
    && (q[i].value.isSim ==> forall k :: 0 <= k < i ==> q[k].Some? && q[k].value.isSim)
  }

  lemma MayPromoteMeaning(q: Queue, id: string)
    ensures MayPromote(q, id) <==> CanMoveUp(q, id)
  {
    var first := IndexOfId(q, id);
    if MayPromote(q, id) { assert CanMoveFrom(q, id, first.value); }
    if CanMoveUp(q, id) {
      var i :| 0 <= i < |q| && CanMoveFrom(q, id, i);
      assert first == Some(i);
    }
  }

  /** The owner is one with a reservation that can move up, and of all those none has a lower number. */
  ghost predicate OwnsOldest(q: Queue, reservations: seq<Reservation>, owner: string)
  {
    && CanMoveUp(q, owner)
    && exists r ::
         && r in reservations && r.id == owner
         && forall other :: other in reservations && CanMoveUp(q, other.id) ==>
              r.number < other.number || (r.number == other.number && !TextLess(other.id, r.id))
  }

  lemma PromotionInRecords(q: Queue, reservations: seq<Reservation>, out: Queue, owner: Option<string>)
    requires IsPromotion(q, reservations, out, owner)
    ensures if owner.Some? then OwnsOldest(q, reservations, owner.value)
      else out == q && forall r :: r in reservations ==> !CanMoveUp(q, r.id)
  {
    forall id ensures MayPromote(q, id) <==> CanMoveUp(q, id) { MayPromoteMeaning(q, id); }
    if owner.Some? {
      var r :| r in reservations && r.id == owner.value
        && forall other :: other in reservations && MayPromote(q, other.id) ==> !OlderThan(other, r);
      forall other | other in reservations && CanMoveUp(q, other.id)
        ensures r.number < other.number || (r.number == other.number && !TextLess(other.id, r.id))
      {
        assert !OlderThan(other, r);
      }
    }
  }

  method PromoteReservationOwner(q: Queue, reservations: seq<Reservation>) returns (out: Queue, owner: Option<string>)
    ensures IsPromotion(q, reservations, out, owner)
    ensures owner.Some? ==> OwnsOldest(q, reservations, owner.value)
    ensures owner.Some? ==> out != [] && out[0].Some? && out[0].value.id == owner.value && multiset(out) == multiset(q)
    ensures owner.None? ==> out == q && forall r :: r in reservations ==> !CanMoveUp(q, r.id)
  {
    out, owner := FirstPromotable(q, reservations);
    PromotionInRecords(q, reservations, out, owner);
    if owner.Some? { MoveKeepsRecords(q, IndexOfId(q, owner.value).value); }
  }

  /** The loop over the reservations in age order. */
  method FirstPromotable(q: Queue, reservations: seq<Reservation>) returns (out: Queue, owner: Option<string>)
    ensures IsPromotion(q, reservations, out, owner)
  {
    var reach := Reach(q);
    var byAge := StableSort(reservations, Older());
    for n := 0 to |byAge|
      invariant FirstThat(byAge, Promotable(q)) == FirstThat(byAge[n..], Promotable(q))
    {
      var r := byAge[n];
      assert byAge[n..] == [r] + byAge[n + 1..];
      var index := PromotionIndex(q, reach, r.id);
      if index.None? { continue; }
      FirstIsOldest(q, reservations, r);
      return if index.value == 0 then q else MovedToFront(q, index.value), Some(r.id);
    }
    NoneIsPromotable(q, reservations);
    return q, None;
  }

  /** The index of the first unreadable record, or the length. */
  function Reach(q: Queue): (r: nat)
    ensures r <= |q| && (forall k :: 0 <= k < r ==> q[k].Some?) && (r < |q| ==> q[r].None?)
  {
    if q == [] || q[0].None? then 0 else 1 + Reach(q[1..])
  }

  /** Reservations exist only in active mode with a skip limit, and only for queued, eligible owners. */
  function LiveReservations(
    raw: Queue, all: seq<Reservation>, reservable: bool, eligible: Ticket -> bool): (r: seq<Reservation>)
    ensures forall x ::
      x in r <==>
        && reservable && x in all
        && exists i :: 0 <= i < |raw| && raw[i].Some? && raw[i].value.id == x.id && eligible(raw[i].value)
  {
    if !reservable || all == [] then []
    else
      var rest := LiveReservations(raw, all[1..], reservable, eligible);
      if exists i :: 0 <= i < |raw| && raw[i].Some? && raw[i].value.id == all[0].id && eligible(raw[i].value)
      then [all[0]] + rest
      else rest
  }

  method EffectiveView(
    raw: Queue, now: int, cfg: Config, sims: bool, all: seq<Reservation>, reservable: bool, eligible: Ticket -> bool)
    returns (queue: Queue, owner: Option<string>, ghost ordered: Queue, ghost perm: seq<nat>)
    requires cfg.ageMax > 0
    ensures IsOrdering(raw, ordered, perm, KeysAt(now, cfg, sims))
    ensures IsPromotion(ordered, LiveReservations(raw, all, reservable, eligible), queue, owner)
    ensures multiset(queue) == multiset(raw)
    ensures |queue| == |raw| && forall i :: 0 <= i < |raw| ==> (raw[i].None? <==> queue[i].None?)
  {
    var q;
    q, perm := OrderQueue(raw, now, cfg, sims);
    ordered := q;
    queue, owner := PromoteReservationOwner(q, LiveReservations(raw, all, reservable, eligible));
    ViewKeepsRecords(raw, ordered, perm, KeysAt(now, cfg, sims), LiveReservations(raw, all, reservable, eligible),
      queue, owner);
  }

  lemma ViewKeepsRecords(
    raw: Queue, ordered: Queue, perm: seq<nat>, keys: Keys, live: seq<Reservation>, queue: Queue, owner: Option<string>)
    requires IsOrdering(raw, ordered, perm, keys) && IsPromotion(ordered, live, queue, owner)
    ensures multiset(queue) == multiset(raw)
    ensures |queue| == |raw| && forall i :: 0 <= i < |raw| ==> (raw[i].None? <==> queue[i].None?)
  {
    OrderingKeepsRecords(raw, ordered, perm, keys);
    if owner.Some? { MoveKeepsRecords(ordered, IndexOfId(ordered, owner.value).value); }
  }

  lemma MoveKeepsRecords(q: Queue, k: nat)
    requires k < |q| && forall i :: 0 <= i <= k ==> q[i].Some?
    ensures multiset(MovedToFront(q, k)) == multiset(q)
    ensures |MovedToFront(q, k)| == |q| && forall i :: 0 <= i < |q| ==> (q[i].None? <==> MovedToFront(q, k)[i].None?)
  {
    Middle(q, k);
    assert MovedToFront(q, k) == [q[k]] + (q[..k] + q[k + 1..]);
  }

  /** Everyone but the promoted owner keeps the relative order of the priority order. */
  lemma OthersKeepOrder(q: Queue, live: seq<Reservation>, out: Queue, owner: string, i: nat, j: nat)
    requires IsPromotion(q, live, out, Some(owner)) && i < j < |q|
    requires i != IndexOfId(q, owner).value && j != IndexOfId(q, owner).value
    ensures exists a, b :: 0 < a < b < |out| && out[a] == q[i] && out[b] == q[j]
  {
    var k := IndexOfId(q, owner).value;
    AfterMove(q, k, i);
    AfterMove(q, k, j);
    var a, b := if i < k then i + 1 else i, if j < k then j + 1 else j;
    assert 0 < a < b < |out| && out[a] == q[i] && out[b] == q[j];
  }

  /** Where a record other than the moved one goes. */
  lemma AfterMove(q: Queue, k: nat, i: nat)
    requires k < |q| && i < |q| && i != k
    ensures |MovedToFront(q, k)| == |q| && MovedToFront(q, k)[if i < k then i + 1 else i] == q[i]
  {}

  /** A promoted sim overtakes only sims, and no promotion crosses an unreadable record. */
  lemma PromotionOvertakes(q: Queue, live: seq<Reservation>, out: Queue, owner: string, i: nat)
    requires IsPromotion(q, live, out, Some(owner)) && i < IndexOfId(q, owner).value
    ensures q[i].Some? && out[0].Some? && out[0].value.id == owner
    ensures out[0].value.isSim ==> q[i].value.isSim
  {}
}
