/**
 * Priority order of the queue (src/priority.js, src/priority-clock.js): the multifactor score over reals, the sort
 * within runs of readable records, the promotion of one reservation owner, and the clock that never runs backwards.
 * Times are in milliseconds. A queue record that could not be read is None.
 */
module Priority {
  import opened Common
  import opened Sorting

  datatype Tier = Low | Medium | High

  datatype Ticket = Ticket(
    id: string, number: Option<int>, admitted: Option<Tier>, aging: bool, exclusive: bool, isSim: bool,
    origin: Option<int>)

  type Queue = seq<Option<Ticket>>

  datatype Config = Config(tier: real, age: real, ageMax: int)

  /** What loading a configuration checks (src/config.js:532-548). */
  predicate ValidConfig(cfg: Config) { cfg.tier >= 0.01 && cfg.age >= cfg.tier && cfg.ageMax >= 60_000 }

  const AGED_CEILING_EPSILON := 0.01
  const STARVATION_HORIZON_FACTOR := 3

  function PriorityOf(t: Ticket): Tier { t.admitted.GetOr(Medium) }

  function TierFactor(tier: Tier): real { match tier case Low => 0.0 case Medium => 0.5 case High => 1.0 }

  function OriginOrNow(origin: Option<int>, now: int): int
  {
    if origin.Some? && 0 <= origin.value <= now then origin.value else now
  }

  function WaitedMs(t: Ticket, now: int): int { Max(0, now - OriginOrNow(t.origin, now)) }

  function CreditedWaitMs(t: Ticket, now: int): int { if !t.aging || t.exclusive then 0 else WaitedMs(t, now) }

  function StarvationHorizonMs(cfg: Config): int { STARVATION_HORIZON_FACTOR * cfg.ageMax }

  function Score(t: Ticket, now: int, cfg: Config): real
    requires cfg.ageMax > 0
  {
    var credited := CreditedWaitMs(t, now);
    var ageFactor := MinReal(1.0, credited as real / cfg.ageMax as real);
    var ceiling :=
      if PriorityOf(t) == High || credited >= StarvationHorizonMs(cfg) then cfg.tier
      else cfg.tier * (1.0 - AGED_CEILING_EPSILON);
    MinReal(ceiling, cfg.tier * TierFactor(PriorityOf(t)) + cfg.age * ageFactor)
  }

  function SimRank(t: Ticket, now: int, cfg: Config, simsAfterTests: bool): int
  {
    if simsAfterTests && t.isSim && WaitedMs(t, now) < cfg.ageMax then 1 else 0
  }

  // ---------------------------------------------------------------- the order

  datatype Key = Key(score: real, simRank: int, number: int, index: int)

  /** How one evaluation sees a ticket at an index. */
  type Keys = (Ticket, int) -> Key

  function KeysAt(now: int, cfg: Config, sims: bool): Keys
    requires cfg.ageMax > 0
  {
    (t: Ticket, index: int) => Key(Score(t, now, cfg), SimRank(t, now, cfg, sims), t.number.GetOr(0), index)
  }

  /** Higher score first, then lower sim rank, then lower number, then the earlier record. */
  predicate Ahead(a: Key, b: Key)
  {
    || a.score > b.score
    || (&& a.score == b.score
        && (|| a.simRank < b.simRank
            || (a.simRank == b.simRank && (a.number < b.number || (a.number == b.number && a.index < b.index)))))
  }

  datatype Entry = Entry(ticket: Ticket, key: Key)

  function ByKey(): (Entry, Entry) -> bool { (a: Entry, b: Entry) => Ahead(a.key, b.key) }

  function IndexKey(): Entry -> int { (e: Entry) => e.key.index }

  lemma ByKeyIsOrder()
    ensures StrictWeakOrder(ByKey())
  {}

  /** No unreadable record lies between `i` and `j`, ends included. */
  predicate SameRun(raw: Queue, i: nat, j: nat)
  {
    forall k :: 0 <= k < |raw| && Min(i, j) <= k <= Max(i, j) ==> raw[k].Some?
  }

  /**
   * `out` is `raw` rearranged by `perm`: unreadable records keep their index, nothing crosses one, and within a run of
   * readable records the order is strictly that of the keys.
   */
  ghost predicate IsOrdering(raw: Queue, out: Queue, perm: seq<nat>, keys: Keys)
  {
    Rearranged(raw, out, perm) && WithinRuns(raw, perm) && InKeyOrder(raw, perm, keys)
  }

  ghost predicate Rearranged(raw: Queue, out: Queue, perm: seq<nat>)
  {
    && |out| == |raw| == |perm|
    && (forall i :: 0 <= i < |perm| ==> perm[i] < |raw| && out[i] == raw[perm[i]])
    && (forall i, j :: 0 <= i < j < |perm| ==> perm[i] != perm[j])
  }

  ghost predicate WithinRuns(raw: Queue, perm: seq<nat>)
    requires |perm| == |raw|
  {
    forall i :: 0 <= i < |perm| ==> if raw[i].None? then perm[i] == i else SameRun(raw, i, perm[i])
  }

  ghost predicate InKeyOrder(raw: Queue, perm: seq<nat>, keys: Keys)
    requires |perm| == |raw|
  {
    forall i, j :: 0 <= i < j < |perm| && SameRun(raw, i, j) ==> AheadAt(raw, perm[i], perm[j], keys)
  }

  predicate AheadAt(raw: Queue, i: nat, j: nat, keys: Keys)
  {
    && i < |raw| && j < |raw| && raw[i].Some? && raw[j].Some?
    && Ahead(keys(raw[i].value, i), keys(raw[j].value, j))
  }

  /** One run sorted: `perm` lists the indices of `run` in key order. */
  ghost predicate IsSortedRun(run: seq<Ticket>, from: nat, sorted: seq<Ticket>, perm: seq<nat>, keys: Keys)
  {
    && |sorted| == |run| == |perm|
    && (forall i :: 0 <= i < |perm| ==> from <= perm[i] < from + |run| && sorted[i] == run[perm[i] - from])
    && (forall i, j :: 0 <= i < j < |perm| ==> perm[i] != perm[j])
    && (forall i, j :: 0 <= i < j < |perm| ==> Ahead(keys(sorted[i], perm[i]), keys(sorted[j], perm[j])))
  }

  /** Sorting entries with distinct indices puts them strictly in key order. */
  lemma EntriesInOrder(entries: seq<Entry>)
    requires DistinctBy(entries, IndexKey())
    ensures var r := StableSort(entries, ByKey());
      |r| == |entries| && (forall i :: 0 <= i < |r| ==> r[i] in entries) && DistinctBy(r, IndexKey())
      && forall i, j :: 0 <= i < j < |r| ==> Ahead(r[i].key, r[j].key)
  {
    SortPermutes(entries, ByKey());
    SortMembers(entries, ByKey());
    ByKeyIsOrder();
    SortSorts(entries, ByKey());
    SortKeepsDistinct(entries, ByKey(), IndexKey());
    var r := StableSort(entries, ByKey());
    forall i, j | 0 <= i < j < |r| ensures Ahead(r[i].key, r[j].key) {
      assert IndexKey()(r[i]) != IndexKey()(r[j]);
      assert !ByKey()(r[j], r[i]);
    }
  }

  function Entries(run: seq<Ticket>, from: nat, keys: Keys): (r: seq<Entry>)
    ensures |r| == |run| && forall i :: 0 <= i < |r| ==> r[i] == Entry(run[i], keys(run[i], from + i))
  {
    seq(|run|, i requires 0 <= i < |run| => Entry(run[i], keys(run[i], from + i)))
  }

  function TicketsOf(entries: seq<Entry>): seq<Ticket>
  {
    seq(|entries|, i requires 0 <= i < |entries| => entries[i].ticket)
  }

  /** The sorted entries of a run, read back, are the sorted run. */
  lemma SortedEntriesAreRun(run: seq<Ticket>, from: nat, keys: Keys, perm: seq<nat>)
    requires forall t, i :: keys(t, i).index == i
    requires var byKey := StableSort(Entries(run, from, keys), ByKey());
      |perm| == |byKey| && forall i :: 0 <= i < |perm| ==> perm[i] == byKey[i].key.index
    ensures IsSortedRun(run, from, TicketsOf(StableSort(Entries(run, from, keys), ByKey())), perm, keys)
  {
    var entries := Entries(run, from, keys);
    EntriesInOrder(entries);
    var byKey := StableSort(entries, ByKey());
    forall i | 0 <= i < |byKey| ensures EntryOf(run, from, keys, byKey[i]) {
      assert byKey[i] in entries;
    }
    forall i, j | 0 <= i < j < |perm| ensures perm[i] != perm[j] && Ahead(byKey[i].key, byKey[j].key) {
      assert IndexKey()(byKey[i]) != IndexKey()(byKey[j]);
    }
  }

  /** `e` is the entry of the ticket at its own index. */
  ghost predicate EntryOf(run: seq<Ticket>, from: nat, keys: Keys, e: Entry)
  {
    from <= e.key.index < from + |run| && e.ticket == run[e.key.index - from] && e.key == keys(e.ticket, e.key.index)
  }

  lemma IndicesInRange(run: seq<Ticket>, from: nat, keys: Keys)
    requires forall t, i :: keys(t, i).index == i
    ensures forall e :: e in StableSort(Entries(run, from, keys), ByKey()) ==> e.key.index >= 0
  {
    SortMembers(Entries(run, from, keys), ByKey());
  }

  /** Sort the run that began at index `from`. */
  method SortRun(run: seq<Ticket>, from: nat, keys: Keys) returns (sorted: seq<Ticket>, ghost perm: seq<nat>)
    requires forall t, i :: keys(t, i).index == i
    ensures IsSortedRun(run, from, sorted, perm, keys)
  {
    var byKey := StableSort(Entries(run, from, keys), ByKey());
    IndicesInRange(run, from, keys);
    assert forall i :: 0 <= i < |byKey| ==> byKey[i] in byKey;
    sorted := TicketsOf(byKey);
    perm := seq(|byKey|, i requires 0 <= i < |byKey| => byKey[i].key.index);
    SortedEntriesAreRun(run, from, keys, perm);
  }

  function AllRead(run: seq<Ticket>): (r: Queue)
    ensures |r| == |run| && forall i :: 0 <= i < |r| ==> r[i] == Some(run[i])
  {
    seq(|run|, i requires 0 <= i < |run| => Some(run[i]))
  }

  lemma AppendBarrier(raw: Queue, i: nat, out: Queue, perm: seq<nat>, keys: Keys)
    requires i < |raw| && raw[i].None? && IsOrdering(raw[..i], out, perm, keys)
    ensures IsOrdering(raw[..i + 1], out + [None], perm + [i], keys)
  {
    BarrierRearranges(raw, i, out, perm);
    BarrierWithin(raw, i, perm);
    BarrierInOrder(raw, i, perm, keys);
  }

  lemma BarrierRearranges(raw: Queue, i: nat, out: Queue, perm: seq<nat>)
    requires i < |raw| && raw[i].None? && Rearranged(raw[..i], out, perm)
    ensures Rearranged(raw[..i + 1], out + [None], perm + [i])
  {
    var raw1, out1, perm1 := raw[..i + 1], out + [None], perm + [i];
    forall a | 0 <= a < |perm1| ensures perm1[a] < |raw1| && out1[a] == raw1[perm1[a]] {
      if a < i { assert out[a] == raw[..i][perm[a]]; }
    }
  }

  lemma BarrierWithin(raw: Queue, i: nat, perm: seq<nat>)
    requires i < |raw| && raw[i].None? && |perm| == i && WithinRuns(raw[..i], perm)
    requires forall a :: 0 <= a < i ==> perm[a] < i
    ensures WithinRuns(raw[..i + 1], perm + [i])
  {
    var raw0, raw1, perm1 := raw[..i], raw[..i + 1], perm + [i];
    forall a | 0 <= a < |perm1| && raw1[a].Some? ensures SameRun(raw1, a, perm1[a]) {
      SameRunPrefix(raw0, raw1, a, perm[a]);
    }
  }

  lemma BarrierInOrder(raw: Queue, i: nat, perm: seq<nat>, keys: Keys)
    requires i < |raw| && raw[i].None? && |perm| == i && InKeyOrder(raw[..i], perm, keys)
    ensures InKeyOrder(raw[..i + 1], perm + [i], keys)
  {
    var raw0, raw1, perm1 := raw[..i], raw[..i + 1], perm + [i];
    assert raw1[i].None?;
    forall a, b | 0 <= a < b < |perm1| && SameRun(raw1, a, b) ensures AheadAt(raw1, perm1[a], perm1[b], keys) {
      SameRunPrefix(raw0, raw1, a, b);
      assert AheadAt(raw0, perm[a], perm[b], keys);
    }
  }

  lemma SameRunPrefix(raw0: Queue, raw1: Queue, a: nat, b: nat)
    requires raw0 <= raw1 && a < |raw0| && b < |raw0|
    ensures SameRun(raw0, a, b) <==> SameRun(raw1, a, b)
  {
    forall k | 0 <= k < |raw0| ensures raw0[k] == raw1[k] {}
  }

  /** The records from `from` to `i` are readable, and what comes before `from`, if anything, is not. */
  predicate IsRun(raw: Queue, from: nat, i: nat, run: seq<Ticket>)
  {
    && from <= i <= |raw| && (from > 0 ==> raw[from - 1].None?) && i - from == |run|
    && forall k :: from <= k < i ==> raw[k] == Some(run[k - from])
  }

  lemma AppendRunRearranges(
    raw: Queue, from: nat, i: nat, run: seq<Ticket>, out: Queue, perm: seq<nat>, sorted: seq<Ticket>, order: seq<nat>,
    keys: Keys)
    requires IsRun(raw, from, i, run) && Rearranged(raw[..from], out, perm)
    requires IsSortedRun(run, from, sorted, order, keys)
    ensures Rearranged(raw[..i], out + AllRead(sorted), perm + order)
  {
    var raw1, out1, perm1 := raw[..i], out + AllRead(sorted), perm + order;
    forall a | 0 <= a < |perm1|
      ensures perm1[a] < |raw1| && out1[a] == raw1[perm1[a]] && (a < from <==> perm1[a] < from)
    {
      if a < from {
        assert perm1[a] == perm[a] && out[a] == raw[..from][perm[a]];
      } else {
        assert perm1[a] == order[a - from];
      }
    }
    forall a, b | 0 <= a < b < |perm1| ensures perm1[a] != perm1[b] {
      if a >= from { assert order[a - from] != order[b - from]; }
    }
  }

  lemma AppendRunWithin(raw: Queue, from: nat, i: nat, run: seq<Ticket>, perm: seq<nat>, order: seq<nat>)
    requires IsRun(raw, from, i, run) && |perm| == from && WithinRuns(raw[..from], perm) && |order| == |run|
    requires (forall a :: 0 <= a < from ==> perm[a] < from) && forall a :: 0 <= a < |order| ==> from <= order[a] < i
    ensures WithinRuns(raw[..i], perm + order)
  {
    var raw0, raw1, perm1 := raw[..from], raw[..i], perm + order;
    forall a | 0 <= a < |perm1| && raw1[a].Some? ensures SameRun(raw1, a, perm1[a]) {
      if a < from { SameRunPrefix(raw0, raw1, a, perm[a]); }
    }
  }

  lemma AppendRunInOrder(
    raw: Queue, from: nat, i: nat, run: seq<Ticket>, perm: seq<nat>, sorted: seq<Ticket>, order: seq<nat>, keys: Keys)
    requires IsRun(raw, from, i, run) && |perm| == from && InKeyOrder(raw[..from], perm, keys)
    requires IsSortedRun(run, from, sorted, order, keys)
    ensures InKeyOrder(raw[..i], perm + order, keys)
  {
    var raw0, raw1, perm1 := raw[..from], raw[..i], perm + order;
    assert from > 0 ==> raw1[from - 1].None?;
    forall a, b | 0 <= a < b < |perm1| && SameRun(raw1, a, b) ensures AheadAt(raw1, perm1[a], perm1[b], keys) {
      if b < from {
        SameRunPrefix(raw0, raw1, a, b);
        assert AheadAt(raw0, perm[a], perm[b], keys);
      } else if a >= from {
        assert Ahead(keys(sorted[a - from], order[a - from]), keys(sorted[b - from], order[b - from]));
      }
    }
  }

  /** Flush: the run that ends before `i` is sorted and appended. */
  method Flush(raw: Queue, i: nat, run: seq<Ticket>, out: Queue, ghost perm: seq<nat>, keys: Keys)
    returns (out': Queue, ghost perm': seq<nat>)
    requires IsRun(raw, |out|, i, run) && IsOrdering(raw[..|out|], out, perm, keys)
    requires forall t, k :: keys(t, k).index == k
    ensures |out'| == i && IsOrdering(raw[..i], out', perm', keys)
  {
    var sorted; ghost var order;
    sorted, order := SortRun(run, |out|, keys);
    AppendRunRearranges(raw, |out|, i, run, out, perm, sorted, order, keys);
    AppendRunWithin(raw, |out|, i, run, perm, order);
    AppendRunInOrder(raw, |out|, i, run, perm, sorted, order, keys);
    out', perm' := out + AllRead(sorted), perm + order;
  }

  /** The state of the loop before record `i`: what is out is ordered, and `run` waits behind it. */
  ghost predicate Collected(raw: Queue, i: nat, run: seq<Ticket>, out: Queue, perm: seq<nat>, keys: Keys)
  {
    i <= |raw| && |out| + |run| == i && IsRun(raw, |out|, i, run) && IsOrdering(raw[..|out|], out, perm, keys)
  }

  lemma CollectNothing(raw: Queue, keys: Keys)
    ensures Collected(raw, 0, [], [], [], keys)
  {}

  lemma CollectTicket(raw: Queue, i: nat, run: seq<Ticket>, out: Queue, perm: seq<nat>, keys: Keys)
    requires Collected(raw, i, run, out, perm, keys) && i < |raw| && raw[i].Some?
    ensures Collected(raw, i + 1, run + [raw[i].value], out, perm, keys)
  {
    var longer := run + [raw[i].value];
    assert IsRun(raw, |out|, i + 1, longer);
  }

  lemma CollectBarrier(raw: Queue, i: nat, out: Queue, perm: seq<nat>, keys: Keys)
    requires i < |raw| && raw[i].None? && |out| == i && IsOrdering(raw[..i], out, perm, keys)
    ensures Collected(raw, i + 1, [], out + [None], perm + [i], keys)
  {
    AppendBarrier(raw, i, out, perm, keys);
  }

  /** The loop of `orderQueue`, for any keys. */
  method OrderBy(raw: Queue, keys: Keys) returns (ordered: Queue, ghost perm: seq<nat>)
    requires forall t, k :: keys(t, k).index == k
    ensures IsOrdering(raw, ordered, perm, keys)
  {
    ordered, perm := [], [];
    var run: seq<Ticket> := [];
    var i := 0;
    CollectNothing(raw, keys);
    while i < |raw|
      invariant Collected(raw, i, run, ordered, perm, keys)
    {
      if raw[i].None? {
        ordered, perm := Flush(raw, i, run, ordered, perm, keys);
        CollectBarrier(raw, i, ordered, perm, keys);
        ordered, run, perm := ordered + [None], [], perm + [i];
      } else {
        CollectTicket(raw, i, run, ordered, perm, keys);
        run := run + [raw[i].value];
      }
      i := i + 1;
    }
    assert raw[..|raw|] == raw;
    ordered, perm := Flush(raw, |raw|, run, ordered, perm, keys);
  }

  method OrderQueue(raw: Queue, now: int, cfg: Config, sims: bool) returns (ordered: Queue, ghost perm: seq<nat>)
    requires cfg.ageMax > 0
    ensures IsOrdering(raw, ordered, perm, KeysAt(now, cfg, sims))
  {
    ordered, perm := OrderBy(raw, KeysAt(now, cfg, sims));
  }

  // ---------------------------------------------------------------- what an ordering is

  /** The numbers below `n`. */
  function Below(n: nat): (r: set<nat>)
    ensures |r| == n && forall i :: i in r <==> 0 <= i < n
  {
    if n == 0 then {} else Below(n - 1) + {n - 1}
  }

  /** A list of distinct numbers below its length holds every one of them. */
  lemma EveryIndexOccurs(perm: seq<nat>, v: nat)
    requires (forall i :: 0 <= i < |perm| ==> perm[i] < |perm|)
    requires (forall i, j :: 0 <= i < j < |perm| ==> perm[i] != perm[j]) && v < |perm|
    ensures v in perm
  {
    ImageSize(perm, |perm|);
    if v !in perm {
      forall w | w in Image(perm, |perm|) ensures w in Below(|perm|) - {v} { ImageHolds(perm, |perm|, w); }
      SubsetSize(Image(perm, |perm|), Below(|perm|) - {v});
    }
  }

  /** The numbers among the first `n` of the list. */
  function Image(perm: seq<nat>, n: nat): set<nat>
    requires n <= |perm|
  {
    if n == 0 then {} else Image(perm, n - 1) + {perm[n - 1]}
  }

  lemma {:induction false} ImageHolds(perm: seq<nat>, n: nat, v: nat)
    requires n <= |perm|
    ensures v in Image(perm, n) <==> v in perm[..n]
  {
    if n > 0 {
      ImageHolds(perm, n - 1, v);
      assert perm[..n] == perm[..n - 1] + [perm[n - 1]];
    }
  }

  lemma {:induction false} ImageSize(perm: seq<nat>, n: nat)
    requires n <= |perm| && forall i, j :: 0 <= i < j < |perm| ==> perm[i] != perm[j]
    ensures |Image(perm, n)| == n
  {
    if n > 0 {
      ImageSize(perm, n - 1);
      ImageHolds(perm, n - 1, perm[n - 1]);
    }
  }

  lemma DropLast(raw: Queue, out: Queue, perm: seq<nat>, k: nat)
    requires Rearranged(raw, out, perm) && k < |raw| && perm[k] == |raw| - 1
    ensures Rearranged(raw[..|raw| - 1], out[..k] + out[k + 1..], perm[..k] + perm[k + 1..])
  {
    var raw1, out1, perm1 := raw[..|raw| - 1], out[..k] + out[k + 1..], perm[..k] + perm[k + 1..];
    forall i | 0 <= i < |perm1| ensures perm1[i] < |raw1| && out1[i] == raw1[perm1[i]] {
      var j := if i < k then i else i + 1;
      assert perm1[i] == perm[j] && perm[j] != perm[k];
    }
    forall i, j | 0 <= i < j < |perm1| ensures perm1[i] != perm1[j] {
      assert perm1[i] == perm[if i < k then i else i + 1] && perm1[j] == perm[if j < k then j else j + 1];
    }
  }

  lemma Middle(s: Queue, k: nat)
    requires k < |s|
    ensures multiset(s) == multiset(s[..k] + s[k + 1..]) + multiset{s[k]}
  {
    assert s == s[..k] + [s[k]] + s[k + 1..];
  }

  lemma SameWithoutOne(raw: Queue, out: Queue, k: nat)
    requires raw != [] && k < |out| && out[k] == raw[|raw| - 1]
    requires multiset(out[..k] + out[k + 1..]) == multiset(raw[..|raw| - 1])
    ensures multiset(out) == multiset(raw)
  {
    var n := |raw|;
    Middle(out, k);
    Middle(raw, n - 1);
    assert raw[..n - 1] + raw[n..] == raw[..n - 1];
  }

  /** Rearranging by distinct indices loses and repeats nothing. */
  lemma {:induction false} RearrangedPermutes(raw: Queue, out: Queue, perm: seq<nat>)
    requires Rearranged(raw, out, perm)
    ensures multiset(out) == multiset(raw)
    decreases |raw|
  {
    var n := |raw|;
    if n > 0 {
      EveryIndexOccurs(perm, n - 1);
      var k :| 0 <= k < n && perm[k] == n - 1;
      DropLast(raw, out, perm, k);
      RearrangedPermutes(raw[..n - 1], out[..k] + out[k + 1..], perm[..k] + perm[k + 1..]);
      SameWithoutOne(raw, out, k);
    }
  }

  /** The ordered queue holds the same records, with the unreadable ones where they were. */
  lemma OrderingKeepsRecords(raw: Queue, out: Queue, perm: seq<nat>, keys: Keys)
    requires IsOrdering(raw, out, perm, keys)
    ensures multiset(out) == multiset(raw)
    ensures forall i :: 0 <= i < |raw| ==> (raw[i].None? <==> out[i].None?)
  {
    RearrangedPermutes(raw, out, perm);
    forall i | 0 <= i < |raw| ensures raw[i].None? <==> out[i].None? {
      if raw[i].Some? { assert SameRun(raw, i, perm[i]); }
    }
  }

  // ---------------------------------------------------------------- starvation

  lemma QuotientAtLeast(a: int, b: int, k: int)
    requires b > 0 && a >= k * b
    ensures a as real / b as real >= k as real
  {
    assert a as real >= k as real * b as real;
  }

  /** A high, and a ticket past the horizon, score exactly the tier weight; every other ticket stays below it. */
  lemma ScoreCases(t: Ticket, now: int, cfg: Config)
    requires ValidConfig(cfg)
    ensures PriorityOf(t) == High || CreditedWaitMs(t, now) >= 3 * cfg.ageMax <==>
      Score(t, now, cfg) == cfg.tier
    ensures Score(t, now, cfg) <= cfg.tier
  {
    var credited := CreditedWaitMs(t, now);
    QuotientAtLeast(credited, cfg.ageMax, 0);
    if credited >= cfg.ageMax { QuotientAtLeast(credited, cfg.ageMax, 1); }
    var f := MinReal(1.0, credited as real / cfg.ageMax as real);
    assert 0.0 <= f && cfg.age * f >= 0.0;
  }

  /**
   * The wait a ticket is credited with: the time since its origin, if it ages, is not exclusive and the origin is sane.
   */
  lemma WaitMeaning(t: Ticket, now: int)
    ensures CreditedWaitMs(t, now) ==
      if t.aging && !t.exclusive && t.origin.Some? && 0 <= t.origin.value <= now then now - t.origin.value else 0
    ensures WaitedMs(t, now) == if t.origin.Some? && 0 <= t.origin.value <= now then now - t.origin.value else 0
  {}

  lemma AgedBelow(cfg: Config, w: int, x: real)
    requires ValidConfig(cfg) && 0 <= w < cfg.ageMax
    ensures cfg.age * (w as real / cfg.ageMax as real) < x <==> cfg.age * w as real < x * cfg.ageMax as real
    ensures w as real / cfg.ageMax as real < 1.0
  {
    var m, f := cfg.ageMax as real, w as real / cfg.ageMax as real;
    QuotientAgainst(w as real, m, 1.0);
    assert cfg.age * f * m == cfg.age * w as real;
    var a := cfg.age * f;
    if a < x { assert (x - a) * m > 0.0; } else { assert (a - x) * m >= 0.0; }
  }

  /** The part of a score that comes from waiting, below `x` exactly if the wait is. */
  lemma AgeFactorBelow(cfg: Config, w: int, x: real)
    requires ValidConfig(cfg) && 0 <= w && x <= cfg.tier
    ensures var f := MinReal(1.0, w as real / cfg.ageMax as real);
      0.0 <= f && (cfg.age * f < x <==> cfg.age * w as real < x * cfg.ageMax as real)
  {
    QuotientAtLeast(w, cfg.ageMax, 0);
    var m := cfg.ageMax as real;
    if w < cfg.ageMax {
      AgedBelow(cfg, w, x);
    } else {
      QuotientAtLeast(w, cfg.ageMax, 1);
      assert w as real >= m && cfg.age * w as real >= cfg.age * m;
      assert cfg.age >= x && cfg.age * m >= x * m;
    }
  }

  /**
   * Of two tickets that have waited as long, one admitted as medium (or without a tier) is never behind a low one, and
   * strictly above it until waiting alone is worth ninety-nine hundredths of the tier weight.
   */
  lemma MediumAboveLow(low: Ticket, medium: Ticket, now: int, cfg: Config)
    requires ValidConfig(cfg) && low.admitted == Some(Low) && medium.admitted in {None, Some(Medium)}
    requires CreditedWaitMs(low, now) == CreditedWaitMs(medium, now) < 3 * cfg.ageMax
    ensures Score(medium, now, cfg) >= Score(low, now, cfg)
    ensures Score(medium, now, cfg) > Score(low, now, cfg) <==>
      cfg.age * CreditedWaitMs(low, now) as real < 0.99 * cfg.tier * cfg.ageMax as real
  {
    AgeFactorBelow(cfg, CreditedWaitMs(low, now), 0.99 * cfg.tier);
  }

  /** A low that has waited comes level with a fresh medium after half a tier's worth of waiting, not before. */
  lemma LowReachesFreshMedium(low: Ticket, medium: Ticket, now: int, cfg: Config)
    requires ValidConfig(cfg) && low.admitted == Some(Low) && medium.admitted in {None, Some(Medium)}
    requires CreditedWaitMs(medium, now) == 0
    ensures Score(low, now, cfg) >= Score(medium, now, cfg) <==>
      2.0 * cfg.age * CreditedWaitMs(low, now) as real >= cfg.tier * cfg.ageMax as real
  {
    AgeFactorBelow(cfg, CreditedWaitMs(low, now), 0.5 * cfg.tier);
    assert 0 as real / cfg.ageMax as real == 0.0;
  }

  /**
   * Within a run the queue is in order of score; among equal scores tests come before sims that have waited less than
   * an age period, if that is asked for; then the smaller number is first, and of equal numbers the earlier record.
   */
  lemma InOrderOfScore(raw: Queue, out: Queue, perm: seq<nat>, now: int, cfg: Config, sims: bool, i: nat, j: nat)
    requires cfg.ageMax > 0 && IsOrdering(raw, out, perm, KeysAt(now, cfg, sims)) && i < j < |out| && SameRun(raw, i, j)
    ensures out[i].Some? && out[j].Some?
    ensures
      var a, b := out[i].value, out[j].value;
      var aLate, bLate :=
        sims && a.isSim && WaitedMs(a, now) < cfg.ageMax, sims && b.isSim && WaitedMs(b, now) < cfg.ageMax;
      && Score(a, now, cfg) >= Score(b, now, cfg)
      && (Score(a, now, cfg) == Score(b, now, cfg) ==> (aLate ==> bLate))
      && (Score(a, now, cfg) == Score(b, now, cfg) && aLate == bLate ==>
            a.number.GetOr(0) < b.number.GetOr(0) || (a.number.GetOr(0) == b.number.GetOr(0) && perm[i] < perm[j]))
  {
    assert AheadAt(raw, perm[i], perm[j], KeysAt(now, cfg, sims));
  }

  /** Before the horizon every high scores strictly above every non-high. */
  lemma HighAboveOthers(high: Ticket, other: Ticket, now: int, cfg: Config)
    requires ValidConfig(cfg) && PriorityOf(high) == High && PriorityOf(other) != High
    ensures Score(high, now, cfg) > Score(other, now, cfg) <==> CreditedWaitMs(other, now) < 3 * cfg.ageMax
  {
    ScoreCases(high, now, cfg);
    ScoreCases(other, now, cfg);
  }

  /** From the horizon on, nothing with a larger number is ahead of a ticket within its run, sims after tests or not. */
  lemma NotOvertaken(raw: Queue, out: Queue, perm: seq<nat>, now: int, cfg: Config, sims: bool, i: nat, j: nat)
    requires ValidConfig(cfg) && IsOrdering(raw, out, perm, KeysAt(now, cfg, sims)) && i < j < |out|
    requires SameRun(raw, i, j)
    ensures out[i].Some? && out[j].Some?
    ensures CreditedWaitMs(out[j].value, now) >= 3 * cfg.ageMax ==>
      out[i].value.number.GetOr(0) <= out[j].value.number.GetOr(0)
  {
    assert AheadAt(raw, perm[i], perm[j], KeysAt(now, cfg, sims));
    ScoreCases(out[i].value, now, cfg);
    ScoreCases(out[j].value, now, cfg);
  }

  /** A high is behind a non-high of its run only if that one is past the horizon. */
  lemma OnlyStarvedBeforeHigh(raw: Queue, out: Queue, perm: seq<nat>, now: int, cfg: Config, sims: bool, i: nat, j: nat)
    requires ValidConfig(cfg) && IsOrdering(raw, out, perm, KeysAt(now, cfg, sims)) && i < j < |out|
    requires SameRun(raw, i, j)
    ensures out[i].Some? && out[j].Some?
    ensures PriorityOf(out[j].value) == High ==>
      PriorityOf(out[i].value) == High || CreditedWaitMs(out[i].value, now) >= 3 * cfg.ageMax
  {
    assert AheadAt(raw, perm[i], perm[j], KeysAt(now, cfg, sims));
    ScoreCases(out[i].value, now, cfg);
    ScoreCases(out[j].value, now, cfg);
  }

  // ---------------------------------------------------------------- the priority clock

  /** One locked reading: what the wall clock says, and whether writing the mark succeeds. */
  datatype Reading = Reading(wall: int, writes: bool)

  /** The mark after a reading, and the time the reading returns. */
  function Advance(hwm: Option<int>, r: Reading): (Option<int>, int)
  {
    var stored := hwm.GetOr(0);
    if r.wall <= stored then (hwm, stored) else (if r.writes then Some(r.wall) else hwm, r.wall)
  }

  class PriorityClock {
    var hwm: Option<int>

    method AdvanceHwm(r: Reading) returns (now: int)
      modifies this
      ensures (hwm, now) == Advance(old(hwm), r)
      ensures now == Max(old(hwm).GetOr(0), r.wall)
      ensures hwm == if r.writes && r.wall > old(hwm).GetOr(0) then Some(r.wall) else old(hwm)
    {
      var stored := hwm.GetOr(0);
      if r.wall <= stored { return stored; }
      if r.writes { hwm := Some(r.wall); }
      return r.wall;
    }
  }

  /** The mark after each of a run of readings. */
  function MarkAfter(hwm: Option<int>, run: seq<Reading>): Option<int>
  {
    if run == [] then hwm else Advance(MarkAfter(hwm, run[..|run| - 1]), run[|run| - 1]).0
  }

  /** The time reading `i` of the run returns. */
  function TimeAt(hwm: Option<int>, run: seq<Reading>, i: nat): int
    requires i < |run|
  {
    Advance(MarkAfter(hwm, run[..i]), run[i]).1
  }

  ghost predicate WritesSucceed(run: seq<Reading>) { forall i :: 0 <= i < |run| ==> run[i].writes }

  /** The mark never falls, and after a successful write it is the time just returned. */
  lemma MarkAndTime(hwm: Option<int>, run: seq<Reading>, i: nat)
    requires i < |run|
    ensures MarkAfter(hwm, run[..i]).GetOr(0) <= MarkAfter(hwm, run[..i + 1]).GetOr(0) <= TimeAt(hwm, run, i)
    ensures run[i].writes ==> MarkAfter(hwm, run[..i + 1]).GetOr(0) == TimeAt(hwm, run, i)
  {
    assert run[..i + 1][..i] == run[..i];
  }

  lemma {:induction false} MarkNeverFalls(hwm: Option<int>, run: seq<Reading>, i: nat, j: nat)
    requires i <= j <= |run|
    ensures MarkAfter(hwm, run[..i]).GetOr(0) <= MarkAfter(hwm, run[..j]).GetOr(0)
  {
    if i < j {
      MarkNeverFalls(hwm, run, i, j - 1);
      MarkAndTime(hwm, run, j - 1);
    }
  }

  /** Whatever the wall clock does, the effective time never goes back while writes succeed. */
  lemma TimeNeverFalls(hwm: Option<int>, run: seq<Reading>, i: nat, j: nat)
    requires i <= j < |run| && run[i].writes
    ensures TimeAt(hwm, run, i) <= TimeAt(hwm, run, j)
  {
    MarkAndTime(hwm, run, i);
    MarkAndTime(hwm, run, j);
    if i < j { MarkNeverFalls(hwm, run, i + 1, j); }
  }

  /**
   * A reading is never undercut, whatever the wall clock says next, exactly when it needed no write or its write
   * succeeded.
   */
  lemma NeverUndercut(hwm: Option<int>, r: Reading)
    ensures (forall next: Reading :: Advance(Advance(hwm, r).0, next).1 >= Advance(hwm, r).1) <==>
      r.writes || r.wall <= hwm.GetOr(0)
  {
    if !(r.writes || r.wall <= hwm.GetOr(0)) {
      var next := Reading(hwm.GetOr(0), true);
      assert Advance(Advance(hwm, r).0, next).1 < Advance(hwm, r).1;
    }
  }

  /** Waiting is monotone in the effective time, whatever the origin. */
  lemma WaitGrows(t: Ticket, a: int, b: int)
    requires a <= b
    ensures CreditedWaitMs(t, a) <= CreditedWaitMs(t, b)
  {}

  /** Over a run of evaluations, wall-clock rollbacks included, a ticket's credited wait never shrinks. */
  lemma WaitNeverShrinks(hwm: Option<int>, run: seq<Reading>, t: Ticket, i: nat, j: nat)
    requires WritesSucceed(run) && i <= j < |run|
    ensures CreditedWaitMs(t, TimeAt(hwm, run, i)) <= CreditedWaitMs(t, TimeAt(hwm, run, j))
  {
    TimeNeverFalls(hwm, run, i, j);
    WaitGrows(t, TimeAt(hwm, run, i), TimeAt(hwm, run, j));
  }

  /** With a failed write the credited wait of a ticket shrinks when the wall clock steps back. */
  lemma WaitCanShrink()
    ensures exists run: seq<Reading>, t: Ticket ::
      |run| == 2 && CreditedWaitMs(t, TimeAt(None, run, 0)) > CreditedWaitMs(t, TimeAt(None, run, 1))
  {
    var run := [Reading(2000, false), Reading(1500, true)];
    var t := Ticket("t", Some(1), None, true, false, false, Some(1000));
    assert run[..0] == [] && run[..1] == [Reading(2000, false)] && run[..1][..0] == [];
    assert TimeAt(None, run, 0) == 2000 && TimeAt(None, run, 1) == 1500;
    assert CreditedWaitMs(t, 2000) > CreditedWaitMs(t, 1500);
  }

  /**
   * The starvation bound. A ticket stamped with an earlier effective time that ages, once three age periods have passed
   * on the priority clock, is from then on never ordered behind a larger number of its run, whatever the wall clock
   * does.
   */
  lemma NeverStarves(hwm: Option<int>, run: seq<Reading>, stamp: nat, due: nat, later: nat, cfg: Config, sims: bool,
                     raw: Queue, out: Queue, perm: seq<nat>, i: nat, j: nat)
    requires ValidConfig(cfg) && WritesSucceed(run) && stamp <= due <= later < |run| && 0 <= TimeAt(hwm, run, stamp)
    requires TimeAt(hwm, run, due) - TimeAt(hwm, run, stamp) >= 3 * cfg.ageMax
    requires IsOrdering(raw, out, perm, KeysAt(TimeAt(hwm, run, later), cfg, sims)) && i < j < |out|
    requires SameRun(raw, i, j)
    requires out[j].Some? && out[j].value.origin == Some(TimeAt(hwm, run, stamp)) && out[j].value.aging
    requires !out[j].value.exclusive
    ensures out[i].Some? && out[i].value.number.GetOr(0) <= out[j].value.number.GetOr(0)
  {
    WaitNeverShrinks(hwm, run, out[j].value, due, later);
    NotOvertaken(raw, out, perm, TimeAt(hwm, run, later), cfg, sims, i, j);
  }
}
