/**
 * The deps-cache store's leases and least-recently-used eviction (src/deps-cache.js). Taking a lease, releasing one and
 * trimming are each one critical section, so the store is a map of entries changed one step at a time. Which processes
 * are alive, and whether a move to the trash succeeds, are inputs.
 */
module Eviction {
  import opened Common
  import opened Sorting

  type Key = string

  /** A lease file: its owner's pid and start time, or a file that cannot be read. */
  datatype Lease = Owned(pid: int, start: int) | Unreadable

  /** `bytes` is what `meta.json` says, None when it cannot be read (a damaged entry). */
  datatype Entry = Entry(bytes: Option<nat>, lastUsed: int, leases: map<string, Lease>)

  datatype Victim = Victim(key: Key, bytes: nat, damaged: bool, lastUsed: int)

  predicate IsLive(l: Lease, alive: set<(int, int)>) { l.Unreadable? || (l.pid, l.start) in alive }

  function LiveLeases(leases: map<string, Lease>, alive: set<(int, int)>): map<string, Lease>
  {
    map n | n in leases && IsLive(leases[n], alive) :: leases[n]
  }

  predicate Leased(e: Entry, alive: set<(int, int)>) { LiveLeases(e.leases, alive) != map[] }

  /** A damaged entry counts no bytes. */
  function VictimOf(key: Key, e: Entry): (v: Victim)
    ensures v.key == key && v.lastUsed == e.lastUsed && (v.damaged <==> e.bytes == None)
    ensures e.bytes == None ==> v.bytes == 0
    ensures e.bytes != None ==> e.bytes == Some(v.bytes)
  {
    Victim(key, if e.bytes.Some? then e.bytes.value else 0, e.bytes.None?, e.lastUsed)
  }

  function EvictFirst(): (Victim, Victim) -> bool
  {
    (a: Victim, b: Victim) => if a.damaged != b.damaged then a.damaged else a.lastUsed < b.lastUsed
  }

  lemma EvictFirstIsOrder()
    ensures StrictWeakOrder(EvictFirst())
  {}

  /** The entries of a directory listing, as eviction sees them. */
  function Listing(names: seq<Key>, entries: map<Key, Entry>): (vs: seq<Victim>)
    requires forall n :: n in names ==> n in entries
    ensures |vs| == |names| && forall i :: 0 <= i < |vs| ==> vs[i] == VictimOf(names[i], entries[names[i]])
  {
    if names == [] then [] else [VictimOf(names[0], entries[names[0]])] + Listing(names[1..], entries)
  }

  /** Bytes of the listed entries outside `moved`. */
  function Left(vs: seq<Victim>, moved: set<Key>): nat
  {
    if vs == [] then 0 else (if vs[0].key in moved then 0 else vs[0].bytes) + Left(vs[1..], moved)
  }

  predicate DistinctKeys(vs: seq<Victim>) { forall i, j :: 0 <= i < j < |vs| ==> vs[i].key != vs[j].key }

  lemma {:induction false} LeftWithout(vs: seq<Victim>, moved: set<Key>, v: Victim)
    requires DistinctKeys(vs) && v.key !in moved
    ensures v in vs ==> Left(vs, moved + {v.key}) == Left(vs, moved) - v.bytes
    ensures (forall i :: 0 <= i < |vs| ==> vs[i].key != v.key) ==> Left(vs, moved + {v.key}) == Left(vs, moved)
  {
    if vs != [] {
      LeftWithout(vs[1..], moved, v);
      if v in vs && vs[0] != v { assert v in vs[1..]; }
    }
  }

  function KeysOf(evicted: seq<Key>): set<Key> { set k | k in evicted }

  predicate Stuck(e: Entry, k: Key, alive: set<(int, int)>, movable: set<Key>) { Leased(e, alive) || k !in movable }

  /** An entry after the trim: the same but for lease files of dead processes. */
  predicate SameButStaleLeases(a: Entry, b: Entry, alive: set<(int, int)>)
  {
    a.bytes == b.bytes && a.lastUsed == b.lastUsed && (a.leases == b.leases || a.leases == LiveLeases(b.leases, alive))
  }

  /** The promise of a trim, by what was moved away and in which order. */
  ghost predicate TrimPromise(
    before: map<Key, Entry>, names: seq<Key>, maxBytes: nat, alive: set<(int, int)>, movable: set<Key>,
    evicted: seq<Key>)
    requires forall n :: n in names <==> n in before
  {
    var vs := Listing(names, before);
    // only unleased entries move, each once
    && (forall i, j :: 0 <= i < j < |evicted| ==> evicted[i] != evicted[j])
    && (forall k :: k in evicted ==> k in before && !Stuck(before[k], k, alive, movable))
    // it fits, or every undamaged entry left is leased or would not move; no damaged one is left that could move
    && (|| Left(vs, KeysOf(evicted)) <= maxBytes
        || forall k :: k in before && k !in evicted && before[k].bytes.Some? ==> Stuck(before[k], k, alive, movable))
    && (forall k :: k in before && k !in evicted && before[k].bytes.None? ==> Stuck(before[k], k, alive, movable))
    // an undamaged entry goes only while the store does not fit
    && (forall i :: 0 <= i < |evicted| && before[evicted[i]].bytes.Some? ==> Left(vs, KeysOf(evicted[..i])) > maxBytes)
    // least recently used first
    && (forall k, s | k in evicted && before[k].bytes.Some? && s in before && s !in evicted && before[s].bytes.Some? ::
          !Stuck(before[s], s, alive, movable) ==> before[k].lastUsed <= before[s].lastUsed)
  }

  /** Some lease file of the entry is of a live process, or cannot be read. */
  predicate IsHeld(e: Entry, alive: set<(int, int)>)
  {
    exists n :: n in e.leases && (e.leases[n] == Unreadable || (e.leases[n].pid, e.leases[n].start) in alive)
  }

  lemma LeasedIsHeld(e: Entry, alive: set<(int, int)>)
    ensures Leased(e, alive) <==> IsHeld(e, alive)
  {
    if IsHeld(e, alive) {
      var n :| n in e.leases && (e.leases[n] == Unreadable || (e.leases[n].pid, e.leases[n].start) in alive);
      assert n in LiveLeases(e.leases, alive);
    }
    if Leased(e, alive) {
      assert exists n :: n in LiveLeases(e.leases, alive);
    }
  }

  /** With everything moved nothing is left; so what is left is the sum over the entries that stay. */
  lemma {:induction false} NothingLeft(vs: seq<Victim>, moved: set<Key>)
    requires forall v :: v in vs ==> v.key in moved
    ensures Left(vs, moved) == 0
  {
    if vs != [] { NothingLeft(vs[1..], moved); }
  }

  /** The same promise in lease files: what moved was held by nobody; and nobody's entry stays without a reason. */
  ghost predicate MovesOnlyUnheld(
    before: map<Key, Entry>, names: seq<Key>, maxBytes: nat, alive: set<(int, int)>, movable: set<Key>,
    evicted: seq<Key>)
    requires forall n :: n in names <==> n in before
  {
    && (forall k :: k in evicted ==> k in before && k in movable && !IsHeld(before[k], alive))
    && (forall k :: k in before && k !in evicted && k in movable && !IsHeld(before[k], alive) ==>
          before[k].bytes.Some? && Left(Listing(names, before), KeysOf(evicted)) <= maxBytes)
  }

  lemma PromiseInLeases(
    before: map<Key, Entry>, names: seq<Key>, maxBytes: nat, alive: set<(int, int)>, movable: set<Key>,
    evicted: seq<Key>)
    requires forall n :: n in names <==> n in before
    requires TrimPromise(before, names, maxBytes, alive, movable, evicted)
    ensures MovesOnlyUnheld(before, names, maxBytes, alive, movable, evicted)
  {
    forall k | k in before ensures Stuck(before[k], k, alive, movable) <==> IsHeld(before[k], alive) || k !in movable {
      LeasedIsHeld(before[k], alive);
    }
  }

  /** Only lease files of dead processes are gone from an entry that stays. */
  predicate LosesDeadLeases(a: Entry, b: Entry, alive: set<(int, int)>)
  {
    && a.bytes == b.bytes && a.lastUsed == b.lastUsed
    && (forall n :: n in a.leases ==> n in b.leases && a.leases[n] == b.leases[n])
    && (forall n :: n in b.leases && n !in a.leases ==>
          b.leases[n].Owned? && (b.leases[n].pid, b.leases[n].start) !in alive)
  }

  method EvictLeastRecentlyUsed(
    before: map<Key, Entry>, names: seq<Key>, maxBytes: nat, alive: set<(int, int)>, movable: set<Key>)
    returns (after: map<Key, Entry>, evicted: seq<Key>)
    requires forall n :: n in names <==> n in before
    requires forall i, j :: 0 <= i < j < |names| ==> names[i] != names[j]
    ensures TrimPromise(before, names, maxBytes, alive, movable, evicted)
    ensures MovesOnlyUnheld(before, names, maxBytes, alive, movable, evicted)
    ensures after.Keys == before.Keys - KeysOf(evicted)
    ensures forall k :: k in after ==> SameButStaleLeases(after[k], before[k], alive)
    ensures forall k :: k in after ==> LosesDeadLeases(after[k], before[k], alive)
  {
    after, evicted := EvictVictims(before, names, maxBytes, alive, movable);
    PromiseInLeases(before, names, maxBytes, alive, movable, evicted);
    forall k | k in after ensures LosesDeadLeases(after[k], before[k], alive) {
      assert SameButStaleLeases(after[k], before[k], alive);
    }
  }

  /** The listing, sorted and walked. */
  method EvictVictims(
    before: map<Key, Entry>, names: seq<Key>, maxBytes: nat, alive: set<(int, int)>, movable: set<Key>)
    returns (after: map<Key, Entry>, evicted: seq<Key>)
    requires forall n :: n in names <==> n in before
    requires forall i, j :: 0 <= i < j < |names| ==> names[i] != names[j]
    ensures TrimPromise(before, names, maxBytes, alive, movable, evicted)
    ensures after.Keys == before.Keys - KeysOf(evicted)
    ensures forall k :: k in after ==> SameButStaleLeases(after[k], before[k], alive)
  {
    var entries := Listing(names, before);
    var victims := StableSort(entries, EvictFirst());
    EvictFirstIsOrder();
    SortSorts(entries, EvictFirst());
    SortMembers(entries, EvictFirst());
    SortKeepsDistinct(entries, EvictFirst(), (v: Victim) => v.key);
    forall j | 0 <= j < |victims|
      ensures victims[j].key in before && victims[j] == VictimOf(victims[j].key, before[victims[j].key])
    {
      assert victims[j] in entries;
    }
    var i;
    after, evicted, i := EvictInOrder(before, entries, victims, maxBytes, alive, movable);
    TrimDone(before, names, victims, i, maxBytes, alive, movable, evicted);
  }

  /** The walk over the sorted victims; `i` is where it stopped. */
  method EvictInOrder(
    before: map<Key, Entry>, entries: seq<Victim>, victims: seq<Victim>, maxBytes: nat, alive: set<(int, int)>,
    movable: set<Key>)
    returns (after: map<Key, Entry>, evicted: seq<Key>, i: nat)
    requires DistinctKeys(entries) && DistinctKeys(victims) && forall v :: v in victims ==> v in entries
    requires forall j :: 0 <= j < |victims| ==>
      victims[j].key in before && victims[j] == VictimOf(victims[j].key, before[victims[j].key])
    ensures Processed(before, entries, victims, i, maxBytes, alive, movable, evicted)
    ensures i == |victims| || (Left(entries, KeysOf(evicted)) <= maxBytes && !victims[i].damaged)
    ensures after.Keys == before.Keys - KeysOf(evicted)
    ensures forall k :: k in after ==> SameButStaleLeases(after[k], before[k], alive)
  {
    var total := Left(entries, {});
    after, evicted, i := before, [], 0;
    assert KeysOf(evicted) == {};
    while i < |victims|
      invariant total == Left(entries, KeysOf(evicted))
      invariant Remains(before, after, victims, i, alive, evicted)
      invariant Processed(before, entries, victims, i, maxBytes, alive, movable, evicted)
    {
      if total <= maxBytes && !victims[i].damaged { break; }
      var moved;
      after, moved := TryMove(after, victims[i].key, alive, movable);
      if moved {
        assert victims[i] in entries by { assert victims[i] in victims; }
        EvictOne(before, entries, victims, i, maxBytes, alive, movable, evicted);
        LeftWithout(entries, KeysOf(evicted), victims[i]);
        total := total - victims[i].bytes;
        evicted := evicted + [victims[i].key];
      } else {
        SkipOne(before, entries, victims, i, maxBytes, alive, movable, evicted);
      }
      i := i + 1;
    }
  }

  /** One victim: its dead leases are removed; with no live one it is renamed away, unless the rename fails. */
  method TryMove(before: map<Key, Entry>, key: Key, alive: set<(int, int)>, movable: set<Key>)
    returns (after: map<Key, Entry>, moved: bool)
    requires key in before
    ensures moved <==> !Stuck(before[key], key, alive, movable)
    ensures after ==
      if moved then before - {key} else before[key := before[key].(leases := LiveLeases(before[key].leases, alive))]
  {
    var live := LiveLeases(before[key].leases, alive);
    after := before[key := before[key].(leases := live)];
    moved := live == map[] && key in movable;
    if moved { after := after - {key}; }
  }

  /** What is left in the store once the first `i` victims have been looked at. */
  ghost predicate Remains(
    before: map<Key, Entry>, after: map<Key, Entry>, victims: seq<Victim>, i: nat, alive: set<(int, int)>,
    evicted: seq<Key>)
  {
    && after.Keys == before.Keys - KeysOf(evicted)
    && (forall k :: k in after ==> SameButStaleLeases(after[k], before[k], alive))
    && (forall j :: i <= j < |victims| ==> victims[j].key in after && after[victims[j].key] == before[victims[j].key])
  }

  lemma SkipOne(
    before: map<Key, Entry>, entries: seq<Victim>, victims: seq<Victim>, i: nat, maxBytes: nat, alive: set<(int, int)>,
    movable: set<Key>, evicted: seq<Key>)
    requires Processed(before, entries, victims, i, maxBytes, alive, movable, evicted) && i < |victims|
    requires victims[i].key in before && Stuck(before[victims[i].key], victims[i].key, alive, movable)
    ensures Processed(before, entries, victims, i + 1, maxBytes, alive, movable, evicted)
  {
    forall q | q in evicted ensures exists j :: 0 <= j < i + 1 && victims[j].key == q {
      var j :| 0 <= j < i && victims[j].key == q;
    }
  }

  /** What holds once the first `i` victims have been looked at. */
  ghost predicate Processed(
    before: map<Key, Entry>, entries: seq<Victim>, victims: seq<Victim>, i: nat, maxBytes: nat, alive: set<(int, int)>,
    movable: set<Key>, evicted: seq<Key>)
  {
    && i <= |victims|
    && (forall a, b :: 0 <= a < b < |evicted| ==> evicted[a] != evicted[b])
    && (forall k :: k in evicted ==>
          k in before && !Stuck(before[k], k, alive, movable) && exists j :: 0 <= j < i && victims[j].key == k)
    && (forall j :: 0 <= j < i ==>
          && victims[j].key in before
          && (victims[j].key in evicted || Stuck(before[victims[j].key], victims[j].key, alive, movable)))
    && (forall a :: 0 <= a < |evicted| && before[evicted[a]].bytes.Some? ==>
          Left(entries, KeysOf(evicted[..a])) > maxBytes)
  }

  lemma EvictOne(
    before: map<Key, Entry>, entries: seq<Victim>, victims: seq<Victim>, i: nat, maxBytes: nat, alive: set<(int, int)>,
    movable: set<Key>, evicted: seq<Key>)
    requires Processed(before, entries, victims, i, maxBytes, alive, movable, evicted) && i < |victims|
    requires DistinctKeys(victims)
    requires victims[i].key in before && victims[i] == VictimOf(victims[i].key, before[victims[i].key])
    requires !Stuck(before[victims[i].key], victims[i].key, alive, movable)
    requires Left(entries, KeysOf(evicted)) > maxBytes || victims[i].damaged
    ensures Processed(before, entries, victims, i + 1, maxBytes, alive, movable, evicted + [victims[i].key])
    ensures KeysOf(evicted + [victims[i].key]) == KeysOf(evicted) + {victims[i].key}
    ensures victims[i].key !in KeysOf(evicted)
  {
    var k := victims[i].key;
    var next := evicted + [k];
    assert k !in evicted;
    forall a | 0 <= a < |next| && before[next[a]].bytes.Some? ensures Left(entries, KeysOf(next[..a])) > maxBytes {
      if a < |evicted| { assert next[..a] == evicted[..a] && next[a] == evicted[a]; }
      else { assert next[..a] == evicted; }
    }
    forall q | q in next
      ensures q in before && !Stuck(before[q], q, alive, movable) && exists j :: 0 <= j < i + 1 && victims[j].key == q
    {
      if q in evicted {} else { assert victims[i].key == q; }
    }
  }

  lemma TrimDone(
    before: map<Key, Entry>, names: seq<Key>, victims: seq<Victim>, i: nat, maxBytes: nat, alive: set<(int, int)>,
    movable: set<Key>, evicted: seq<Key>)
    requires forall n :: n in names <==> n in before
    requires victims == StableSort(Listing(names, before), EvictFirst())
    requires Sorted(victims, EvictFirst()) && forall v :: v in victims <==> v in Listing(names, before)
    requires Processed(before, Listing(names, before), victims, i, maxBytes, alive, movable, evicted)
    requires i == |victims| || (Left(Listing(names, before), KeysOf(evicted)) <= maxBytes && !victims[i].damaged)
    ensures TrimPromise(before, names, maxBytes, alive, movable, evicted)
  {
    var vs := Listing(names, before);
    forall k | k in before && k !in evicted && !Stuck(before[k], k, alive, movable)
      ensures i < |victims| && before[k].bytes.Some?
      ensures forall e :: e in evicted && before[e].bytes.Some? ==> before[e].lastUsed <= before[k].lastUsed
    {
      var j := VictimIndex(before, names, victims, k);
      assert i <= j;
      assert !EvictFirst()(victims[j], victims[i]);
      forall e | e in evicted && before[e].bytes.Some? ensures before[e].lastUsed <= before[k].lastUsed {
        var a :| 0 <= a < i && victims[a].key == e;
        assert victims[a] in vs && victims[a] == VictimOf(e, before[e]);
        assert !EvictFirst()(victims[j], victims[a]);
      }
    }
  }

  lemma VictimIndex(before: map<Key, Entry>, names: seq<Key>, victims: seq<Victim>, k: Key) returns (j: nat)
    requires forall n :: n in names <==> n in before
    requires forall v :: v in victims <==> v in Listing(names, before)
    requires k in before
    ensures j < |victims| && victims[j] == VictimOf(k, before[k])
  {
    var a :| 0 <= a < |names| && names[a] == k;
    assert Listing(names, before)[a] in Listing(names, before);
    j :| 0 <= j < |victims| && victims[j] == VictimOf(k, before[k]);
  }

  // ---------------------------------------------------------------- leases over a run

  /** A lease a process took and has not released. */
  datatype Hold = Hold(key: Key, name: string, owner: (int, int))

  /** The entries with the lease file of `h` removed. */
  function WithoutLease(entries: map<Key, Entry>, h: Hold): (r: map<Key, Entry>)
    ensures r.Keys == entries.Keys
  {
    if h.key in entries then entries[h.key := entries[h.key].(leases := entries[h.key].leases - {h.name})] else entries
  }

  class Store {
    var entries: map<Key, Entry>
    var alive: set<(int, int)>
    ghost var holds: set<Hold>

    /** Every hold of a live process still has its lease file, so its entry, in the store. */
    ghost predicate Valid()
      reads this
    {
      forall h | h in holds && h.owner in alive ::
        && h.key in entries && h.name in entries[h.key].leases
        && entries[h.key].leases[h.name] == Owned(h.owner.0, h.owner.1)
    }

    constructor ()
      ensures Valid() && entries == map[] && alive == {} && holds == {}
    {
      entries, alive, holds := map[], {}, {};
    }

    /** Publishing renames a finished directory in; a key already there is kept as it is. */
    method Publish(key: Key, bytes: Option<nat>, now: int) returns (published: bool)
      requires Valid()
      modifies this`entries
      ensures Valid()
      ensures published <==> key !in old(entries)
      ensures entries == if published then old(entries)[key := Entry(bytes, now, map[])] else old(entries)
    {
      published := key !in entries;
      if published { entries := entries[key := Entry(bytes, now, map[])]; }
    }

    /** A lease is taken under the lock; an entry evicted meanwhile is a miss. */
    method AcquireLease(key: Key, name: string, owner: (int, int)) returns (taken: bool)
      requires Valid() && owner in alive
      requires key in entries ==> name !in entries[key].leases
      modifies this`entries, this`holds
      ensures Valid()
      ensures taken <==> key in old(entries)
      ensures taken ==> holds == old(holds) + {Hold(key, name, owner)}
      ensures taken ==>
        entries ==
          old(entries)[key := old(entries)[key].(leases := old(entries)[key].leases[name := Owned(owner.0, owner.1)])]
      ensures !taken ==> holds == old(holds) && entries == old(entries)
    {
      taken := key in entries;
      if taken {
        var e := entries[key];
        entries := entries[key := e.(leases := e.leases[name := Owned(owner.0, owner.1)])];
        holds := holds + {Hold(key, name, owner)};
      }
    }

    method Trim(names: seq<Key>, maxBytes: nat, movable: set<Key>) returns (evicted: seq<Key>)
      requires Valid()
      requires forall n :: n in names <==> n in entries
      requires forall i, j :: 0 <= i < j < |names| ==> names[i] != names[j]
      modifies this`entries
      ensures Valid()
      ensures TrimPromise(old(entries), names, maxBytes, alive, movable, evicted)
      ensures entries.Keys == old(entries).Keys - KeysOf(evicted)
      ensures forall k :: k in entries ==> SameButStaleLeases(entries[k], old(entries)[k], alive)
      ensures forall h :: h in holds && h.owner in alive ==> h.key !in evicted
    {
      ghost var before := entries;
      forall h | h in holds && h.owner in alive ensures Leased(before[h.key], alive) {
        assert h.name in LiveLeases(before[h.key].leases, alive);
      }
      entries, evicted := EvictLeastRecentlyUsed(entries, names, maxBytes, alive, movable);
      forall h | h in holds && h.owner in alive ensures h.key in entries && h.name in entries[h.key].leases {
        assert h.name in LiveLeases(before[h.key].leases, alive);
      }
    }

    /** Releasing drops the lease file, then trims in the same critical section. */
    method Release(h: Hold, names: seq<Key>, maxBytes: nat, movable: set<Key>) returns (evicted: seq<Key>)
      requires Valid() && h in holds
      requires forall o :: o in holds && o != h ==> o.key != h.key || o.name != h.name
      requires forall n :: n in names <==> n in entries
      requires forall i, j :: 0 <= i < j < |names| ==> names[i] != names[j]
      modifies this`entries, this`holds
      ensures Valid() && holds == old(holds) - {h}
      ensures TrimPromise(WithoutLease(old(entries), h), names, maxBytes, alive, movable, evicted)
      ensures entries.Keys == old(entries).Keys - KeysOf(evicted)
      ensures forall o :: o in holds && o.owner in alive ==> o.key in entries && o.key !in evicted
      ensures h.key in entries ==> h.name !in entries[h.key].leases
      ensures forall k :: k in entries && k != h.key ==> SameButStaleLeases(entries[k], old(entries)[k], alive)
    {
      entries := WithoutLease(entries, h);
      holds := holds - {h};
      evicted := Trim(names, maxBytes, movable);
    }

    /** A process ends; a (pid, start) pair never comes back. */
    method ProcessExits(p: (int, int))
      requires Valid()
      modifies this`alive
      ensures Valid() && alive == old(alive) - {p}
    {
      alive := alive - {p};
    }

    method ProcessStarts(p: (int, int))
      requires Valid() && forall h :: h in holds ==> h.owner != p
      modifies this`alive
      ensures Valid() && alive == old(alive) + {p}
    {
      alive := alive + {p};
    }
  }
}
