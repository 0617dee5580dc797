/**
 * `Array.prototype.sort` as the broker uses it: stable, ordered by a strict weak order `before(a, b)`
 * (the comparator is negative). What every caller needs from it is that the FIRST element of the sorted
 * list with some property is the least such element of the original list, ties going to the earliest.
 */
module Sorting {
  import opened Common

  ghost predicate StrictWeakOrder<T(!new)>(before: (T, T) -> bool)
  {
    && (forall x, y {:trigger before(x, y)} :: before(x, y) ==> !before(y, x))
    && (forall x, y, z {:trigger before(x, y), before(y, z)} :: before(x, y) && before(y, z) ==> before(x, z))
    && (forall x, y, z {:trigger before(x, z), before(y, z)} :: before(x, z) ==> before(x, y) || before(y, z))
  }

  ghost predicate Sorted<T>(s: seq<T>, before: (T, T) -> bool)
  {
    forall i, j :: 0 <= i < j < |s| ==> !before(s[j], s[i])
  }

  function Insert<T>(x: T, s: seq<T>, before: (T, T) -> bool): seq<T>
  {
    if s == [] || !before(s[0], x) then [x] + s else [s[0]] + Insert(x, s[1..], before)
  }

  function StableSort<T>(s: seq<T>, before: (T, T) -> bool): seq<T>
  {
    if s == [] then [] else Insert(s[0], StableSort(s[1..], before), before)
  }

  /** The first element of `s` satisfying `p`. */
  function FirstThat<T>(s: seq<T>, p: T -> bool): Option<T>
  {
    if s == [] then None else if p(s[0]) then Some(s[0]) else FirstThat(s[1..], p)
  }

  /** The least element of `s` satisfying `p`, the earliest of equally small ones. */
  function LeastThat<T>(s: seq<T>, p: T -> bool, before: (T, T) -> bool): Option<T>
  {
    if s == [] then None
    else
      var rest := LeastThat(s[1..], p, before);
      if p(s[0]) && (rest.None? || !before(rest.value, s[0])) then Some(s[0]) else rest
  }

  lemma {:induction false} InsertPermutes<T>(x: T, s: seq<T>, before: (T, T) -> bool)
    ensures multiset(Insert(x, s, before)) == multiset([x] + s)
  {
    if s != [] && before(s[0], x) {
      InsertPermutes(x, s[1..], before);
      assert s == [s[0]] + s[1..];
    }
  }

  lemma {:induction false} SortPermutes<T>(s: seq<T>, before: (T, T) -> bool)
    ensures multiset(StableSort(s, before)) == multiset(s)
    ensures |StableSort(s, before)| == |s|
  {
    if s != [] {
      SortPermutes(s[1..], before);
      InsertPermutes(s[0], StableSort(s[1..], before), before);
      assert s == [s[0]] + s[1..];
    }
    assert |multiset(StableSort(s, before))| == |multiset(s)|;
  }

  lemma SortMembers<T>(s: seq<T>, before: (T, T) -> bool)
    ensures forall x :: x in StableSort(s, before) <==> x in s
  {
    SortPermutes(s, before);
    forall x ensures x in StableSort(s, before) <==> x in s {
      assert x in multiset(s) <==> x in s;
      assert x in multiset(StableSort(s, before)) <==> x in StableSort(s, before);
    }
  }

  lemma {:induction false} InsertSorts<T(!new)>(x: T, s: seq<T>, before: (T, T) -> bool)
    requires StrictWeakOrder(before) && Sorted(s, before)
    ensures Sorted(Insert(x, s, before), before)
  {
    if s == [] {
    } else if !before(s[0], x) {
      assert forall j :: 0 <= j < |s| ==> !before(s[j], x) by {
        forall j | 0 <= j < |s| ensures !before(s[j], x) {
        }
      }
    } else {
      InsertSorts(x, s[1..], before);
      var r := Insert(x, s[1..], before);
      InsertPermutes(x, s[1..], before);
      forall j | 0 <= j < |r| ensures !before(r[j], s[0]) {
        assert r[j] in multiset([x] + s[1..]);
        assert r[j] in [x] + s[1..];
      }
    }
  }

  lemma {:induction false} SortSorts<T(!new)>(s: seq<T>, before: (T, T) -> bool)
    requires StrictWeakOrder(before)
    ensures Sorted(StableSort(s, before), before)
  {
    if s != [] {
      SortSorts(s[1..], before);
      InsertSorts(s[0], StableSort(s[1..], before), before);
    }
  }

  lemma FirstIsMember<T>(s: seq<T>, p: T -> bool)
    ensures FirstThat(s, p).Some? ==> FirstThat(s, p).value in s && p(FirstThat(s, p).value)
    ensures FirstThat(s, p).None? <==> forall x :: x in s ==> !p(x)
  {
    if s != [] {
      FirstIsMember(s[1..], p);
      assert s == [s[0]] + s[1..];
    }
  }

  lemma {:induction false} FirstOfAppend<T>(s: seq<T>, x: T, p: T -> bool)
    ensures FirstThat(s + [x], p) == if FirstThat(s, p).Some? then FirstThat(s, p) else if p(x) then Some(x) else None
  {
    if s != [] {
      assert (s + [x])[1..] == s[1..] + [x];
      FirstOfAppend(s[1..], x, p);
    }
  }

  lemma {:induction false} FirstAfterInsert<T(!new)>(x: T, s: seq<T>, p: T -> bool, before: (T, T) -> bool)
    requires StrictWeakOrder(before) && Sorted(s, before)
    ensures FirstThat(Insert(x, s, before), p) ==
            var rest := FirstThat(s, p);
            if p(x) && (rest.None? || !before(rest.value, x)) then Some(x) else rest
  {
    if s == [] {
    } else if !before(s[0], x) {
      FirstIsMember(s, p);
      if FirstThat(s, p).Some? {
        var f := FirstThat(s, p).value;
        var j :| 0 <= j < |s| && s[j] == f;
      }
      assert ([x] + s)[1..] == s;
    } else {
      FirstAfterInsert(x, s[1..], p, before);
      var r := Insert(x, s[1..], before);
      assert ([s[0]] + r)[1..] == r;
    }
  }

  /** The first element of the stable sort with a property is the least one, ties to the earliest. */
  lemma {:induction false} FirstOfSorted<T(!new)>(s: seq<T>, p: T -> bool, before: (T, T) -> bool)
    requires StrictWeakOrder(before)
    ensures FirstThat(StableSort(s, before), p) == LeastThat(s, p, before)
  {
    if s != [] {
      FirstOfSorted(s[1..], p, before);
      SortSorts(s[1..], before);
      FirstAfterInsert(s[0], StableSort(s[1..], before), p, before);
    }
  }

  /** What `LeastThat` means, by position. */
  lemma {:induction false} LeastMeaning<T(!new)>(s: seq<T>, p: T -> bool, before: (T, T) -> bool) returns (k: nat)
    requires StrictWeakOrder(before)
    ensures LeastThat(s, p, before).None? ==> forall i :: 0 <= i < |s| ==> !p(s[i])
    ensures LeastThat(s, p, before).Some? ==>
      && k < |s| && s[k] == LeastThat(s, p, before).value && p(s[k])
      && (forall i :: 0 <= i < |s| && p(s[i]) ==> !before(s[i], s[k]))
      && (forall i :: 0 <= i < k && p(s[i]) ==> before(s[k], s[i]))
  {
    k := 0;
    if s != [] {
      var rest := LeastThat(s[1..], p, before);
      var r := LeastMeaning(s[1..], p, before);
      if p(s[0]) && (rest.None? || !before(rest.value, s[0])) {
        forall i | 0 < i < |s| && p(s[i]) ensures !before(s[i], s[0]) {
          assert s[i] == s[1..][i - 1];
        }
      } else {
        k := r + 1;
        forall i | 0 <= i < |s| && p(s[i]) ensures rest.Some? && !before(s[i], s[k]) && (i < k ==> before(s[k], s[i])) {
          if i > 0 { assert s[i] == s[1..][i - 1]; }
        }
      }
    }
  }

  ghost predicate DistinctBy<T, K>(s: seq<T>, key: T -> K)
  {
    forall i, j :: 0 <= i < j < |s| ==> key(s[i]) != key(s[j])
  }

  lemma {:induction false} InsertKeepsDistinct<T, K>(x: T, s: seq<T>, before: (T, T) -> bool, key: T -> K)
    requires DistinctBy(s, key) && forall i :: 0 <= i < |s| ==> key(s[i]) != key(x)
    ensures DistinctBy(Insert(x, s, before), key)
  {
    if s != [] && before(s[0], x) {
      InsertKeepsDistinct(x, s[1..], before, key);
      InsertPermutes(x, s[1..], before);
      var r := Insert(x, s[1..], before);
      forall j | 0 <= j < |r| ensures key(r[j]) != key(s[0]) {
        assert r[j] in multiset([x] + s[1..]);
        assert r[j] in [x] + s[1..];
      }
    }
  }

  lemma {:induction false} SortKeepsDistinct<T, K>(s: seq<T>, before: (T, T) -> bool, key: T -> K)
    requires DistinctBy(s, key)
    ensures DistinctBy(StableSort(s, before), key)
  {
    if s != [] {
      SortKeepsDistinct(s[1..], before, key);
      SortPermutes(s[1..], before);
      var r := StableSort(s[1..], before);
      forall i | 0 <= i < |r| ensures key(r[i]) != key(s[0]) {
        assert r[i] in multiset(r) && r[i] in multiset(s[1..]);
        var j :| 0 <= j < |s[1..]| && s[1..][j] == r[i];
      }
      InsertKeepsDistinct(s[0], r, before, key);
    }
  }

  /** The order of strings: by the first character that differs, a prefix first. */
  predicate TextLess(a: string, b: string)
  {
    b != [] && (a == [] || a[0] < b[0] || (a[0] == b[0] && TextLess(a[1..], b[1..])))
  }

  lemma {:induction false} TextOrder(a: string, b: string, c: string)
    ensures TextLess(a, b) ==> !TextLess(b, a)
    ensures TextLess(a, b) && TextLess(b, c) ==> TextLess(a, c)
    ensures TextLess(a, c) ==> TextLess(a, b) || TextLess(b, c)
  {
    if a != [] && b != [] && c != [] {
      TextOrder(a[1..], b[1..], c[1..]);
    } else if a != [] && b != [] {
      TextOrder(a[1..], b[1..], []);
    }
  }

  lemma SplitAt<T>(s: seq<T>, k: nat)
    requires k < |s|
    ensures multiset(s) == multiset(s[..k]) + multiset{s[k]} + multiset(s[k + 1..])
  {
    assert s == s[..k] + [s[k]] + s[k + 1..];
  }

  /** Where the lesser string parts from the other: it ends there, or has the lower character. */
  lemma {:induction false} PartingOf(a: string, b: string) returns (p: nat)
    requires TextLess(a, b)
    ensures p <= |a| && p < |b| && a[..p] == b[..p] && (p == |a| || a[p] < b[p])
  {
    p := 0;
    if a != [] && a[0] == b[0] {
      var q := PartingOf(a[1..], b[1..]);
      p := q + 1;
      assert a[..p] == [a[0]] + a[1..][..q] && b[..p] == [b[0]] + b[1..][..q];
    }
  }

  lemma {:induction false} PartingDecides(a: string, b: string, p: nat)
    requires p <= |a| && p < |b| && a[..p] == b[..p] && (p == |a| || a[p] < b[p])
    ensures TextLess(a, b)
  {
    if p > 0 {
      assert a[..p][0] == b[..p][0];
      assert a[1..][..p - 1] == a[..p][1..] && b[1..][..p - 1] == b[..p][1..];
      PartingDecides(a[1..], b[1..], p - 1);
    }
  }

  /** Of two strings in order, the first does not have the higher character where they part. */
  lemma InTextOrder(a: string, b: string, p: nat)
    requires !TextLess(b, a) && p < |a| && p < |b| && a[..p] == b[..p]
    ensures a[p] <= b[p]
  {
    if b[p] < a[p] { PartingDecides(b, a, p); }
  }
}
