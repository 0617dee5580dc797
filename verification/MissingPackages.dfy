/**
 * Which lock entries a cached install must not lack (src/deps-cache.js, `findMissingInstalled`): an absent optional
 * package is expected when everything that depends on it is itself platform-skipped or expected absent. The loop grows
 * that set from the platform-skipped entries; it ends at the least one, whatever order the entries come in.
 */
module MissingPackages {
  import opened Common
  import opened Sorting

  type Path = string

  /**
   * A lock entry: `skipped` is the os/cpu/libc verdict for this platform, `requests` the names it asks npm to resolve.
   */
  datatype Entry = Entry(optional: bool, skipped: bool, requests: seq<string>)

  /** The lock's `packages`: an entry may be null. */
  type Packages = map<Path, Option<Entry>>

  const SEPARATOR: string := "/node_modules/"

  // ---------------------------------------------------------------- resolution

  predicate SeparatorAt(s: string, i: nat) { i + |SEPARATOR| <= |s| && s[i..i + |SEPARATOR|] == SEPARATOR }

  /** `base.lastIndexOf('/node_modules/')` among positions below `limit`. */
  function LastSeparator(s: string, limit: nat): (r: int)
    ensures r < limit && (r >= 0 ==> SeparatorAt(s, r))
    ensures forall i: nat :: r < i < limit ==> !SeparatorAt(s, i)
  {
    if limit == 0 then -1 else if SeparatorAt(s, limit - 1) then limit - 1 else LastSeparator(s, limit - 1)
  }

  /** The directory whose `node_modules` is searched after `base`'s own. */
  function Parent(base: Path): (p: Path)
    ensures base != "" ==> |p| < |base|
  {
    var cut := LastSeparator(base, |base|);
    if cut < 0 then "" else base[..cut]
  }

  function Candidate(base: Path, name: string): Path
  {
    (if base == "" then "" else base + "/") + "node_modules/" + name
  }

  /** Every directory searched from `base`, nearest first, ending at the root. */
  function SearchPath(base: Path): seq<Path>
    decreases |base|
  {
    if base == "" then [""] else [base] + SearchPath(Parent(base))
  }

  function HasCandidate(packages: Packages, name: string): Path -> bool { (b: Path) => Candidate(b, name) in packages }

  /** Node's resolution: the nearest directory on the search path that holds the package. */
  function Resolve(packages: Packages, from: Path, name: string): Option<Path>
  {
    match FirstThat(SearchPath(from), HasCandidate(packages, name))
    case None => None
    case Some(b) => Some(Candidate(b, name))
  }

  // ---------------------------------------------------------------- the same, in characters

  /** `/node_modules/` stands in `s` at `i`. */
  predicate NodeModulesAt(s: string, i: nat)
  {
    i + 14 <= |s| && s[i..i + 14] == "/node_modules/"
  }

  /**
   * `outer` is the directory searched after `inner`: what stands before the last `/node_modules/` of `inner`, or the
   * root if there is none.
   */
  ghost predicate SearchedNext(inner: Path, outer: Path)
  {
    if forall i: nat :: !NodeModulesAt(inner, i) then outer == ""
    else outer <= inner && NodeModulesAt(inner, |outer|) && forall i: nat :: |outer| < i ==> !NodeModulesAt(inner, i)
  }

  /** `path` runs from `from` outwards, directory by directory, to the root. */
  ghost predicate Outwards(from: Path, path: seq<Path>)
  {
    && path != [] && path[0] == from && path[|path| - 1] == ""
    && forall k :: 0 <= k < |path| - 1 ==> path[k] != "" && SearchedNext(path[k], path[k + 1])
  }

  /** Where a directory would hold the package. */
  predicate IsIn(dir: Path, name: string, at: Path)
  {
    if dir == "" then at == "node_modules/" + name else at == dir + "/node_modules/" + name
  }

  /** `r` is the package in the first directory on the way outwards that holds it, or none does. */
  ghost predicate IsNearest(packages: Packages, from: Path, name: string, r: Option<Path>)
  {
    exists path ::
      && Outwards(from, path)
      && if r.None? then forall k, at :: 0 <= k < |path| && IsIn(path[k], name, at) ==> at !in packages
         else exists k ::
           && 0 <= k < |path| && IsIn(path[k], name, r.value) && r.value in packages
           && forall i, at :: 0 <= i < k && IsIn(path[i], name, at) ==> at !in packages
  }

  lemma ParentIsNext(base: Path)
    ensures SearchedNext(base, Parent(base))
  {
    forall i: nat ensures NodeModulesAt(base, i) <==> SeparatorAt(base, i) {}
    var cut := LastSeparator(base, |base|);
    if cut >= 0 { assert NodeModulesAt(base, cut); }
  }

  lemma {:induction false} SearchRunsOutwards(base: Path)
    ensures Outwards(base, SearchPath(base))
    decreases |base|
  {
    if base != "" {
      ParentIsNext(base);
      SearchRunsOutwards(Parent(base));
      var rest := SearchPath(Parent(base));
      forall k | 0 <= k < |SearchPath(base)| - 1
        ensures SearchPath(base)[k] != "" && SearchedNext(SearchPath(base)[k], SearchPath(base)[k + 1])
      {
        if k > 0 { assert SearchPath(base)[k] == rest[k - 1] && SearchPath(base)[k + 1] == rest[k]; }
      }
    }
  }

  lemma CandidateIsIn(dir: Path, name: string, at: Path)
    ensures IsIn(dir, name, at) <==> at == Candidate(dir, name)
  {
    assert dir != "" ==> dir + "/" + "node_modules/" + name == dir + "/node_modules/" + name by {
      assert "/" + "node_modules/" == "/node_modules/";
      assert dir + "/" + "node_modules/" == dir + "/node_modules/";
    }
    assert "" + "node_modules/" + name == "node_modules/" + name;
  }

  lemma {:induction false} FirstByPlace(path: seq<Path>, p: Path -> bool) returns (k: nat)
    ensures FirstThat(path, p).None? ==> forall i :: 0 <= i < |path| ==> !p(path[i])
    ensures FirstThat(path, p).Some? ==>
      k < |path| && path[k] == FirstThat(path, p).value && p(path[k]) && forall i :: 0 <= i < k ==> !p(path[i])
  {
    k := 0;
    if path != [] && !p(path[0]) {
      var m := FirstByPlace(path[1..], p);
      k := m + 1;
    }
  }

  lemma ResolveIsNearest(packages: Packages, from: Path, name: string)
    ensures IsNearest(packages, from, name, Resolve(packages, from, name))
  {
    var path, r := SearchPath(from), Resolve(packages, from, name);
    SearchRunsOutwards(from);
    var k := FirstByPlace(path, HasCandidate(packages, name));
    forall i, at | 0 <= i < |path| && IsIn(path[i], name, at) ensures at in packages <==>
        HasCandidate(packages, name)(path[i])
    {
      CandidateIsIn(path[i], name, at);
    }
    if r.Some? { CandidateIsIn(path[k], name, r.value); }
  }

  /** A directory outside another package directory is on the way outwards, whatever lies between. */
  lemma {:induction false} NoDirectoryIsSkipped(base: Path, path: seq<Path>, i: nat)
    requires Outwards(base, path) && NodeModulesAt(base, i)
    requires forall j: nat :: NodeModulesAt(base, j) ==> !NodeModulesAt(base, j + 13)
    ensures base[..i] in path
    decreases |path|
  {
    var outer := path[1];
    assert |path| > 1 && SearchedNext(base, outer) by { assert SearchedNext(path[0], path[1]); }
    if i == |outer| {
      assert base[..i] == outer;
    } else {
      StaysInside(base, outer, i);
      var rest := path[1..];
      assert Outwards(outer, rest) by {
        forall k | 0 <= k < |rest| - 1 ensures rest[k] != "" && SearchedNext(rest[k], rest[k + 1]) {
          assert SearchedNext(path[k + 1], path[k + 2]);
        }
      }
      forall j: nat | NodeModulesAt(outer, j) ensures NodeModulesAt(base, j) && !NodeModulesAt(outer, j + 13) {
        InPrefix(base, outer, j);
        InPrefix(base, outer, j + 13);
      }
      NoDirectoryIsSkipped(outer, rest, i);
      assert outer[..i] == base[..i];
    }
  }

  lemma InPrefix(base: Path, outer: Path, j: nat)
    requires outer <= base
    ensures NodeModulesAt(outer, j) ==> NodeModulesAt(base, j)
  {
    if j + 14 <= |outer| { assert outer[j..j + 14] == base[j..j + 14]; }
  }

  lemma CharAt(s: string, i: nat, d: nat)
    requires NodeModulesAt(s, i) && d < 14
    ensures s[i + d] == "/node_modules/"[d]
  {
    assert s[i..i + 14][d] == s[i + d];
  }

  /** Two places of `/node_modules/` that do not share their slash do not overlap, so the outer one stays. */
  lemma StaysInside(base: Path, outer: Path, i: nat)
    requires outer <= base && NodeModulesAt(base, |outer|) && i < |outer| && NodeModulesAt(base, i)
    requires !NodeModulesAt(base, i + 13)
    ensures NodeModulesAt(outer, i)
  {
    CharAt(base, |outer|, 0);
    if |outer| - i < 14 { CharAt(base, i, |outer| - i); }
    assert outer[i..i + 14] == base[i..i + 14];
  }

  method ResolveLockPath(packages: Packages, from: Path, name: string) returns (r: Option<Path>)
    ensures r == Resolve(packages, from, name) && IsNearest(packages, from, name, r)
  {
    ResolveIsNearest(packages, from, name);
    var base := from;
    while true
      invariant FirstThat(SearchPath(from), HasCandidate(packages, name)) ==
        FirstThat(SearchPath(base), HasCandidate(packages, name))
      decreases |base|
    {
      var candidate := Candidate(base, name);
      if candidate in packages { return Some(candidate); }
      if base == "" { return None; }
      base := Parent(base);
    }
  }

  // ---------------------------------------------------------------- dependents

  /** One of the first `k` names `from` requests resolves to `target`. */
  predicate Asks(packages: Packages, from: Path, names: seq<string>, k: nat, target: Path)
    requires k <= |names|
  {
    exists j :: 0 <= j < k && Resolve(packages, from, names[j]) == Some(target)
  }

  predicate DependsOn(packages: Packages, from: Path, target: Path)
  {
    && from in packages && packages[from].Some?
    && var names := packages[from].value.requests; Asks(packages, from, names, |names|, target)
  }

  ghost function Dependents(packages: Packages, target: Path): set<Path>
  {
    set f | f in packages && DependsOn(packages, f, target)
  }

  function Lookup(m: map<Path, set<Path>>, p: Path): set<Path> { if p in m then m[p] else {} }

  /** `after` is `before` with `from` added wherever one of its first `k` names resolves. */
  ghost predicate Added(
    packages: Packages, from: Path, names: seq<string>, k: nat, before: map<Path, set<Path>>,
    after: map<Path, set<Path>>)
    requires k <= |names|
  {
    forall t, f :: f in Lookup(after, t) <==> f in Lookup(before, t) || (f == from && Asks(packages, from, names, k, t))
  }

  lemma AsksFurther(packages: Packages, from: Path, names: seq<string>, k: nat, t: Path)
    requires k < |names|
    ensures Asks(packages, from, names, k + 1, t) <==>
      Asks(packages, from, names, k, t) || Resolve(packages, from, names[k]) == Some(t)
  {}

  lemma AddOne(
    packages: Packages, from: Path, names: seq<string>, k: nat, before: map<Path, set<Path>>,
    after: map<Path, set<Path>>)
    requires k < |names| && Added(packages, from, names, k, before, after)
    ensures var target := Resolve(packages, from, names[k]);
      Added(packages, from, names, k + 1, before,
        if target.Some? then after[target.value := Lookup(after, target.value) + {from}] else after)
  {
    var target := Resolve(packages, from, names[k]);
    var next := if target.Some? then after[target.value := Lookup(after, target.value) + {from}] else after;
    forall t, f
      ensures f in Lookup(next, t) <==> f in Lookup(before, t) || (f == from && Asks(packages, from, names, k + 1, t))
    {
      AsksFurther(packages, from, names, k, t);
      assert f in Lookup(next, t) <==> f in Lookup(after, t) || (target == Some(t) && f == from);
    }
  }

  method AddDependent(packages: Packages, from: Path, names: seq<string>, before: map<Path, set<Path>>)
    returns (after: map<Path, set<Path>>)
    ensures Added(packages, from, names, |names|, before, after)
  {
    after := before;
    for k := 0 to |names|
      invariant Added(packages, from, names, k, before, after)
    {
      AddOne(packages, from, names, k, before, after);
      var target := ResolveLockPath(packages, from, names[k]);
      if target.Some? {
        after := after[target.value := Lookup(after, target.value) + {from}];
      }
    }
  }

  method DependentsByPath(packages: Packages, order: seq<Path>) returns (dependents: map<Path, set<Path>>)
    requires forall p :: p in order <==> p in packages
    ensures forall t :: Lookup(dependents, t) == Dependents(packages, t)
  {
    dependents := map[];
    for i := 0 to |order|
      invariant forall t, f :: f in Lookup(dependents, t) <==> f in order[..i] && DependsOn(packages, f, t)
    {
      var from := order[i];
      assert order[i] in order && order[..i + 1] == order[..i] + [from];
      if packages[from].Some? {
        dependents := AddDependent(packages, from, packages[from].value.requests, dependents);
      }
    }
    assert order[..|order|] == order;
  }

  // ---------------------------------------------------------------- the fixpoint

  predicate Applies(packages: Packages, n: Path) { n in packages && n != "" && packages[n].Some? }

  predicate Skipped(packages: Packages, n: Path) { Applies(packages, n) && packages[n].value.skipped }

  predicate Absent(packages: Packages, installed: set<Path>, n: Path)
  {
    Applies(packages, n) && !packages[n].value.skipped && n !in installed
  }

  /** An absent optional entry all of whose dependents (it has some) are in `gone`. */
  ghost predicate Excused(packages: Packages, installed: set<Path>, gone: set<Path>, n: Path)
  {
    && Absent(packages, installed, n) && packages[n].value.optional
    && Dependents(packages, n) != {} && Dependents(packages, n) <= gone
  }

  ghost predicate Closed(packages: Packages, installed: set<Path>, gone: set<Path>)
  {
    && (forall n :: Skipped(packages, n) ==> n in gone)
    && (forall n :: Excused(packages, installed, gone, n) ==> n in gone)
  }

  /** In the least closed set: in every closed one. */
  ghost predicate ExpectedGone(packages: Packages, installed: set<Path>, n: Path)
  {
    forall gone: set<Path> :: Closed(packages, installed, gone) ==> n in gone
  }

  /** What the loop sees of a lock: the skipped entries, the absent optional ones, and who depends on whom. */
  datatype Rules = Rules(skipped: set<Path>, candidates: set<Path>, parents: map<Path, set<Path>>)

  ghost predicate Ready(r: Rules, gone: set<Path>, n: Path)
  {
    n in r.candidates && Lookup(r.parents, n) != {} && Lookup(r.parents, n) <= gone
  }

  ghost predicate ClosedFor(r: Rules, gone: set<Path>)
  {
    r.skipped <= gone && forall n :: Ready(r, gone, n) ==> n in gone
  }

  /** `gone` is inside every closed set. */
  ghost predicate Minimal(r: Rules, gone: set<Path>)
  {
    forall other: set<Path> :: ClosedFor(r, other) ==> gone <= other
  }

  lemma GrowKeepsMinimal(r: Rules, gone: set<Path>, n: Path)
    requires Minimal(r, gone) && Ready(r, gone, n)
    ensures Minimal(r, gone + {n})
  {
    forall other: set<Path> | ClosedFor(r, other) ensures gone + {n} <= other {
      assert Ready(r, other, n);
    }
  }

  /** One pass over the absent entries; a pass that adds nothing has nothing left to add. */
  method GrowOnce(r: Rules, absent: seq<Path>, optional: set<Path>, start: set<Path>)
    returns (gone: set<Path>, grew: bool)
    requires forall n :: n in r.candidates <==> n in absent && n in optional
    requires r.skipped <= start && Minimal(r, start)
    ensures start <= gone && Minimal(r, gone)
    ensures grew ==> Remaining(absent, gone) < Remaining(absent, start)
    ensures !grew ==> gone == start && ClosedFor(r, gone)
  {
    gone, grew := start, false;
    for i := 0 to |absent|
      invariant start <= gone && Minimal(r, gone)
      invariant grew ==> Remaining(absent, gone) < Remaining(absent, start)
      invariant !grew ==> gone == start && forall k :: 0 <= k < i && Ready(r, gone, absent[k]) ==> absent[k] in gone
    {
      var n := absent[i];
      var parents := Lookup(r.parents, n);
      if n !in gone && n in optional && parents != {} && parents <= gone {
        GrowKeepsMinimal(r, gone, n);
        RemainingShrinks(absent, start, gone, n);
        gone, grew := gone + {n}, true;
      }
    }
  }

  /** The least closed set, by repeated passes. */
  method LeastClosed(r: Rules, absent: seq<Path>, optional: set<Path>) returns (gone: set<Path>)
    requires forall n :: n in r.candidates <==> n in absent && n in optional
    ensures ClosedFor(r, gone) && Minimal(r, gone)
  {
    gone := r.skipped;
    var grew := true;
    while grew
      invariant r.skipped <= gone && Minimal(r, gone)
      invariant !grew ==> ClosedFor(r, gone)
      decreases Remaining(absent, gone), grew
    {
      gone, grew := GrowOnce(r, absent, optional, gone);
    }
  }

  ghost predicate Describes(r: Rules, packages: Packages, installed: set<Path>)
  {
    && (forall n :: n in r.skipped <==> Skipped(packages, n))
    && (forall n :: n in r.candidates <==> Absent(packages, installed, n) && packages[n].value.optional)
    && (forall t :: Lookup(r.parents, t) == Dependents(packages, t))
  }

  lemma SameClosedSets(r: Rules, packages: Packages, installed: set<Path>, gone: set<Path>)
    requires Describes(r, packages, installed)
    ensures ClosedFor(r, gone) <==> Closed(packages, installed, gone)
  {
    forall n ensures Ready(r, gone, n) <==> Excused(packages, installed, gone, n) {
      assert Lookup(r.parents, n) == Dependents(packages, n);
    }
  }

  lemma LeastIsExpected(r: Rules, packages: Packages, installed: set<Path>, gone: set<Path>)
    requires Describes(r, packages, installed) && ClosedFor(r, gone) && Minimal(r, gone)
    ensures forall n :: n in gone <==> ExpectedGone(packages, installed, n)
  {
    SameClosedSets(r, packages, installed, gone);
    forall other: set<Path> | Closed(packages, installed, other) ensures gone <= other {
      SameClosedSets(r, packages, installed, other);
    }
  }

  ghost predicate EachOnce(s: seq<Path>) { forall i, j :: 0 <= i < j < |s| ==> s[i] != s[j] }

  /** The name the report shows: the path without its leading `node_modules/`. */
  function ShownName(p: Path): (name: string)
    ensures "node_modules/" <= p ==> p == "node_modules/" + name
  {
    p[Min(|p|, |"node_modules/"|)..]
  }

  function ShownNames(paths: seq<Path>): seq<string>
  {
    seq(|paths|, i requires 0 <= i < |paths| => ShownName(paths[i]))
  }

  function ByText(): (string, string) -> bool { (a: string, b: string) => TextLess(a, b) }

  lemma ByTextIsOrder()
    ensures StrictWeakOrder(ByText())
  {
    var before := ByText();
    forall x, y ensures before(x, y) ==> !before(y, x) { TextOrder(x, y, x); }
    forall x, y, z ensures before(x, y) && before(y, z) ==> before(x, z) { TextOrder(x, y, z); }
    forall x, y, z ensures before(x, z) ==> before(x, y) || before(y, z) { TextOrder(x, y, z); }
  }

  /**
   * `missing` is the absent entries outside the least closed set, each once, whatever the order of the lock's entries;
   * their names are reported sorted.
   */
  method FindMissingInstalled(packages: Packages, order: seq<Path>, installed: set<Path>)
    returns (names: seq<string>, missing: seq<Path>)
    requires (forall p :: p in order <==> p in packages) && EachOnce(order)
    ensures forall n :: n in missing <==> Absent(packages, installed, n) && !ExpectedGone(packages, installed, n)
    ensures forall n :: n in missing <==>
      && n in packages && n != "" && packages[n].Some? && !packages[n].value.skipped && n !in installed
      && !ExpectedGone(packages, installed, n)
    ensures EachOnce(missing)
    ensures multiset(names) == multiset(ShownNames(missing)) && Sorted(names, ByText())
    ensures forall i, j, p :: 0 <= i < j < |names| ==> PartsInOrder(names[i], names[j], p)
  {
    var skipped, absent := PlatformSplit(packages, order, installed);
    var dependents := DependentsByPath(packages, order);
    var optional := set n | n in absent && packages[n].value.optional;
    var r := Rules(skipped, optional, dependents);
    var gone := LeastClosed(r, absent, optional);
    LeastIsExpected(r, packages, installed, gone);
    missing := WithoutGone(absent, gone);
    names := StableSort(ShownNames(missing), ByText());
    ByTextIsOrder();
    SortPermutes(ShownNames(missing), ByText());
    SortSorts(ShownNames(missing), ByText());
    forall i, j, p | 0 <= i < j < |names| ensures PartsInOrder(names[i], names[j], p) {
      assert !ByText()(names[j], names[i]);
      if 0 <= p < |names[i]| && p < |names[j]| && names[i][..p] == names[j][..p] {
        InTextOrder(names[i], names[j], p);
      }
    }
  }

  /** If `p` is the first place where the names differ, the first name has the lower character there. */
  predicate PartsInOrder(a: string, b: string, p: int)
  {
    0 <= p < |a| && p < |b| && a[..p] == b[..p] ==> a[p] <= b[p]
  }

  method WithoutGone(absent: seq<Path>, gone: set<Path>) returns (missing: seq<Path>)
    ensures forall n :: n in missing <==> n in absent && n !in gone
    ensures EachOnce(absent) ==> EachOnce(missing)
  {
    missing := [];
    for i := 0 to |absent|
      invariant forall n :: n in missing <==> n in absent[..i] && n !in gone
      invariant EachOnce(absent) ==> EachOnce(missing)
    {
      AppendOnce(absent, i, missing, absent[i]);
      if absent[i] !in gone { missing := missing + [absent[i]]; }
      assert absent[..i + 1] == absent[..i] + [absent[i]];
    }
    assert absent[..|absent|] == absent;
  }

  /** Appending what has not been seen yet repeats nothing. */
  lemma AppendOnce(all: seq<Path>, i: nat, some: seq<Path>, n: Path)
    requires i < |all| && n == all[i] && forall m :: m in some ==> m in all[..i]
    ensures EachOnce(all) && EachOnce(some) ==> EachOnce(some + [n])
  {
    if EachOnce(all) {
      forall k | 0 <= k < |some| ensures some[k] != n {
        assert some[k] in some && some[k] in all[..i];
        var j :| 0 <= j < i && all[..i][j] == some[k];
      }
    }
  }

  /** The entries of the lock this platform skips, and those it should have but `installed` lacks. */
  method PlatformSplit(packages: Packages, order: seq<Path>, installed: set<Path>)
    returns (gone: set<Path>, absent: seq<Path>)
    requires (forall p :: p in order <==> p in packages) && EachOnce(order)
    ensures forall n :: n in gone <==> Skipped(packages, n)
    ensures (forall n :: n in absent <==> Absent(packages, installed, n)) && EachOnce(absent)
  {
    gone, absent := {}, [];
    for i := 0 to |order|
      invariant forall n :: n in gone <==> n in order[..i] && Skipped(packages, n)
      invariant (forall n :: n in absent <==> n in order[..i] && Absent(packages, installed, n)) && EachOnce(absent)
    {
      var n := order[i];
      AppendOnce(order, i, absent, n);
      assert n in order && order[..i + 1] == order[..i] + [n];
      if n != "" && packages[n].Some? {
        if packages[n].value.skipped { gone := gone + {n}; }
        else if n !in installed { absent := absent + [n]; }
      }
    }
    assert order[..|order|] == order;
  }

  ghost function Remaining(absent: seq<Path>, gone: set<Path>): nat { |(set n | n in absent) - gone| }

  lemma RemainingShrinks(absent: seq<Path>, before: set<Path>, gone: set<Path>, n: Path)
    requires before <= gone && n in absent && n !in gone
    ensures Remaining(absent, gone + {n}) < Remaining(absent, before)
  {
    var all := set m | m in absent;
    SubsetSize(all - (gone + {n}), (all - before) - {n});
  }

  /**
   * What excuses an absent package, in terms of what is reported: it is optional, something asks for it, and everything
   * that does is skipped here or excused itself.
   */
  lemma ExcusedExactly(packages: Packages, installed: set<Path>, n: Path)
    requires n in packages && n != "" && packages[n].Some? && !packages[n].value.skipped && n !in installed
    ensures ExpectedGone(packages, installed, n) <==>
      && packages[n].value.optional
      && (exists f :: f in packages && DependsOn(packages, f, n))
      && (forall f :: f in packages && DependsOn(packages, f, n) ==> ExpectedGone(packages, installed, f))
  {
    var gone := set m | m in packages && ExpectedGone(packages, installed, m);
    LeastIsClosed(packages, installed, gone);
    if ExpectedGone(packages, installed, n) {
      WithoutOne(packages, installed, gone, n);
    } else if packages[n].value.optional && (exists f :: f in packages && DependsOn(packages, f, n)) {
      var f :| f in packages && DependsOn(packages, f, n);
      assert f in Dependents(packages, n);
      assert !Excused(packages, installed, gone, n);
    }
  }

  /** What is in every closed set is itself closed. */
  lemma LeastIsClosed(packages: Packages, installed: set<Path>, gone: set<Path>)
    requires forall m :: m in gone <==> m in packages && ExpectedGone(packages, installed, m)
    ensures Closed(packages, installed, gone)
  {
    forall m | Excused(packages, installed, gone, m) ensures m in gone {
      forall other: set<Path> | Closed(packages, installed, other) ensures m in other {
        assert gone <= other;
        assert Excused(packages, installed, other, m);
      }
    }
  }

  /** A member of the least closed set is skipped or excused by it, or the set would be closed without it. */
  lemma WithoutOne(packages: Packages, installed: set<Path>, gone: set<Path>, n: Path)
    requires forall m :: m in gone <==> m in packages && ExpectedGone(packages, installed, m)
    requires Closed(packages, installed, gone) && n in gone && !Skipped(packages, n)
    ensures Excused(packages, installed, gone, n)
  {
    if !Excused(packages, installed, gone, n) { ClosedWithout(packages, installed, gone, n); }
  }

  lemma ClosedWithout(packages: Packages, installed: set<Path>, gone: set<Path>, n: Path)
    requires Closed(packages, installed, gone) && !Skipped(packages, n) && !Excused(packages, installed, gone, n)
    ensures Closed(packages, installed, gone - {n})
  {
    forall m | Excused(packages, installed, gone - {n}, m) ensures m in gone - {n} {
      assert Excused(packages, installed, gone, m);
    }
  }

  /** A package the root itself asks for is never excused: npm would have had to install it. */
  lemma RootRequestNeverExcused(packages: Packages, installed: set<Path>, n: Path)
    requires Absent(packages, installed, n) && "" in Dependents(packages, n)
    ensures !ExpectedGone(packages, installed, n)
  {
    var others := set m | m in packages && m != n && Applies(packages, m);
    assert Closed(packages, installed, others);
  }
}
