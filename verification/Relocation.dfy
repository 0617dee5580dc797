/**
 * Relocation of a cached tree's bytes (src/deps-cache.js): install paths become placeholder tokens when a tree
 * is stored and tokens become the new run's paths when it is restored. `RewritePrefixes` is the one rewriter
 * used in both directions; `Subst` is the plain definition of "every leftmost-longest occurrence replaced".
 */
module Relocation {
  import opened Common
  import opened Sorting

  datatype Pair = Pair(from: Bytes, to: Bytes)

  /** The acceptance test handed to the rewriter: for text, for a symlink target, or none. */
  datatype Rule = Strict | Anchored | Anywhere

  const AT: byte := 64
  const UNDERSCORE: byte := 95
  const PLUS: byte := 43
  const SLASH: byte := 47
  const LEADERS: set<byte> := {34, 39, 96, 40, 91, 123, 32, 9, 10, 13, 11, 12}
  const FOLLOWERS: set<byte> := {47, 34, 39, 96, 41, 93, 125, 32, 9, 10, 13, 11, 12}

  predicate Accepts(rule: Rule, buf: Bytes, start: nat, end: nat)
    requires start <= end <= |buf|
  {
    match rule
    case Strict => (start == 0 || buf[start - 1] in LEADERS) && (end == |buf| || buf[end] in FOLLOWERS)
    case Anchored => start == 0 && (end == |buf| || buf[end] == SLASH)
    case Anywhere => true
  }

  predicate NonEmptyFroms(pairs: seq<Pair>) { forall p :: p in pairs ==> p.from != [] }

  predicate MatchesAt(buf: Bytes, pos: nat, w: Bytes)
  {
    pos + |w| <= |buf| && buf[pos..pos + |w|] == w
  }

  predicate Occurs(w: Bytes, buf: Bytes) { exists i :: 0 <= i <= |buf| && MatchesAt(buf, i, w) }

  function Matcher(buf: Bytes, pos: nat): Pair -> bool { (p: Pair) => MatchesAt(buf, pos, p.from) }

  function Longer(): (Pair, Pair) -> bool { (a: Pair, b: Pair) => |a.from| > |b.from| }

  /** The pair to apply at `pos`: the longest `from` that starts there. */
  function LongestAt(buf: Bytes, pos: nat, pairs: seq<Pair>): Option<Pair>
  {
    LeastThat(pairs, Matcher(buf, pos), Longer())
  }

  function Prepend(head: Bytes, rest: Option<Bytes>): Option<Bytes>
  {
    if rest.None? then None else Some(head + rest.value)
  }

  /** One left-to-right pass from `pos`; replaced text is never rescanned; a refused occurrence refuses everything. */
  function Rewrite(buf: Bytes, pos: nat, pairs: seq<Pair>, rule: Rule): Option<Bytes>
    requires pos <= |buf| && NonEmptyFroms(pairs)
    decreases |buf| - pos
  {
    if pos == |buf| then Some([])
    else
      var best := LongestAt(buf, pos, pairs);
      if best.None? then Prepend([buf[pos]], Rewrite(buf, pos + 1, pairs, rule))
      else
        LongestIsMatch(buf, pos, pairs);
        var end := pos + |best.value.from|;
        if !Accepts(rule, buf, pos, end) then None else Prepend(best.value.to, Rewrite(buf, end, pairs, rule))
  }

  /** Every leftmost-longest occurrence replaced, nothing refused. */
  function Subst(buf: Bytes, pairs: seq<Pair>): Bytes
    requires NonEmptyFroms(pairs)
    decreases |buf|
  {
    if buf == [] then []
    else
      var best := LongestAt(buf, 0, pairs);
      if best.None? then [buf[0]] + Subst(buf[1..], pairs)
      else
        LongestIsMatch(buf, 0, pairs);
        best.value.to + Subst(buf[|best.value.from|..], pairs)
  }

  lemma LongerIsOrder()
    ensures StrictWeakOrder(Longer())
  {}

  lemma LongestIsMatch(buf: Bytes, pos: nat, pairs: seq<Pair>)
    requires NonEmptyFroms(pairs)
    ensures LongestAt(buf, pos, pairs).None? ==> forall p :: p in pairs ==> !MatchesAt(buf, pos, p.from)
    ensures LongestAt(buf, pos, pairs).Some? ==>
      var b := LongestAt(buf, pos, pairs).value;
      && b in pairs && b.from != [] && MatchesAt(buf, pos, b.from)
      && forall p :: p in pairs && MatchesAt(buf, pos, p.from) ==> |p.from| <= |b.from|
  {
    LongerIsOrder();
    var k := LeastMeaning(pairs, Matcher(buf, pos), Longer());
  }

  // ---------------------------------------------------------------- the loop refines the pass

  /** `buf.indexOf(w, from)`. */
  function IndexOf(buf: Bytes, w: Bytes, from: nat): (r: int)
    requires from <= |buf|
    ensures r >= 0 ==> from <= r <= |buf| && MatchesAt(buf, r, w) && forall i :: from <= i < r ==> !MatchesAt(buf, i, w)
    ensures r < 0 ==> forall i :: from <= i <= |buf| ==> !MatchesAt(buf, i, w)
    decreases |buf| - from
  {
    if MatchesAt(buf, from, w) then from
    else if from == |buf| then -1
    else IndexOf(buf, w, from + 1)
  }

  /** No pair starts anywhere in `[pos, end)`, so the pass copies that stretch. */
  lemma {:induction false} CopyRaw(buf: Bytes, pos: nat, end: nat, pairs: seq<Pair>, rule: Rule)
    requires pos <= end <= |buf| && NonEmptyFroms(pairs)
    requires forall i, p :: pos <= i < end && p in pairs ==> !MatchesAt(buf, i, p.from)
    ensures Rewrite(buf, pos, pairs, rule) == Prepend(buf[pos..end], Rewrite(buf, end, pairs, rule))
    decreases end - pos
  {
    var rest := Rewrite(buf, end, pairs, rule);
    if pos == end {
      assert rest.Some? ==> buf[pos..end] + rest.value == rest.value;
    } else {
      LongestIsMatch(buf, pos, pairs);
      CopyRaw(buf, pos + 1, end, pairs, rule);
      assert rest.Some? ==> [buf[pos]] + (buf[pos + 1..end] + rest.value) == buf[pos..end] + rest.value;
    }
  }

  function Concat(parts: seq<Bytes>): Bytes
  {
    if parts == [] then [] else Concat(parts[..|parts| - 1]) + parts[|parts| - 1]
  }

  lemma ConcatTwo(parts: seq<Bytes>, a: Bytes, b: Bytes)
    ensures Concat(parts + [a, b]) == Concat(parts) + a + b
  {
    var whole := parts + [a, b];
    assert whole[..|whole| - 1] == parts + [a];
    assert (parts + [a])[..|parts|] == parts;
  }

  /** The leftmost occurrence at or after `last` of any pair, the longest where several start there. */
  method NextOccurrence(buf: Bytes, ordered: seq<Pair>, last: nat) returns (best: Option<Pair>, bestIdx: int)
    requires last <= |buf| && NonEmptyFroms(ordered)
    ensures best.None? ==> forall i, p :: last <= i <= |buf| && p in ordered ==> !MatchesAt(buf, i, p.from)
    ensures best.Some? ==>
      && last <= bestIdx <= |buf| && best.value in ordered
      && best == FirstThat(ordered, Matcher(buf, bestIdx))
      && forall i, p :: last <= i < bestIdx && p in ordered ==> !MatchesAt(buf, i, p.from)
  {
    best, bestIdx := None, -1;
    for k := 0 to |ordered|
      invariant best.None? <==> bestIdx < 0
      invariant best.None? ==> forall i, p :: last <= i <= |buf| && p in ordered[..k] ==> !MatchesAt(buf, i, p.from)
      invariant best.Some? ==>
        && last <= bestIdx <= |buf| && best.value in ordered[..k]
        && best == FirstThat(ordered[..k], Matcher(buf, bestIdx))
        && forall i, p :: last <= i < bestIdx && p in ordered[..k] ==> !MatchesAt(buf, i, p.from)
    {
      var pair := ordered[k];
      var idx := IndexOf(buf, pair.from, last);
      assert ordered[..k + 1] == ordered[..k] + [pair];
      if idx >= 0 && (bestIdx < 0 || idx < bestIdx) {
        FirstOfAppend(ordered[..k], pair, Matcher(buf, idx));
        FirstIsMember(ordered[..k], Matcher(buf, idx));
        best, bestIdx := Some(pair), idx;
      } else if best.Some? {
        FirstOfAppend(ordered[..k], pair, Matcher(buf, bestIdx));
      }
    }
    assert ordered[..|ordered|] == ordered;
  }

  lemma PrependTwice(a: Bytes, b: Bytes, rest: Option<Bytes>)
    ensures Prepend(a, Prepend(b, rest)) == Prepend(a + b, rest)
  {
    if rest.Some? { assert a + (b + rest.value) == (a + b) + rest.value; }
  }

  /** One turn of the loop: copy up to the occurrence, then refuse or replace it. */
  lemma OneReplacement(buf: Bytes, last: nat, idx: nat, pairs: seq<Pair>, rule: Rule)
    requires last <= idx <= |buf| && NonEmptyFroms(pairs)
    requires forall i, p :: last <= i < idx && p in pairs ==> !MatchesAt(buf, i, p.from)
    requires LongestAt(buf, idx, pairs).Some?
    ensures
      var best := LongestAt(buf, idx, pairs).value;
      var end := idx + |best.from|;
      && idx < end <= |buf|
      && Rewrite(buf, last, pairs, rule) ==
         if Accepts(rule, buf, idx, end) then Prepend(buf[last..idx] + best.to, Rewrite(buf, end, pairs, rule))
         else None
  {
    LongestIsMatch(buf, idx, pairs);
    CopyRaw(buf, last, idx, pairs, rule);
    var best := LongestAt(buf, idx, pairs).value;
    PrependTwice(buf[last..idx], best.to, Rewrite(buf, idx + |best.from|, pairs, rule));
  }

  /** The parts so far, followed by the pass over the rest, are the goal. */
  ghost predicate Built(goal: Option<Bytes>, parts: seq<Bytes>, buf: Bytes, last: nat, pairs: seq<Pair>, rule: Rule)
    requires last <= |buf| && NonEmptyFroms(pairs)
  {
    goal == Prepend(Concat(parts), Rewrite(buf, last, pairs, rule))
  }

  lemma OneTurn(goal: Option<Bytes>, parts: seq<Bytes>, buf: Bytes, last: nat, idx: nat, pairs: seq<Pair>, rule: Rule)
    requires last <= idx <= |buf| && NonEmptyFroms(pairs) && Built(goal, parts, buf, last, pairs, rule)
    requires forall i, p :: last <= i < idx && p in pairs ==> !MatchesAt(buf, i, p.from)
    requires LongestAt(buf, idx, pairs).Some?
    ensures
      var best := LongestAt(buf, idx, pairs).value;
      var end := idx + |best.from|;
      && idx < end <= |buf|
      && if Accepts(rule, buf, idx, end) then Built(goal, parts + [buf[last..idx], best.to], buf, end, pairs, rule)
         else goal == None
  {
    OneReplacement(buf, last, idx, pairs, rule);
    var best := LongestAt(buf, idx, pairs).value;
    ConcatTwo(parts, buf[last..idx], best.to);
    PrependTwice(Concat(parts), buf[last..idx] + best.to, Rewrite(buf, idx + |best.from|, pairs, rule));
    assert Concat(parts) + (buf[last..idx] + best.to) == Concat(parts + [buf[last..idx], best.to]);
  }

  /** The search among the sorted pairs finds the leftmost-longest choice. */
  method NextChoice(buf: Bytes, ordered: seq<Pair>, pairs: seq<Pair>, last: nat) returns (best: Option<Pair>, idx: int)
    requires last <= |buf| && NonEmptyFroms(pairs) && ordered == StableSort(pairs, Longer())
    ensures best.None? ==> forall i, p :: last <= i < |buf| && p in pairs ==> !MatchesAt(buf, i, p.from)
    ensures best.Some? ==> last <= idx <= |buf| && best == LongestAt(buf, idx, pairs)
    ensures best.Some? ==> forall i, p :: last <= i < idx && p in pairs ==> !MatchesAt(buf, i, p.from)
  {
    SortMembers(pairs, Longer());
    best, idx := NextOccurrence(buf, ordered, last);
    LongerIsOrder();
    if best.Some? { FirstOfSorted(pairs, Matcher(buf, idx), Longer()); }
  }

  lemma LastTurn(goal: Option<Bytes>, parts: seq<Bytes>, buf: Bytes, last: nat, pairs: seq<Pair>, rule: Rule)
    requires last <= |buf| && NonEmptyFroms(pairs) && Built(goal, parts, buf, last, pairs, rule)
    requires forall i, p :: last <= i < |buf| && p in pairs ==> !MatchesAt(buf, i, p.from)
    ensures goal == Some(Concat(parts) + buf[last..])
  {
    CopyRaw(buf, last, |buf|, pairs, rule);
    assert buf[last..|buf|] + [] == buf[last..];
  }

  // ---------------------------------------------------------------- what a pass means, occurrence by occurrence

  /** Text number `k` occurs at `start`. */
  datatype Hit = Hit(start: nat, k: nat)

  function Froms(pairs: seq<Pair>): (r: seq<Bytes>)
    ensures |r| == |pairs| && forall i :: 0 <= i < |r| ==> r[i] == pairs[i].from
  {
    seq(|pairs|, i requires 0 <= i < |pairs| => pairs[i].from)
  }

  /** Text `w` stands at `at`. */
  predicate StandsAt(buf: Bytes, at: nat, w: Bytes)
  {
    at + |w| <= |buf| && forall i :: 0 <= i < |w| ==> buf[at + i] == w[i]
  }

  /**
   * The leftmost-longest occurrences from `from` on, one after the other: nothing stands in the gaps between them, and
   * of what stands at the start of one it is the longest (the first of equals).
   */
  ghost predicate IsCut(buf: Bytes, froms: seq<Bytes>, from: nat, hits: seq<Hit>)
    decreases |hits|
  {
    if hits == [] then forall i, k :: from <= i < |buf| && 0 <= k < |froms| ==> !StandsAt(buf, i, froms[k])
    else
      var h := hits[0];
      && from <= h.start && h.k < |froms| && StandsAt(buf, h.start, froms[h.k])
      && (forall i, k :: from <= i < h.start && 0 <= k < |froms| ==> !StandsAt(buf, i, froms[k]))
      && (forall k :: 0 <= k < |froms| && StandsAt(buf, h.start, froms[k]) ==> |froms[k]| <= |froms[h.k]|)
      && (forall k :: 0 <= k < h.k && StandsAt(buf, h.start, froms[k]) ==> |froms[k]| < |froms[h.k]|)
      && IsCut(buf, froms, h.start + |froms[h.k]|, hits[1..])
  }

  /**
   * An occurrence that may be replaced, its neighbours spelled out in bytes: in a text it begins the text or follows
   * one of `"'` backquote `([{` or whitespace, and it ends the text or is followed by one of `/"'` backquote `)]}` or
   * whitespace; in a link target it begins the target and ends it or is followed by a slash.
   */
  predicate WellPlaced(rule: Rule, buf: Bytes, start: nat, end: nat)
    requires start <= end <= |buf|
  {
    match rule
    case Strict =>
      && (start > 0 ==>
            var b := buf[start - 1];
            b == 34 || b == 39 || b == 96 || b == 40 || b == 91 || b == 123 || b == 32 || 9 <= b <= 13)
      && (end < |buf| ==>
            var b := buf[end];
            b == 47 || b == 34 || b == 39 || b == 96 || b == 41 || b == 93 || b == 125 || b == 32 || 9 <= b <= 13)
    case Anchored => start == 0 && (end < |buf| ==> buf[end] == 47)
    case Anywhere => true
  }

  /** Every occurrence of a cut is well placed. */
  ghost predicate AllWellPlaced(rule: Rule, buf: Bytes, froms: seq<Bytes>, hits: seq<Hit>)
  {
    forall h :: h in hits ==>
      && h.k < |froms| && h.start + |froms[h.k]| <= |buf|
      && WellPlaced(rule, buf, h.start, h.start + |froms[h.k]|)
  }

  /** The text with every occurrence of the cut replaced. */
  ghost function Replaced(buf: Bytes, pairs: seq<Pair>, from: nat, hits: seq<Hit>): Bytes
    requires from <= |buf| && IsCut(buf, Froms(pairs), from, hits)
    decreases |hits|
  {
    if hits == [] then buf[from..]
    else
      var h := hits[0];
      buf[from..h.start] + pairs[h.k].to + Replaced(buf, pairs, h.start + |pairs[h.k].from|, hits[1..])
  }

  lemma StandsIsMatch(buf: Bytes, at: nat, w: Bytes)
    ensures StandsAt(buf, at, w) <==> MatchesAt(buf, at, w)
  {
    if at + |w| <= |buf| {
      var slice := buf[at..at + |w|];
      assert forall i :: 0 <= i < |slice| ==> slice[i] == buf[at + i];
    }
  }

  lemma AcceptsIsWellPlaced(rule: Rule, buf: Bytes, start: nat, end: nat)
    requires start <= end <= |buf|
    ensures Accepts(rule, buf, start, end) <==> WellPlaced(rule, buf, start, end)
  {}

  /** Where nothing stands nothing matches. */
  lemma NothingMatches(buf: Bytes, pairs: seq<Pair>, from: nat, end: nat)
    requires forall i, k :: from <= i < end && 0 <= k < |pairs| ==> !StandsAt(buf, i, Froms(pairs)[k])
    ensures forall i, p :: from <= i < end && p in pairs ==> !MatchesAt(buf, i, p.from)
  {
    forall i, p | from <= i < end && p in pairs ensures !MatchesAt(buf, i, p.from) {
      var k :| 0 <= k < |pairs| && pairs[k] == p;
      StandsIsMatch(buf, i, Froms(pairs)[k]);
    }
  }

  /** The occurrence that a cut has at `at` is the choice of the pass. */
  lemma CutIsChoice(buf: Bytes, at: nat, pairs: seq<Pair>, k: nat)
    requires NonEmptyFroms(pairs) && k < |pairs| && StandsAt(buf, at, pairs[k].from)
    requires forall j :: 0 <= j < |pairs| && StandsAt(buf, at, pairs[j].from) ==> |pairs[j].from| <= |pairs[k].from|
    requires forall j :: 0 <= j < k && StandsAt(buf, at, pairs[j].from) ==> |pairs[j].from| < |pairs[k].from|
    ensures LongestAt(buf, at, pairs) == Some(pairs[k])
  {
    forall j | 0 <= j < |pairs| ensures StandsAt(buf, at, pairs[j].from) <==> MatchesAt(buf, at, pairs[j].from) {
      StandsIsMatch(buf, at, pairs[j].from);
    }
    LongerIsOrder();
    var m := LeastMeaning(pairs, Matcher(buf, at), Longer());
    assert Matcher(buf, at)(pairs[k]);
    assert !Longer()(pairs[k], pairs[m]) && |pairs[m].from| == |pairs[k].from|;
  }

  /** A pass succeeds exactly when every occurrence of the cut is well placed, and then replaces just those. */
  lemma {:induction false} CutDecides(buf: Bytes, from: nat, pairs: seq<Pair>, rule: Rule, hits: seq<Hit>)
    requires from <= |buf| && NonEmptyFroms(pairs) && IsCut(buf, Froms(pairs), from, hits)
    ensures Rewrite(buf, from, pairs, rule).Some? <==> AllWellPlaced(rule, buf, Froms(pairs), hits)
    ensures Rewrite(buf, from, pairs, rule).Some? ==>
      Rewrite(buf, from, pairs, rule).value == Replaced(buf, pairs, from, hits)
    decreases |hits|
  {
    if hits == [] {
      NoCut(buf, from, pairs, rule);
    } else {
      CutDecides(buf, hits[0].start + |pairs[hits[0].k].from|, pairs, rule, hits[1..]);
      CutDecidesBefore(buf, from, pairs, rule, hits);
    }
  }

  lemma CutDecidesBefore(buf: Bytes, from: nat, pairs: seq<Pair>, rule: Rule, hits: seq<Hit>)
    requires from <= |buf| && NonEmptyFroms(pairs) && hits != [] && IsCut(buf, Froms(pairs), from, hits)
    requires var end, rest := hits[0].start + |pairs[hits[0].k].from|, hits[1..];
      && end <= |buf|
      && (Rewrite(buf, end, pairs, rule).Some? <==> AllWellPlaced(rule, buf, Froms(pairs), rest))
      && (Rewrite(buf, end, pairs, rule).Some? ==>
            Rewrite(buf, end, pairs, rule).value == Replaced(buf, pairs, end, rest))
    ensures Rewrite(buf, from, pairs, rule).Some? <==> AllWellPlaced(rule, buf, Froms(pairs), hits)
    ensures Rewrite(buf, from, pairs, rule).Some? ==>
      Rewrite(buf, from, pairs, rule).value == Replaced(buf, pairs, from, hits)
  {
    CutStep(buf, from, pairs, rule, hits);
    FirstWellPlaced(rule, buf, Froms(pairs), hits);
  }

  lemma NoCut(buf: Bytes, from: nat, pairs: seq<Pair>, rule: Rule)
    requires from <= |buf| && NonEmptyFroms(pairs) && IsCut(buf, Froms(pairs), from, [])
    ensures Rewrite(buf, from, pairs, rule) == Some(buf[from..])
  {
    NothingMatches(buf, pairs, from, |buf|);
    CopyRaw(buf, from, |buf|, pairs, rule);
    assert buf[from..|buf|] + [] == buf[from..];
  }

  /** The pass up to the end of the first occurrence of a cut. */
  lemma CutStep(buf: Bytes, from: nat, pairs: seq<Pair>, rule: Rule, hits: seq<Hit>)
    requires from <= |buf| && NonEmptyFroms(pairs) && hits != [] && IsCut(buf, Froms(pairs), from, hits)
    ensures var h := hits[0];
      var end := h.start + |pairs[h.k].from|;
      && end <= |buf|
      && Rewrite(buf, from, pairs, rule) ==
           if WellPlaced(rule, buf, h.start, end)
           then Prepend(buf[from..h.start] + pairs[h.k].to, Rewrite(buf, end, pairs, rule))
           else None
  {
    var h := hits[0];
    NothingMatches(buf, pairs, from, h.start);
    CutIsChoice(buf, h.start, pairs, h.k);
    OneReplacement(buf, from, h.start, pairs, rule);
    AcceptsIsWellPlaced(rule, buf, h.start, h.start + |pairs[h.k].from|);
  }

  lemma FirstWellPlaced(rule: Rule, buf: Bytes, froms: seq<Bytes>, hits: seq<Hit>)
    requires hits != [] && hits[0].k < |froms| && hits[0].start + |froms[hits[0].k]| <= |buf|
    ensures AllWellPlaced(rule, buf, froms, hits) <==>
      && WellPlaced(rule, buf, hits[0].start, hits[0].start + |froms[hits[0].k]|)
      && AllWellPlaced(rule, buf, froms, hits[1..])
  {
    assert forall g :: g in hits <==> g == hits[0] || g in hits[1..];
  }

  /** Every text has a cut. */
  lemma {:induction false} CutExists(buf: Bytes, from: nat, pos: nat, pairs: seq<Pair>) returns (hits: seq<Hit>)
    requires from <= pos <= |buf| && NonEmptyFroms(pairs)
    requires forall i, k :: from <= i < pos && 0 <= k < |pairs| ==> !StandsAt(buf, i, Froms(pairs)[k])
    ensures IsCut(buf, Froms(pairs), from, hits)
    decreases |buf| - pos
  {
    hits := [];
    if pos < |buf| {
      LongerIsOrder();
      var m := LeastMeaning(pairs, Matcher(buf, pos), Longer());
      forall k | 0 <= k < |pairs| ensures StandsAt(buf, pos, pairs[k].from) <==> Matcher(buf, pos)(pairs[k]) {
        StandsIsMatch(buf, pos, pairs[k].from);
      }
      if LongestAt(buf, pos, pairs).None? {
        hits := CutExists(buf, from, pos + 1, pairs);
      } else {
        var end := pos + |pairs[m].from|;
        var rest := CutExists(buf, end, end, pairs);
        hits := [Hit(pos, m)] + rest;
        assert hits[1..] == rest;
        assert forall k :: 0 <= k < |pairs| && Matcher(buf, pos)(pairs[k]) ==> !Longer()(pairs[k], pairs[m]);
        assert forall k :: 0 <= k < m && Matcher(buf, pos)(pairs[k]) ==> Longer()(pairs[m], pairs[k]);
      }
    }
  }

  /**
   * The rewriter succeeds exactly when every leftmost-longest occurrence is well placed, and then has replaced just
   * those.
   */
  method RewritePrefixes(buf: Bytes, pairs: seq<Pair>, rule: Rule) returns (r: Option<Bytes>)
    requires NonEmptyFroms(pairs)
    ensures r == Rewrite(buf, 0, pairs, rule)
    ensures exists hits :: IsCut(buf, Froms(pairs), 0, hits)
    ensures forall hits :: IsCut(buf, Froms(pairs), 0, hits) ==>
      && (r.Some? <==> AllWellPlaced(rule, buf, Froms(pairs), hits))
      && (r.Some? ==> r.value == Replaced(buf, pairs, 0, hits))
  {
    r := RewriteInOnePass(buf, pairs, rule);
    ghost var some := CutExists(buf, 0, 0, pairs);
    forall hits | IsCut(buf, Froms(pairs), 0, hits)
      ensures r.Some? <==> AllWellPlaced(rule, buf, Froms(pairs), hits)
      ensures r.Some? ==> r.value == Replaced(buf, pairs, 0, hits)
    {
      CutDecides(buf, 0, pairs, rule, hits);
    }
  }

  /** The loop itself. */
  method RewriteInOnePass(buf: Bytes, pairs: seq<Pair>, rule: Rule) returns (r: Option<Bytes>)
    requires NonEmptyFroms(pairs)
    ensures r == Rewrite(buf, 0, pairs, rule)
  {
    var ordered := StableSort(pairs, Longer());
    var parts: seq<Bytes> := [];
    var last := 0;
    ghost var goal := Rewrite(buf, 0, pairs, rule);
    assert goal.Some? ==> [] + goal.value == goal.value;
    while true
      invariant last <= |buf| && Built(goal, parts, buf, last, pairs, rule)
      decreases |buf| - last
    {
      var best, bestIdx := NextChoice(buf, ordered, pairs, last);
      if best.None? {
        LastTurn(goal, parts, buf, last, pairs, rule);
        return Some(Concat(parts) + buf[last..]);
      }
      OneTurn(goal, parts, buf, last, bestIdx, pairs, rule);
      var end := bestIdx + |best.value.from|;
      if !Accepts(rule, buf, bestIdx, end) { return None; }
      parts := parts + [buf[last..bestIdx], best.value.to];
      last := end;
    }
  }

  /** When nothing is refused the pass is the plain substitution. */
  lemma {:induction false} AcceptedIsSubst(buf: Bytes, pos: nat, pairs: seq<Pair>, rule: Rule)
    requires pos <= |buf| && NonEmptyFroms(pairs)
    ensures Rewrite(buf, pos, pairs, rule).Some? ==> Rewrite(buf, pos, pairs, rule).value == Subst(buf[pos..], pairs)
    ensures rule.Anywhere? ==> Rewrite(buf, pos, pairs, rule).Some?
    decreases |buf| - pos
  {
    if pos < |buf| {
      SameSuffixSameChoice(buf, pos, pairs);
      LongestIsMatch(buf, pos, pairs);
      var best := LongestAt(buf, pos, pairs);
      if best.None? {
        AcceptedIsSubst(buf, pos + 1, pairs, rule);
        assert buf[pos..][1..] == buf[pos + 1..];
      } else {
        var end := pos + |best.value.from|;
        AcceptedIsSubst(buf, end, pairs, rule);
        assert buf[pos..][|best.value.from|..] == buf[end..];
      }
    }
  }

  lemma {:induction false} SameSuffixSameChoice(buf: Bytes, pos: nat, pairs: seq<Pair>)
    requires pos <= |buf|
    ensures LongestAt(buf, pos, pairs) == LongestAt(buf[pos..], 0, pairs)
  {
    if pairs != [] {
      SameSuffixSameChoice(buf, pos, pairs[1..]);
      var w := pairs[0].from;
      assert pos + |w| <= |buf| ==> buf[pos..pos + |w|] == buf[pos..][0..|w|];
    }
  }
}
