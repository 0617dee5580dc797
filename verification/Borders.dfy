/**
 * When a text that was nowhere in the original can be read from a rewritten one (src/deps-cache.js): across the border
 * of raw bytes and inserted ones. The check of a stored copy and the leftover check of a restored tree both search for
 * such texts, so this decides exactly when they refuse what the rewriter produced.
 */
module Borders {
  import opened Common
  import opened Relocation

  // ---------------------------------------------------------------- reading across borders, on pieces

  /** Raw bytes, then the bytes inserted after them. */
  datatype Piece = Piece(raw: Bytes, to: Bytes)

  function Flatten(pieces: seq<Piece>, tail: Bytes): Bytes
  {
    if pieces == [] then tail else pieces[0].raw + (pieces[0].to + Flatten(pieces[1..], tail))
  }

  /** `v` is read from the start of the inserted `to` and on into what follows it. */
  predicate Meets(to: Bytes, rest: Bytes, v: Bytes)
  {
    if |v| <= |to| then to[..|v|] == v else v[..|to|] == to && MatchesAt(rest, 0, v[|to|..])
  }

  /** `w` starts in the raw bytes and runs into what is inserted after them. */
  predicate RunsInto(p: Piece, rest: Bytes, w: Bytes)
  {
    exists i :: 0 < i < |w| && i <= |p.raw| && p.raw[|p.raw| - i..] == w[..i] && Meets(p.to, rest, w[i..])
  }

  /** `w` starts within the inserted bytes. */
  predicate StartsInside(p: Piece, rest: Bytes, w: Bytes)
  {
    exists j :: 0 <= j < |p.to| && Meets(p.to[j..], rest, w)
  }

  predicate AtBorder(p: Piece, rest: Bytes, w: Bytes) { RunsInto(p, rest, w) || StartsInside(p, rest, w) }

  /** `w` is read across the border of some piece. */
  predicate AcrossPieces(pieces: seq<Piece>, tail: Bytes, w: Bytes)
  {
    pieces != [] && (AtBorder(pieces[0], Flatten(pieces[1..], tail), w) || AcrossPieces(pieces[1..], tail, w))
  }

  /** No occurrence of `w` lies within `raw`. */
  predicate NotWithin(raw: Bytes, w: Bytes) { forall at: nat :: at < |raw| ==> !MatchesAt(raw, at, w) }

  lemma MeetsIsMatch(to: Bytes, rest: Bytes, v: Bytes)
    ensures Meets(to, rest, v) <==> MatchesAt(to + rest, 0, v)
  {
    var out := to + rest;
    if |v| <= |to| {
      assert out[0..|v|] == to[..|v|];
    } else if |v| <= |out| {
      assert out[0..|v|] == to + rest[0..|v| - |to|];
      assert v == v[..|to|] + v[|to|..];
    }
  }

  /** Splitting a match at a border: the first `i` bytes lie in `a`, the others in `b`. */
  lemma MatchSplits(a: Bytes, b: Bytes, i: nat, w: Bytes)
    requires 0 < i < |w| && i <= |a|
    ensures MatchesAt(a + b, |a| - i, w) <==> a[|a| - i..] == w[..i] && MatchesAt(b, 0, w[i..])
  {
    var at := |a| - i;
    if at + |w| <= |a + b| {
      assert (a + b)[at..at + |w|] == a[at..] + b[0..|w| - i];
      assert w == w[..i] + w[i..];
    }
  }

  lemma MatchInside(a: Bytes, b: Bytes, at: nat, w: Bytes)
    ensures at + |w| <= |a| ==> (MatchesAt(a + b, at, w) <==> MatchesAt(a, at, w))
    ensures at >= |a| ==> (MatchesAt(a + b, at, w) <==> MatchesAt(b, at - |a|, w))
  {
    if at + |w| <= |a| { assert (a + b)[at..at + |w|] == a[at..at + |w|]; }
    if at >= |a| && at + |w| <= |a + b| { assert (a + b)[at..at + |w|] == b[at - |a|..at - |a| + |w|]; }
  }

  lemma MatchFromInside(to: Bytes, rest: Bytes, j: nat, w: Bytes)
    requires j < |to|
    ensures MatchesAt(to + rest, j, w) <==> MatchesAt(to[j..] + rest, 0, w)
  {
    if j + |w| <= |to + rest| { assert (to + rest)[j..j + |w|] == (to[j..] + rest)[0..|w|]; }
  }

  /** A text that lies within no raw bytes occurs in the whole exactly when it is read across a border. */
  lemma {:induction false} OccursAcross(pieces: seq<Piece>, tail: Bytes, w: Bytes)
    requires w != [] && NotWithin(tail, w) && forall p :: p in pieces ==> NotWithin(p.raw, w)
    ensures Occurs(w, Flatten(pieces, tail)) <==> AcrossPieces(pieces, tail, w)
  {
    if pieces != [] {
      OccursAcross(pieces[1..], tail, w);
      OccursAround(pieces[0], Flatten(pieces[1..], tail), w);
    }
  }

  /** Where `w` occurs in raw bytes, inserted bytes and a rest, if not within the raw bytes. */
  lemma OccursAround(p: Piece, rest: Bytes, w: Bytes)
    requires w != [] && NotWithin(p.raw, w)
    ensures Occurs(w, p.raw + (p.to + rest)) <==> AtBorder(p, rest, w) || Occurs(w, rest)
  {
    var out := p.raw + (p.to + rest);
    if Occurs(w, out) {
      var at :| 0 <= at <= |out| && MatchesAt(out, at, w);
      AroundOne(p, rest, w, at);
    }
    if RunsInto(p, rest, w) { IntoOccurs(p, rest, w); }
    if StartsInside(p, rest, w) { InsideOccurs(p, rest, w); }
    if Occurs(w, rest) { RestOccurs(p, rest, w); }
  }

  lemma IntoOccurs(p: Piece, rest: Bytes, w: Bytes)
    requires RunsInto(p, rest, w)
    ensures Occurs(w, p.raw + (p.to + rest))
  {
    var i :| 0 < i < |w| && i <= |p.raw| && p.raw[|p.raw| - i..] == w[..i] && Meets(p.to, rest, w[i..]);
    MeetsIsMatch(p.to, rest, w[i..]);
    MatchSplits(p.raw, p.to + rest, i, w);
  }

  lemma InsideOccurs(p: Piece, rest: Bytes, w: Bytes)
    requires StartsInside(p, rest, w)
    ensures Occurs(w, p.raw + (p.to + rest))
  {
    var j :| 0 <= j < |p.to| && Meets(p.to[j..], rest, w);
    MeetsIsMatch(p.to[j..], rest, w);
    MatchFromInside(p.to, rest, j, w);
    MatchInside(p.raw, p.to + rest, |p.raw| + j, w);
  }

  lemma RestOccurs(p: Piece, rest: Bytes, w: Bytes)
    requires Occurs(w, rest)
    ensures Occurs(w, p.raw + (p.to + rest))
  {
    var at :| 0 <= at <= |rest| && MatchesAt(rest, at, w);
    MatchInside(p.to, rest, |p.to| + at, w);
    MatchInside(p.raw, p.to + rest, |p.raw| + (|p.to| + at), w);
  }

  lemma AroundOne(p: Piece, rest: Bytes, w: Bytes, at: nat)
    requires w != [] && NotWithin(p.raw, w) && MatchesAt(p.raw + (p.to + rest), at, w)
    ensures AtBorder(p, rest, w) || Occurs(w, rest)
  {
    MatchInside(p.raw, p.to + rest, at, w);
    if at < |p.raw| {
      var i := |p.raw| - at;
      MatchSplits(p.raw, p.to + rest, i, w);
      MeetsIsMatch(p.to, rest, w[i..]);
      assert RunsInto(p, rest, w);
    } else if at < |p.raw| + |p.to| {
      var j := at - |p.raw|;
      MatchFromInside(p.to, rest, j, w);
      MeetsIsMatch(p.to[j..], rest, w);
      assert StartsInside(p, rest, w);
    } else {
      MatchInside(p.to, rest, at - |p.raw|, w);
      assert MatchesAt(rest, at - |p.raw| - |p.to|, w);
    }
  }

  // ---------------------------------------------------------------- the pieces of a rewriting

  /** The pieces of `buf` from `pos` on, the raw bytes at hand having begun at `start`. */
  function PiecesFrom(buf: Bytes, start: nat, pos: nat, pairs: seq<Pair>): seq<Piece>
    requires start <= pos <= |buf| && NonEmptyFroms(pairs)
    decreases |buf| - pos
  {
    if pos == |buf| then []
    else
      var best := LongestAt(buf, pos, pairs);
      if best.None? then PiecesFrom(buf, start, pos + 1, pairs)
      else
        LongestIsMatch(buf, pos, pairs);
        var end := pos + |best.value.from|;
        [Piece(buf[start..pos], best.value.to)] + PiecesFrom(buf, end, end, pairs)
  }

  /** The raw bytes after the last piece. */
  function TailFrom(buf: Bytes, start: nat, pos: nat, pairs: seq<Pair>): Bytes
    requires start <= pos <= |buf| && NonEmptyFroms(pairs)
    decreases |buf| - pos
  {
    if pos == |buf| then buf[start..]
    else
      var best := LongestAt(buf, pos, pairs);
      if best.None? then TailFrom(buf, start, pos + 1, pairs)
      else
        LongestIsMatch(buf, pos, pairs);
        var end := pos + |best.value.from|;
        TailFrom(buf, end, end, pairs)
  }

  /** `w` is read across some border of the rewritten text. */
  predicate ReadsAcross(buf: Bytes, pairs: seq<Pair>, w: Bytes)
    requires NonEmptyFroms(pairs)
  {
    AcrossPieces(PiecesFrom(buf, 0, 0, pairs), TailFrom(buf, 0, 0, pairs), w)
  }

  /** The pieces put together are the rewritten text. */
  lemma {:induction false} PiecesAreRewriting(buf: Bytes, start: nat, pos: nat, pairs: seq<Pair>)
    requires start <= pos <= |buf| && NonEmptyFroms(pairs)
    ensures Rewrite(buf, pos, pairs, Anywhere).Some?
    ensures Flatten(PiecesFrom(buf, start, pos, pairs), TailFrom(buf, start, pos, pairs)) ==
      buf[start..pos] + Rewrite(buf, pos, pairs, Anywhere).value
    decreases |buf| - pos
  {
    if pos < |buf| {
      LongestIsMatch(buf, pos, pairs);
      var best := LongestAt(buf, pos, pairs);
      if best.None? {
        PiecesAreRewriting(buf, start, pos + 1, pairs);
        GlueByte(buf, start, pos, Rewrite(buf, pos + 1, pairs, Anywhere).value);
      } else {
        var end := pos + |best.value.from|;
        PiecesAreRewriting(buf, end, end, pairs);
        GluePiece(Piece(buf[start..pos], best.value.to), PiecesFrom(buf, end, end, pairs),
          TailFrom(buf, end, end, pairs), Rewrite(buf, end, pairs, Anywhere).value);
        assert buf[end..end] + Rewrite(buf, end, pairs, Anywhere).value == Rewrite(buf, end, pairs, Anywhere).value;
      }
    }
  }

  lemma GlueByte(buf: Bytes, start: nat, pos: nat, rest: Bytes)
    requires start <= pos < |buf|
    ensures buf[start..pos + 1] + rest == buf[start..pos] + ([buf[pos]] + rest)
  {
    assert buf[start..pos + 1] == buf[start..pos] + [buf[pos]];
  }

  lemma GluePiece(p: Piece, pieces: seq<Piece>, tail: Bytes, rest: Bytes)
    ensures Flatten([p] + pieces, tail) == p.raw + (p.to + Flatten(pieces, tail))
  {
    assert ([p] + pieces)[1..] == pieces;
  }

  /** Every occurrence of `w` in the text is one where a pair starts: none stays behind in the raw bytes. */
  predicate NeverRaw(buf: Bytes, pairs: seq<Pair>, w: Bytes)
  {
    forall p :: 0 <= p <= |buf| && MatchesAt(buf, p, w) ==> LongestAt(buf, p, pairs).Some?
  }

  lemma {:induction false} RawHoldsNone(buf: Bytes, start: nat, pos: nat, pairs: seq<Pair>, w: Bytes)
    requires start <= pos <= |buf| && NonEmptyFroms(pairs) && w != [] && NeverRaw(buf, pairs, w)
    requires forall p :: start <= p < pos ==> LongestAt(buf, p, pairs).None?
    ensures NotWithin(TailFrom(buf, start, pos, pairs), w)
    ensures forall p :: p in PiecesFrom(buf, start, pos, pairs) ==> NotWithin(p.raw, w)
    decreases |buf| - pos
  {
    RawIsClean(buf, start, pos, pairs, w);
    if pos < |buf| {
      LongestIsMatch(buf, pos, pairs);
      var best := LongestAt(buf, pos, pairs);
      if best.None? {
        RawHoldsNone(buf, start, pos + 1, pairs, w);
      } else {
        RawHoldsNone(buf, pos + |best.value.from|, pos + |best.value.from|, pairs, w);
      }
    } else {
      assert buf[start..pos] == buf[start..];
    }
  }

  lemma SliceOfSlice(buf: Bytes, start: nat, pos: nat, a: nat, b: nat)
    requires start <= pos <= |buf| && a <= b <= pos - start
    ensures buf[start..pos][a..b] == buf[start + a..start + b]
  {
    forall k | 0 <= k < b - a ensures buf[start..pos][a..b][k] == buf[start + a..start + b][k] {}
  }

  lemma RawIsClean(buf: Bytes, start: nat, pos: nat, pairs: seq<Pair>, w: Bytes)
    requires start <= pos <= |buf| && w != [] && NeverRaw(buf, pairs, w)
    requires forall p :: start <= p < pos ==> LongestAt(buf, p, pairs).None?
    ensures NotWithin(buf[start..pos], w)
  {
    forall at: nat | at < pos - start ensures !MatchesAt(buf[start..pos], at, w) {
      if start + at + |w| <= pos { SliceOfSlice(buf, start, pos, at, at + |w|); }
      assert LongestAt(buf, start + at, pairs).None?;
    }
  }

  /** A text that never stays raw occurs in the rewritten text exactly when it is read across a border. */
  lemma OccursInRewritten(buf: Bytes, pairs: seq<Pair>, w: Bytes)
    requires NonEmptyFroms(pairs) && w != [] && NeverRaw(buf, pairs, w)
    ensures Occurs(w, Subst(buf, pairs)) <==> ReadsAcross(buf, pairs, w)
  {
    RawHoldsNone(buf, 0, 0, pairs, w);
    OccursAcross(PiecesFrom(buf, 0, 0, pairs), TailFrom(buf, 0, 0, pairs), w);
    PiecesAreRewriting(buf, 0, 0, pairs);
    AcceptedIsSubst(buf, 0, pairs, Anywhere);
    assert buf[0..] == buf && buf[0..0] + Subst(buf, pairs) == Subst(buf, pairs);
  }

  // ---------------------------------------------------------------- when nothing can be read across

  /** One of the two begins with the other. */
  predicate Comparable(a: Bytes, b: Bytes) { var n := Min(|a|, |b|); a[..n] == b[..n] }

  /** No rest of `w` begins like `to`, and `w` begins like no rest of `to`. */
  predicate Apart(w: Bytes, to: Bytes)
  {
    && (forall i :: 0 < i < |w| ==> !Comparable(w[i..], to))
    && (forall j :: 0 <= j < |to| ==> !Comparable(w, to[j..]))
  }

  lemma ApartAtBorder(p: Piece, rest: Bytes, w: Bytes)
    requires Apart(w, p.to)
    ensures !AtBorder(p, rest, w)
  {
    forall i | 0 < i < |w| ensures !Meets(p.to, rest, w[i..]) { assert !Comparable(w[i..], p.to); }
    forall j | 0 <= j < |p.to| ensures !Meets(p.to[j..], rest, w) { assert !Comparable(w, p.to[j..]); }
  }

  lemma {:induction false} ApartPieces(pieces: seq<Piece>, tail: Bytes, w: Bytes)
    requires forall p :: p in pieces ==> Apart(w, p.to)
    ensures !AcrossPieces(pieces, tail, w)
  {
    if pieces != [] {
      ApartAtBorder(pieces[0], Flatten(pieces[1..], tail), w);
      ApartPieces(pieces[1..], tail, w);
    }
  }

  lemma {:induction false} PiecesInsertTos(buf: Bytes, start: nat, pos: nat, pairs: seq<Pair>)
    requires start <= pos <= |buf| && NonEmptyFroms(pairs)
    ensures forall p :: p in PiecesFrom(buf, start, pos, pairs) ==> exists q :: q in pairs && q.to == p.to
    decreases |buf| - pos
  {
    if pos < |buf| {
      LongestIsMatch(buf, pos, pairs);
      var best := LongestAt(buf, pos, pairs);
      if best.None? {
        PiecesInsertTos(buf, start, pos + 1, pairs);
      } else {
        PiecesInsertTos(buf, pos + |best.value.from|, pos + |best.value.from|, pairs);
      }
    }
  }

  /** A text apart from everything that can be inserted is read across no border. */
  lemma ApartNeverReads(buf: Bytes, pairs: seq<Pair>, w: Bytes)
    requires NonEmptyFroms(pairs) && forall p :: p in pairs ==> Apart(w, p.to)
    ensures !ReadsAcross(buf, pairs, w)
  {
    PiecesInsertTos(buf, 0, 0, pairs);
    ApartPieces(PiecesFrom(buf, 0, 0, pairs), TailFrom(buf, 0, 0, pairs), w);
  }

  /** `c` has an `@` right after a byte that may precede an install path. */
  predicate AtAfterLeader(c: Bytes) { exists i :: 0 < i < |c| && c[i - 1] in LEADERS && c[i] == AT }

  /** An inserted text that begins with `@` and holds no slash, as every token does. */
  predicate LikeToken(to: Bytes) { to != [] && to[0] == AT && SLASH !in to }

  /** The raw bytes of a piece are none, or end with a leader. */
  predicate LedRaw(raw: Bytes) { raw != [] ==> raw[|raw| - 1] in LEADERS }

  /**
   * An accepted rewriting has a leader before every hit that does not begin the text; for a symlink every hit begins
   * it.
   */
  lemma {:induction false} PiecesAreLed(buf: Bytes, start: nat, pos: nat, pairs: seq<Pair>, rule: Rule)
    requires start <= pos <= |buf| && NonEmptyFroms(pairs) && !rule.Anywhere? && Rewrite(buf, pos, pairs, rule).Some?
    ensures forall p :: p in PiecesFrom(buf, start, pos, pairs) ==> LedRaw(p.raw) && (rule.Anchored? ==> p.raw == [])
    decreases |buf| - pos
  {
    if pos < |buf| {
      LongestIsMatch(buf, pos, pairs);
      var best := LongestAt(buf, pos, pairs);
      if best.None? {
        PiecesAreLed(buf, start, pos + 1, pairs, rule);
      } else {
        var end := pos + |best.value.from|;
        LedAt(buf, start, pos, end, rule);
        PiecesAreLed(buf, end, end, pairs, rule);
      }
    }
  }

  lemma LedAt(buf: Bytes, start: nat, pos: nat, end: nat, rule: Rule)
    requires start <= pos <= end <= |buf| && !rule.Anywhere? && Accepts(rule, buf, pos, end)
    ensures LedRaw(buf[start..pos]) && (rule.Anchored? ==> buf[start..pos] == [])
  {
    assert start < pos ==> buf[start..pos][pos - start - 1] == buf[pos - 1];
  }

  lemma AbsoluteAtBorder(p: Piece, rest: Bytes, c: Bytes)
    requires LikeToken(p.to) && LedRaw(p.raw) && c != [] && c[0] == SLASH && (p.raw == [] || !AtAfterLeader(c))
    ensures !AtBorder(p, rest, c)
  {
    forall i | 0 < i < |c| && i <= |p.raw| && p.raw[|p.raw| - i..] == c[..i] ensures !Meets(p.to, rest, c[i..]) {
      assert c[i - 1] == c[..i][i - 1] == p.raw[|p.raw| - i..][i - 1] == p.raw[|p.raw| - 1];
      assert c[i..][0] == c[i] && c[i] != AT;
    }
    forall j | 0 <= j < |p.to| ensures !Meets(p.to[j..], rest, c) {
      assert p.to[j] in p.to && p.to[j..][0] == p.to[j];
    }
  }

  lemma {:induction false} AbsolutePieces(pieces: seq<Piece>, tail: Bytes, c: Bytes)
    requires c != [] && c[0] == SLASH
    requires forall p :: p in pieces ==> LikeToken(p.to) && LedRaw(p.raw) && (p.raw == [] || !AtAfterLeader(c))
    ensures !AcrossPieces(pieces, tail, c)
  {
    if pieces != [] {
      AbsoluteAtBorder(pieces[0], Flatten(pieces[1..], tail), c);
      AbsolutePieces(pieces[1..], tail, c);
    }
  }

  /**
   * In an accepted rewriting to tokens no absolute path is read across a border, unless in a text it has an `@` after a
   * leader; in a symlink target none is.
   */
  lemma AbsoluteNeverReads(buf: Bytes, pairs: seq<Pair>, rule: Rule, c: Bytes)
    requires NonEmptyFroms(pairs) && (forall p :: p in pairs ==> LikeToken(p.to)) && !rule.Anywhere?
    requires Rewrite(buf, 0, pairs, rule).Some?
    requires c != [] && c[0] == SLASH && (rule.Anchored? || !AtAfterLeader(c))
    ensures !ReadsAcross(buf, pairs, c)
  {
    PiecesAreLed(buf, 0, 0, pairs, rule);
    PiecesInsertTos(buf, 0, 0, pairs);
    AbsolutePieces(PiecesFrom(buf, 0, 0, pairs), TailFrom(buf, 0, 0, pairs), c);
  }

  // ---------------------------------------------------------------- one step of a concrete pass

  /** Where no pair starts the byte stays raw. */
  lemma RawByte(buf: Bytes, start: nat, pos: nat, pairs: seq<Pair>, rule: Rule)
    requires start <= pos < |buf| && NonEmptyFroms(pairs) && forall p :: p in pairs ==> !MatchesAt(buf, pos, p.from)
    ensures Rewrite(buf, pos, pairs, rule) == Prepend([buf[pos]], Rewrite(buf, pos + 1, pairs, rule))
    ensures PiecesFrom(buf, start, pos, pairs) == PiecesFrom(buf, start, pos + 1, pairs)
    ensures TailFrom(buf, start, pos, pairs) == TailFrom(buf, start, pos + 1, pairs)
  {
    LongestIsMatch(buf, pos, pairs);
  }

  /** Where one pair starts it is applied. */
  lemma Applied(buf: Bytes, start: nat, pos: nat, pairs: seq<Pair>, rule: Rule, q: Pair)
    requires start <= pos < |buf| && NonEmptyFroms(pairs) && q in pairs && MatchesAt(buf, pos, q.from)
    requires forall p :: p in pairs && MatchesAt(buf, pos, p.from) ==> p == q
    ensures var end := pos + |q.from|;
      && Rewrite(buf, pos, pairs, rule) ==
           (if Accepts(rule, buf, pos, end) then Prepend(q.to, Rewrite(buf, end, pairs, rule)) else None)
      && PiecesFrom(buf, start, pos, pairs) == [Piece(buf[start..pos], q.to)] + PiecesFrom(buf, end, end, pairs)
      && TailFrom(buf, start, pos, pairs) == TailFrom(buf, end, end, pairs)
  {
    OnlyChoice(buf, pos, pairs, q);
  }

  lemma OnlyChoice(buf: Bytes, pos: nat, pairs: seq<Pair>, q: Pair)
    requires NonEmptyFroms(pairs) && q in pairs && MatchesAt(buf, pos, q.from)
    requires forall p :: p in pairs && MatchesAt(buf, pos, p.from) ==> p == q
    ensures LongestAt(buf, pos, pairs) == Some(q)
  {
    LongestIsMatch(buf, pos, pairs);
  }
}
