/**
 * Which candidates make `verifyTemplatedCopy` refuse a tree that was collected without complaint (src/deps-cache.js).
 * The answer is a condition on the candidates and the nonce, without any tree: a candidate that goes on, after a
 * leader, as a token does, and whose bytes up to there hold no candidate of their own.
 */
module Publishable {
  import opened Common
  import opened Relocation
  import opened RoundTrip
  import opened TreeRelocation
  import opened Borders
  import opened CopyChecks

  /**
   * Candidates as the collection gathers them: absolute, each path once, none with the end of a token of this nonce.
   */
  predicate PlainGroups(groups: seq<Group>, nonce: Bytes)
  {
    && ValidGroups(groups) && IsNonce(nonce)
    && (forall i :: 0 <= i < |groups| ==> groups[i].path[0] == SLASH && !Occurs(TokenTail(nonce), groups[i].path))
    && (forall i, j :: 0 <= i < j < |groups| ==> groups[i].path != groups[j].path)
  }

  /** The first `i` bytes of candidate `c`, then the path of group `g`. */
  function Joint(groups: seq<Group>, c: nat, i: nat, g: nat): Bytes
    requires c < |groups| && g < |groups| && i <= |groups[c].path|
  {
    groups[c].path[..i] + groups[g].path
  }

  /**
   * Candidate `c` goes on from byte `i`, which follows a leader, as the token of group `g` begins; and in its first `i`
   * bytes, with the path of `g` after them, no candidate starts.
   */
  predicate Readable(groups: seq<Group>, nonce: Bytes, c: nat, i: nat, g: nat)
    requires ValidGroups(groups) && c < |groups| && g < |groups|
  {
    var path := groups[c].path;
    && 0 < i < |path| && path[i - 1] in LEADERS && path[i..] <= TokenFor(groups[g].roles, nonce)
    && forall p, d :: 0 <= p < i && 0 <= d < |groups| ==> !MatchesAt(Joint(groups, c, i, g), p, groups[d].path)
  }

  ghost predicate SomeReadable(groups: seq<Group>, nonce: Bytes)
    requires ValidGroups(groups)
  {
    exists c, i, g :: 0 <= c < |groups| && 0 <= i && 0 <= g < |groups| && Readable(groups, nonce, c, i, g)
  }

  /** `stored` is the copy of a tree collected with these groups. */
  ghost predicate Copied(tree: seq<Node>, groups: seq<Group>, rec: Record, stored: seq<Node>)
    requires ValidGroups(groups)
  {
    CollectedFrom(rec, tree, groups) && ValidGroups(rec.prefixes) && IsStored(stored, tree, rec)
  }

  ghost predicate AlwaysPublished(groups: seq<Group>, nonce: Bytes)
    requires ValidGroups(groups)
  {
    forall tree, rec, stored :: Copied(tree, groups, rec, stored) && rec.nonce == nonce ==> Verified(stored, rec)
  }

  // ---------------------------------------------------------------- a refused tree has a readable candidate

  /** Where an absolute text is read across a border: from raw bytes into what replaces the hit `q` after them. */
  datatype Crossing = Crossing(start: nat, hit: nat, q: Pair, i: nat, rest: Bytes)

  predicate RawSoFar(buf: Bytes, start: nat, pos: nat, pairs: seq<Pair>)
  {
    forall p :: start <= p < pos ==> LongestAt(buf, p, pairs).None?
  }

  ghost predicate CrossesAt(buf: Bytes, pairs: seq<Pair>, rule: Rule, c: Bytes, x: Crossing)
  {
    && x.start <= x.hit && x.hit + |x.q.from| <= |buf| && x.q in pairs && MatchesAt(buf, x.hit, x.q.from)
    && RawSoFar(buf, x.start, x.hit, pairs) && Accepts(rule, buf, x.hit, x.hit + |x.q.from|)
    && 0 < x.i < |c| && x.i <= x.hit - x.start && buf[x.hit - x.i..x.hit] == c[..x.i] && Meets(x.q.to, x.rest, c[x.i..])
  }

  lemma {:induction false} WhereRead(buf: Bytes, start: nat, pos: nat, pairs: seq<Pair>, rule: Rule, c: Bytes)
    returns (x: Crossing)
    requires start <= pos <= |buf| && NonEmptyFroms(pairs) && (forall p :: p in pairs ==> LikeToken(p.to))
    requires Rewrite(buf, pos, pairs, rule).Some? && c != [] && c[0] == SLASH
    requires RawSoFar(buf, start, pos, pairs)
    requires AcrossPieces(PiecesFrom(buf, start, pos, pairs), TailFrom(buf, start, pos, pairs), c)
    ensures CrossesAt(buf, pairs, rule, c, x)
    decreases |buf| - pos
  {
    LongestIsMatch(buf, pos, pairs);
    var best := LongestAt(buf, pos, pairs);
    if best.None? {
      x := WhereRead(buf, start, pos + 1, pairs, rule, c);
    } else {
      var q := best.value;
      var end := pos + |q.from|;
      AcrossAtHit(buf, start, pos, pairs, rule, c);
      if AcrossPieces(PiecesFrom(buf, end, end, pairs), TailFrom(buf, end, end, pairs), c) {
        x := WhereRead(buf, end, end, pairs, rule, c);
      } else {
        var rest := Flatten(PiecesFrom(buf, end, end, pairs), TailFrom(buf, end, end, pairs));
        var i := BorderInText(buf, start, pos, q.to, rest, c);
        x := Crossing(start, pos, q, i, rest);
      }
    }
  }

  /** At a hit: the text is read across this border or a later one, and the pass goes on after the hit. */
  lemma AcrossAtHit(buf: Bytes, start: nat, pos: nat, pairs: seq<Pair>, rule: Rule, c: Bytes)
    requires start <= pos < |buf| && NonEmptyFroms(pairs) && Rewrite(buf, pos, pairs, rule).Some?
    requires LongestAt(buf, pos, pairs).Some? && pos + |LongestAt(buf, pos, pairs).value.from| <= |buf|
    requires AcrossPieces(PiecesFrom(buf, start, pos, pairs), TailFrom(buf, start, pos, pairs), c)
    ensures var q := LongestAt(buf, pos, pairs).value;
      var end := pos + |q.from|;
      var pieces, tail := PiecesFrom(buf, end, end, pairs), TailFrom(buf, end, end, pairs);
      && Accepts(rule, buf, pos, end) && Rewrite(buf, end, pairs, rule).Some?
      && (AtBorder(Piece(buf[start..pos], q.to), Flatten(pieces, tail), c) || AcrossPieces(pieces, tail, c))
  {
    LongestIsMatch(buf, pos, pairs);
    var end := pos + |LongestAt(buf, pos, pairs).value.from|;
    assert PiecesFrom(buf, start, pos, pairs)[1..] == PiecesFrom(buf, end, end, pairs);
  }

  /** An absolute text at the border of a piece runs into its token from the raw bytes. */
  lemma BorderInText(buf: Bytes, start: nat, pos: nat, to: Bytes, rest: Bytes, c: Bytes) returns (i: nat)
    requires start <= pos <= |buf| && LikeToken(to) && c != [] && c[0] == SLASH
    requires AtBorder(Piece(buf[start..pos], to), rest, c)
    ensures 0 < i < |c| && i <= pos - start && buf[pos - i..pos] == c[..i] && Meets(to, rest, c[i..])
  {
    var raw := buf[start..pos];
    NoSlashNoStart(Piece(raw, to), rest, c);
    i :| 0 < i < |c| && i <= |raw| && raw[|raw| - i..] == c[..i] && Meets(to, rest, c[i..]);
    SuffixOfSlice(buf, start, pos, i);
  }

  lemma SuffixOfSlice(buf: Bytes, start: nat, pos: nat, i: nat)
    requires start <= pos <= |buf| && i <= pos - start
    ensures buf[start..pos][pos - start - i..] == buf[pos - i..pos]
  {
    SliceOfSlice(buf, start, pos, pos - start - i, pos - start);
  }

  lemma NoSlashNoStart(p: Piece, rest: Bytes, c: Bytes)
    requires LikeToken(p.to) && c != [] && c[0] == SLASH
    ensures !StartsInside(p, rest, c)
  {
    forall j | 0 <= j < |p.to| ensures !Meets(p.to[j..], rest, c) {
      assert p.to[j] in p.to && p.to[j..][0] == p.to[j];
    }
  }

  /** What a match in a stretch of a text is in the text. */
  lemma MatchInStretch(buf: Bytes, from: nat, part: Bytes, p: nat, w: Bytes)
    requires from + |part| <= |buf| && buf[from..from + |part|] == part && MatchesAt(part, p, w)
    ensures MatchesAt(buf, from + p, w)
  {
    SliceOfSlice(buf, from, from + |part|, p, p + |w|);
  }

  /** A token is met up to its end only by a text that holds its tail. */
  lemma MeetsPastToken(to: Bytes, tail: Bytes, rest: Bytes, path: Bytes, i: nat)
    requires i + |to| < |path| && |tail| <= |to| && to[|to| - |tail|..] == tail && Meets(to, rest, path[i..])
    ensures Occurs(tail, path)
  {
    var v, k := path[i..], |to| - |tail|;
    assert path[i + k..i + k + |tail|] == v[..|to|][k..];
    assert MatchesAt(path, i + k, tail);
  }

  lemma MeetsWithinToken(roles: seq<Role>, nonce: Bytes, rest: Bytes, path: Bytes, i: nat)
    requires roles != [] && i < |path| && !Occurs(TokenTail(nonce), path)
    requires Meets(TokenFor(roles, nonce), rest, path[i..])
    ensures path[i..] <= TokenFor(roles, nonce)
  {
    var to, tail := TokenFor(roles, nonce), TokenTail(nonce);
    assert to[|to| - |tail|..] == tail;
    if i + |to| < |path| { MeetsPastToken(to, tail, rest, path, i); }
  }

  /** A candidate that is read across a border of a recorded entry is readable. */
  lemma CrossingIsReadable(tree: seq<Node>, groups: seq<Group>, rec: Record, stored: seq<Node>, k: nat, c: nat)
    requires PlainGroups(groups, rec.nonce) && Copied(tree, groups, rec, stored) && k < |tree| && k in rec.entries
    requires c < |groups| && ReadsAcross(tree[k].content, Templating(rec), groups[c].path)
    ensures SomeReadable(groups, rec.nonce)
  {
    TokensLikeTokens(rec.prefixes, rec.nonce);
    StoredIsSubst(tree, rec, stored, k);
    var x := WhereRead(tree[k].content, 0, 0, Templating(rec), RuleOf(tree[k]), groups[c].path);
    var g := GroupOfPair(tree, groups, rec, x.q);
    CandidatesNeverRaw(tree, groups, rec, k);
    ReadableThere(groups, rec.nonce, tree[k].content, Templating(rec), RuleOf(tree[k]), c, x, g);
  }

  lemma ReadableThere(
    groups: seq<Group>, nonce: Bytes, buf: Bytes, pairs: seq<Pair>, rule: Rule, c: nat, x: Crossing, g: nat)
    requires PlainGroups(groups, nonce) && c < |groups| && g < |groups| && !rule.Anywhere?
    requires CrossesAt(buf, pairs, rule, groups[c].path, x)
    requires x.q == Pair(groups[g].path, TokenFor(groups[g].roles, nonce))
    requires forall d :: 0 <= d < |groups| ==> NeverRaw(buf, pairs, groups[d].path)
    ensures Readable(groups, nonce, c, x.i, g)
  {
    var path := groups[c].path;
    MeetsWithinToken(groups[g].roles, nonce, x.rest, path, x.i);
    assert path[x.i - 1] == path[..x.i][x.i - 1] == buf[x.hit - 1];
    forall p, d | 0 <= p < x.i && 0 <= d < |groups| ensures !MatchesAt(Joint(groups, c, x.i, g), p, groups[d].path) {
      NoneStartsBefore(buf, pairs, rule, path, x, p, groups[d].path);
    }
  }

  lemma GroupOfPair(tree: seq<Node>, groups: seq<Group>, rec: Record, q: Pair) returns (g: nat)
    requires ValidGroups(groups) && CollectedFrom(rec, tree, groups) && ValidGroups(rec.prefixes)
    requires q in Templating(rec)
    ensures g < |groups| && q == Pair(groups[g].path, TokenFor(groups[g].roles, rec.nonce))
  {
    var mask :| IsFoundMask(mask, tree, groups) && rec.prefixes == Keep(groups, mask);
    var j :| 0 <= j < |Templating(rec)| && Templating(rec)[j] == q;
    g := KeepIndex(groups, mask, j);
  }

  lemma JointInText(buf: Bytes, hit: nat, head: Bytes, from: Bytes, p: nat, w: Bytes)
    requires |head| <= hit && hit + |from| <= |buf| && buf[hit - |head|..hit] == head && MatchesAt(buf, hit, from)
    requires MatchesAt(head + from, p, w)
    ensures MatchesAt(buf, hit - |head| + p, w)
  {
    var at := hit - |head|;
    assert buf[at..hit + |from|] == buf[at..hit] + buf[hit..hit + |from|];
    MatchInStretch(buf, at, head + from, p, w);
  }

  /** Nothing that never stays raw starts in the raw bytes before the hit. */
  lemma NoneStartsBefore(buf: Bytes, pairs: seq<Pair>, rule: Rule, c: Bytes, x: Crossing, p: nat, w: Bytes)
    requires CrossesAt(buf, pairs, rule, c, x) && p < x.i && NeverRaw(buf, pairs, w)
    ensures !MatchesAt(c[..x.i] + x.q.from, p, w)
  {
    if MatchesAt(c[..x.i] + x.q.from, p, w) {
      JointInText(buf, x.hit, c[..x.i], x.q.from, p, w);
      HitIsNotRaw(buf, pairs, x, p, w);
    }
  }

  lemma CandidatesNeverRaw(tree: seq<Node>, groups: seq<Group>, rec: Record, k: nat)
    requires ValidGroups(groups) && CollectedFrom(rec, tree, groups) && ValidGroups(rec.prefixes) && k < |tree|
    ensures forall d :: 0 <= d < |groups| ==> NeverRaw(tree[k].content, Templating(rec), groups[d].path)
  {
    forall d | 0 <= d < |groups| ensures NeverRaw(tree[k].content, Templating(rec), groups[d].path) {
      assert rec.candidates[d] == groups[d].path;
      CandidateNeverRaw(tree, groups, rec, Tokens(rec.prefixes, rec.nonce), k, groups[d].path);
    }
  }

  lemma HitIsNotRaw(buf: Bytes, pairs: seq<Pair>, x: Crossing, p: nat, w: Bytes)
    requires x.i <= x.hit - x.start && p < x.i && x.hit <= |buf| && RawSoFar(buf, x.start, x.hit, pairs)
    requires NeverRaw(buf, pairs, w)
    ensures !MatchesAt(buf, x.hit - x.i + p, w)
  {
  }

  // ---------------------------------------------------------------- a readable candidate has a refused tree

  /** A text in which the first pair starts at `i` and reaches to the end. */
  ghost predicate EndsInHit(text: Bytes, i: nat, pairs: seq<Pair>, q: Pair)
  {
    && NonEmptyFroms(pairs) && i + |q.from| == |text| && q in pairs && MatchesAt(text, i, q.from)
    && (i == 0 || text[i - 1] in LEADERS)
    && (forall p, r :: 0 <= p < i && r in pairs ==> !MatchesAt(text, p, r.from))
    && (forall r :: r in pairs && r.from == q.from ==> r == q)
  }

  lemma {:induction false} PassToHit(text: Bytes, i: nat, pairs: seq<Pair>, q: Pair, pos: nat)
    requires EndsInHit(text, i, pairs, q) && pos <= i
    ensures Rewrite(text, pos, pairs, Strict).Some?
    ensures PiecesFrom(text, 0, pos, pairs) == [Piece(text[..i], q.to)] && TailFrom(text, 0, pos, pairs) == []
    decreases i - pos
  {
    if pos == i {
      forall r | r in pairs && MatchesAt(text, i, r.from) ensures r == q || |r.from| < |q.from| {
        assert |r.from| == |q.from| ==> r.from == text[i..i + |q.from|] == q.from;
      }
      LongestIsMatch(text, i, pairs);
      assert LongestAt(text, i, pairs) == Some(q);
      assert text[0..i] == text[..i];
    } else {
      RawByte(text, 0, pos, pairs, Strict);
      PassToHit(text, i, pairs, q, pos + 1);
    }
  }

  lemma TailHasNoSlash(nonce: Bytes)
    requires IsNonce(nonce)
    ensures SLASH !in TokenTail(nonce)
  {
    assert forall b :: b in nonce ==> IsHexDigit(b);
  }

  /** The tail of a token has no slash, so it lies in one of two texts of which the second begins with one. */
  lemma TailNotAcross(a: Bytes, b: Bytes, nonce: Bytes)
    requires IsNonce(nonce) && b != [] && b[0] == SLASH && Occurs(TokenTail(nonce), a + b)
    ensures Occurs(TokenTail(nonce), a) || Occurs(TokenTail(nonce), b)
  {
    var t := TokenTail(nonce);
    var at :| 0 <= at <= |a + b| && MatchesAt(a + b, at, t);
    MatchInside(a, b, at, t);
    assert !(at < |a| < at + |t|) by {
      TailHasNoSlash(nonce);
      assert (a + b)[|a|] == SLASH;
      assert forall j :: 0 <= j < |t| ==> (a + b)[at + j] == t[j];
    }
  }

  /** The witness: one text file that holds the joint alone. */
  function JointTree(groups: seq<Group>, c: nat, i: nat, g: nat): seq<Node>
    requires c < |groups| && g < |groups| && i <= |groups[c].path|
  {
    [File(Joint(groups, c, i, g), true)]
  }

  lemma JointEndsInHit(groups: seq<Group>, nonce: Bytes, c: nat, i: nat, g: nat, tos: seq<Bytes>)
    requires PlainGroups(groups, nonce) && c < |groups| && g < |groups| && Readable(groups, nonce, c, i, g)
    requires |tos| == |groups|
    ensures EndsInHit(Joint(groups, c, i, g), i, Zip(Paths(groups), tos), Pair(groups[g].path, tos[g]))
  {
    var text, pairs := Joint(groups, c, i, g), Zip(Paths(groups), tos);
    assert pairs[g] == Pair(groups[g].path, tos[g]);
    assert text[i - 1] == groups[c].path[i - 1] && text[i..i + |groups[g].path|] == groups[g].path;
    forall r | r in pairs ensures exists d :: 0 <= d < |groups| && r == Pair(groups[d].path, tos[d]) {
      var d :| 0 <= d < |pairs| && pairs[d] == r;
    }
  }

  lemma JointIsFine(groups: seq<Group>, nonce: Bytes, c: nat, i: nat, g: nat)
    requires PlainGroups(groups, nonce) && c < |groups| && g < |groups| && Readable(groups, nonce, c, i, g)
    ensures NodeVerdict(File(Joint(groups, c, i, g), true), Paths(groups), nonce) == Fine
    ensures Occurs(groups[g].path, Joint(groups, c, i, g))
  {
    var text, paths := Joint(groups, c, i, g), Paths(groups);
    JointEndsInHit(groups, nonce, c, i, g, Blank(|paths|));
    PassToHit(text, i, Zip(paths, Blank(|paths|)), Pair(groups[g].path, []), 0);
    JointHoldsNoTail(groups, nonce, c, i, g);
  }

  /** It is collected. */
  lemma JointCollected(groups: seq<Group>, nonce: Bytes, c: nat, i: nat, g: nat) returns (rec: Record)
    requires PlainGroups(groups, nonce) && c < |groups| && g < |groups| && Readable(groups, nonce, c, i, g)
    ensures CollectedFrom(rec, JointTree(groups, c, i, g), groups) && ValidGroups(rec.prefixes) && rec.nonce == nonce
    ensures rec.entries == {0}
    ensures exists j :: 0 <= j < |rec.prefixes| && rec.prefixes[j] == groups[g]
  {
    JointIsFine(groups, nonce, c, i, g);
    rec := OneFineFile(groups, Joint(groups, c, i, g), nonce, g);
  }

  lemma OneFineFile(groups: seq<Group>, text: Bytes, nonce: Bytes, g: nat) returns (rec: Record)
    requires ValidGroups(groups) && NodeVerdict(File(text, true), Paths(groups), nonce) == Fine
    requires g < |groups| && Occurs(groups[g].path, text)
    ensures CollectedFrom(rec, [File(text, true)], groups) && ValidGroups(rec.prefixes) && rec.nonce == nonce
    ensures rec.entries == {0}
    ensures exists j :: 0 <= j < |rec.prefixes| && rec.prefixes[j] == groups[g]
  {
    var tree, paths := [File(text, true)], Paths(groups);
    var mask := seq(|groups|, k requires 0 <= k < |groups| => NamedBefore(groups[k].path, tree, 1));
    assert tree[0].content == text && mask[g] && Occurs(paths[g], text);
    KeepValid(groups, mask);
    rec := Record(nonce, paths, Keep(groups, mask), {0});
    assert IsFoundMask(mask, tree, groups);
    assert rec.entries == set k: nat | k < |tree| && NamesAny(tree[k].content, paths);
    var j := KeptPosition(groups, mask, g);
  }

  lemma JointHoldsNoTail(groups: seq<Group>, nonce: Bytes, c: nat, i: nat, g: nat)
    requires PlainGroups(groups, nonce) && c < |groups| && g < |groups| && i <= |groups[c].path|
    ensures !Occurs(TokenTail(nonce), Joint(groups, c, i, g))
  {
    var path, t := groups[c].path, TokenTail(nonce);
    if Occurs(t, Joint(groups, c, i, g)) {
      TailNotAcross(path[..i], groups[g].path, nonce);
      var at :| 0 <= at <= i && MatchesAt(path[..i], at, t);
      MatchInStretch(path, 0, path[..i], at, t);
    }
  }

  /** Among the recorded pairs the joint ends in the hit of `g` as well. */
  lemma JointTemplated(groups: seq<Group>, nonce: Bytes, c: nat, i: nat, g: nat, rec: Record)
    requires PlainGroups(groups, nonce) && c < |groups| && g < |groups| && Readable(groups, nonce, c, i, g)
    requires CollectedFrom(rec, JointTree(groups, c, i, g), groups) && ValidGroups(rec.prefixes) && rec.nonce == nonce
    requires exists j :: 0 <= j < |rec.prefixes| && rec.prefixes[j] == groups[g]
    ensures
      EndsInHit(Joint(groups, c, i, g), i, Templating(rec), Pair(groups[g].path, TokenFor(groups[g].roles, nonce)))
  {
    var text, tree, pairs := Joint(groups, c, i, g), JointTree(groups, c, i, g), Templating(rec);
    var j :| 0 <= j < |rec.prefixes| && rec.prefixes[j] == groups[g];
    assert pairs[j] == Pair(groups[g].path, TokenFor(groups[g].roles, nonce));
    JointEndsInHit(groups, nonce, c, i, g, Tokens(groups, nonce));
    forall r | r in pairs
      ensures exists d :: 0 <= d < |groups| && r == Pair(groups[d].path, TokenFor(groups[d].roles, nonce))
    {
      var d := GroupOfPair(tree, groups, rec, r);
    }
  }

  /** And its copy is refused. */
  lemma ReadableIsRefused(groups: seq<Group>, nonce: Bytes, c: nat, i: nat, g: nat)
    returns (tree: seq<Node>, rec: Record, stored: seq<Node>)
    requires PlainGroups(groups, nonce) && c < |groups| && g < |groups| && Readable(groups, nonce, c, i, g)
    ensures Copied(tree, groups, rec, stored) && rec.nonce == nonce && !Verified(stored, rec)
  {
    var text, token := Joint(groups, c, i, g), TokenFor(groups[g].roles, nonce);
    tree := JointTree(groups, c, i, g);
    rec := JointCollected(groups, nonce, c, i, g);
    JointTemplated(groups, nonce, c, i, g, rec);
    PassToHit(text, i, Templating(rec), Pair(groups[g].path, token), 0);
    stored := [tree[0].(content := Rewrite(text, 0, Templating(rec), Strict).value)];
    assert StoredNode(stored[0], tree[0], 0, rec);
    JointReadsAcross(groups, nonce, c, i, g, Templating(rec));
    assert rec.candidates[c] == groups[c].path && CandidateAcross(tree, rec, 0);
    CollectedIsPublishable(tree, groups, rec, stored);
  }

  lemma JointReadsAcross(groups: seq<Group>, nonce: Bytes, c: nat, i: nat, g: nat, pairs: seq<Pair>)
    requires PlainGroups(groups, nonce) && c < |groups| && g < |groups| && Readable(groups, nonce, c, i, g)
    requires EndsInHit(Joint(groups, c, i, g), i, pairs, Pair(groups[g].path, TokenFor(groups[g].roles, nonce)))
    ensures ReadsAcross(Joint(groups, c, i, g), pairs, groups[c].path)
  {
    var text, path, token := Joint(groups, c, i, g), groups[c].path, TokenFor(groups[g].roles, nonce);
    PassToHit(text, i, pairs, Pair(groups[g].path, token), 0);
    assert text[..i] == path[..i] && Meets(token, [], path[i..]);
    assert RunsInto(Piece(text[..i], token), [], path);
    assert [Piece(text[..i], token)][1..] == [];
  }

  /** Every tree that is collected with these groups is published exactly when no candidate is readable. */
  lemma PublishedExactly(groups: seq<Group>, nonce: Bytes)
    requires PlainGroups(groups, nonce)
    ensures AlwaysPublished(groups, nonce) <==> !SomeReadable(groups, nonce)
  {
    if SomeReadable(groups, nonce) {
      var c, i, g :| 0 <= c < |groups| && 0 <= i && 0 <= g < |groups| && Readable(groups, nonce, c, i, g);
      var tree, rec, stored := ReadableIsRefused(groups, nonce, c, i, g);
    } else {
      forall tree: seq<Node>, rec, stored | Copied(tree, groups, rec, stored) && rec.nonce == nonce
        ensures Verified(stored, rec)
      {
        CollectedIsPublishable(tree, groups, rec, stored);
        forall k, c | 0 <= k < |tree| && k in rec.entries && 0 <= c < |groups|
          ensures !ReadsAcross(tree[k].content, Templating(rec), groups[c].path)
        {
          if ReadsAcross(tree[k].content, Templating(rec), groups[c].path) {
            CrossingIsReadable(tree, groups, rec, stored, k, c);
          }
        }
      }
    }
  }

  const SLASH_A_AT_X: Bytes := [47, 97, 32, 64, 120] // "/a @x"

  /** An `@` after a leader is not enough: no token goes on as "/a @x" does. */
  lemma AtAloneIsPublished(nonce: Bytes)
    requires IsNonce(nonce)
    ensures AtAfterLeader(SLASH_A_AT_X) && AlwaysPublished(TwoGroups(SLASH_A_AT_X), nonce)
  {
    var groups := TwoGroups(SLASH_A_AT_X);
    assert PlainGroups(groups, nonce);
    assert SLASH_A_AT_X[2] in LEADERS && SLASH_A_AT_X[3] == AT;
    forall c, i, g | 0 <= c < 2 && 0 <= i && 0 <= g < 2 ensures !Readable(groups, nonce, c, i, g) {
      var path, token := groups[c].path, TokenFor(groups[g].roles, nonce);
      assert token[0] == Marker()[0] == AT && token[1] == Marker()[1] == AT;
      if 0 < i < |path| { assert path[i..][0] == path[i] && (i == 3 ==> path[i..][1] == path[4]); }
    }
    PublishedExactly(groups, nonce);
  }
}
