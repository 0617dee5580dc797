/**
 * The two searches that guard relocation (src/deps-cache.js): `verifyTemplatedCopy` before a copy is published, and the
 * leftover check after a restore. Both can refuse a tree that was collected without complaint, because a path may be
 * read across the border of raw and inserted bytes; the theorems say exactly when.
 */
module CopyChecks {
  import opened Common
  import opened Relocation
  import opened RoundTrip
  import opened TreeRelocation
  import opened Borders

  datatype Published = Stored(nodes: seq<Node>) | Changed | NoToken(at: nat) | StillNamed(at: nat) | Stray(at: nat)

  /** Some candidate occurs in the text. */
  predicate NamesCandidate(content: Bytes, rec: Record) { exists c :: c in rec.candidates && Occurs(c, content) }

  /** What the check demands of one entry of the copy. */
  predicate EntryVerified(n: Node, k: nat, rec: Record)
  {
    !NamesCandidate(n.content, rec) && (Occurs(TokenTail(rec.nonce), n.content) <==> k in rec.entries)
  }

  predicate Verified(copy: seq<Node>, rec: Record) { forall k :: 0 <= k < |copy| ==> EntryVerified(copy[k], k, rec) }

  /** Recorded entries first, in order, then everything else: the first offence is reported. */
  method VerifyTemplatedCopy(copy: seq<Node>, rec: Record) returns (p: Published)
    ensures p.Stored? <==> Verified(copy, rec)
    ensures p.Stored? ==> p.nodes == copy
    ensures !p.Changed?
    ensures p.NoToken? ==> p.at < |copy| && p.at in rec.entries && !Occurs(TokenTail(rec.nonce), copy[p.at].content)
    ensures p.StillNamed? ==> p.at < |copy| && p.at in rec.entries && NamesCandidate(copy[p.at].content, rec)
    ensures p.Stray? ==>
      && p.at < |copy| && p.at !in rec.entries
      && (NamesCandidate(copy[p.at].content, rec) || Occurs(TokenTail(rec.nonce), copy[p.at].content))
  {
    for k := 0 to |copy|
      invariant forall m :: 0 <= m < k && m in rec.entries ==> EntryVerified(copy[m], m, rec)
    {
      if k in rec.entries {
        if !Occurs(TokenTail(rec.nonce), copy[k].content) { return NoToken(k); }
        if NamesCandidate(copy[k].content, rec) { return StillNamed(k); }
      }
    }
    for k := 0 to |copy|
      invariant forall m :: 0 <= m < k ==> EntryVerified(copy[m], m, rec)
    {
      if k !in rec.entries && (NamesCandidate(copy[k].content, rec) || Occurs(TokenTail(rec.nonce), copy[k].content)) {
        return Stray(k);
      }
    }
    return Stored(copy);
  }

  /** Clone and template, then verify the copy. */
  method PublishToStore(tree: seq<Node>, rec: Record) returns (p: Published)
    requires ValidGroups(rec.prefixes)
    ensures p.Changed? <==>
      exists k ::
        0 <= k < |tree| && k in rec.entries && Rewrite(tree[k].content, 0, Templating(rec), RuleOf(tree[k])).None?
    ensures p.Stored? ==> IsStored(p.nodes, tree, rec)
    ensures p.Stored? <==> exists copy :: IsStored(copy, tree, rec) && Verified(copy, rec)
  {
    var copy := PublishTemplated(tree, rec);
    forall c | IsStored(c, tree, rec) ensures StoredMeansTemplated(tree, rec) { StoredIsTemplated(tree, rec, c); }
    if copy.None? { return Changed; }
    forall c | IsStored(c, tree, rec) ensures c == copy.value {
      assert
        forall k :: 0 <= k < |tree| ==> StoredNode(c[k], tree[k], k, rec) && StoredNode(copy.value[k], tree[k], k, rec);
    }
    p := VerifyTemplatedCopy(copy.value, rec);
  }

  ghost predicate StoredMeansTemplated(tree: seq<Node>, rec: Record)
    requires ValidGroups(rec.prefixes)
  {
    forall k :: 0 <= k < |tree| && k in rec.entries ==>
      Rewrite(tree[k].content, 0, Templating(rec), RuleOf(tree[k])).Some?
  }

  lemma StoredIsTemplated(tree: seq<Node>, rec: Record, copy: seq<Node>)
    requires ValidGroups(rec.prefixes) && IsStored(copy, tree, rec)
    ensures StoredMeansTemplated(tree, rec)
  {
    forall k | 0 <= k < |tree| && k in rec.entries
      ensures Rewrite(tree[k].content, 0, Templating(rec), RuleOf(tree[k])).Some?
    {
      assert StoredNode(copy[k], tree[k], k, rec);
    }
  }

  // ---------------------------------------------------------------- when a collected tree is published

  /** In a collected tree no candidate stays behind in the raw bytes of a recorded entry. */
  lemma CandidateNeverRaw(tree: seq<Node>, groups: seq<Group>, rec: Record, tos: seq<Bytes>, k: nat, c: Bytes)
    requires ValidGroups(groups) && CollectedFrom(rec, tree, groups) && ValidGroups(rec.prefixes) && k < |tree|
    requires c in rec.candidates && |tos| == |rec.prefixes|
    ensures c != [] && NeverRaw(tree[k].content, Zip(Paths(rec.prefixes), tos), c)
  {
    var buf, pairs := tree[k].content, Zip(Paths(rec.prefixes), tos);
    var mask :| IsFoundMask(mask, tree, groups) && rec.prefixes == Keep(groups, mask);
    ScannedNode(tree, groups, rec, mask, k);
    var i :| 0 <= i < |groups| && groups[i].path == c;
    forall p | 0 <= p <= |buf| && MatchesAt(buf, p, c) ensures LongestAt(buf, p, pairs).Some? {
      assert Occurs(c, buf) && mask[i];
      var j := KeptPosition(groups, mask, i);
      assert pairs[j] in pairs && pairs[j].from == c;
      LongestIsMatch(buf, p, pairs);
    }
  }

  /** A recorded entry of the copy is the rewritten original. */
  lemma StoredIsSubst(tree: seq<Node>, rec: Record, stored: seq<Node>, k: nat)
    requires ValidGroups(rec.prefixes) && IsStored(stored, tree, rec) && k < |tree| && k in rec.entries
    ensures stored[k].content == Subst(tree[k].content, Templating(rec))
    ensures Rewrite(tree[k].content, 0, Templating(rec), RuleOf(tree[k])).Some?
  {
    assert StoredNode(stored[k], tree[k], k, rec);
    AcceptedIsSubst(tree[k].content, 0, Templating(rec), RuleOf(tree[k]));
    assert tree[k].content[0..] == tree[k].content;
  }

  /** Some candidate is read across a border of the templated entry `k`. */
  ghost predicate CandidateAcross(tree: seq<Node>, rec: Record, k: nat)
    requires ValidGroups(rec.prefixes) && k < |tree|
  {
    exists c :: c in rec.candidates && ReadsAcross(tree[k].content, Templating(rec), c)
  }

  /**
   * One entry of the copy of a collected tree passes exactly if it is not recorded or no candidate is read across a
   * border.
   */
  lemma EntryPasses(tree: seq<Node>, groups: seq<Group>, rec: Record, stored: seq<Node>, k: nat)
    requires ValidGroups(groups) && CollectedFrom(rec, tree, groups) && IsNonce(rec.nonce) && ValidGroups(rec.prefixes)
    requires IsStored(stored, tree, rec) && k < |tree|
    ensures EntryVerified(stored[k], k, rec) <==> !(k in rec.entries && CandidateAcross(tree, rec, k))
  {
    var mask :| IsFoundMask(mask, tree, groups) && rec.prefixes == Keep(groups, mask);
    ScannedNode(tree, groups, rec, mask, k);
    if k in rec.entries {
      StoredHoldsPlaceholder(tree, groups, rec, stored, k);
      StoredIsSubst(tree, rec, stored, k);
      forall c | c in rec.candidates
        ensures Occurs(c, stored[k].content) <==> ReadsAcross(tree[k].content, Templating(rec), c)
      {
        CandidateNeverRaw(tree, groups, rec, Tokens(rec.prefixes, rec.nonce), k, c);
        OccursInRewritten(tree[k].content, Templating(rec), c);
      }
    } else {
      assert StoredNode(stored[k], tree[k], k, rec);
      forall c | c in rec.candidates ensures !Occurs(c, tree[k].content) {
        var i :| 0 <= i < |groups| && groups[i].path == c;
        assert Paths(groups)[i] == c;
      }
    }
  }

  /**
   * Publishing a collected tree: templating never refuses, and the check of the copy passes exactly when no candidate
   * is read across a border of a recorded entry.
   */
  lemma CollectedIsPublishable(tree: seq<Node>, groups: seq<Group>, rec: Record, stored: seq<Node>)
    requires ValidGroups(groups) && CollectedFrom(rec, tree, groups) && IsNonce(rec.nonce) && ValidGroups(rec.prefixes)
    requires IsStored(stored, tree, rec)
    ensures Verified(stored, rec) <==>
      forall k :: 0 <= k < |tree| && k in rec.entries ==> !CandidateAcross(tree, rec, k)
  {
    forall k | 0 <= k < |tree|
      ensures EntryVerified(stored[k], k, rec) <==> !(k in rec.entries && CandidateAcross(tree, rec, k))
    {
      EntryPasses(tree, groups, rec, stored, k);
    }
  }

  lemma NameHasNoSlash(r: Role)
    ensures SLASH !in NameBytes(r)
  {
    match r
    case WorkDir =>
    case RealWorkDir =>
    case TmpDir =>
    case Tmp =>
    case Temp =>
  }

  lemma {:induction false} JoinHasNoSlash(roles: seq<Role>)
    requires roles != []
    ensures SLASH !in JoinRoles(roles)
  {
    NameHasNoSlash(roles[0]);
    if |roles| > 1 { JoinHasNoSlash(roles[1..]); }
  }

  lemma TokensLikeTokens(groups: seq<Group>, nonce: Bytes)
    requires ValidGroups(groups) && IsNonce(nonce)
    ensures forall p :: p in Zip(Paths(groups), Tokens(groups, nonce)) ==> LikeToken(p.to)
  {
    forall i | 0 <= i < |groups| ensures LikeToken(Tokens(groups, nonce)[i]) {
      JoinHasNoSlash(groups[i].roles);
      TokenIsLikeToken(JoinRoles(groups[i].roles), nonce);
    }
  }

  lemma TokenIsLikeToken(j: Bytes, nonce: Bytes)
    requires SLASH !in j && IsNonce(nonce)
    ensures LikeToken(Marker() + j + TokenTail(nonce))
  {
    var m, t := Marker(), TokenTail(nonce);
    assert |m| == 14 && m[0] == AT && forall k :: 0 <= k < 14 ==> m[k] != SLASH;
    assert forall b :: b in t ==> b == UNDERSCORE || b == AT || b in nonce;
    assert forall b :: b in nonce ==> IsHexDigit(b);
    assert (m + j + t)[0] == m[0];
    forall b | b in m + j + t ensures b != SLASH { assert b in m || b in j || b in t; }
  }

  /** With absolute candidates that have no `@` after a leader, every collected tree is published. */
  lemma PlainPathsArePublished(tree: seq<Node>, groups: seq<Group>, rec: Record, stored: seq<Node>)
    requires ValidGroups(groups) && CollectedFrom(rec, tree, groups) && IsNonce(rec.nonce) && ValidGroups(rec.prefixes)
    requires IsStored(stored, tree, rec)
    requires forall c :: c in rec.candidates ==> c != [] && c[0] == SLASH && !AtAfterLeader(c)
    ensures Verified(stored, rec)
  {
    CollectedIsPublishable(tree, groups, rec, stored);
    TokensLikeTokens(rec.prefixes, rec.nonce);
    forall k, c | 0 <= k < |tree| && k in rec.entries && c in rec.candidates
      ensures !ReadsAcross(tree[k].content, Templating(rec), c)
    {
      StoredIsSubst(tree, rec, stored, k);
      AbsoluteNeverReads(tree[k].content, Templating(rec), RuleOf(tree[k]), c);
    }
  }

  // ---------------------------------------------------------------- when a restored tree has a leftover

  /** What the leftover check searches for: the tail of this nonce, and old install paths no destination contains. */
  function Needles(rec: Record, newPaths: map<Role, Bytes>): set<Bytes>
  {
    {TokenTail(rec.nonce)} + StalePaths(rec.candidates, newPaths)
  }

  function Moving(rec: Record, newPaths: map<Role, Bytes>): seq<Pair>
    requires ValidGroups(rec.prefixes) && forall i :: 0 <= i < |rec.prefixes| ==> HasNewPath(rec.prefixes[i], newPaths)
  {
    Zip(Paths(rec.prefixes), NewsOf(rec.prefixes, newPaths))
  }

  /** Some needle is read across a border of entry `k` at its new place. */
  ghost predicate NeedleAcross(tree: seq<Node>, rec: Record, newPaths: map<Role, Bytes>, k: nat)
    requires ValidGroups(rec.prefixes)
    requires (forall i :: 0 <= i < |rec.prefixes| ==> HasNewPath(rec.prefixes[i], newPaths)) && k < |tree|
  {
    exists w :: w in Needles(rec, newPaths) && ReadsAcross(tree[k].content, Moving(rec, newPaths), w)
  }

  predicate HoldsNeedle(n: Node, rec: Record, newPaths: map<Role, Bytes>)
  {
    exists w :: w in Needles(rec, newPaths) && Occurs(w, n.content)
  }

  /** One entry of a restored tree holds a needle exactly if it is recorded and one is read across a border. */
  lemma EntryLeftover(
    tree: seq<Node>, groups: seq<Group>, rec: Record, stored: seq<Node>, newPaths: map<Role, Bytes>, k: nat)
    requires ValidGroups(groups) && CollectedFrom(rec, tree, groups) && IsNonce(rec.nonce) && ValidGroups(rec.prefixes)
    requires IsStored(stored, tree, rec) && k < |tree|
    requires forall i :: 0 <= i < |rec.prefixes| ==> HasNewPath(rec.prefixes[i], newPaths)
    ensures HoldsNeedle(Substituted(stored, rec, newPaths)[k], rec, newPaths) <==>
      k in rec.entries && NeedleAcross(tree, rec, newPaths, k)
  {
    var mask :| IsFoundMask(mask, tree, groups) && rec.prefixes == Keep(groups, mask);
    ScannedNode(tree, groups, rec, mask, k);
    if k in rec.entries {
      RecordedLeftover(tree, groups, rec, stored, newPaths, k);
    } else {
      assert StoredNode(stored[k], tree[k], k, rec);
      UnrecordedIsClean(tree[k], groups, rec, newPaths);
    }
  }

  lemma RecordedLeftover(
    tree: seq<Node>, groups: seq<Group>, rec: Record, stored: seq<Node>, newPaths: map<Role, Bytes>, k: nat)
    requires ValidGroups(groups) && CollectedFrom(rec, tree, groups) && IsNonce(rec.nonce) && ValidGroups(rec.prefixes)
    requires IsStored(stored, tree, rec) && k < |tree|
    requires forall i :: 0 <= i < |rec.prefixes| ==> HasNewPath(rec.prefixes[i], newPaths)
    requires !Occurs(TokenTail(rec.nonce), tree[k].content)
    ensures HoldsNeedle(Substituted(stored, rec, newPaths)[k], rec, newPaths) <==> NeedleAcross(tree, rec, newPaths, k)
  {
    var buf, pairs, out := tree[k].content, Moving(rec, newPaths), Substituted(stored, rec, newPaths)[k].content;
    WholeTreeRestored(tree, groups, rec, stored, newPaths, k);
    assert out == Subst(buf, pairs);
    forall w | w in Needles(rec, newPaths) ensures Occurs(w, out) <==> ReadsAcross(buf, pairs, w) {
      NeedleNeverRaw(tree, groups, rec, newPaths, k, w);
      OccursInRewritten(buf, pairs, w);
    }
  }

  lemma NeedleNeverRaw(tree: seq<Node>, groups: seq<Group>, rec: Record, newPaths: map<Role, Bytes>, k: nat, w: Bytes)
    requires ValidGroups(groups) && CollectedFrom(rec, tree, groups) && ValidGroups(rec.prefixes) && k < |tree|
    requires w in Needles(rec, newPaths)
    requires forall i :: 0 <= i < |rec.prefixes| ==> HasNewPath(rec.prefixes[i], newPaths)
    requires !Occurs(TokenTail(rec.nonce), tree[k].content)
    ensures w != [] && NeverRaw(tree[k].content, Moving(rec, newPaths), w)
  {
    if w in rec.candidates { CandidateNeverRaw(tree, groups, rec, NewsOf(rec.prefixes, newPaths), k, w); }
  }

  lemma UnrecordedIsClean(n: Node, groups: seq<Group>, rec: Record, newPaths: map<Role, Bytes>)
    requires rec.candidates == Paths(groups) && !NamesAny(n.content, Paths(groups))
    requires !Occurs(TokenTail(rec.nonce), n.content)
    ensures !HoldsNeedle(n, rec, newPaths)
  {
    forall w | w in Needles(rec, newPaths) ensures !Occurs(w, n.content) {
      if w in rec.candidates { var i :| 0 <= i < |Paths(groups)| && Paths(groups)[i] == w; }
    }
  }

  /** The leftover check refuses the restored copy of a collected tree exactly when a needle is read across a border. */
  lemma LeftoverExactly(tree: seq<Node>, groups: seq<Group>, rec: Record, stored: seq<Node>, newPaths: map<Role, Bytes>)
    requires ValidGroups(groups) && CollectedFrom(rec, tree, groups) && IsNonce(rec.nonce) && ValidGroups(rec.prefixes)
    requires IsStored(stored, tree, rec)
    requires forall i :: 0 <= i < |rec.prefixes| ==> HasNewPath(rec.prefixes[i], newPaths)
    ensures HoldsTokens(stored, rec)
    ensures HasLeftover(Substituted(stored, rec, newPaths), rec.nonce, StalePaths(rec.candidates, newPaths))
      <==> exists k :: 0 <= k < |tree| && k in rec.entries && NeedleAcross(tree, rec, newPaths, k)
  {
    forall k | 0 <= k < |stored| && k in rec.entries ensures Occurs(TokenTail(rec.nonce), stored[k].content) {
      StoredHoldsPlaceholder(tree, groups, rec, stored, k);
    }
    var nodes := Substituted(stored, rec, newPaths);
    forall k | 0 <= k < |tree|
      ensures HoldsNeedle(nodes[k], rec, newPaths) <==> k in rec.entries && NeedleAcross(tree, rec, newPaths, k)
    {
      EntryLeftover(tree, groups, rec, stored, newPaths, k);
    }
    LeftoverIsNeedle(nodes, rec, newPaths);
  }

  lemma LeftoverIsNeedle(nodes: seq<Node>, rec: Record, newPaths: map<Role, Bytes>)
    ensures HasLeftover(nodes, rec.nonce, StalePaths(rec.candidates, newPaths)) <==>
      exists k :: 0 <= k < |nodes| && HoldsNeedle(nodes[k], rec, newPaths)
  {
    assert forall w ::
      w in Needles(rec, newPaths) <==> w == TokenTail(rec.nonce) || w in StalePaths(rec.candidates, newPaths);
    forall k | 0 <= k < |nodes|
      ensures HoldsNeedle(nodes[k], rec, newPaths) <==>
        || Occurs(TokenTail(rec.nonce), nodes[k].content)
        || exists c :: c in StalePaths(rec.candidates, newPaths) && Occurs(c, nodes[k].content)
    {
      assert TokenTail(rec.nonce) in Needles(rec, newPaths);
    }
  }

  /** So a restore succeeds whenever every needle is apart from every destination used. */
  lemma ApartDestinationsSucceed(
    tree: seq<Node>, groups: seq<Group>, rec: Record, stored: seq<Node>, newPaths: map<Role, Bytes>)
    requires ValidGroups(groups) && CollectedFrom(rec, tree, groups) && IsNonce(rec.nonce) && ValidGroups(rec.prefixes)
    requires IsStored(stored, tree, rec)
    requires forall i :: 0 <= i < |rec.prefixes| ==> HasNewPath(rec.prefixes[i], newPaths)
    requires forall w, p :: w in Needles(rec, newPaths) && p in NewsOf(rec.prefixes, newPaths) ==> Apart(w, p)
    ensures !HasLeftover(Substituted(stored, rec, newPaths), rec.nonce, StalePaths(rec.candidates, newPaths))
  {
    LeftoverExactly(tree, groups, rec, stored, newPaths);
    forall k, w | 0 <= k < |tree| && w in Needles(rec, newPaths)
      ensures !ReadsAcross(tree[k].content, Moving(rec, newPaths), w)
    {
      ApartNeverReads(tree[k].content, Moving(rec, newPaths), w);
    }
  }

  // ---------------------------------------------------------------- both checks do refuse

  const SLASH_T: Bytes := [47, 116]          // "/t"
  const SLASH_A_AT: Bytes := [47, 97, 32, 64] // "/a @"
  const SLASH_N: Bytes := [47, 110]          // "/n"
  const SLASH_M: Bytes := [47, 109]          // "/m"
  const SLASH_N_X: Bytes := [47, 110, 47, 120] // "/n/x"

  function ZeroNonce(): (n: Bytes) ensures IsNonce(n) { seq(32, _ => 48) }

  /**
   * A tree of one text that names the work dir "/t" only, and the record of its collection with another candidate
   * `other`.
   */
  function OneFile(text: Bytes): seq<Node> { [File(text, true)] }

  function TwoGroups(other: Bytes): seq<Group> { [Group([WorkDir], SLASH_T), Group([TmpDir], other)] }

  function WorkDirRecord(other: Bytes): Record
  {
    Record(ZeroNonce(), [SLASH_T, other], [Group([WorkDir], SLASH_T)], {0})
  }

  /** The text is `text`, "/t" occurs in it at `at` only, `other` nowhere, and the occurrence is accepted. */
  ghost predicate NamesOnce(text: Bytes, at: nat, other: Bytes)
  {
    && other != [] && other[0] == SLASH && |text| < 35 && MatchesAt(text, at, SLASH_T) && at + 2 <= |text|
    && (forall p: nat :: p < |text| && p != at ==> !MatchesAt(text, p, SLASH_T))
    && (forall p: nat :: p <= |text| ==> !MatchesAt(text, p, other))
    && Accepts(Strict, text, at, at + 2)
  }

  /** The pairs of such a pass: one for "/t", perhaps one for `other`. */
  ghost predicate PairsFor(pairs: seq<Pair>, q: Pair, other: Bytes)
  {
    NonEmptyFroms(pairs) && q in pairs && q.from == SLASH_T && forall p :: p in pairs ==> p == q || p.from == other
  }

  lemma StepAt(text: Bytes, at: nat, other: Bytes, pairs: seq<Pair>, q: Pair, start: nat, pos: nat)
    requires NamesOnce(text, at, other) && PairsFor(pairs, q, other) && start <= pos < |text|
    ensures pos != at ==>
      && Rewrite(text, pos, pairs, Strict) == Prepend([text[pos]], Rewrite(text, pos + 1, pairs, Strict))
      && PiecesFrom(text, start, pos, pairs) == PiecesFrom(text, start, pos + 1, pairs)
      && TailFrom(text, start, pos, pairs) == TailFrom(text, start, pos + 1, pairs)
    ensures pos == at ==>
      && Rewrite(text, pos, pairs, Strict) == Prepend(q.to, Rewrite(text, at + 2, pairs, Strict))
      && PiecesFrom(text, start, pos, pairs) ==
           [Piece(text[start..pos], q.to)] + PiecesFrom(text, at + 2, at + 2, pairs)
      && TailFrom(text, start, pos, pairs) == TailFrom(text, at + 2, at + 2, pairs)
  {
    if pos == at { Applied(text, start, pos, pairs, Strict, q); } else { RawByte(text, start, pos, pairs, Strict); }
  }

  lemma {:induction false} AfterName(
    text: Bytes, at: nat, other: Bytes, pairs: seq<Pair>, q: Pair, start: nat, pos: nat)
    requires NamesOnce(text, at, other) && PairsFor(pairs, q, other) && at + 2 <= start <= pos <= |text|
    ensures Rewrite(text, pos, pairs, Strict).Some? && PiecesFrom(text, start, pos, pairs) == []
    ensures TailFrom(text, start, pos, pairs) == text[start..]
    decreases |text| - pos
  {
    if pos < |text| {
      StepAt(text, at, other, pairs, q, start, pos);
      AfterName(text, at, other, pairs, q, start, pos + 1);
    }
  }

  lemma {:induction false} NamedOncePass(
    text: Bytes, at: nat, other: Bytes, pairs: seq<Pair>, q: Pair, start: nat, pos: nat)
    requires NamesOnce(text, at, other) && PairsFor(pairs, q, other) && start <= pos <= at
    ensures Rewrite(text, pos, pairs, Strict).Some?
    ensures PiecesFrom(text, start, pos, pairs) == [Piece(text[start..at], q.to)]
    ensures TailFrom(text, start, pos, pairs) == text[at + 2..]
    decreases at - pos
  {
    if pos == at {
      AtName(text, at, other, pairs, q, start);
    } else {
      StepAt(text, at, other, pairs, q, start, pos);
      NamedOncePass(text, at, other, pairs, q, start, pos + 1);
    }
  }

  lemma AtName(text: Bytes, at: nat, other: Bytes, pairs: seq<Pair>, q: Pair, start: nat)
    requires NamesOnce(text, at, other) && PairsFor(pairs, q, other) && start <= at
    ensures Rewrite(text, at, pairs, Strict).Some?
    ensures PiecesFrom(text, start, at, pairs) == [Piece(text[start..at], q.to)]
    ensures TailFrom(text, start, at, pairs) == text[at + 2..]
  {
    StepAt(text, at, other, pairs, q, start, at);
    AfterName(text, at, other, pairs, q, at + 2, at + 2);
  }

  lemma Differs(text: Bytes, p: nat, w: Bytes, i: nat)
    requires i < |w| && (p + |w| > |text| || text[p + i] != w[i])
    ensures !MatchesAt(text, p, w)
  {
    if p + |w| <= |text| { assert text[p..p + |w|][i] == text[p + i]; }
  }

  /** Such a text is collected, with the work dir alone recorded. */
  lemma OneFileCollected(text: Bytes, at: nat, other: Bytes)
    requires NamesOnce(text, at, other)
    ensures ValidGroups(TwoGroups(other)) && ValidGroups(WorkDirRecord(other).prefixes)
    ensures CollectedFrom(WorkDirRecord(other), OneFile(text), TwoGroups(other))
  {
    var groups, rec, tree := TwoGroups(other), WorkDirRecord(other), OneFile(text);
    assert Paths(groups) == [SLASH_T, other];
    OneFileFine(text, at, other);
    OneFileMask(text, at, other);
    assert rec.entries == set k: nat | k < |tree| && NamesAny(tree[k].content, Paths(groups));
  }

  lemma OneFileFine(text: Bytes, at: nat, other: Bytes)
    requires NamesOnce(text, at, other)
    ensures NodeVerdict(File(text, true), [SLASH_T, other], ZeroNonce()) == Fine && NamesAny(text, [SLASH_T, other])
  {
    var paths := [SLASH_T, other];
    var pairs := Zip(paths, Blank(2));
    assert forall p :: p in pairs ==> p == pairs[0] || p == pairs[1];
    NamedOncePass(text, at, other, pairs, pairs[0], 0, 0);
    assert Occurs(paths[0], text);
    assert !Occurs(TokenTail(ZeroNonce()), text);
  }

  lemma OneFileMask(text: Bytes, at: nat, other: Bytes)
    requires NamesOnce(text, at, other)
    ensures IsFoundMask([true, false], OneFile(text), TwoGroups(other))
    ensures Keep(TwoGroups(other), [true, false]) == WorkDirRecord(other).prefixes
  {
    var groups, tree, mask := TwoGroups(other), OneFile(text), [true, false];
    assert Occurs(groups[0].path, tree[0].content) && !Occurs(groups[1].path, tree[0].content);
    assert NamedBefore(groups[0].path, tree, 1) && !NamedBefore(groups[1].path, tree, 1);
    assert
      && groups[1..] == [groups[1]] && mask[1..] == [false]
      && Keep(groups[1..], mask[1..]) == Keep(groups[1..][1..], mask[1..][1..]);
  }

  lemma OneFilePieces(text: Bytes, at: nat, other: Bytes, to: Bytes)
    requires NamesOnce(text, at, other)
    ensures var pairs := Zip(Paths(WorkDirRecord(other).prefixes), [to]);
      && Rewrite(text, 0, pairs, Strict).Some?
      && PiecesFrom(text, 0, 0, pairs) == [Piece(text[..at], to)] && TailFrom(text, 0, 0, pairs) == text[at + 2..]
  {
    var pairs := Zip(Paths(WorkDirRecord(other).prefixes), [to]);
    assert pairs == [Pair(SLASH_T, to)];
    NamedOncePass(text, at, other, pairs, pairs[0], 0, 0);
    assert text[0..at] == text[..at];
  }

  const A_T: Bytes := [47, 97, 32, 47, 116] // "/a /t"
  const T_X: Bytes := [47, 116, 47, 120]    // "/t/x"

  lemma SpacedNamesOnce()
    ensures NamesOnce(A_T, 3, SLASH_A_AT)
  {
    forall p: nat | p <= |A_T| ensures (p != 3 ==> !MatchesAt(A_T, p, SLASH_T)) && !MatchesAt(A_T, p, SLASH_A_AT) {
      if p != 3 { Differs(A_T, p, SLASH_T, if p == 0 then 1 else 0); }
      Differs(A_T, p, SLASH_A_AT, if p == 0 then 3 else 0);
    }
    assert A_T[2] == 32 && 32 in LEADERS && A_T[3..5] == SLASH_T;
  }

  lemma SlashedNamesOnce()
    ensures NamesOnce(T_X, 0, SLASH_N_X)
  {
    forall p: nat | p <= |T_X| ensures (p != 0 ==> !MatchesAt(T_X, p, SLASH_T)) && !MatchesAt(T_X, p, SLASH_N_X) {
      if p != 0 { Differs(T_X, p, SLASH_T, if p == 2 then 1 else 0); }
      Differs(T_X, p, SLASH_N_X, if p == 0 then 1 else 0);
    }
    assert T_X[2] == 47 && 47 in FOLLOWERS && T_X[0..2] == SLASH_T;
  }

  function WorkDirToken(): Bytes { TokenFor([WorkDir], ZeroNonce()) }

  /** The copy of such a tree. */
  lemma OneFileStored(text: Bytes, at: nat, other: Bytes) returns (stored: seq<Node>)
    requires NamesOnce(text, at, other)
    ensures ValidGroups(WorkDirRecord(other).prefixes) && IsStored(stored, OneFile(text), WorkDirRecord(other))
    ensures Templating(WorkDirRecord(other)) == Zip(Paths(WorkDirRecord(other).prefixes), [WorkDirToken()])
  {
    var rec, tree := WorkDirRecord(other), OneFile(text);
    assert Tokens(rec.prefixes, rec.nonce) == [WorkDirToken()];
    OneFilePieces(text, at, other, WorkDirToken());
    stored := [tree[0].(content := Rewrite(text, 0, Templating(rec), Strict).value)];
    assert StoredNode(stored[0], tree[0], 0, rec);
  }

  /** The candidate "/a @" is read from "/a " and the token after it. */
  lemma SpacedReadsAcross()
    ensures ReadsAcross(A_T, Zip(Paths(WorkDirRecord(SLASH_A_AT).prefixes), [WorkDirToken()]), SLASH_A_AT)
  {
    SpacedNamesOnce();
    OneFilePieces(A_T, 3, SLASH_A_AT, WorkDirToken());
    RunsIntoToken(Piece(A_T[..3], WorkDirToken()), A_T[5..]);
    assert [Piece(A_T[..3], WorkDirToken())][1..] == [];
  }

  lemma RunsIntoToken(p: Piece, rest: Bytes)
    requires p.raw == A_T[..3] && p.to == WorkDirToken()
    ensures RunsInto(p, rest, SLASH_A_AT)
  {
    JoinHasNoSlash([WorkDir]);
    TokenIsLikeToken(JoinRoles([WorkDir]), ZeroNonce());
    assert p.to[..1] == [AT] && SLASH_A_AT[3..] == [AT];
    assert Meets(p.to, rest, SLASH_A_AT[3..]);
    assert p.raw[|p.raw| - 3..] == SLASH_A_AT[..3];
  }

  /** The text "/a /t" is collected with the candidates "/t" and "/a @", but its copy is refused. */
  lemma CollectedButRefused() returns (tree: seq<Node>, groups: seq<Group>, rec: Record, stored: seq<Node>)
    ensures ValidGroups(groups) && CollectedFrom(rec, tree, groups) && IsNonce(rec.nonce) && ValidGroups(rec.prefixes)
    ensures IsStored(stored, tree, rec)
    ensures (forall c :: c in rec.candidates ==> c != [] && c[0] == SLASH) && !Verified(stored, rec)
  {
    tree, groups, rec := OneFile(A_T), TwoGroups(SLASH_A_AT), WorkDirRecord(SLASH_A_AT);
    SpacedNamesOnce();
    OneFileCollected(A_T, 3, SLASH_A_AT);
    stored := OneFileStored(A_T, 3, SLASH_A_AT);
    SpacedReadsAcross();
    assert SLASH_A_AT in rec.candidates && CandidateAcross(tree, rec, 0) && 0 in rec.entries;
    CollectedIsPublishable(tree, groups, rec, stored);
  }

  /** The old temp dir "/n/x" is read from the new work dir "/n" and the "/x" after it. */
  lemma SlashedReadsAcross()
    ensures ReadsAcross(T_X, Zip(Paths(WorkDirRecord(SLASH_N_X).prefixes), [SLASH_N]), SLASH_N_X)
  {
    SlashedNamesOnce();
    OneFilePieces(T_X, 0, SLASH_N_X, SLASH_N);
    StartsInPath(Piece(T_X[..0], SLASH_N), T_X[2..]);
    assert [Piece(T_X[..0], SLASH_N)][1..] == [];
  }

  lemma StartsInPath(p: Piece, rest: Bytes)
    requires p.to == SLASH_N && rest == T_X[2..]
    ensures StartsInside(p, rest, SLASH_N_X)
  {
    assert p.to[0..] == SLASH_N_X[..2] && SLASH_N_X[2..] == rest[0..2];
    assert Meets(p.to[0..], rest, SLASH_N_X);
  }

  const MOVED: map<Role, Bytes> := map[WorkDir := SLASH_N, TmpDir := SLASH_M]

  lemma OldTempDirIsNeedle()
    ensures SLASH_N_X in Needles(WorkDirRecord(SLASH_N_X), MOVED)
  {
    forall r | r in MOVED ensures !Occurs(SLASH_N_X, MOVED[r]) {}
    assert SLASH_N_X in WorkDirRecord(SLASH_N_X).candidates;
  }

  /** The text "/t/x", moved from "/t" to "/n" when an old temp dir was "/n/x", restores to "/n/x" and is refused. */
  lemma RestoredButLeftover() returns (tree: seq<Node>, groups: seq<Group>, rec: Record, stored: seq<Node>)
    ensures ValidGroups(groups) && CollectedFrom(rec, tree, groups) && IsNonce(rec.nonce) && ValidGroups(rec.prefixes)
    ensures IsStored(stored, tree, rec)
    ensures Placed(rec.prefixes, MOVED, |rec.prefixes|) && HoldsTokens(stored, rec)
    ensures HasLeftover(Substituted(stored, rec, MOVED), rec.nonce, StalePaths(rec.candidates, MOVED))
  {
    tree, groups, rec := OneFile(T_X), TwoGroups(SLASH_N_X), WorkDirRecord(SLASH_N_X);
    SlashedNamesOnce();
    OneFileCollected(T_X, 0, SLASH_N_X);
    stored := OneFileStored(T_X, 0, SLASH_N_X);
    assert NewsOf(rec.prefixes, MOVED) == [SLASH_N];
    SlashedReadsAcross();
    OldTempDirIsNeedle();
    assert NeedleAcross(tree, rec, MOVED, 0) && 0 in rec.entries;
    LeftoverExactly(tree, groups, rec, stored, MOVED);
  }
}
