/**
 * Why substituting tokens undoes templating (src/deps-cache.js). The argument needs four facts about the tokens of one
 * nonce: `@` occurs in a token only at its two ends, the byte before the closing `@@` is a hex digit, the token ends in
 * the nonce's tail, and no two tokens are equal. Then no token can be read across the border of raw text and a token.
 */
module RoundTrip {
  import opened Common
  import opened Relocation

  predicate IsHexDigit(b: byte) { 48 <= b <= 57 || 97 <= b <= 102 }

  predicate IsNonce(nonce: Bytes) { |nonce| == 32 && forall b :: b in nonce ==> IsHexDigit(b) }

  /** The end of every token of this nonce. */
  function TokenTail(nonce: Bytes): Bytes { [UNDERSCORE] + nonce + [AT, AT] }

  ghost predicate TokenShape(tok: Bytes, nonce: Bytes)
  {
    var n := |tok|;
    && |nonce| == 32 && n >= 40
    && (forall k :: 0 <= k < n ==> (tok[k] == AT <==> k < 2 || k >= n - 2))
    && IsHexDigit(tok[n - 3])
    && tok[n - 35..] == TokenTail(nonce)
  }

  ghost predicate GoodTokens(toks: seq<Bytes>, nonce: Bytes)
  {
    && (forall i :: 0 <= i < |toks| ==> TokenShape(toks[i], nonce))
    && (forall i, j :: 0 <= i < j < |toks| ==> toks[i] != toks[j])
  }

  predicate NonEmptyAll(s: seq<Bytes>) { forall i :: 0 <= i < |s| ==> s[i] != [] }

  function Zip(froms: seq<Bytes>, tos: seq<Bytes>): (pairs: seq<Pair>)
    requires |froms| == |tos| && NonEmptyAll(froms)
    ensures |pairs| == |froms| && NonEmptyFroms(pairs)
    ensures forall i :: 0 <= i < |froms| ==> pairs[i].from == froms[i] && pairs[i].to == tos[i]
  {
    seq(|froms|, i requires 0 <= i < |froms| => Pair(froms[i], tos[i]))
  }

  /** Two tokens of one nonce, one a prefix of the other, are the same token. */
  lemma TokensPrefixFree(a: Bytes, b: Bytes, nonce: Bytes)
    requires TokenShape(a, nonce) && TokenShape(b, nonce)
    requires |a| <= |b| && b[..|a|] == a
    ensures a == b
  {
    assert a[|a| - 1] == AT && b[|a| - 1] == a[|a| - 1];
    assert a[|a| - 2] == AT && b[|a| - 2] == a[|a| - 2];
  }

  /** Pair lists with the same `from`s choose the same index at every position. */
  lemma {:induction false} SameFromsSameChoice(buf: Bytes, pos: nat, a: seq<Pair>, b: seq<Pair>) returns (i: nat)
    requires |a| == |b| && forall k :: 0 <= k < |a| ==> a[k].from == b[k].from
    ensures LongestAt(buf, pos, a).Some? <==> LongestAt(buf, pos, b).Some?
    ensures LongestAt(buf, pos, a).Some? ==>
      i < |a| && LongestAt(buf, pos, a).value == a[i] && LongestAt(buf, pos, b).value == b[i]
  {
    i := 0;
    if a != [] {
      var r := SameFromsSameChoice(buf, pos, a[1..], b[1..]);
      var rest := LongestAt(buf, pos, a[1..]);
      if MatchesAt(buf, pos, a[0].from) && (rest.None? || |rest.value.from| <= |a[0].from|) {
      } else {
        i := r + 1;
      }
    }
  }

  // ---------------------------------------------------------------- raw text and the next token

  /** The first position at or after `pos` where some path starts, or the end. */
  function NextHit(buf: Bytes, pos: nat, pairs: seq<Pair>): (h: nat)
    requires pos <= |buf|
    ensures pos <= h <= |buf|
    decreases |buf| - pos
  {
    if pos == |buf| || LongestAt(buf, pos, pairs).Some? then pos else NextHit(buf, pos + 1, pairs)
  }

  lemma {:induction false} RawThenToken(buf: Bytes, pos: nat, pairs: seq<Pair>, rule: Rule)
    requires pos <= |buf| && NonEmptyFroms(pairs) && Rewrite(buf, pos, pairs, rule).Some?
    ensures
      var h := NextHit(buf, pos, pairs);
      && (h == |buf| ==> Rewrite(buf, pos, pairs, rule).value == buf[pos..])
      && (h < |buf| ==>
           && LongestAt(buf, h, pairs).Some? && Rewrite(buf, h, pairs, rule).Some?
           && Rewrite(buf, pos, pairs, rule).value == buf[pos..h] + Rewrite(buf, h, pairs, rule).value)
    decreases |buf| - pos
  {
    var h := NextHit(buf, pos, pairs);
    if pos < h {
      RawThenToken(buf, pos + 1, pairs, rule);
      var rest := Rewrite(buf, pos + 1, pairs, rule).value;
      assert Rewrite(buf, pos, pairs, rule).value == [buf[pos]] + rest;
      if h < |buf| {
        GlueRaw(buf, pos, h, Rewrite(buf, h, pairs, rule).value);
      } else {
        assert [buf[pos]] + buf[pos + 1..] == buf[pos..];
      }
    } else if h < |buf| {
      assert buf[pos..pos] + Rewrite(buf, h, pairs, rule).value == Rewrite(buf, h, pairs, rule).value;
    } else {
      assert buf[pos..] == [];
    }
  }

  lemma GlueRaw(buf: Bytes, pos: nat, h: nat, rest: Bytes)
    requires pos < h <= |buf|
    ensures [buf[pos]] + (buf[pos + 1..h] + rest) == buf[pos..h] + rest
  {
    assert [buf[pos]] + buf[pos + 1..h] == buf[pos..h];
  }

  /** The rules used when storing let an occurrence start only at the beginning or after a leader. */
  lemma AcceptedIsLed(rule: Rule, buf: Bytes, start: nat, end: nat)
    requires start <= end <= |buf| && !rule.Anywhere? && Accepts(rule, buf, start, end)
    ensures start == 0 || (buf[start - 1] != AT && !IsHexDigit(buf[start - 1]))
  {}

  lemma TailInRaw(buf: Bytes, pos: nat, tok: Bytes, nonce: Bytes)
    requires TokenShape(tok, nonce)
    requires MatchesAt(buf, pos, tok)
    ensures Occurs(TokenTail(nonce), buf)
  {
    var i := pos + |tok| - 35;
    assert buf[i..i + 35] == buf[pos..pos + |tok|][|tok| - 35..];
    assert MatchesAt(buf, i, TokenTail(nonce));
  }

  /** A token that starts in raw text cannot run into a following token whose first byte is well led. */
  lemma NoOverlap(raw: Bytes, next: Bytes, tok: Bytes, nonce: Bytes)
    requires TokenShape(tok, nonce) && |next| >= 2 && next[0] == AT && next[1] == AT
    requires 0 < |raw| < |tok|
    requires raw[|raw| - 1] != AT && !IsHexDigit(raw[|raw| - 1])
    ensures !MatchesAt(raw + next, 0, tok)
  {
    var d, n := |raw|, |tok|;
    var st := raw + next;
    assert st[d - 1] == raw[d - 1] && st[d] == AT && st[d + 1] == AT;
    if MatchesAt(st, 0, tok) {
      assert forall k :: 0 <= k < n ==> st[k] == tok[k] by { assert st[0..n] == tok; }
    }
  }

  /** At an accepted occurrence the stored text starts a token, and the raw byte before it is not token text. */
  lemma HitIsLedToken(buf: Bytes, h: nat, paths: seq<Bytes>, toks: seq<Bytes>, nonce: Bytes, rule: Rule)
    requires |paths| == |toks| && NonEmptyAll(paths) && GoodTokens(toks, nonce) && !rule.Anywhere? && 0 < h < |buf|
    requires Rewrite(buf, h, Zip(paths, toks), rule).Some?
    requires LongestAt(buf, h, Zip(paths, toks)).Some?
    ensures buf[h - 1] != AT && !IsHexDigit(buf[h - 1])
    ensures var next := Rewrite(buf, h, Zip(paths, toks), rule).value; |next| >= 2 && next[0] == AT && next[1] == AT
  {
    var pairs := Zip(paths, toks);
    LongestIsMatch(buf, h, pairs);
    var best := LongestAt(buf, h, pairs).value;
    AcceptedIsLed(rule, buf, h, h + |best.from|);
    var g :| 0 <= g < |toks| && pairs[g] == best;
    assert TokenShape(toks[g], nonce);
  }

  lemma NoTokenAtRawByte(
    buf: Bytes, pos: nat, paths: seq<Bytes>, toks: seq<Bytes>, nonce: Bytes, rule: Rule, tok: Bytes)
    requires |paths| == |toks| && NonEmptyAll(paths) && GoodTokens(toks, nonce) && !rule.Anywhere? && pos < |buf|
    requires Rewrite(buf, pos, Zip(paths, toks), rule).Some?
    requires LongestAt(buf, pos, Zip(paths, toks)).None?
    requires !Occurs(TokenTail(nonce), buf)
    requires TokenShape(tok, nonce)
    ensures !MatchesAt(Rewrite(buf, pos, Zip(paths, toks), rule).value, 0, tok)
  {
    var pairs := Zip(paths, toks);
    var st := Rewrite(buf, pos, pairs, rule).value;
    var h := NextHit(buf, pos, pairs);
    RawThenToken(buf, pos, pairs, rule);
    if h == |buf| || |tok| <= h - pos {
      if MatchesAt(st, 0, tok) {
        assert buf[pos..pos + |tok|] == st[0..|tok|];
        TailInRaw(buf, pos, tok, nonce);
      }
    } else {
      HitIsLedToken(buf, h, paths, toks, nonce, rule);
      NoOverlap(buf[pos..h], Rewrite(buf, h, pairs, rule).value, tok, nonce);
    }
  }

  /** So restoring chooses no token there. */
  lemma NoTokenChosen(
    buf: Bytes, pos: nat, paths: seq<Bytes>, toks: seq<Bytes>, nonce: Bytes, rule: Rule, news: seq<Bytes>)
    requires |paths| == |toks| == |news| && NonEmptyAll(paths) && NonEmptyAll(toks) && GoodTokens(toks, nonce)
    requires !rule.Anywhere? && pos < |buf|
    requires Rewrite(buf, pos, Zip(paths, toks), rule).Some? && LongestAt(buf, pos, Zip(paths, toks)).None?
    requires !Occurs(TokenTail(nonce), buf)
    ensures LongestAt(Rewrite(buf, pos, Zip(paths, toks), rule).value, 0, Zip(toks, news)).None?
  {
    var st, back := Rewrite(buf, pos, Zip(paths, toks), rule).value, Zip(toks, news);
    forall p | p in back ensures !MatchesAt(st, 0, p.from) {
      NoTokenAtRawByte(buf, pos, paths, toks, nonce, rule, p.from);
    }
    LongestIsMatch(st, 0, back);
  }

  /** Where the stored text starts with a token, that token's pair is the one restoring applies. */
  lemma TokenChosen(toks: seq<Bytes>, nonce: Bytes, news: seq<Bytes>, g: nat, rest: Bytes)
    requires GoodTokens(toks, nonce) && NonEmptyAll(toks) && |news| == |toks| && g < |toks|
    ensures LongestAt(toks[g] + rest, 0, Zip(toks, news)) == Some(Zip(toks, news)[g])
  {
    var pairs := Zip(toks, news);
    var tok := toks[g];
    var st := tok + rest;
    assert pairs[g] in pairs && MatchesAt(st, 0, tok) by { assert st[0..|tok|] == tok; }
    LongestIsMatch(st, 0, pairs);
    var best := LongestAt(st, 0, pairs).value;
    var j :| 0 <= j < |toks| && pairs[j] == best;
    LongerMatchIsLonger(tok, rest, best.from);
    TokensPrefixFree(tok, best.from, nonce);
  }

  lemma LongerMatchIsLonger(tok: Bytes, rest: Bytes, from: Bytes)
    requires MatchesAt(tok + rest, 0, from) && |from| >= |tok|
    ensures from[..|tok|] == tok
  {
    assert from == (tok + rest)[0..|from|];
    assert (tok + rest)[0..|from|][..|tok|] == tok;
  }

  // ---------------------------------------------------------------- the theorem, over any good tokens

  /** Templating then restoring is direct substitution, from any point of the pass. */
  lemma {:induction false} RoundTripFrom(
    buf: Bytes, pos: nat, paths: seq<Bytes>, toks: seq<Bytes>, nonce: Bytes, rule: Rule, news: seq<Bytes>)
    requires |paths| == |toks| == |news| && NonEmptyAll(paths) && NonEmptyAll(toks) && GoodTokens(toks, nonce)
    requires !rule.Anywhere? && pos <= |buf|
    requires Rewrite(buf, pos, Zip(paths, toks), rule).Some?
    requires !Occurs(TokenTail(nonce), buf)
    ensures
      Subst(Rewrite(buf, pos, Zip(paths, toks), rule).value, Zip(toks, news)) == Subst(buf[pos..], Zip(paths, news))
    decreases |buf| - pos
  {
    var pairs := Zip(paths, toks);
    if pos < |buf| {
      if LongestAt(buf, pos, pairs).None? {
        RoundTripFrom(buf, pos + 1, paths, toks, nonce, rule, news);
        RoundTripRaw(buf, pos, paths, toks, nonce, rule, news);
      } else {
        LongestIsMatch(buf, pos, pairs);
        RoundTripFrom(buf, pos + |LongestAt(buf, pos, pairs).value.from|, paths, toks, nonce, rule, news);
        RoundTripHit(buf, pos, paths, toks, nonce, rule, news);
      }
    }
  }

  /** What the theorem says of one point of the pass. */
  ghost predicate ComesBack(buf: Bytes, pos: nat, paths: seq<Bytes>, toks: seq<Bytes>, rule: Rule, news: seq<Bytes>)
    requires |paths| == |toks| == |news| && NonEmptyAll(paths) && NonEmptyAll(toks) && pos <= |buf|
  {
    var st := Rewrite(buf, pos, Zip(paths, toks), rule);
    st.Some? && Subst(st.value, Zip(toks, news)) == Subst(buf[pos..], Zip(paths, news))
  }

  lemma RoundTripRaw(
    buf: Bytes, pos: nat, paths: seq<Bytes>, toks: seq<Bytes>, nonce: Bytes, rule: Rule, news: seq<Bytes>)
    requires |paths| == |toks| == |news| && NonEmptyAll(paths) && NonEmptyAll(toks) && GoodTokens(toks, nonce)
    requires !rule.Anywhere? && pos < |buf| && Rewrite(buf, pos, Zip(paths, toks), rule).Some?
    requires LongestAt(buf, pos, Zip(paths, toks)).None? && !Occurs(TokenTail(nonce), buf)
    requires ComesBack(buf, pos + 1, paths, toks, rule, news)
    ensures ComesBack(buf, pos, paths, toks, rule, news)
  {
    var pairs, back, direct := Zip(paths, toks), Zip(toks, news), Zip(paths, news);
    var i := SameFromsSameChoice(buf, pos, pairs, direct);
    SameSuffixSameChoice(buf, pos, direct);
    NoTokenChosen(buf, pos, paths, toks, nonce, rule, news);
    RestoreRaw(Rewrite(buf, pos, pairs, rule).value, buf[pos], Rewrite(buf, pos + 1, pairs, rule).value, back);
    SubstAtRaw(buf, pos, direct);
  }

  lemma RoundTripHit(
    buf: Bytes, pos: nat, paths: seq<Bytes>, toks: seq<Bytes>, nonce: Bytes, rule: Rule, news: seq<Bytes>)
    requires |paths| == |toks| == |news| && NonEmptyAll(paths) && NonEmptyAll(toks) && GoodTokens(toks, nonce)
    requires pos < |buf| && Rewrite(buf, pos, Zip(paths, toks), rule).Some?
    requires LongestAt(buf, pos, Zip(paths, toks)).Some?
    requires var end := pos + |LongestAt(buf, pos, Zip(paths, toks)).value.from|;
      end <= |buf| && ComesBack(buf, end, paths, toks, rule, news)
    ensures ComesBack(buf, pos, paths, toks, rule, news)
  {
    var pairs, back, direct := Zip(paths, toks), Zip(toks, news), Zip(paths, news);
    var i := SameFromsSameChoice(buf, pos, pairs, direct);
    SameSuffixSameChoice(buf, pos, direct);
    LongestIsMatch(buf, pos, pairs);
    var rest := Rewrite(buf, pos + |paths[i]|, pairs, rule).value;
    TokenChosen(toks, nonce, news, i, rest);
    RestoreToken(toks[i], rest, back, back[i]);
    SubstAtHit(buf, pos, direct);
  }

  lemma SubstAtRaw(buf: Bytes, pos: nat, pairs: seq<Pair>)
    requires NonEmptyFroms(pairs) && pos < |buf| && LongestAt(buf[pos..], 0, pairs).None?
    ensures Subst(buf[pos..], pairs) == [buf[pos]] + Subst(buf[pos + 1..], pairs)
  {
    assert buf[pos..][1..] == buf[pos + 1..];
  }

  lemma SubstAtHit(buf: Bytes, pos: nat, pairs: seq<Pair>)
    requires NonEmptyFroms(pairs) && pos < |buf| && LongestAt(buf[pos..], 0, pairs).Some?
    ensures var hit := LongestAt(buf[pos..], 0, pairs).value;
      pos + |hit.from| <= |buf| && Subst(buf[pos..], pairs) == hit.to + Subst(buf[pos + |hit.from|..], pairs)
  {
    LongestIsMatch(buf[pos..], 0, pairs);
    var len := |LongestAt(buf[pos..], 0, pairs).value.from|;
    assert buf[pos..][len..] == buf[pos + len..];
  }

  lemma RestoreRaw(st: Bytes, b: byte, rest: Bytes, back: seq<Pair>)
    requires NonEmptyFroms(back) && st == [b] + rest && LongestAt(st, 0, back).None?
    ensures Subst(st, back) == [b] + Subst(rest, back)
  {
    assert st[1..] == rest;
  }

  lemma RestoreToken(tok: Bytes, rest: Bytes, back: seq<Pair>, p: Pair)
    requires NonEmptyFroms(back) && tok != [] && p.from == tok && LongestAt(tok + rest, 0, back) == Some(p)
    ensures Subst(tok + rest, back) == p.to + Subst(rest, back)
  {
    assert (tok + rest)[|tok|..] == rest;
  }

  /** Replacing every path by itself changes nothing. */
  lemma {:induction false} IdentitySubst(buf: Bytes, paths: seq<Bytes>)
    requires NonEmptyAll(paths)
    ensures Subst(buf, Zip(paths, paths)) == buf
    decreases |buf|
  {
    var pairs := Zip(paths, paths);
    if buf != [] {
      LongestIsMatch(buf, 0, pairs);
      var best := LongestAt(buf, 0, pairs);
      if best.None? {
        IdentitySubst(buf[1..], paths);
        assert [buf[0]] + buf[1..] == buf;
      } else {
        var len := |best.value.from|;
        IdentitySubst(buf[len..], paths);
        assert best.value.to == best.value.from;
        assert buf[0..len] + buf[len..] == buf;
      }
    }
  }

  /**
   * The round trip: a file or symlink target that templating accepts, and that did not hold the nonce's tail, restores
   * to exactly the original with every leftmost-longest install path replaced by its new path.
   */
  lemma RestoreAfterTemplate(
    buf: Bytes, paths: seq<Bytes>, toks: seq<Bytes>, nonce: Bytes, rule: Rule, news: seq<Bytes>)
    requires |paths| == |toks| == |news| && NonEmptyAll(paths) && NonEmptyAll(toks) && GoodTokens(toks, nonce)
    requires !rule.Anywhere? && Rewrite(buf, 0, Zip(paths, toks), rule).Some?
    requires !Occurs(TokenTail(nonce), buf)
    ensures Rewrite(Rewrite(buf, 0, Zip(paths, toks), rule).value, 0, Zip(toks, news), Anywhere)
            == Some(Subst(buf, Zip(paths, news)))
    ensures news == paths ==>
            Rewrite(Rewrite(buf, 0, Zip(paths, toks), rule).value, 0, Zip(toks, news), Anywhere) == Some(buf)
  {
    RoundTripFrom(buf, 0, paths, toks, nonce, rule, news);
    var st := Rewrite(buf, 0, Zip(paths, toks), rule).value;
    AcceptedIsSubst(st, 0, Zip(toks, news), Anywhere);
    assert buf[0..] == buf && st[0..] == st;
    IdentitySubst(buf, paths);
  }
}
