/**
 * Relocation of a whole tree (src/deps-cache.js): collection scans every file and symlink target, publishing templates
 * the recorded ones, a restore substitutes the tokens and refuses any leftover. A tree is the list of its files and
 * symlinks in walk order; an entry's `text` flag is the allowlist-and-UTF-8 verdict on a file.
 */
module TreeRelocation {
  import opened Common
  import opened Sorting
  import opened Relocation
  import opened RoundTrip

  datatype Role = WorkDir | RealWorkDir | TmpDir | Tmp | Temp

  /** Roles sharing one path are one group. */
  datatype Group = Group(roles: seq<Role>, path: Bytes)

  datatype Node = File(content: Bytes, text: bool) | Link(content: Bytes)

  datatype Record = Record(nonce: Bytes, candidates: seq<Bytes>, prefixes: seq<Group>, entries: set<nat>)

  datatype Verdict = Fine | Collision | Binary | Ambiguous

  datatype Scan = Clean(found: seq<bool>, entries: set<nat>) | Stopped(at: nat, why: Verdict)

  datatype Collected = Relocatable(rec: Record) | Refused(at: nat, why: Verdict) | NoNonce

  datatype Restored = Tree(nodes: seq<Node>) | MissingRole | RolesDiffer | NoPlaceholder | Leftover

  function RoleName(r: Role): string
  {
    match r
    case WorkDir => "workDir"
    case RealWorkDir => "realWorkDir"
    case TmpDir => "TMPDIR"
    case Tmp => "TMP"
    case Temp => "TEMP"
  }

  predicate AsciiOnly(s: string) { forall c :: c in s ==> c as int < 128 }

  function Ascii(s: string): Bytes
    requires AsciiOnly(s)
  {
    seq(|s|, i requires 0 <= i < |s| => (assert s[i] in s; (s[i] as int) as byte))
  }

  function NameBytes(r: Role): Bytes { Ascii(RoleName(r)) }

  function JoinRoles(roles: seq<Role>): Bytes
    requires roles != []
  {
    if |roles| == 1 then NameBytes(roles[0]) else NameBytes(roles[0]) + [PLUS] + JoinRoles(roles[1..])
  }

  function Marker(): Bytes { Ascii("@@LANE_PREFIX_") }

  function TokenFor(roles: seq<Role>, nonce: Bytes): Bytes
    requires roles != []
  {
    Marker() + JoinRoles(roles) + TokenTail(nonce)
  }

  /** What a token looks like, for two roles that share a path. */
  lemma TokenText(nonce: Bytes)
    ensures TokenFor([WorkDir, TmpDir], nonce) ==
      [64, 64, 76, 65, 78, 69, 95, 80, 82, 69, 70, 73, 88, 95]                 // @@LANE_PREFIX_
      + [119, 111, 114, 107, 68, 105, 114, 43, 84, 77, 80, 68, 73, 82]         // workDir+TMPDIR
      + [95] + nonce + [64, 64]                                                // _<nonce>@@
  {
    assert [WorkDir, TmpDir][1..] == [TmpDir];
    assert JoinRoles([WorkDir, TmpDir]) == NameBytes(WorkDir) + [PLUS] + NameBytes(TmpDir);
    assert NameBytes(WorkDir) == [119, 111, 114, 107, 68, 105, 114];
    assert NameBytes(TmpDir) == [84, 77, 80, 68, 73, 82];
  }

  /** Groups as collection builds them. */
  predicate ValidGroups(groups: seq<Group>)
  {
    && (forall i :: 0 <= i < |groups| ==> groups[i].roles != [] && groups[i].path != [])
    && (forall i, j :: 0 <= i < j < |groups| ==> groups[i].roles[0] != groups[j].roles[0])
  }

  function Paths(groups: seq<Group>): (r: seq<Bytes>)
    ensures |r| == |groups| && forall i :: 0 <= i < |r| ==> r[i] == groups[i].path
  {
    seq(|groups|, i requires 0 <= i < |groups| => groups[i].path)
  }

  function Tokens(groups: seq<Group>, nonce: Bytes): (r: seq<Bytes>)
    requires ValidGroups(groups)
    ensures |r| == |groups| && NonEmptyAll(r)
    ensures forall i :: 0 <= i < |r| ==> r[i] == TokenFor(groups[i].roles, nonce)
  {
    seq(|groups|, i requires 0 <= i < |groups| => TokenFor(groups[i].roles, nonce))
  }

  // ---------------------------------------------------------------- the tokens of a nonce are good

  lemma RoleNamesPlain(r: Role)
    ensures AT !in NameBytes(r) && PLUS !in NameBytes(r) && NameBytes(r) != []
  {
    match r
    case WorkDir =>
    case RealWorkDir =>
    case TmpDir =>
    case Tmp =>
    case Temp =>
  }

  lemma {:induction false} JoinHasNoAt(roles: seq<Role>)
    requires roles != []
    ensures AT !in JoinRoles(roles) && JoinRoles(roles) != []
  {
    RoleNamesPlain(roles[0]);
    if |roles| > 1 { JoinHasNoAt(roles[1..]); }
  }

  lemma DistinctNames(a: Role, b: Role)
    requires NameBytes(a) == NameBytes(b)
    ensures a == b
  {
    var x, y := RoleName(a), RoleName(b);
    assert |NameBytes(a)| == |x| && |NameBytes(b)| == |y|;
    assert NameBytes(a)[0] == (x[0] as int) as byte && NameBytes(b)[0] == (y[0] as int) as byte;
    assert x[0] == y[0];
  }

  lemma FirstFieldUnique(u: Bytes, x: Bytes, v: Bytes, y: Bytes)
    requires PLUS !in u && PLUS !in v
    requires (x == [] || x[0] == PLUS) && (y == [] || y[0] == PLUS)
    requires u + x == v + y
    ensures u == v
  {
    var w := u + x;
    assert |w| == |v| + |y|;
    assert forall k :: 0 <= k < |u| ==> w[k] == u[k];
    assert forall k :: 0 <= k < |v| ==> w[k] == v[k];
    assert |u| < |w| ==> w[|u|] == PLUS;
    assert |v| < |w| ==> w[|v|] == PLUS;
  }

  /** A list of roles joined by `+` names its first role. */
  lemma JoinNamesFirst(a: seq<Role>, b: seq<Role>)
    requires a != [] && b != [] && JoinRoles(a) == JoinRoles(b)
    ensures a[0] == b[0]
  {
    RoleNamesPlain(a[0]);
    RoleNamesPlain(b[0]);
    var x := JoinSplit(a);
    var y := JoinSplit(b);
    FirstFieldUnique(NameBytes(a[0]), x, NameBytes(b[0]), y);
    DistinctNames(a[0], b[0]);
  }

  lemma JoinSplit(a: seq<Role>) returns (x: Bytes)
    requires a != []
    ensures JoinRoles(a) == NameBytes(a[0]) + x && (x == [] || x[0] == PLUS)
  {
    x := if |a| == 1 then [] else [PLUS] + JoinRoles(a[1..]);
    assert NameBytes(a[0]) + [] == NameBytes(a[0]);
    if |a| > 1 { assert (NameBytes(a[0]) + [PLUS]) + JoinRoles(a[1..]) == NameBytes(a[0]) + x; }
  }

  lemma TokenHasShape(m: Bytes, j: Bytes, nonce: Bytes)
    requires m == Marker() && AT !in j && j != [] && IsNonce(nonce)
    ensures TokenShape(m + j + TokenTail(nonce), nonce)
  {
    var t := TokenTail(nonce);
    var tok := m + j + t;
    var n := |tok|;
    assert |m| == 14 && m[0] == AT && m[1] == AT && forall k :: 2 <= k < 14 ==> m[k] != AT;
    assert |t| == 35 && t[0] != AT && t[33] == AT && t[34] == AT;
    assert forall k :: 1 <= k < 33 ==> t[k] == nonce[k - 1] && t[k] in nonce;
    forall k | 0 <= k < n ensures tok[k] == AT <==> k < 2 || k >= n - 2 {
      if k < 14 { assert tok[k] == m[k]; }
      else if k < 14 + |j| { assert tok[k] == j[k - 14] && tok[k] in j; }
      else { assert tok[k] == t[k - 14 - |j|]; }
    }
    assert tok[n - 3] == t[32];
    assert tok[n - 35..] == t;
  }

  /** Every nonce gives each group its own well-shaped token. */
  lemma TokensAreGood(groups: seq<Group>, nonce: Bytes)
    requires ValidGroups(groups) && IsNonce(nonce)
    ensures GoodTokens(Tokens(groups, nonce), nonce)
  {
    var toks := Tokens(groups, nonce);
    forall i | 0 <= i < |toks| ensures TokenShape(toks[i], nonce) {
      JoinHasNoAt(groups[i].roles);
      TokenHasShape(Marker(), JoinRoles(groups[i].roles), nonce);
    }
    forall i, j | 0 <= i < j < |toks| ensures toks[i] != toks[j] {
      if toks[i] == toks[j] {
        MiddleUnique(Marker(), JoinRoles(groups[i].roles), JoinRoles(groups[j].roles), TokenTail(nonce));
        JoinNamesFirst(groups[i].roles, groups[j].roles);
      }
    }
  }

  lemma MiddleUnique(m: Bytes, a: Bytes, b: Bytes, t: Bytes)
    requires m + a + t == m + b + t
    ensures a == b
  {
    var w := m + a + t;
    assert |a| == |b|;
    assert a == w[|m|..|m| + |a|] && b == w[|m|..|m| + |b|];
  }

  // ---------------------------------------------------------------- dropping groups that never occur

  function Keep<T>(s: seq<T>, mask: seq<bool>): seq<T>
    requires |s| == |mask|
  {
    if s == [] then [] else (if mask[0] then [s[0]] else []) + Keep(s[1..], mask[1..])
  }

  lemma {:induction false} KeepLeast<T>(s: seq<T>, mask: seq<bool>, p: T -> bool, before: (T, T) -> bool)
    requires |s| == |mask| && forall i :: 0 <= i < |s| && !mask[i] ==> !p(s[i])
    ensures LeastThat(Keep(s, mask), p, before) == LeastThat(s, p, before)
  {
    if s != [] {
      KeepLeast(s[1..], mask[1..], p, before);
      assert ([s[0]] + Keep(s[1..], mask[1..]))[1..] == Keep(s[1..], mask[1..]);
      assert [] + Keep(s[1..], mask[1..]) == Keep(s[1..], mask[1..]);
    }
  }

  lemma {:induction false} KeepIndex<T>(s: seq<T>, mask: seq<bool>, k: nat) returns (i: nat)
    requires |s| == |mask| && k < |Keep(s, mask)|
    ensures k <= i < |s| && mask[i] && s[i] == Keep(s, mask)[k]
  {
    if mask[0] && k == 0 { i := 0; }
    else {
      var r := KeepIndex(s[1..], mask[1..], if mask[0] then k - 1 else k);
      i := r + 1;
    }
  }

  lemma {:induction false} KeepIndexIncreasing<T>(s: seq<T>, mask: seq<bool>, k: nat, l: nat) returns (i: nat, j: nat)
    requires |s| == |mask| && k < l < |Keep(s, mask)|
    ensures i < j < |s| && s[i] == Keep(s, mask)[k] && s[j] == Keep(s, mask)[l]
  {
    if mask[0] && k == 0 {
      i := 0;
      j := KeepIndex(s[1..], mask[1..], l - 1);
      j := j + 1;
    } else {
      var d := if mask[0] then 1 else 0;
      i, j := KeepIndexIncreasing(s[1..], mask[1..], k - d, l - d);
      i, j := i + 1, j + 1;
    }
  }

  lemma {:induction false} KeepPaths(groups: seq<Group>, mask: seq<bool>)
    requires |groups| == |mask|
    ensures Paths(Keep(groups, mask)) == Keep(Paths(groups), mask)
  {
    if groups != [] {
      KeepPaths(groups[1..], mask[1..]);
      assert Paths(groups)[1..] == Paths(groups[1..]);
    }
  }

  lemma KeepValid(groups: seq<Group>, mask: seq<bool>)
    requires ValidGroups(groups) && |groups| == |mask|
    ensures ValidGroups(Keep(groups, mask))
  {
    var kept := Keep(groups, mask);
    forall k | 0 <= k < |kept| ensures kept[k].roles != [] && kept[k].path != [] {
      var i := KeepIndex(groups, mask, k);
    }
    forall k, l | 0 <= k < l < |kept| ensures kept[k].roles[0] != kept[l].roles[0] {
      var i, j := KeepIndexIncreasing(groups, mask, k, l);
    }
  }

  lemma {:induction false} KeepLength<S, T>(s: seq<S>, t: seq<T>, mask: seq<bool>)
    requires |s| == |t| == |mask|
    ensures |Keep(s, mask)| == |Keep(t, mask)|
  {
    if s != [] { KeepLength(s[1..], t[1..], mask[1..]); }
  }

  lemma {:induction false} KeepZip(froms: seq<Bytes>, tos: seq<Bytes>, mask: seq<bool>)
    requires |froms| == |tos| == |mask| && NonEmptyAll(froms)
    ensures |Keep(froms, mask)| == |Keep(tos, mask)| && NonEmptyAll(Keep(froms, mask))
    ensures Keep(Zip(froms, tos), mask) == Zip(Keep(froms, mask), Keep(tos, mask))
  {
    if froms != [] {
      KeepZip(froms[1..], tos[1..], mask[1..]);
      assert Zip(froms, tos)[1..] == Zip(froms[1..], tos[1..]);
      if mask[0] { ZipCons(froms[0], Keep(froms[1..], mask[1..]), tos[0], Keep(tos[1..], mask[1..])); }
    }
  }

  lemma ZipCons(from: Bytes, froms: seq<Bytes>, to: Bytes, tos: seq<Bytes>)
    requires |froms| == |tos| && from != [] && NonEmptyAll(froms)
    ensures NonEmptyAll([from] + froms) && Zip([from] + froms, [to] + tos) == [Pair(from, to)] + Zip(froms, tos)
  {}

  /** A pair that starts nowhere in the text can be left out of the rewrite. */
  lemma {:induction false} KeepSubst(buf: Bytes, pairs: seq<Pair>, mask: seq<bool>)
    requires |pairs| == |mask| && NonEmptyFroms(pairs) && NonEmptyFroms(Keep(pairs, mask))
    requires forall i :: 0 <= i < |pairs| && !mask[i] ==> !Occurs(pairs[i].from, buf)
    ensures Subst(buf, Keep(pairs, mask)) == Subst(buf, pairs)
    decreases |buf|
  {
    if buf != [] {
      KeepLeast(pairs, mask, Matcher(buf, 0), Longer());
      LongestIsMatch(buf, 0, pairs);
      var cut := if LongestAt(buf, 0, pairs).None? then 1 else |LongestAt(buf, 0, pairs).value.from|;
      forall i | 0 <= i < |pairs| && !mask[i] ensures !Occurs(pairs[i].from, buf[cut..]) {
        OccursInSuffix(pairs[i].from, buf, cut);
      }
      KeepSubst(buf[cut..], pairs, mask);
    }
  }

  lemma OccursInSuffix(w: Bytes, buf: Bytes, cut: nat)
    requires cut <= |buf|
    ensures Occurs(w, buf[cut..]) ==> Occurs(w, buf)
  {
    if Occurs(w, buf[cut..]) {
      var i :| 0 <= i <= |buf[cut..]| && MatchesAt(buf[cut..], i, w);
      assert buf[cut + i..cut + i + |w|] == buf[cut..][i..i + |w|];
      assert MatchesAt(buf, cut + i, w);
    }
  }

  /** Whether a rewrite is accepted depends on the occurring `from`s only: not on the `to`s, not on absent pairs. */
  lemma {:induction false} KeepAccepts(buf: Bytes, pos: nat, a: seq<Pair>, b: seq<Pair>, mask: seq<bool>, rule: Rule)
    requires pos <= |buf| && |a| == |b| == |mask| && NonEmptyFroms(a) && NonEmptyFroms(Keep(b, mask))
    requires forall i :: 0 <= i < |a| ==> a[i].from == b[i].from
    requires forall i :: 0 <= i < |b| && !mask[i] ==> !Occurs(b[i].from, buf)
    ensures Rewrite(buf, pos, a, rule).Some? <==> Rewrite(buf, pos, Keep(b, mask), rule).Some?
    decreases |buf| - pos
  {
    if pos < |buf| {
      KeepChoice(buf, pos, a, b, mask);
      LongestIsMatch(buf, pos, a);
      var best := LongestAt(buf, pos, a);
      KeepAccepts(buf, if best.None? then pos + 1 else pos + |best.value.from|, a, b, mask, rule);
    }
  }

  /** At one position: the same `from` is chosen, or none, with and without the absent pairs. */
  lemma KeepChoice(buf: Bytes, pos: nat, a: seq<Pair>, b: seq<Pair>, mask: seq<bool>)
    requires pos <= |buf| && |a| == |b| == |mask| && forall i :: 0 <= i < |a| ==> a[i].from == b[i].from
    requires forall i :: 0 <= i < |b| && !mask[i] ==> !Occurs(b[i].from, buf)
    ensures LongestAt(buf, pos, a).None? <==> LongestAt(buf, pos, Keep(b, mask)).None?
    ensures LongestAt(buf, pos, a).Some? ==>
      LongestAt(buf, pos, a).value.from == LongestAt(buf, pos, Keep(b, mask)).value.from
  {
    var i := SameFromsSameChoice(buf, pos, a, b);
    KeepLeast(b, mask, Matcher(buf, pos), Longer());
    assert LongestAt(buf, pos, Keep(b, mask)) == LongestAt(buf, pos, b);
  }

  // ---------------------------------------------------------------- collection

  datatype Place = Place(role: Role, path: Bytes)

  /** Exactly the given places, each role under its own path. */
  ghost predicate Grouped(groups: seq<Group>, places: seq<Place>)
  {
    && (forall p :: p in places ==>
          exists i :: 0 <= i < |groups| && groups[i].path == p.path && p.role in groups[i].roles)
    && (forall i, r :: 0 <= i < |groups| && r in groups[i].roles ==> Place(r, groups[i].path) in places)
  }

  method GroupIndex(groups: seq<Group>, path: Bytes) returns (i: nat)
    ensures i <= |groups| && (i < |groups| ==> groups[i].path == path)
    ensures i == |groups| ==> forall j :: 0 <= j < |groups| ==> groups[j].path != path
  {
    i := 0;
    while i < |groups| && groups[i].path != path
      invariant i <= |groups| && forall j :: 0 <= j < i ==> groups[j].path != path
    {
      i := i + 1;
    }
  }

  /** Roles sharing one path become one group; the result is what templating needs of its groups. */
  method GroupByPath(places: seq<Place>) returns (groups: seq<Group>)
    requires forall i, j :: 0 <= i < j < |places| ==> places[i].role != places[j].role
    requires forall p :: p in places ==> p.path != []
    ensures ValidGroups(groups) && Grouped(groups, places)
    ensures forall i, j :: 0 <= i < j < |groups| ==> groups[i].path != groups[j].path
  {
    groups := [];
    for k := 0 to |places|
      invariant forall i :: 0 <= i < |groups| ==> groups[i].roles != [] && groups[i].path != []
      invariant forall i, j :: 0 <= i < j < |groups| ==> groups[i].path != groups[j].path
      invariant Grouped(groups, places[..k])
    {
      var p := places[k];
      assert places[..k + 1] == places[..k] + [p];
      var i := GroupIndex(groups, p.path);
      ghost var before := groups;
      if i < |groups| {
        groups := groups[i := Group(groups[i].roles + [p.role], p.path)];
      } else {
        groups := groups + [Group([p.role], p.path)];
      }
      GroupedExtends(before, groups, places[..k], p, i);
    }
    assert places[..|places|] == places;
    forall i, j | 0 <= i < j < |groups| ensures groups[i].roles[0] != groups[j].roles[0] {
      assert Place(groups[i].roles[0], groups[i].path) in places && Place(groups[j].roles[0], groups[j].path) in places;
    }
  }

  lemma GroupedExtends(before: seq<Group>, after: seq<Group>, places: seq<Place>, p: Place, i: nat)
    requires Grouped(before, places) && i <= |before|
    requires i < |before| ==>
      before[i].path == p.path && after == before[i := Group(before[i].roles + [p.role], p.path)]
    requires i == |before| ==> after == before + [Group([p.role], p.path)]
    ensures Grouped(after, places + [p])
  {
    forall q | q in places + [p]
      ensures exists j :: 0 <= j < |after| && after[j].path == q.path && q.role in after[j].roles
    {
      if q == p {
        assert after[i].path == p.path && p.role in after[i].roles;
      } else {
        var j :| 0 <= j < |before| && before[j].path == q.path && q.role in before[j].roles;
        assert after[j].path == q.path && q.role in after[j].roles;
      }
    }
    forall j, r | 0 <= j < |after| && r in after[j].roles ensures Place(r, after[j].path) in places + [p] {
      if j < |before| && r in before[j].roles {
        assert Place(r, before[j].path) in places;
      } else {
        assert r == p.role && after[j].path == p.path;
      }
    }
  }

  function RuleOf(n: Node): Rule { if n.File? then Strict else Anchored }

  predicate NamesAny(content: Bytes, paths: seq<Bytes>) { exists i :: 0 <= i < |paths| && Occurs(paths[i], content) }

  function Blank(n: nat): (r: seq<Bytes>)
    ensures |r| == n
  {
    seq(n, _ => [])
  }

  /** What the scan says of one file or symlink. */
  function NodeVerdict(n: Node, paths: seq<Bytes>, nonce: Bytes): Verdict
    requires NonEmptyAll(paths)
  {
    if Occurs(TokenTail(nonce), n.content) then Collision
    else if !NamesAny(n.content, paths) then Fine
    else if n.File? && !n.text then Binary
    else if Rewrite(n.content, 0, Zip(paths, Blank(|paths|)), RuleOf(n)).None? then Ambiguous
    else Fine
  }

  /** Every leftmost-longest occurrence of a path may be replaced: as in a text, or as in a link target. */
  ghost predicate CanReplace(n: Node, paths: seq<Bytes>)
  {
    forall hits :: IsCut(n.content, paths, 0, hits) ==>
      AllWellPlaced(if n.File? then Strict else Anchored, n.content, paths, hits)
  }

  /** The verdicts, in order: the tail of a token is there; no path is; a path in no text; a path that must stay. */
  ghost predicate IsVerdict(v: Verdict, n: Node, paths: seq<Bytes>, nonce: Bytes)
  {
    if Occurs(TokenTail(nonce), n.content) then v == Collision
    else if forall i :: 0 <= i < |paths| ==> !Occurs(paths[i], n.content) then v == Fine
    else if n == File(n.content, false) then v == Binary
    else v == if CanReplace(n, paths) then Fine else Ambiguous
  }

  lemma VerdictMeaning(n: Node, paths: seq<Bytes>, nonce: Bytes)
    requires NonEmptyAll(paths)
    ensures IsVerdict(NodeVerdict(n, paths, nonce), n, paths, nonce)
  {
    var pairs, rule := Zip(paths, Blank(|paths|)), if n.File? then Strict else Anchored;
    assert Froms(pairs) == paths;
    var hits := CutExists(n.content, 0, 0, pairs);
    forall cut | IsCut(n.content, paths, 0, cut)
      ensures Rewrite(n.content, 0, pairs, rule).Some? <==> AllWellPlaced(rule, n.content, paths, cut)
    {
      CutDecides(n.content, 0, pairs, rule, cut);
    }
  }

  method ScanNode(n: Node, paths: seq<Bytes>, nonce: Bytes) returns (v: Verdict)
    requires NonEmptyAll(paths)
    ensures v == NodeVerdict(n, paths, nonce)
  {
    if Occurs(TokenTail(nonce), n.content) { return Collision; }
    if !NamesAny(n.content, paths) { return Fine; }
    if n.File? && !n.text { return Binary; }
    var probe := RewritePrefixes(n.content, Zip(paths, Blank(|paths|)), RuleOf(n));
    v := if probe.None? then Ambiguous else Fine;
  }

  /** Does some node of `tree[..k]` name `path`? */
  predicate NamedBefore(path: Bytes, tree: seq<Node>, k: nat)
    requires k <= |tree|
  {
    exists m :: 0 <= m < k && Occurs(path, tree[m].content)
  }

  /** What the scan of `tree[..k]` has found. */
  ghost predicate ScannedTo(
    tree: seq<Node>, paths: seq<Bytes>, nonce: Bytes, k: nat, found: seq<bool>, entries: set<nat>)
    requires k <= |tree| && NonEmptyAll(paths)
  {
    AllFine(tree, paths, nonce, k) && EntriesAre(tree, paths, k, entries) && FoundAre(tree, paths, k, found)
  }

  ghost predicate AllFine(tree: seq<Node>, paths: seq<Bytes>, nonce: Bytes, k: nat)
    requires k <= |tree| && NonEmptyAll(paths)
  {
    forall m :: 0 <= m < k ==> NodeVerdict(tree[m], paths, nonce) == Fine
  }

  ghost predicate EntriesAre(tree: seq<Node>, paths: seq<Bytes>, k: nat, entries: set<nat>)
    requires k <= |tree|
  {
    forall m :: m in entries <==> 0 <= m < k && NamesAny(tree[m].content, paths)
  }

  ghost predicate FoundAre(tree: seq<Node>, paths: seq<Bytes>, k: nat, found: seq<bool>)
    requires k <= |tree|
  {
    |found| == |paths| && forall i :: 0 <= i < |paths| ==> (found[i] <==> NamedBefore(paths[i], tree, k))
  }

  lemma FineFurther(tree: seq<Node>, paths: seq<Bytes>, nonce: Bytes, k: nat)
    requires NonEmptyAll(paths) && k < |tree| && AllFine(tree, paths, nonce, k)
    requires NodeVerdict(tree[k], paths, nonce) == Fine
    ensures AllFine(tree, paths, nonce, k + 1)
  {}

  lemma EntriesFurther(tree: seq<Node>, paths: seq<Bytes>, k: nat, entries: set<nat>)
    requires k < |tree| && EntriesAre(tree, paths, k, entries)
    ensures EntriesAre(tree, paths, k + 1, if NamesAny(tree[k].content, paths) then entries + {k} else entries)
  {}

  lemma FoundFurther(tree: seq<Node>, paths: seq<Bytes>, k: nat, found: seq<bool>)
    requires k < |tree| && FoundAre(tree, paths, k, found)
    ensures FoundAre(tree, paths, k + 1, AddHits(found, paths, tree[k].content))
  {
    forall i | 0 <= i < |paths|
      ensures NamedBefore(paths[i], tree, k + 1) <==>
        NamedBefore(paths[i], tree, k) || Occurs(paths[i], tree[k].content)
    {
      NamedFurther(paths[i], tree, k);
    }
  }

  lemma NamedFurther(path: Bytes, tree: seq<Node>, k: nat)
    requires k < |tree|
    ensures NamedBefore(path, tree, k + 1) <==> NamedBefore(path, tree, k) || Occurs(path, tree[k].content)
  {}

  method ScanTree(tree: seq<Node>, paths: seq<Bytes>, nonce: Bytes) returns (s: Scan)
    requires NonEmptyAll(paths)
    ensures s.Stopped? ==> s.at < |tree| && s.why == NodeVerdict(tree[s.at], paths, nonce) != Fine
    ensures s.Stopped? ==> AllFine(tree, paths, nonce, s.at)
    ensures s.Clean? ==> ScannedTo(tree, paths, nonce, |tree|, s.found, s.entries)
  {
    var found: seq<bool> := seq(|paths|, _ => false);
    var entries: set<nat> := {};
    for k := 0 to |tree|
      invariant ScannedTo(tree, paths, nonce, k, found, entries)
    {
      var v;
      v, found, entries := ScanOne(tree, paths, nonce, k, found, entries);
      if v != Fine { return Stopped(k, v); }
    }
    s := Clean(found, entries);
  }

  /** One entry: its verdict, and what it adds if it is fine. */
  method ScanOne(tree: seq<Node>, paths: seq<Bytes>, nonce: Bytes, k: nat, found: seq<bool>, entries: set<nat>)
    returns (v: Verdict, found': seq<bool>, entries': set<nat>)
    requires NonEmptyAll(paths) && k < |tree| && ScannedTo(tree, paths, nonce, k, found, entries)
    ensures v == NodeVerdict(tree[k], paths, nonce)
    ensures v == Fine ==> ScannedTo(tree, paths, nonce, k + 1, found', entries')
  {
    found', entries' := found, entries;
    v := ScanNode(tree[k], paths, nonce);
    if v == Fine {
      ScanFurther(tree, paths, nonce, k, found, entries);
      if NamesAny(tree[k].content, paths) { entries' := entries + {k}; }
      found' := AddHits(found, paths, tree[k].content);
    }
  }

  lemma ScanFurther(tree: seq<Node>, paths: seq<Bytes>, nonce: Bytes, k: nat, found: seq<bool>, entries: set<nat>)
    requires NonEmptyAll(paths) && k < |tree| && ScannedTo(tree, paths, nonce, k, found, entries)
    requires NodeVerdict(tree[k], paths, nonce) == Fine
    ensures |found| == |paths|
    ensures ScannedTo(tree, paths, nonce, k + 1, AddHits(found, paths, tree[k].content),
      if NamesAny(tree[k].content, paths) then entries + {k} else entries)
  {
    FineFurther(tree, paths, nonce, k);
    EntriesFurther(tree, paths, k, entries);
    FoundFurther(tree, paths, k, found);
  }

  function AddHits(found: seq<bool>, paths: seq<Bytes>, content: Bytes): (r: seq<bool>)
    requires |found| == |paths|
    ensures |r| == |paths| && forall i :: 0 <= i < |paths| ==> (r[i] <==> found[i] || Occurs(paths[i], content))
  {
    seq(|paths|, i requires 0 <= i < |paths| => found[i] || Occurs(paths[i], content))
  }

  /** At most five nonces are tried; one already in the tree is never used. */
  method CollectInstallPathReferences(tree: seq<Node>, groups: seq<Group>, nonces: seq<Bytes>) returns (c: Collected)
    requires ValidGroups(groups) && |nonces| == 5
    ensures c.Relocatable? ==> c.rec.nonce in nonces && CollectedFrom(c.rec, tree, groups)
    ensures c.Relocatable? ==> forall k :: 0 <= k < |tree| ==> IsVerdict(Fine, tree[k], Paths(groups), c.rec.nonce)
    ensures c.Refused? ==>
      c.at < |tree| && exists n :: n in nonces && IsVerdict(c.why, tree[c.at], Paths(groups), n) && c.why != Fine
    ensures c.Refused? ==>
      && c.at < |tree|
      && exists n ::
           n in nonces && c.why == NodeVerdict(tree[c.at], Paths(groups), n) && c.why != Fine && c.why != Collision
    ensures c.NoNonce? ==>
      forall n :: n in nonces ==> exists k :: 0 <= k < |tree| && Occurs(TokenTail(n), tree[k].content)
  {
    for attempt := 0 to 5
      invariant
        forall a :: 0 <= a < attempt ==> exists k :: 0 <= k < |tree| && Occurs(TokenTail(nonces[a]), tree[k].content)
    {
      var s := ScanTree(tree, Paths(groups), nonces[attempt]);
      if s.Clean? {
        forall k | 0 <= k < |tree| ensures IsVerdict(Fine, tree[k], Paths(groups), nonces[attempt]) {
          VerdictMeaning(tree[k], Paths(groups), nonces[attempt]);
        }
        return Relocatable(Record(nonces[attempt], Paths(groups), Keep(groups, s.found), s.entries));
      }
      VerdictMeaning(tree[s.at], Paths(groups), nonces[attempt]);
      if s.why != Collision { return Refused(s.at, s.why); }
      assert Occurs(TokenTail(nonces[attempt]), tree[s.at].content);
    }
    c := NoNonce;
  }

  /** A record that a clean scan of `tree` produced. */
  ghost predicate CollectedFrom(rec: Record, tree: seq<Node>, groups: seq<Group>)
    requires ValidGroups(groups)
  {
    && rec.candidates == Paths(groups)
    && (forall k :: 0 <= k < |tree| ==> NodeVerdict(tree[k], Paths(groups), rec.nonce) == Fine)
    && rec.entries == (set k: nat | k < |tree| && NamesAny(tree[k].content, Paths(groups)))
    && exists mask: seq<bool> :: IsFoundMask(mask, tree, groups) && rec.prefixes == Keep(groups, mask)
  }

  ghost predicate IsFoundMask(mask: seq<bool>, tree: seq<Node>, groups: seq<Group>)
  {
    && |mask| == |groups|
    && forall i :: 0 <= i < |groups| ==> (mask[i] <==> NamedBefore(groups[i].path, tree, |tree|))
  }

  // ---------------------------------------------------------------- publish and restore

  function Templating(rec: Record): seq<Pair>
    requires ValidGroups(rec.prefixes)
  {
    Zip(Paths(rec.prefixes), Tokens(rec.prefixes, rec.nonce))
  }

  /** The stored copy: every recorded entry templated, the rest as it is; None where templating is refused. */
  method PublishTemplated(tree: seq<Node>, rec: Record) returns (stored: Option<seq<Node>>)
    requires ValidGroups(rec.prefixes)
    ensures stored.Some? ==> IsStored(stored.value, tree, rec)
    ensures stored.None? <==>
      exists k ::
        0 <= k < |tree| && k in rec.entries && Rewrite(tree[k].content, 0, Templating(rec), RuleOf(tree[k])).None?
  {
    var out: seq<Node> := [];
    for k := 0 to |tree|
      invariant |out| == k
      invariant forall m :: 0 <= m < k ==> StoredNode(out[m], tree[m], m, rec)
    {
      if k in rec.entries {
        var r := RewritePrefixes(tree[k].content, Templating(rec), RuleOf(tree[k]));
        if r.None? { return None; }
        out := out + [tree[k].(content := r.value)];
      } else {
        out := out + [tree[k]];
      }
    }
    stored := Some(out);
  }

  ghost predicate StoredNode(s: Node, n: Node, k: nat, rec: Record)
    requires ValidGroups(rec.prefixes)
  {
    if k in rec.entries
    then
      && Rewrite(n.content, 0, Templating(rec), RuleOf(n)).Some?
      && s == n.(content := Rewrite(n.content, 0, Templating(rec), RuleOf(n)).value)
    else s == n
  }

  ghost predicate IsStored(stored: seq<Node>, tree: seq<Node>, rec: Record)
    requires ValidGroups(rec.prefixes)
  {
    |stored| == |tree| && forall k :: 0 <= k < |tree| ==> StoredNode(stored[k], tree[k], k, rec)
  }

  /** Every role of the group has a new path; an empty one counts as none. */
  predicate HasNewPath(g: Group, newPaths: map<Role, Bytes>)
  {
    forall r :: r in g.roles ==> r in newPaths && newPaths[r] != []
  }

  predicate RolesAgree(g: Group, newPaths: map<Role, Bytes>)
    requires HasNewPath(g, newPaths)
  {
    forall r, q :: r in g.roles && q in g.roles ==> newPaths[r] == newPaths[q]
  }

  function NewPathOf(g: Group, newPaths: map<Role, Bytes>): Bytes
    requires g.roles != [] && HasNewPath(g, newPaths)
  {
    assert g.roles[0] in g.roles;
    newPaths[g.roles[0]]
  }

  function NewsOf(groups: seq<Group>, newPaths: map<Role, Bytes>): (r: seq<Bytes>)
    requires forall i :: 0 <= i < |groups| ==> groups[i].roles != [] && HasNewPath(groups[i], newPaths)
    ensures |r| == |groups| && forall i :: 0 <= i < |r| ==> r[i] == NewPathOf(groups[i], newPaths)
  {
    seq(|groups|, i requires 0 <= i < |groups| => NewPathOf(groups[i], newPaths))
  }

  /** Old install paths that no destination contains: none may be left in the restored tree. */
  function StalePaths(candidates: seq<Bytes>, newPaths: map<Role, Bytes>): set<Bytes>
  {
    set c | c in candidates && !(exists r :: r in newPaths && Occurs(c, newPaths[r])) :: c
  }

  predicate HasLeftover(nodes: seq<Node>, nonce: Bytes, stale: set<Bytes>)
  {
    exists k ::
      && 0 <= k < |nodes|
      && (Occurs(TokenTail(nonce), nodes[k].content) || exists c :: c in stale && Occurs(c, nodes[k].content))
  }

  /** Every recorded group has a new path, the same for all its roles. */
  predicate Placed(groups: seq<Group>, newPaths: map<Role, Bytes>, n: nat)
    requires n <= |groups|
  {
    forall i :: 0 <= i < n ==> HasNewPath(groups[i], newPaths) && RolesAgree(groups[i], newPaths)
  }

  predicate HoldsTokens(stored: seq<Node>, rec: Record)
  {
    forall k :: 0 <= k < |stored| && k in rec.entries ==> Occurs(TokenTail(rec.nonce), stored[k].content)
  }

  /** What must not be left: the end of the record's tokens, and a candidate that is part of no new path. */
  predicate IsOld(w: Bytes, rec: Record, newPaths: map<Role, Bytes>)
  {
    w == TokenTail(rec.nonce) || (w in rec.candidates && forall role :: role in newPaths ==> !Occurs(w, newPaths[role]))
  }

  lemma OldIsLeftover(nodes: seq<Node>, rec: Record, newPaths: map<Role, Bytes>)
    ensures HasLeftover(nodes, rec.nonce, StalePaths(rec.candidates, newPaths)) <==>
      exists k, w :: 0 <= k < |nodes| && IsOld(w, rec, newPaths) && Occurs(w, nodes[k].content)
  {
    var stale := StalePaths(rec.candidates, newPaths);
    if HasLeftover(nodes, rec.nonce, stale) {
      var k :| 0 <= k < |nodes|
        && (Occurs(TokenTail(rec.nonce), nodes[k].content) || exists c :: c in stale && Occurs(c, nodes[k].content));
      if Occurs(TokenTail(rec.nonce), nodes[k].content) {
        assert IsOld(TokenTail(rec.nonce), rec, newPaths);
      } else {
        var c :| c in stale && Occurs(c, nodes[k].content);
        assert IsOld(c, rec, newPaths);
      }
    }
    if k, w :| 0 <= k < |nodes| && IsOld(w, rec, newPaths) && Occurs(w, nodes[k].content) {
      assert w == TokenTail(rec.nonce) || w in stale;
    }
  }

  method RelocateRestoredTree(stored: seq<Node>, rec: Record, newPaths: map<Role, Bytes>) returns (r: Restored)
    requires ValidGroups(rec.prefixes)
    ensures r.MissingRole? <==>
      exists i ::
        0 <= i < |rec.prefixes| && Placed(rec.prefixes, newPaths, i) && !HasNewPath(rec.prefixes[i], newPaths)
    ensures r.RolesDiffer? <==>
      exists i ::
        && 0 <= i < |rec.prefixes| && Placed(rec.prefixes, newPaths, i) && HasNewPath(rec.prefixes[i], newPaths)
        && !RolesAgree(rec.prefixes[i], newPaths)
    ensures r.NoPlaceholder? <==> Placed(rec.prefixes, newPaths, |rec.prefixes|) && !HoldsTokens(stored, rec)
    ensures r.Leftover? <==>
      && Placed(rec.prefixes, newPaths, |rec.prefixes|) && HoldsTokens(stored, rec)
      && HasLeftover(Substituted(stored, rec, newPaths), rec.nonce, StalePaths(rec.candidates, newPaths))
    ensures r.Tree? <==>
      && Placed(rec.prefixes, newPaths, |rec.prefixes|) && HoldsTokens(stored, rec)
      && !HasLeftover(Substituted(stored, rec, newPaths), rec.nonce, StalePaths(rec.candidates, newPaths))
    ensures r.Tree? ==> r.nodes == Substituted(stored, rec, newPaths)
    ensures r.MissingRole? ==> exists i, role ::
      0 <= i < |rec.prefixes| && role in rec.prefixes[i].roles && (role !in newPaths || newPaths[role] == [])
    ensures r.RolesDiffer? ==> exists i, a, b ::
      && 0 <= i < |rec.prefixes| && a in rec.prefixes[i].roles && b in rec.prefixes[i].roles
      && a in newPaths && b in newPaths && newPaths[a] != newPaths[b]
    ensures r.Tree? || r.Leftover? ==> forall i, a, b ::
      0 <= i < |rec.prefixes| && a in rec.prefixes[i].roles && b in rec.prefixes[i].roles ==>
        a in newPaths && newPaths[a] != [] && b in newPaths && newPaths[a] == newPaths[b]
    ensures r.Tree? ==> forall k, w ::
      0 <= k < |r.nodes| && IsOld(w, rec, newPaths) ==> !Occurs(w, r.nodes[k].content)
    ensures r.Leftover? ==> exists k, w ::
      && 0 <= k < |stored| && IsOld(w, rec, newPaths)
      && Occurs(w, Substituted(stored, rec, newPaths)[k].content)
  {
    for i := 0 to |rec.prefixes|
      invariant Placed(rec.prefixes, newPaths, i)
    {
      if !HasNewPath(rec.prefixes[i], newPaths) { return MissingRole; }
      if !RolesAgree(rec.prefixes[i], newPaths) { return RolesDiffer; }
    }
    var out := SubstituteTokens(stored, rec.entries, rec.nonce,
      Zip(Tokens(rec.prefixes, rec.nonce), NewsOf(rec.prefixes, newPaths)));
    if out.None? { return NoPlaceholder; }
    assert out.value == Substituted(stored, rec, newPaths);
    OldIsLeftover(out.value, rec, newPaths);
    if HasLeftover(out.value, rec.nonce, StalePaths(rec.candidates, newPaths)) { return Leftover; }
    r := Tree(out.value);
  }

  /** Substitutes in every recorded entry; nothing when one of them holds no placeholder. */
  method SubstituteTokens(stored: seq<Node>, entries: set<nat>, nonce: Bytes, pairs: seq<Pair>)
    returns (r: Option<seq<Node>>)
    requires NonEmptyFroms(pairs)
    ensures r.None? <==> exists k :: 0 <= k < |stored| && k in entries && !Occurs(TokenTail(nonce), stored[k].content)
    ensures r.Some? ==> |r.value| == |stored|
    ensures r.Some? ==>
      forall m :: 0 <= m < |stored| ==>
        r.value[m] == if m in entries then stored[m].(content := Subst(stored[m].content, pairs)) else stored[m]
  {
    var out: seq<Node> := [];
    for k := 0 to |stored|
      invariant |out| == k
      invariant forall m :: 0 <= m < k ==>
        out[m] == (if m in entries then stored[m].(content := Subst(stored[m].content, pairs)) else stored[m])
      invariant forall m :: 0 <= m < k && m in entries ==> Occurs(TokenTail(nonce), stored[m].content)
    {
      if k in entries {
        if !Occurs(TokenTail(nonce), stored[k].content) { return None; }
        var w := RewritePrefixes(stored[k].content, pairs, Anywhere);
        AcceptedIsSubst(stored[k].content, 0, pairs, Anywhere);
        assert stored[k].content[0..] == stored[k].content;
        out := out + [stored[k].(content := w.value)];
      } else {
        out := out + [stored[k]];
      }
    }
    return Some(out);
  }

  /** The stored tree with the tokens of every recorded entry replaced by the new paths. */
  function Substituted(stored: seq<Node>, rec: Record, newPaths: map<Role, Bytes>): (r: seq<Node>)
    requires ValidGroups(rec.prefixes)
    requires forall i :: 0 <= i < |rec.prefixes| ==> HasNewPath(rec.prefixes[i], newPaths)
    ensures |r| == |stored|
  {
    var pairs := Zip(Tokens(rec.prefixes, rec.nonce), NewsOf(rec.prefixes, newPaths));
    seq(|stored|, k requires 0 <= k < |stored| =>
      if k in rec.entries then stored[k].(content := Subst(stored[k].content, pairs)) else stored[k])
  }

  // ---------------------------------------------------------------- the theorems

  /** The pairs of the recorded groups, and what leaving out the others changes for one file: nothing. */
  lemma RecordedPairs(content: Bytes, groups: seq<Group>, mask: seq<bool>, news: seq<Bytes>)
    requires ValidGroups(groups) && |groups| == |mask| == |news|
    requires forall i :: 0 <= i < |groups| && !mask[i] ==> !Occurs(groups[i].path, content)
    ensures |Keep(groups, mask)| == |Keep(news, mask)| && NonEmptyAll(Paths(Keep(groups, mask)))
    ensures Subst(content, Zip(Paths(Keep(groups, mask)), Keep(news, mask))) == Subst(content, Zip(Paths(groups), news))
  {
    KeepPaths(groups, mask);
    KeepZip(Paths(groups), news, mask);
    KeepLength(groups, news, mask);
    KeepSubst(content, Zip(Paths(groups), news), mask);
  }

  /** A scanned entry is templated without a refusal. */
  lemma FineIsTemplated(n: Node, groups: seq<Group>, mask: seq<bool>, nonce: Bytes)
    requires ValidGroups(groups) && |groups| == |mask| && ValidGroups(Keep(groups, mask))
    requires NodeVerdict(n, Paths(groups), nonce) == Fine && NamesAny(n.content, Paths(groups))
    requires forall i :: 0 <= i < |groups| && !mask[i] ==> !Occurs(groups[i].path, n.content)
    ensures Rewrite(n.content, 0, Zip(Paths(Keep(groups, mask)), Tokens(Keep(groups, mask), nonce)), RuleOf(n)).Some?
  {
    var blank := Blank(|groups|);
    KeepPaths(groups, mask);
    KeepZip(Paths(groups), blank, mask);
    var kept := Keep(Zip(Paths(groups), blank), mask);
    KeepAccepts(n.content, 0, Zip(Paths(groups), blank), Zip(Paths(groups), blank), mask, RuleOf(n));
    var final := Zip(Paths(Keep(groups, mask)), Tokens(Keep(groups, mask), nonce));
    SameFromsAccept(n.content, 0, kept, final, RuleOf(n));
  }

  lemma {:induction false} SameFromsAccept(buf: Bytes, pos: nat, a: seq<Pair>, b: seq<Pair>, rule: Rule)
    requires pos <= |buf| && |a| == |b| && NonEmptyFroms(a) && NonEmptyFroms(b)
    requires forall i :: 0 <= i < |a| ==> a[i].from == b[i].from
    ensures Rewrite(buf, pos, a, rule).Some? <==> Rewrite(buf, pos, b, rule).Some?
    decreases |buf| - pos
  {
    if pos < |buf| {
      var i := SameFromsSameChoice(buf, pos, a, b);
      LongestIsMatch(buf, pos, a);
      SameFromsAccept(buf, if LongestAt(buf, pos, a).None? then pos + 1 else pos + |a[i].from|, a, b, rule);
    }
  }

  /** Templating a collected tree never meets a refusal. */
  lemma CollectedIsTemplated(tree: seq<Node>, groups: seq<Group>, rec: Record, k: nat)
    requires ValidGroups(groups) && CollectedFrom(rec, tree, groups) && k < |tree| && k in rec.entries
    ensures ValidGroups(rec.prefixes)
    ensures Rewrite(tree[k].content, 0, Templating(rec), RuleOf(tree[k])).Some?
  {
    var mask :| IsFoundMask(mask, tree, groups) && rec.prefixes == Keep(groups, mask);
    KeepValid(groups, mask);
    FineIsTemplated(tree[k], groups, mask, rec.nonce);
  }

  lemma {:induction false} KeepNews(groups: seq<Group>, mask: seq<bool>, newPaths: map<Role, Bytes>)
    requires |groups| == |mask|
    requires forall i :: 0 <= i < |groups| ==> groups[i].roles != [] && HasNewPath(groups[i], newPaths)
    ensures forall i :: 0 <= i < |Keep(groups, mask)| ==>
      Keep(groups, mask)[i].roles != [] && HasNewPath(Keep(groups, mask)[i], newPaths)
    ensures NewsOf(Keep(groups, mask), newPaths) == Keep(NewsOf(groups, newPaths), mask)
  {
    if groups != [] {
      KeepNews(groups[1..], mask[1..], newPaths);
      assert NewsOf(groups, newPaths)[1..] == NewsOf(groups[1..], newPaths);
    }
  }

  /** A templated entry restores to the original with the recorded paths replaced. */
  lemma EntryRestored(n: Node, s: Node, groups: seq<Group>, nonce: Bytes, news: seq<Bytes>)
    requires ValidGroups(groups) && IsNonce(nonce) && |news| == |groups| && !Occurs(TokenTail(nonce), n.content)
    requires Rewrite(n.content, 0, Zip(Paths(groups), Tokens(groups, nonce)), RuleOf(n)) == Some(s.content)
    ensures NonEmptyFroms(Zip(Tokens(groups, nonce), news))
    ensures Subst(s.content, Zip(Tokens(groups, nonce), news)) == Subst(n.content, Zip(Paths(groups), news))
  {
    var toks := Tokens(groups, nonce);
    TokensAreGood(groups, nonce);
    RestoreAfterTemplate(n.content, Paths(groups), toks, nonce, RuleOf(n), news);
    AcceptedIsSubst(s.content, 0, Zip(toks, news), Anywhere);
    assert s.content[0..] == s.content;
  }

  /** What a tree looks like at its new place: each leftmost-longest install path replaced by its new path. */
  ghost predicate IsRelocated(n: Node, was: Node, groups: seq<Group>, newPaths: map<Role, Bytes>)
    requires ValidGroups(groups) && forall i :: 0 <= i < |groups| ==> HasNewPath(groups[i], newPaths)
  {
    n == was.(content := Subst(was.content, Zip(Paths(groups), NewsOf(groups, newPaths))))
  }

  /**
   * Relocation of a whole tree: collected, published and restored, every file and symlink is exactly the original with
   * each leftmost-longest install path replaced by its new path, the unrecorded entries included. Only the paths the
   * tree names need a new path.
   */
  lemma WholeTreeRestored(
    tree: seq<Node>, groups: seq<Group>, rec: Record, stored: seq<Node>, newPaths: map<Role, Bytes>, k: nat)
    requires ValidGroups(groups) && CollectedFrom(rec, tree, groups) && IsNonce(rec.nonce) && k < |tree|
    requires ValidGroups(rec.prefixes) && IsStored(stored, tree, rec)
    requires forall i :: 0 <= i < |rec.prefixes| ==> HasNewPath(rec.prefixes[i], newPaths)
    ensures IsRelocated(Substituted(stored, rec, newPaths)[k], tree[k], rec.prefixes, newPaths)
  {
    var mask :| IsFoundMask(mask, tree, groups) && rec.prefixes == Keep(groups, mask);
    ScannedNode(tree, groups, rec, mask, k);
    assert StoredNode(stored[k], tree[k], k, rec);
    var news := NewsOf(rec.prefixes, newPaths);
    if k in rec.entries {
      EntryRestored(tree[k], stored[k], rec.prefixes, rec.nonce, news);
    } else {
      forall i | 0 <= i < |rec.prefixes| ensures !Occurs(rec.prefixes[i].path, tree[k].content) {
        var j := KeepIndex(groups, mask, i);
        assert Paths(groups)[j] == rec.prefixes[i].path;
      }
      NothingToReplace(tree[k].content, Zip(Paths(rec.prefixes), news));
    }
  }

  /** Where every candidate has a new path, replacing them all gives the same: the others occur nowhere. */
  lemma UnnamedPathsDoNotMatter(
    tree: seq<Node>, groups: seq<Group>, rec: Record, newPaths: map<Role, Bytes>, n: Node, k: nat)
    requires ValidGroups(groups) && CollectedFrom(rec, tree, groups) && ValidGroups(rec.prefixes) && k < |tree|
    requires forall i :: 0 <= i < |groups| ==> HasNewPath(groups[i], newPaths)
    ensures forall i :: 0 <= i < |rec.prefixes| ==> HasNewPath(rec.prefixes[i], newPaths)
    ensures IsRelocated(n, tree[k], rec.prefixes, newPaths) <==> IsRelocated(n, tree[k], groups, newPaths)
  {
    var mask :| IsFoundMask(mask, tree, groups) && rec.prefixes == Keep(groups, mask);
    KeepNews(groups, mask, newPaths);
    ScannedNode(tree, groups, rec, mask, k);
    RecordedPairs(tree[k].content, groups, mask, NewsOf(groups, newPaths));
  }

  /** What a clean scan says of one entry. */
  lemma ScannedNode(tree: seq<Node>, groups: seq<Group>, rec: Record, mask: seq<bool>, k: nat)
    requires ValidGroups(groups) && CollectedFrom(rec, tree, groups) && IsFoundMask(mask, tree, groups) && k < |tree|
    ensures !Occurs(TokenTail(rec.nonce), tree[k].content)
    ensures k in rec.entries <==> NamesAny(tree[k].content, Paths(groups))
    ensures forall i :: 0 <= i < |groups| && !mask[i] ==> !Occurs(groups[i].path, tree[k].content)
  {
    assert NodeVerdict(tree[k], Paths(groups), rec.nonce) == Fine;
  }

  lemma {:induction false} NothingToReplace(buf: Bytes, pairs: seq<Pair>)
    requires NonEmptyFroms(pairs) && forall p :: p in pairs ==> !Occurs(p.from, buf)
    ensures Subst(buf, pairs) == buf
    decreases |buf|
  {
    if buf != [] {
      LongestIsMatch(buf, 0, pairs);
      forall p | p in pairs ensures !Occurs(p.from, buf[1..]) { OccursInSuffix(p.from, buf, 1); }
      NothingToReplace(buf[1..], pairs);
      assert [buf[0]] + buf[1..] == buf;
    }
  }

  lemma TokenHereShowsTail(buf: Bytes, pos: nat, paths: seq<Bytes>, toks: seq<Bytes>, nonce: Bytes, rule: Rule)
    requires |paths| == |toks| && NonEmptyAll(paths) && GoodTokens(toks, nonce) && pos < |buf|
    requires LongestAt(buf, pos, Zip(paths, toks)).Some? && Rewrite(buf, pos, Zip(paths, toks), rule).Some?
    ensures Occurs(TokenTail(nonce), Rewrite(buf, pos, Zip(paths, toks), rule).value)
  {
    var pairs := Zip(paths, toks);
    var st := Rewrite(buf, pos, pairs, rule).value;
    var g, rest := FirstIsToken(buf, pos, paths, toks, rule);
    LeadingTokenShowsTail(toks[g], rest, nonce);
  }

  /** At a hit the rewriting begins with a token. */
  lemma FirstIsToken(buf: Bytes, pos: nat, paths: seq<Bytes>, toks: seq<Bytes>, rule: Rule)
    returns (g: nat, rest: Bytes)
    requires |paths| == |toks| && NonEmptyAll(paths) && pos < |buf|
    requires LongestAt(buf, pos, Zip(paths, toks)).Some? && Rewrite(buf, pos, Zip(paths, toks), rule).Some?
    ensures g < |toks| && Rewrite(buf, pos, Zip(paths, toks), rule).value == toks[g] + rest
  {
    var pairs := Zip(paths, toks);
    LongestIsMatch(buf, pos, pairs);
    var best := LongestAt(buf, pos, pairs).value;
    g :| 0 <= g < |toks| && pairs[g] == best;
    rest := Rewrite(buf, pos + |best.from|, pairs, rule).value;
  }

  lemma LeadingTokenShowsTail(tok: Bytes, rest: Bytes, nonce: Bytes)
    requires TokenShape(tok, nonce)
    ensures Occurs(TokenTail(nonce), tok + rest)
  {
    assert (tok + rest)[0..|tok|] == tok;
    TailInRaw(tok + rest, 0, tok, nonce);
  }

  /** A templated entry that names a path holds a token, so a restore finds its placeholder. */
  lemma PlaceholderPresent(buf: Bytes, paths: seq<Bytes>, toks: seq<Bytes>, nonce: Bytes, rule: Rule, i: nat, at: nat)
    requires |paths| == |toks| && NonEmptyAll(paths) && GoodTokens(toks, nonce) && i < |paths| && at <= |buf|
    requires MatchesAt(buf, at, paths[i]) && Rewrite(buf, 0, Zip(paths, toks), rule).Some?
    ensures Occurs(TokenTail(nonce), Rewrite(buf, 0, Zip(paths, toks), rule).value)
  {
    var pairs := Zip(paths, toks);
    var st := Rewrite(buf, 0, pairs, rule).value;
    var h := NextHit(buf, 0, pairs);
    RawThenToken(buf, 0, pairs, rule);
    HitNotAfter(buf, 0, at, pairs, pairs[i]);
    TokenHereShowsTail(buf, h, paths, toks, nonce, rule);
    assert st[h..] == Rewrite(buf, h, pairs, rule).value;
    OccursInSuffix(TokenTail(nonce), st, h);
  }

  lemma {:induction false} HitNotAfter(buf: Bytes, pos: nat, at: nat, pairs: seq<Pair>, p: Pair)
    requires pos <= at <= |buf| && NonEmptyFroms(pairs) && p in pairs && MatchesAt(buf, at, p.from)
    ensures NextHit(buf, pos, pairs) <= at < |buf|
    decreases at - pos
  {
    LongestIsMatch(buf, pos, pairs);
    if pos < at { HitNotAfter(buf, pos + 1, at, pairs, p); }
  }

  /** Every recorded entry of the stored tree holds a placeholder: the restore never fails for want of one. */
  lemma StoredHoldsPlaceholder(tree: seq<Node>, groups: seq<Group>, rec: Record, stored: seq<Node>, k: nat)
    requires ValidGroups(groups) && CollectedFrom(rec, tree, groups) && IsNonce(rec.nonce) && k < |tree|
    requires ValidGroups(rec.prefixes) && IsStored(stored, tree, rec) && k in rec.entries
    ensures Occurs(TokenTail(rec.nonce), stored[k].content)
  {
    var j, at := RecordedPathOccurs(tree, groups, rec, k);
    TokensAreGood(rec.prefixes, rec.nonce);
    PlaceholderPresent(tree[k].content, Paths(rec.prefixes), Tokens(rec.prefixes, rec.nonce), rec.nonce,
      RuleOf(tree[k]), j, at);
  }

  lemma RecordedPathOccurs(tree: seq<Node>, groups: seq<Group>, rec: Record, k: nat) returns (j: nat, at: nat)
    requires ValidGroups(groups) && CollectedFrom(rec, tree, groups) && k < |tree| && k in rec.entries
    ensures j < |rec.prefixes| && at <= |tree[k].content| && MatchesAt(tree[k].content, at, rec.prefixes[j].path)
  {
    var mask :| IsFoundMask(mask, tree, groups) && rec.prefixes == Keep(groups, mask);
    assert NamesAny(tree[k].content, Paths(groups));
    var i :| 0 <= i < |Paths(groups)| && Occurs(Paths(groups)[i], tree[k].content);
    assert NamedBefore(groups[i].path, tree, |tree|);
    j := KeptPosition(groups, mask, i);
    at :| 0 <= at <= |tree[k].content| && MatchesAt(tree[k].content, at, groups[i].path);
  }

  lemma {:induction false} KeptPosition<T>(s: seq<T>, mask: seq<bool>, i: nat) returns (j: nat)
    requires |s| == |mask| && i < |s| && mask[i]
    ensures j < |Keep(s, mask)| && Keep(s, mask)[j] == s[i]
  {
    if i == 0 { j := 0; }
    else {
      var r := KeptPosition(s[1..], mask[1..], i - 1);
      j := if mask[0] then r + 1 else r;
    }
  }

  /** Restoring where the tree was installed gives the tree back and leaves nothing the leftover check would refuse. */
  lemma SamePlaceIsIdentity(
    tree: seq<Node>, groups: seq<Group>, rec: Record, stored: seq<Node>, newPaths: map<Role, Bytes>)
    requires ValidGroups(groups) && CollectedFrom(rec, tree, groups) && IsNonce(rec.nonce)
    requires ValidGroups(rec.prefixes) && IsStored(stored, tree, rec)
    requires forall i :: 0 <= i < |rec.prefixes| ==>
      && HasNewPath(rec.prefixes[i], newPaths)
      && forall r :: r in rec.prefixes[i].roles ==> newPaths[r] == rec.prefixes[i].path
    ensures Substituted(stored, rec, newPaths) == tree
    ensures !HasLeftover(tree, rec.nonce, StalePaths(rec.candidates, newPaths))
  {
    var paths := Paths(rec.prefixes);
    assert NewsOf(rec.prefixes, newPaths) == paths;
    forall k | 0 <= k < |tree| ensures Substituted(stored, rec, newPaths)[k] == tree[k] {
      WholeTreeRestored(tree, groups, rec, stored, newPaths, k);
      IdentitySubst(tree[k].content, paths);
    }
    var mask :| IsFoundMask(mask, tree, groups) && rec.prefixes == Keep(groups, mask);
    forall k, c | 0 <= k < |tree| && c in StalePaths(rec.candidates, newPaths) ensures !Occurs(c, tree[k].content) {
      ScannedNode(tree, groups, rec, mask, k);
      StaleIsUnnamed(groups, mask, rec, newPaths, c);
    }
    forall k | 0 <= k < |tree|
      ensures !Occurs(TokenTail(rec.nonce), tree[k].content)
    {
      ScannedNode(tree, groups, rec, mask, k);
    }
  }

  /** At the same place a stale candidate is one the tree never names. */
  lemma StaleIsUnnamed(groups: seq<Group>, mask: seq<bool>, rec: Record, newPaths: map<Role, Bytes>, c: Bytes)
    requires ValidGroups(groups) && |mask| == |groups| && rec.candidates == Paths(groups)
    requires rec.prefixes == Keep(groups, mask)
    requires forall i :: 0 <= i < |rec.prefixes| ==>
      && HasNewPath(rec.prefixes[i], newPaths)
      && forall r :: r in rec.prefixes[i].roles ==> newPaths[r] == rec.prefixes[i].path
    requires c in StalePaths(rec.candidates, newPaths)
    ensures exists i :: 0 <= i < |groups| && groups[i].path == c && !mask[i]
  {
    var i :| 0 <= i < |groups| && groups[i].path == c;
    if mask[i] { NamedIsPlaced(groups, mask, rec, newPaths, i); }
  }

  lemma NamedIsPlaced(groups: seq<Group>, mask: seq<bool>, rec: Record, newPaths: map<Role, Bytes>, i: nat)
    requires ValidGroups(groups) && |mask| == |groups| && rec.prefixes == Keep(groups, mask) && i < |groups| && mask[i]
    requires forall k :: 0 <= k < |rec.prefixes| ==>
      && HasNewPath(rec.prefixes[k], newPaths)
      && forall r :: r in rec.prefixes[k].roles ==> newPaths[r] == rec.prefixes[k].path
    ensures exists r :: r in newPaths && Occurs(groups[i].path, newPaths[r])
  {
    var j := KeptPosition(groups, mask, i);
    var r, c := groups[i].roles[0], groups[i].path;
    assert r in rec.prefixes[j].roles && newPaths[r] == c;
    assert MatchesAt(c, 0, c);
  }
}
