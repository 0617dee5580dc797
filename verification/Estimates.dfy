/**
 * Speed factors and the moving anchor (src/estimates.js). A factor is a time multiplier of a host for one cell, that is
 * one work class and one duration bucket; the anchor host counts as 1 everywhere. An estimator is represented by its
 * median in reference seconds, the exponential of the logarithm the source stores, so that adding logarithms is a
 * multiplication here.
 */
module Estimates {
  import opened Common
  import opened Sorting
  import Means

  type Host = string

  datatype Bucket = Short | Medium | Long

  datatype CellKey = CellKey(workClass: string, bucket: Bucket)

  datatype Cell = Cell(factor: real, n: nat)

  type Row = map<CellKey, Cell>

  type Factors = map<Host, Row>

  const ALPHA := 0.1
  const RATIO_MIN := 0.2
  const RATIO_MAX := 5.0
  const ANCHOR_STALE_MS := 30 * 24 * 3600 * 1000

  function BucketOf(refS: real): Bucket { if refS < 120.0 then Short else if refS <= 600.0 then Medium else Long }

  function RowOf(f: Factors, host: Host): Row { if host in f then f[host] else map[] }

  function FactorFor(f: Factors, anchor: Host, host: Host, c: CellKey): real
  {
    if host == anchor then 1.0 else if c in RowOf(f, host) then RowOf(f, host)[c].factor else 1.0
  }

  function SetCell(f: Factors, host: Host, c: CellKey, cell: Cell): Factors { f[host := RowOf(f, host)[c := cell]] }

  function SeedFactor(f: Factors, anchor: Host, host: Host, c: CellKey, factor: real): Factors
  {
    if host == anchor || !(factor > 0.0) then f else SetCell(f, host, c, Cell(factor, 0))
  }

  function Clamp(v: real, lo: real, hi: real): real { var w := if v < lo then lo else v; if w > hi then hi else w }

  function ObserveFactor(
    f: Factors, anchor: Host, host: Host, workClass: string, estRefS: real, wallS: real, censored: bool): Factors
  {
    if host == anchor || !(estRefS > 0.0) || !(wallS > 0.0) then f
    else
      var c := CellKey(workClass, BucketOf(estRefS));
      var observed := wallS / estRefS;
      if c !in RowOf(f, host) then SetCell(f, host, c, Cell(if censored then MaxReal(1.0, observed) else observed, 1))
      else
        var cell := RowOf(f, host)[c];
        var bounded := Clamp(observed, cell.factor * RATIO_MIN, cell.factor * RATIO_MAX);
        SetCell(f, host, c, Cell(
          if censored then MaxReal(cell.factor, observed) else cell.factor + ALPHA * (bounded - cell.factor),
          cell.n + 1))
  }

  /** A move divides each factor of a row by the new anchor's, a missing one counting as 1, and keeps the counts. */
  lemma RebasedMeaning(row: Row, own: Row, next: Row, c: CellKey)
    requires (forall d :: d in own ==> own[d].factor > 0.0) && IsRebasedRow(row, own, next)
    ensures c in next <==> c in row || c in own
    ensures c in own ==>
      && next[c].factor * own[c].factor == (if c in row then row[c].factor else 1.0)
      && next[c].n == if c in row then row[c].n else 0
    ensures c in row && c !in own ==> next[c] == row[c]
  {
    assert (if c in next then Some(next[c]) else None) == Rebased(row, own, c);
    if c in own {
      QuotientAgainst(if c in row then row[c].factor else 1.0, own[c].factor, 0.0);
    }
  }

  /** The anchor stores no cells, and every factor is positive. */
  ghost predicate Valid(f: Factors, anchor: Host)
  {
    RowOf(f, anchor) == map[] && forall h, c :: h in f && c in f[h] ==> f[h][c].factor > 0.0
  }

  lemma SeedingKeepsValid(f: Factors, anchor: Host, host: Host, c: CellKey, factor: real)
    requires Valid(f, anchor)
    ensures Valid(SeedFactor(f, anchor, host, c, factor), anchor)
    ensures host != anchor && factor > 0.0 ==>
      FactorFor(SeedFactor(f, anchor, host, c, factor), anchor, host, c) == factor
    ensures host != anchor && factor > 0.0 ==>
      RowOf(SeedFactor(f, anchor, host, c, factor), host) == RowOf(f, host)[c := Cell(factor, 0)]
    ensures forall h, d :: (h, d) != (host, c) ==>
      FactorFor(SeedFactor(f, anchor, host, c, factor), anchor, h, d) == FactorFor(f, anchor, h, d)
  {}

  lemma QuotientPositive(a: real, b: real)
    requires a > 0.0 && b > 0.0
    ensures a / b > 0.0
  {}

  /**
   * Refining keeps factors positive, touches one cell only, never lowers a censored one, and moves by at most a tenth
   * of the bounded gap.
   */
  lemma ObservingKeepsValid(
    f: Factors, anchor: Host, host: Host, workClass: string, estRefS: real, wallS: real, censored: bool)
    requires Valid(f, anchor)
    ensures var g := ObserveFactor(f, anchor, host, workClass, estRefS, wallS, censored);
      var c := CellKey(workClass, BucketOf(estRefS));
      && Valid(g, anchor)
      && (forall h, d :: (h, d) != (host, c) ==> FactorFor(g, anchor, h, d) == FactorFor(f, anchor, h, d))
      && (censored ==> FactorFor(g, anchor, host, c) >= FactorFor(f, anchor, host, c))
      && (!censored && c in RowOf(f, host) ==>
        0.92 * FactorFor(f, anchor, host, c) <= FactorFor(g, anchor, host, c) <= 1.4 * FactorFor(f, anchor, host, c))
  {
    if host != anchor && estRefS > 0.0 && wallS > 0.0 { QuotientPositive(wallS, estRefS); }
  }

  /**
   * What a finished job teaches, in its estimate and its wall time. A first observation stores the factor that makes
   * the estimate right; a later one moves a tenth of the way to it, but never further than from five times or a fifth
   * of the old factor, so it rises exactly when the job took longer than predicted and falls exactly when it took less.
   * A censored run only raises the factor, just enough for the prediction to reach the wall time.
   */
  lemma ObservingMeaning(
    f: Factors, anchor: Host, host: Host, workClass: string, estRefS: real, wallS: real, censored: bool)
    requires Valid(f, anchor) && host != anchor && estRefS > 0.0 && wallS > 0.0
    ensures
      var bucket := if estRefS < 120.0 then Short else if estRefS <= 600.0 then Medium else Long;
      var c := CellKey(workClass, bucket);
      var was := FactorFor(f, anchor, host, c);
      var now := FactorFor(ObserveFactor(f, anchor, host, workClass, estRefS, wallS, censored), anchor, host, c);
      && (c !in RowOf(f, host) && !censored ==> now * estRefS == wallS)
      && (c in RowOf(f, host) && !censored ==> Moved(was, now, estRefS, wallS))
      && (censored ==> now * estRefS >= wallS && now >= was && (now == was || now * estRefS == wallS))
      && var g := ObserveFactor(f, anchor, host, workClass, estRefS, wallS, censored);
      c in RowOf(g, host) && RowOf(g, host)[c].n == if c in RowOf(f, host) then RowOf(f, host)[c].n + 1 else 1
  {
    var observed := wallS / estRefS;
    QuotientAgainst(wallS, estRefS, observed);
    var c := CellKey(workClass, BucketOf(estRefS));
    var was := FactorFor(f, anchor, host, c);
    QuotientAgainst(wallS, estRefS, was);
    if c in RowOf(f, host) && !censored { TenthOfTheWay(was, observed, estRefS, wallS); }
  }

  /** From `was` to `now` by a job that was estimated at `estRefS` and took `wallS`. */
  predicate Moved(was: real, now: real, estRefS: real, wallS: real)
  {
    && (now > was <==> wallS > was * estRefS) && (now < was <==> wallS < was * estRefS)
    && (0.2 * was * estRefS <= wallS <= 5.0 * was * estRefS ==> 10.0 * (now - was) * estRefS == wallS - was * estRefS)
    && (wallS < 0.2 * was * estRefS ==> now == 0.92 * was) && (wallS > 5.0 * was * estRefS ==> now == 1.4 * was)
  }

  lemma TenthOfTheWay(was: real, observed: real, estRefS: real, wallS: real)
    requires was > 0.0 && estRefS > 0.0 && observed * estRefS == wallS
    ensures Moved(was, was + ALPHA * (Clamp(observed, was * RATIO_MIN, was * RATIO_MAX) - was), estRefS, wallS)
  {
    Scaled(observed, was, estRefS);
    Scaled(observed, 0.2 * was, estRefS);
    Scaled(observed, 5.0 * was, estRefS);
    var now := was + 0.1 * (observed - was);
    assert 10.0 * (now - was) * estRefS == (observed - was) * estRefS;
  }

  lemma Scaled(x: real, y: real, k: real)
    requires k > 0.0
    ensures x < y <==> x * k < y * k
    ensures x == y <==> x * k == y * k
  {
    assert x < y ==> (y - x) * k > 0.0;
    assert x > y ==> (x - y) * k > 0.0;
  }

  // ---------------------------------------------------------------- the anchor moves

  type Scales = map<CellKey, real>

  datatype Rebase = Rebase(anchor: Host, factors: Factors, scales: Scales, unanchored: set<CellKey>, moved: bool)

  function ScaleOf(scales: Scales, c: CellKey): real { if c in scales then scales[c] else 1.0 }

  /** The cell of a host re-expressed for the new anchor, whose own cells are `own`. */
  function Rebased(row: Row, own: Row, c: CellKey): Option<Cell>
    requires forall d :: d in own ==> own[d].factor > 0.0
  {
    if c in own then
      Some(if c in row then Cell(row[c].factor / own[c].factor, row[c].n) else Cell(1.0 / own[c].factor, 0))
    else if c in row then Some(row[c]) else None
  }

  ghost predicate IsRebasedRow(row: Row, own: Row, next: Row)
    requires forall d :: d in own ==> own[d].factor > 0.0
  {
    forall c :: (if c in next then Some(next[c]) else None) == Rebased(row, own, c)
  }

  /** `r` is the state after the anchor moved from `anchor` to `r.anchor`. */
  ghost predicate IsMove(f: Factors, anchor: Host, r: Rebase)
  {
    && r.moved && r.anchor != anchor && r.anchor in f && f[r.anchor] != map[]
    && (forall d :: d in f[r.anchor] ==> f[r.anchor][d].factor > 0.0)
    && r.scales == (map c | c in f[r.anchor] :: f[r.anchor][c].factor)
    && r.factors.Keys == (f.Keys + {anchor}) - {r.anchor}
    && (forall h :: h in r.factors ==> IsRebasedRow(RowOf(f, h), f[r.anchor], r.factors[h]))
    && (forall c :: c in r.unanchored <==> c !in f[r.anchor] && exists h :: h in r.factors && c in RowOf(f, h))
  }

  /**
   * Predictions survive the move: scaled reference seconds times the new factor are the old ones times the old factor.
   */
  ghost predicate Preserved(f: Factors, anchor: Host, r: Rebase, host: Host, c: CellKey)
  {
    ScaleOf(r.scales, c) * FactorFor(r.factors, r.anchor, host, c) == FactorFor(f, anchor, host, c)
  }

  lemma MultiplyBack(a: real, b: real)
    requires b > 0.0
    ensures b * (a / b) == a
  {}

  /** How a host reads a cell after a move, from what it read and stored before. */
  datatype Reading = Reading(scale: real, before: real, stored: real, after: real, isNew: bool, isOld: bool,
    known: bool)

  function Read(f: Factors, anchor: Host, r: Rebase, host: Host, c: CellKey): Reading
  {
    Reading(ScaleOf(r.scales, c), FactorFor(f, anchor, host, c),
      if c in RowOf(f, host) then RowOf(f, host)[c].factor else 1.0,
            FactorFor(r.factors, r.anchor, host, c), host == r.anchor, host == anchor, host in f)
  }

  predicate Consistent(x: Reading)
  {
    && x.scale > 0.0
    && x.before == (if x.isOld then 1.0 else x.stored)
    && (x.isNew ==> x.known && !x.isOld && x.after == 1.0 && x.stored == x.scale)
    && (!x.isNew && !x.known && !x.isOld ==> x.after == 1.0 && x.stored == 1.0)
    && (!x.isNew && (x.known || x.isOld) ==> x.after == x.stored / x.scale)
  }

  lemma ReadingIsConsistent(f: Factors, anchor: Host, r: Rebase, host: Host, c: CellKey)
    requires IsMove(f, anchor, r)
    ensures Consistent(Read(f, anchor, r, host, c))
  {
    var own, row := f[r.anchor], RowOf(f, host);
    if host in r.factors {
      assert IsRebasedRow(row, own, r.factors[host]);
      assert (if c in r.factors[host] then Some(r.factors[host][c]) else None) == Rebased(row, own, c);
    }
  }

  /**
   * When a host's prediction survives: the old anchor must read 1 from what it stores, an unknown host needs a scale of
   * 1.
   */
  predicate Survives(f: Factors, anchor: Host, r: Rebase, host: Host, c: CellKey)
  {
    if host == anchor then c in RowOf(f, anchor) ==> RowOf(f, anchor)[c].factor == 1.0
    else host in f || ScaleOf(r.scales, c) == 1.0
  }

  lemma ConsistentPreserved(f: Factors, anchor: Host, r: Rebase, host: Host, c: CellKey)
    requires Consistent(Read(f, anchor, r, host, c))
    ensures Preserved(f, anchor, r, host, c) <==> Survives(f, anchor, r, host, c)
  {
    var x := Read(f, anchor, r, host, c);
    MultiplyBack(x.stored, x.scale);
  }

  /**
   * Cell by cell, a move preserves the prediction of a host exactly when: for the old anchor, a stored cell reads 1;
   * for a host that stores no row at all, the scale of the cell is 1; for every other host, always.
   */
  lemma MovePreserves(f: Factors, anchor: Host, r: Rebase, host: Host, c: CellKey)
    requires IsMove(f, anchor, r)
    ensures Preserved(f, anchor, r, host, c) <==> Survives(f, anchor, r, host, c)
  {
    ReadingIsConsistent(f, anchor, r, host, c);
    ConsistentPreserved(f, anchor, r, host, c);
  }

  /**
   * The same for a reference time: scaled, then converted with the new factor, it gives the wall time it gave before.
   */
  ghost predicate SameWall(f: Factors, anchor: Host, r: Rebase, host: Host, c: CellKey, refS: real)
  {
    (refS * ScaleOf(r.scales, c)) * FactorFor(r.factors, r.anchor, host, c) == refS * FactorFor(f, anchor, host, c)
  }

  /** Under the invariant the old anchor, the new anchor and every host with a row keep all their predictions. */
  lemma KnownHostsPreserved(f: Factors, anchor: Host, r: Rebase, host: Host, c: CellKey, refS: real)
    requires Valid(f, anchor) && IsMove(f, anchor, r) && (host in f || host == anchor)
    ensures SameWall(f, anchor, r, host, c, refS)
  {
    MovePreserves(f, anchor, r, host, c);
    assert Survives(f, anchor, r, host, c);
    PreservedIsSameWall(f, anchor, r, host, c, refS);
  }

  lemma PreservedIsSameWall(f: Factors, anchor: Host, r: Rebase, host: Host, c: CellKey, refS: real)
    requires Preserved(f, anchor, r, host, c)
    ensures SameWall(f, anchor, r, host, c, refS)
  {
    Associate(refS, ScaleOf(r.scales, c), FactorFor(r.factors, r.anchor, host, c), FactorFor(f, anchor, host, c));
  }

  lemma Associate(a: real, b: real, c: real, d: real)
    requires b * c == d
    ensures (a * b) * c == a * d
  {}

  /** A host the factors do not know keeps reading 1, so its predictions change with every scale other than 1. */
  lemma UnknownHostMoves()
    ensures exists f: Factors, anchor: Host, r: Rebase, host: Host, c: CellKey ::
      Valid(f, anchor) && IsMove(f, anchor, r) && !Preserved(f, anchor, r, host, c)
  {
    var c := CellKey("test", Short);
    var f: Factors := map["a" := map[c := Cell(2.0, 1)]];
    var r := Rebase("a", map["m" := map[c := Cell(0.5, 0)]], map[c := 2.0], {}, true);
    OneCellMove(f, r, c);
    assert !Preserved(f, "m", r, "z", c);
  }

  /** The move keeps the invariant for the new anchor. */
  lemma MoveKeepsValid(f: Factors, anchor: Host, r: Rebase)
    requires Valid(f, anchor) && IsMove(f, anchor, r)
    ensures Valid(r.factors, r.anchor)
  {
    forall h, c | h in r.factors && c in r.factors[h] ensures r.factors[h][c].factor > 0.0 {
      var own, row := f[r.anchor], RowOf(f, h);
      assert IsRebasedRow(row, own, r.factors[h]);
      assert Some(r.factors[h][c]) == Rebased(row, own, c);
      if c in own { QuotientPositive(if c in row then row[c].factor else 1.0, own[c].factor); }
    }
  }

  /** The rows of every host but the new anchor, one after the other. */
  method RebaseRow(row: Row, own: Row) returns (next: Row)
    requires forall d :: d in own ==> own[d].factor > 0.0
    ensures IsRebasedRow(row, own, next)
  {
    next := row;
    var todo := own.Keys;
    while todo != {}
      invariant todo <= own.Keys
      invariant forall c ::
        (if c in next then Some(next[c]) else None) ==
          if c in todo then (if c in row then Some(row[c]) else None) else Rebased(row, own, c)
    {
      var c :| c in todo;
      todo := todo - {c};
      next := next[c :=
        if c in row then Cell(row[c].factor / own[c].factor, row[c].n) else Cell(1.0 / own[c].factor, 0)];
    }
  }

  /** A host and the factors whose geometric mean ranks it. */
  datatype Candidate = Candidate(host: Host, mean: Means.Mean)

  /** Lower geometric mean first, then the lower name. */
  predicate RanksBelow(a: Candidate, b: Candidate)
  {
    Means.Below(a.mean, b.mean) || (!Means.Below(b.mean, a.mean) && TextLess(a.host, b.host))
  }

  function ByRank(): (Candidate, Candidate) -> bool { (a: Candidate, b: Candidate) => RanksBelow(a, b) }

  lemma ByRankIsOrder()
    ensures StrictWeakOrder(ByRank())
  {
    var before := ByRank();
    forall x, y ensures before(x, y) ==> !before(y, x) { TextOrder(x.host, y.host, x.host); }
    forall x, y, z ensures before(x, y) && before(y, z) ==> before(x, z) { RanksTransitive(x, y, z); }
    forall x, y, z ensures before(x, z) ==> before(x, y) || before(y, z) { RanksWeakly(x, y, z); }
  }

  lemma RanksTransitive(x: Candidate, y: Candidate, z: Candidate)
    ensures RanksBelow(x, y) && RanksBelow(y, z) ==> RanksBelow(x, z)
  {
    TextOrder(x.host, y.host, z.host);
    if !Means.Below(y.mean, x.mean) && !Means.Below(z.mean, y.mean) {
      Means.NotAboveTransitive(x.mean, y.mean, z.mean);
    }
  }

  lemma RanksWeakly(x: Candidate, y: Candidate, z: Candidate)
    ensures RanksBelow(x, z) ==> RanksBelow(x, y) || RanksBelow(y, z)
  {
    TextOrder(x.host, y.host, z.host);
    if !Means.Below(x.mean, y.mean) && !Means.Below(y.mean, z.mean) {
      Means.NotAboveTransitive(z.mean, y.mean, x.mean);
    }
  }

  predicate Fresh(calibratedAt: map<Host, int>, now: int, host: Host)
  {
    host in calibratedAt && now - calibratedAt[host] <= ANCHOR_STALE_MS
  }

  /** A host the anchor may move to: calibrated lately, with cells, and not the anchor itself. */
  predicate Eligible(f: Factors, anchor: Host, calibratedAt: map<Host, int>, now: int, host: Host)
  {
    host in f && host != anchor && Fresh(calibratedAt, now, host) && f[host] != map[]
  }

  function Times(a: real, b: real): real { a * b }

  lemma TimesExchange(a: real, b: real, c: real)
    ensures Times(a, Times(b, c)) == Times(b, Times(a, c))
  {}

  /** The product over some keys of a row of numbers. */
  ghost function Product(f: map<CellKey, real>, keys: set<CellKey>): real
    requires keys <= f.Keys
  {
    if keys == {} then 1.0 else var c :| c in keys; Times(f[c], Product(f, keys - {c}))
  }

  /** The product does not depend on the order in which the cells are taken. */
  lemma {:induction false} ProductTakeAny(f: map<CellKey, real>, keys: set<CellKey>, c: CellKey)
    requires keys <= f.Keys && c in keys
    ensures Product(f, keys) == Times(f[c], Product(f, keys - {c}))
  {
    var first :| first in keys && Product(f, keys) == Times(f[first], Product(f, keys - {first}));
    if first != c {
      var both := keys - {first} - {c};
      assert both == keys - {c} - {first};
      ProductTakeAny(f, keys - {first}, c);
      ProductTakeAny(f, keys - {c}, first);
      TimesExchange(f[first], f[c], Product(f, both));
    }
  }

  function FactorsIn(row: Row): map<CellKey, real> { map c | c in row :: row[c].factor }

  ghost function ProductOf(row: Row, keys: set<CellKey>): real
    requires keys <= row.Keys
  {
    Product(FactorsIn(row), keys)
  }

  /** The factors of a row with cells: their product and number. */
  ghost predicate IsMeanOf(row: Row, m: Means.Mean) { m.count == |row.Keys| && m.product == ProductOf(row, row.Keys) }

  /** What has been multiplied so far, times what is left, is the whole product. */
  ghost predicate Partial(row: Row, todo: set<CellKey>, product: real)
  {
    todo <= row.Keys && product > 0.0 && Times(product, ProductOf(row, todo)) == ProductOf(row, row.Keys)
  }

  lemma PartialStep(row: Row, todo: set<CellKey>, product: real, c: CellKey)
    requires Partial(row, todo, product) && c in todo && row[c].factor > 0.0
    ensures Partial(row, todo - {c}, product * row[c].factor)
  {
    ProductTakeAny(FactorsIn(row), todo, c);
    TakeOut(product, row[c].factor, ProductOf(row, todo - {c}), ProductOf(row, todo), ProductOf(row, row.Keys));
  }

  method MeanOf(row: Row) returns (m: Means.Mean)
    requires row != map[] && forall c :: c in row ==> row[c].factor > 0.0
    ensures IsMeanOf(row, m)
  {
    var product, todo := 1.0, row.Keys;
    while todo != {}
      invariant Partial(row, todo, product)
    {
      var c :| c in todo;
      PartialStep(row, todo, product, c);
      product, todo := product * row[c].factor, todo - {c};
    }
    assert ProductOf(row, {}) == 1.0;
    assert row.Keys != {} by { var c :| c in row; }
    m := Means.Factors(product, |row.Keys|);
  }

  lemma TakeOut(a: real, b: real, c: real, d: real, all: real)
    requires a > 0.0 && b > 0.0 && d == Times(b, c) && Times(a, d) == all
    ensures Times(a * b, c) == all && a * b > 0.0
  {}

  /** The eligible hosts, each once, with their mean. */
  ghost predicate IsCandidateList(
    f: Factors, anchor: Host, calibratedAt: map<Host, int>, now: int, list: seq<Candidate>)
  {
    && (forall x :: x in list <==> Eligible(f, anchor, calibratedAt, now, x.host) && IsMeanOf(f[x.host], x.mean))
    && (forall i, j :: 0 <= i < j < |list| ==> list[i].host != list[j].host)
  }

  method Candidates(f: Factors, anchor: Host, calibratedAt: map<Host, int>, now: int) returns (list: seq<Candidate>)
    requires Valid(f, anchor)
    ensures IsCandidateList(f, anchor, calibratedAt, now, list)
    ensures list == [] ==> forall h :: !Eligible(f, anchor, calibratedAt, now, h)
  {
    list := [];
    var todo := f.Keys;
    while todo != {}
      invariant todo <= f.Keys
      invariant forall x ::
        x in list <==>
          x.host !in todo && Eligible(f, anchor, calibratedAt, now, x.host) && IsMeanOf(f[x.host], x.mean)
      invariant forall i, j :: 0 <= i < j < |list| ==> list[i].host != list[j].host
      invariant list == [] ==> forall h :: h !in todo ==> !Eligible(f, anchor, calibratedAt, now, h)
    {
      var host :| host in todo;
      assert forall i :: 0 <= i < |list| ==> list[i] in list;
      todo := todo - {host};
      if host != anchor && Fresh(calibratedAt, now, host) && f[host] != map[] {
        var m := MeanOf(f[host]);
        list := list + [Candidate(host, m)];
      }
    }
  }

  /** The lower median of a nonempty list: something sorts the list with it in the middle. */
  ghost predicate IsMedian(list: seq<Candidate>, m: Candidate)
  {
    exists sorted ::
      multiset(sorted) == multiset(list) && Sorted(sorted, ByRank()) && sorted != [] && sorted[(|sorted| - 1) / 2] == m
  }

  /** The geometric mean of `a` is at most that of `b`, in products and counts. */
  predicate MeanAtMost(a: Candidate, b: Candidate)
  {
    Means.Pow(a.mean.product, b.mean.count) <= Means.Pow(b.mean.product, a.mean.count)
  }

  /**
   * With `m` taken out the list falls into a half of no higher means and a half, as large or one larger, of no lower.
   */
  ghost predicate HalvesAround(list: seq<Candidate>, m: Candidate)
  {
    exists low: seq<Candidate>, high: seq<Candidate> ::
      && multiset(list) == multiset(low) + multiset{m} + multiset(high) && |low| <= |high| <= |low| + 1
      && (forall x :: x in low ==> MeanAtMost(x, m)) && (forall x :: x in high ==> MeanAtMost(m, x))
  }

  lemma NotBelowIsAtMost(a: Candidate, b: Candidate)
    requires !RanksBelow(b, a)
    ensures MeanAtMost(a, b)
  {}

  lemma LowHalf(sorted: seq<Candidate>, k: nat)
    requires Sorted(sorted, ByRank()) && k < |sorted|
    ensures forall x :: x in sorted[..k] ==> MeanAtMost(x, sorted[k])
  {
    forall x | x in sorted[..k] ensures MeanAtMost(x, sorted[k]) {
      var i :| 0 <= i < k && sorted[i] == x;
      assert !ByRank()(sorted[k], sorted[i]);
      NotBelowIsAtMost(x, sorted[k]);
    }
  }

  lemma HighHalf(sorted: seq<Candidate>, k: nat)
    requires Sorted(sorted, ByRank()) && k < |sorted|
    ensures forall x :: x in sorted[k + 1..] ==> MeanAtMost(sorted[k], x)
  {
    forall x | x in sorted[k + 1..] ensures MeanAtMost(sorted[k], x) {
      var i :| k < i < |sorted| && sorted[i] == x;
      assert !ByRank()(sorted[i], sorted[k]);
      NotBelowIsAtMost(sorted[k], x);
    }
  }

  lemma HalvesOfSorted(list: seq<Candidate>, sorted: seq<Candidate>)
    requires multiset(sorted) == multiset(list) && sorted != [] && Sorted(sorted, ByRank())
    ensures HalvesAround(list, sorted[(|sorted| - 1) / 2])
  {
    var k := (|sorted| - 1) / 2;
    LowHalf(sorted, k);
    HighHalf(sorted, k);
    SplitAt(sorted, k);
    var low, high := sorted[..k], sorted[k + 1..];
    assert |low| == k && |high| == |sorted| - k - 1;
    assert multiset(list) == multiset(low) + multiset{sorted[k]} + multiset(high);
  }

  lemma MedianHalves(list: seq<Candidate>, m: Candidate)
    requires IsMedian(list, m)
    ensures HalvesAround(list, m)
  {
    var sorted :|
      multiset(sorted) == multiset(list) && Sorted(sorted, ByRank()) && sorted != [] && sorted[(|sorted| - 1) / 2] == m;
    HalvesOfSorted(list, sorted);
  }

  method Median(list: seq<Candidate>) returns (m: Candidate)
    requires list != []
    ensures m in list && IsMedian(list, m) && HalvesAround(list, m)
  {
    var sorted := StableSort(list, ByRank());
    SortPermutes(list, ByRank());
    SortMembers(list, ByRank());
    ByRankIsOrder();
    SortSorts(list, ByRank());
    m := sorted[(|sorted| - 1) / 2];
    assert m in sorted;
    MedianHalves(list, m);
  }

  /** Another host with a cell, calibrated within thirty days. */
  predicate CanReplace(f: Factors, anchor: Host, calibratedAt: map<Host, int>, now: int, h: Host)
  {
    && h != anchor && h in f && f[h] != map[]
    && h in calibratedAt && now - calibratedAt[h] <= 2_592_000_000
  }

  /**
   * The anchor rule: it stays while it is fresh or nobody can replace it; otherwise it moves to the median candidate.
   */
  method RebaseAnchor(f: Factors, anchor: Host, calibratedAt: map<Host, int>, now: int) returns (r: Rebase)
    requires Valid(f, anchor)
    ensures r.moved <==> !Fresh(calibratedAt, now, anchor) && exists h :: Eligible(f, anchor, calibratedAt, now, h)
    ensures !r.moved ==> r == Rebase(anchor, f, map[], {}, false)
    ensures r.moved <==>
      && !(anchor in calibratedAt && now - calibratedAt[anchor] <= 2_592_000_000)
      && exists h :: CanReplace(f, anchor, calibratedAt, now, h)
    ensures r.moved ==> IsMove(f, anchor, r) && Eligible(f, anchor, calibratedAt, now, r.anchor)
    ensures r.moved ==>
      exists list, m ::
        && IsCandidateList(f, anchor, calibratedAt, now, list) && IsMedian(list, m) && m in list
        && m.host == r.anchor && HalvesAround(list, m)
  {
    r := Rebase(anchor, f, map[], {}, false);
    assert forall h :: CanReplace(f, anchor, calibratedAt, now, h) <==> Eligible(f, anchor, calibratedAt, now, h);
    if Fresh(calibratedAt, now, anchor) { return; }
    var list := Candidates(f, anchor, calibratedAt, now);
    if list == [] { return; }
    var m := Median(list);
    r := MoveTo(f, anchor, m.host);
  }

  method MoveTo(f: Factors, anchor: Host, to: Host) returns (r: Rebase)
    requires to in f && to != anchor && f[to] != map[] && forall d :: d in f[to] ==> f[to][d].factor > 0.0
    ensures r.anchor == to && IsMove(f, anchor, r)
  {
    var own := f[to];
    var rebased: Factors := map[];
    var hosts := (f.Keys + {anchor}) - {to};
    var todo := hosts;
    while todo != {}
      invariant todo <= hosts && rebased.Keys == hosts - todo
      invariant forall h :: h in rebased ==> IsRebasedRow(RowOf(f, h), own, rebased[h])
    {
      var h :| h in todo;
      todo := todo - {h};
      var row := RebaseRow(RowOf(f, h), own);
      rebased := rebased[h := row];
    }
    var unanchored := set h, c | h in hosts && c in RowOf(f, h) && c !in own :: c;
    r := Rebase(to, rebased, map c | c in own :: own[c].factor, unanchored, true);
  }

  // ---------------------------------------------------------------- over a run of moves

  /**
   * States of the anchor rule: factors with their anchor, and what reference seconds of each cell have been scaled by
   * since the start.
   */
  datatype Book = Book(factors: Factors, anchor: Host, scale: CellKey -> real)

  ghost predicate IsBookMove(b: Book, b': Book)
  {
    exists r ::
      && IsMove(b.factors, b.anchor, r) && b'.factors == r.factors && b'.anchor == r.anchor
      && forall c :: IsScaled(b, b', r, c)
  }

  ghost predicate IsScaled(b: Book, b': Book, r: Rebase, c: CellKey)
  {
    b'.scale(c) == b.scale(c) * ScaleOf(r.scales, c)
  }

  ghost predicate Known(b: Book, host: Host) { Valid(b.factors, b.anchor) && (host in b.factors || host == b.anchor) }

  ghost function Predicted(b: Book, host: Host, c: CellKey): real
  {
    b.scale(c) * FactorFor(b.factors, b.anchor, host, c)
  }

  /** Any number of moves: every host known at the start keeps its prediction for every cell. */
  lemma {:induction false} MovesPreserve(books: seq<Book>, i: nat, host: Host, c: CellKey)
    requires i < |books| && Known(books[0], host)
    requires forall k :: 0 <= k < |books| - 1 ==> IsBookMove(books[k], books[k + 1])
    ensures Known(books[i], host) && Predicted(books[i], host, c) == Predicted(books[0], host, c)
  {
    if i > 0 {
      MovesPreserve(books, i - 1, host, c);
      BookMovePreserves(books[i - 1], books[i], host, c);
    }
  }

  lemma BookMovePreserves(b: Book, b': Book, host: Host, c: CellKey)
    requires IsBookMove(b, b') && Known(b, host)
    ensures Known(b', host) && Predicted(b', host, c) == Predicted(b, host, c)
  {
    var r :| IsMove(b.factors, b.anchor, r) && b'.factors == r.factors && b'.anchor == r.anchor
      && forall c :: IsScaled(b, b', r, c);
    MoveKeepsValid(b.factors, b.anchor, r);
    KnownHostsPreserved(b.factors, b.anchor, r, host, c, b.scale(c));
    assert Known(b', host);
    SameWallInBooks(b, b', r, host, c);
  }

  lemma SameWallInBooks(b: Book, b': Book, r: Rebase, host: Host, c: CellKey)
    requires SameWall(b.factors, b.anchor, r, host, c, b.scale(c))
    requires b'.factors == r.factors && b'.anchor == r.anchor && IsScaled(b, b', r, c)
    ensures Predicted(b', host, c) == Predicted(b, host, c)
  {}

  // ---------------------------------------------------------------- estimators

  /** An estimator with `n` observations; `p50` is its median in reference seconds. */
  datatype Estimator = Estimator(n: nat, p50: real)

  function RescaleEstimator(e: Estimator, workClass: string, scales: Scales): Estimator
  {
    if e.n == 0 then e else e.(p50 := ScaledMedian(e, workClass, scales))
  }

  /** The median times the scale of the cell it falls in. */
  function ScaledMedian(e: Estimator, workClass: string, scales: Scales): real
  {
    e.p50 * ScaleOf(scales, OwnCell(workClass, e))
  }

  /** Predicted wall seconds of a job on a host: the median times the factor of the bucket it falls in. */
  function PredictedWall(f: Factors, anchor: Host, host: Host, workClass: string, e: Estimator): real
  {
    e.p50 * FactorFor(f, anchor, host, CellKey(workClass, BucketOf(e.p50)))
  }

  /** The prediction for `e` on `host` is the same before and after the move. */
  ghost predicate SamePrediction(f: Factors, anchor: Host, r: Rebase, host: Host, workClass: string, e: Estimator)
  {
    PredictedWall(r.factors, r.anchor, host, workClass, RescaleEstimator(e, workClass, r.scales)) ==
      PredictedWall(f, anchor, host, workClass, e)
  }

  /** The cell of the estimator's class that its median falls in, and the one its scaled median falls in. */
  function OwnCell(workClass: string, e: Estimator): CellKey { CellKey(workClass, BucketOf(e.p50)) }

  function ScaledCell(r: Rebase, workClass: string, e: Estimator): CellKey
  {
    CellKey(workClass, BucketOf(ScaledMedian(e, workClass, r.scales)))
  }

  /** For the new anchor both cells have the same factor. */
  predicate SameBucketFactor(r: Rebase, host: Host, workClass: string, e: Estimator)
  {
    FactorFor(r.factors, r.anchor, host, ScaledCell(r, workClass, e)) ==
      FactorFor(r.factors, r.anchor, host, OwnCell(workClass, e))
  }

  /**
   * Rescaling an estimator preserves the predicted wall time on a host exactly when the host's prediction for the cell
   * survives the move and, for the new anchor, the bucket the scaled median falls in has the factor of the one it came
   * from.
   */
  lemma RescaledPrediction(f: Factors, anchor: Host, r: Rebase, host: Host, workClass: string, e: Estimator)
    requires Valid(f, anchor) && IsMove(f, anchor, r) && e.n > 0 && e.p50 > 0.0
    ensures SamePrediction(f, anchor, r, host, workClass, e) <==>
      Survives(f, anchor, r, host, OwnCell(workClass, e)) && SameBucketFactor(r, host, workClass, e)
  {
    var c := OwnCell(workClass, e);
    ScalePositive(f, anchor, r, c);
    MovePreserves(f, anchor, r, host, c);
    if Survives(f, anchor, r, host, c) {
      PreservedIsSameWall(f, anchor, r, host, c, e.p50);
      SameWallInEstimator(f, anchor, r, host, workClass, e);
    } else {
      UnknownReadsOne(f, anchor, r, host);
      UnknownNeverSame(f, anchor, r, host, workClass, e);
    }
  }

  /** A host that stores no row reads 1 before and after the move. */
  lemma UnknownReadsOne(f: Factors, anchor: Host, r: Rebase, host: Host)
    requires IsMove(f, anchor, r) && host !in f && host != anchor
    ensures forall c :: FactorFor(f, anchor, host, c) == 1.0 && FactorFor(r.factors, r.anchor, host, c) == 1.0
  {}

  lemma UnknownNeverSame(f: Factors, anchor: Host, r: Rebase, host: Host, workClass: string, e: Estimator)
    requires e.n > 0 && e.p50 > 0.0 && ScaleOf(r.scales, OwnCell(workClass, e)) != 1.0
    requires forall c :: FactorFor(f, anchor, host, c) == 1.0 && FactorFor(r.factors, r.anchor, host, c) == 1.0
    ensures !SamePrediction(f, anchor, r, host, workClass, e)
  {
    var scale := ScaleOf(r.scales, OwnCell(workClass, e));
    assert PredictedWall(f, anchor, host, workClass, e) == e.p50;
    assert
      PredictedWall(r.factors, r.anchor, host, workClass, RescaleEstimator(e, workClass, r.scales)) == e.p50 * scale;
    SameProduct(e.p50, scale, 1.0, e.p50);
  }

  lemma SameWallInEstimator(f: Factors, anchor: Host, r: Rebase, host: Host, workClass: string, e: Estimator)
    requires e.n > 0 && e.p50 > 0.0 && SameWall(f, anchor, r, host, OwnCell(workClass, e), e.p50)
    requires ScaleOf(r.scales, OwnCell(workClass, e)) > 0.0
    ensures SamePrediction(f, anchor, r, host, workClass, e) <==> SameBucketFactor(r, host, workClass, e)
  {
    ScaledCellIsRescaled(r, workClass, e);
    RescaledCellAgrees(f, anchor, r, host, workClass, e, RescaleEstimator(e, workClass, r.scales).p50);
  }

  lemma ScaledCellIsRescaled(r: Rebase, workClass: string, e: Estimator)
    requires e.n > 0
    ensures ScaledCell(r, workClass, e) == CellKey(workClass, BucketOf(RescaleEstimator(e, workClass, r.scales).p50))
  {}

  lemma RescaledCellAgrees(f: Factors, anchor: Host, r: Rebase, host: Host, workClass: string, e: Estimator, p50: real)
    requires e.n > 0 && e.p50 > 0.0 && SameWall(f, anchor, r, host, OwnCell(workClass, e), e.p50)
    requires ScaleOf(r.scales, OwnCell(workClass, e)) > 0.0 && p50 == RescaleEstimator(e, workClass, r.scales).p50
    ensures SamePrediction(f, anchor, r, host, workClass, e)
       <==>
        FactorFor(r.factors, r.anchor, host, CellKey(workClass, BucketOf(p50))) ==
          FactorFor(r.factors, r.anchor, host, OwnCell(workClass, e))
  {
    var c := OwnCell(workClass, e);
    var scale := ScaleOf(r.scales, c);
    assert p50 == e.p50 * scale;
    ProductPositive(e.p50, scale);
    var wall := PredictedWall(f, anchor, host, workClass, e);
    SameProduct(p50, FactorFor(r.factors, r.anchor, host, CellKey(workClass, BucketOf(p50))),
      FactorFor(r.factors, r.anchor, host, c), wall);
  }

  lemma ProductPositive(a: real, b: real)
    requires a > 0.0 && b > 0.0
    ensures a * b > 0.0
  {}

  lemma SameProduct(a: real, x: real, y: real, w: real)
    requires a > 0.0 && a * y == w
    ensures a * x == w <==> x == y
  {}

  lemma ScalePositive(f: Factors, anchor: Host, r: Rebase, c: CellKey)
    requires IsMove(f, anchor, r)
    ensures ScaleOf(r.scales, c) > 0.0
  {}

  /** A scaled median can fall in another bucket, and then the prediction changes. */
  lemma BucketCrossingMoves()
    ensures exists f: Factors, anchor: Host, r: Rebase, host: Host, e: Estimator ::
      && Valid(f, anchor) && IsMove(f, anchor, r) && host in f && e.n > 0 && e.p50 > 0.0
      && !SamePrediction(f, anchor, r, host, "test", e)
  {
    var c := CellKey("test", Short);
    var f: Factors := map["a" := map[c := Cell(2.0, 1)], "m" := map[]];
    var r := Rebase("a", map["m" := map[c := Cell(0.5, 0)]], map[c := 2.0], {}, true);
    OneCellMove(f, r, c);
    var e := Estimator(1, 100.0);
    assert RescaleEstimator(e, "test", r.scales) == Estimator(1, 200.0);
    assert PredictedWall(f, "m", "m", "test", e) == 100.0;
    assert PredictedWall(r.factors, "a", "m", "test", Estimator(1, 200.0)) == 200.0;
    assert !SamePrediction(f, "m", r, "m", "test", e);
  }

  /** The smallest move: host "a" has one cell, twice as slow as the anchor "m". */
  lemma OneCellMove(f: Factors, r: Rebase, c: CellKey)
    requires f == map["a" := map[c := Cell(2.0, 1)]] || f == map["a" := map[c := Cell(2.0, 1)], "m" := map[]]
    requires r == Rebase("a", map["m" := map[c := Cell(0.5, 0)]], map[c := 2.0], {}, true)
    ensures Valid(f, "m") && IsMove(f, "m", r)
  {
    assert c in f["a"];
    assert IsRebasedRow(map[], f["a"], r.factors["m"]);
    assert r.factors.Keys == (f.Keys + {"m"}) - {"a"};
  }
}
