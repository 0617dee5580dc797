/** Values shared by every module. */
module Common {
  datatype Option<+T> = None | Some(value: T) {
    function GetOr(other: T): T { if Some? then value else other }
  }

  newtype byte = b: int | 0 <= b < 256

  type Bytes = seq<byte>

  function Max(a: int, b: int): int { if a < b then b else a }

  function Min(a: int, b: int): int { if a < b then a else b }

  function MinReal(a: real, b: real): real { if a < b then a else b }

  function MaxReal(a: real, b: real): real { if a < b then b else a }

  /** A subset is no larger, and as large only when it is the whole set. */
  lemma SubsetSize<T>(a: set<T>, b: set<T>)
    requires a <= b
    ensures |a| <= |b|
    ensures |a| == |b| ==> a == b
  {
    assert b * a == a && |b - a| == |b| - |b * a|;
    assert |a| == |b| ==> b - a == {};
  }

  /** A quotient, compared without dividing. */
  lemma QuotientAgainst(a: real, b: real, x: real)
    requires b > 0.0
    ensures a / b * b == a
    ensures (a / b > x <==> a > x * b) && (a / b < x <==> a < x * b)
  {
    var q := a / b;
    assert q * b == a;
    if q > x { assert (q - x) * b > 0.0; }
    if q < x { assert (x - q) * b > 0.0; }
  }
}
