/** Small facts about real division and products that the solver needs spelled out. */
module RealArith {

  lemma Cancel(p: real, r: real, len: real)
    requires len > 0.0 && p * len == r * len
    ensures p == r
  {
    assert (p - r) * len == 0.0;
    assert p - r == ((p - r) * len) / len;
  }

  lemma PositiveFactor(p: real, len: real)
    requires len > 0.0 && p * len > 0.0
    ensures p > 0.0
  {
    assert p == (p * len) / len;
  }

  lemma FractionInUnit(a: real, len: real)
    requires len > 0.0 && 0.0 <= a < len
    ensures 0.0 <= a / len < 1.0
  {
    var t := a / len;
    assert t * len == a;
    assert (1.0 - t) * len == len - a;
    PositiveFactor(1.0 - t, len);
  }

  /** a / d > c with d > 0 means a > c * d. */
  lemma QuotientAbove(a: real, d: real, c: real)
    requires d > 0.0 && a / d > c
    ensures a > c * d
  {
    var q := a / d;
    assert q * d == a;
    assert (q - c) * d == a - c * d;
    assert (q - c) * d > 0.0;
  }

  /** a > c * d with c > 0 means a / c > d. */
  lemma AboveQuotient(a: real, c: real, d: real)
    requires c > 0.0 && a > c * d
    ensures a / c > d
  {
    var q := a / c;
    assert q * c == a;
    assert (q - d) * c == a - c * d;
    PositiveFactor(q - d, c);
  }

  /** Dividing a non-negative number by at least one does not make it larger. */
  lemma QuotientAtMost(a: real, d: real)
    requires a >= 0.0 && d >= 1.0
    ensures a / d <= a
  {
    var q := a / d;
    assert q * d == a;
    assert q >= 0.0;
    assert a - q == q * (d - 1.0);
    assert q * (d - 1.0) >= 0.0;
  }

  /** Scaling by a positive factor keeps a strict order. */
  lemma ScaleLess(a: real, b: real, c: real)
    requires a < b && c > 0.0
    ensures a * c < b * c
  {
    assert b * c - a * c == (b - a) * c;
    assert (b - a) * c > 0.0;
  }

  /** Scaling by a non-negative factor keeps a weak order. */
  lemma ScaleAtMost(a: real, b: real, c: real)
    requires a <= b && c >= 0.0
    ensures a * c <= b * c
  {
    assert b * c - a * c == (b - a) * c;
    assert (b - a) * c >= 0.0;
  }
}
