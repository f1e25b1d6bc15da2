/** Division and remainder on integers. */
module Arithmetic {

  lemma SplitModulo(v: nat, p: nat)
    requires p > 0
    ensures v % (256 * p) == v % 256 + 256 * ((v / 256) % p)
  {
    var q := v / 256;
    var k := q / p;
    var r := v % 256 + 256 * (q % p);
    assert v == 256 * q + v % 256;
    assert q == p * k + q % p;
    assert v == (256 * p) * k + r by {
      assert 256 * (p * k) == (256 * p) * k;
    }
    assert q % p <= p - 1;
    assert 0 <= r < 256 * p;
    RemainderIsUnique(v, 256 * p, k, r);
  }

  lemma RemainderIsUnique(v: int, d: int, k: int, r: int)
    requires d > 0 && v == d * k + r && 0 <= r < d
    ensures v % d == r
  {
    var q := v / d;
    if q < k {
      Scale(d, q + 1, k);
    } else if k < q {
      Scale(d, k + 1, q);
    }
  }

  lemma Scale(d: int, x: int, y: int)
    requires d > 0 && x <= y
    ensures d * x <= d * y
  {
  }

  lemma QuotientIsUnique(v: int, d: int, k: int)
    requires d > 0 && d * k <= v < d * k + d
    ensures v / d == k
  {
    var q := v / d;
    if q < k {
      Scale(d, q + 1, k);
    } else if k < q {
      Scale(d, k + 1, q);
    }
  }

  lemma QuotientMonotone(a: int, b: int, d: int)
    requires a <= b && d > 0
    ensures a / d <= b / d
  {
    var p, q := a / d, b / d;
    if q < p {
      Scale(d, q + 1, p);
    }
  }

  lemma QuotientOfMultiple(n: int, d: int)
    requires d > 0
    ensures n * d / d == n
  {
    QuotientIsUnique(n * d, d, n);
  }
}
