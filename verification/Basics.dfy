/** Definitions shared by all parts of the model. */
module Basics {

  datatype Option<+T> = None | Some(value: T)

  function Get<K, V>(m: map<K, V>, k: K): Option<V>
  {
    if k in m then Some(m[k]) else None
  }

  lemma Associate<T>(a: seq<T>, b: seq<T>, c: seq<T>)
    ensures a + b + c == a + (b + c)
  {
  }

  lemma Smaller<T>(a: set<T>, b: set<T>)
    requires a < b
    ensures |a| < |b|
  {
    NoMore(a, b);
    var x :| x in b && x !in a;
    NoMore(a + {x}, b);
  }

  lemma {:induction false} NoMore<T>(a: set<T>, b: set<T>)
    requires a <= b
    ensures |a| <= |b|
    decreases |a|
  {
    if a != {} {
      var x :| x in a;
      NoMore(a - {x}, b - {x});
    }
  }

  // ----- Division ------------------------------------------------------------------------

  lemma {:induction false} PositiveProduct(d: int, k: int)
    requires d > 0 && k >= 1
    ensures d * k >= d
    decreases k
  {
    if k > 1 {
      PositiveProduct(d, k - 1);
      assert d * k == d * (k - 1) + d;
    }
  }

  lemma LargerProduct(d: int, x: int, y: int)
    requires d > 0 && x < y
    ensures d * x + d <= d * y
  {
    PositiveProduct(d, y - x);
    assert d * (y - x) == d * y - d * x;
  }

  lemma OneQuotient(d: int, q: int, r: int, q': int, r': int)
    requires d > 0 && d * q + r == d * q' + r' && 0 <= r < d && 0 <= r' < d
    ensures q == q'
  {
    if q < q' {
      LargerProduct(d, q, q');
    } else if q' < q {
      LargerProduct(d, q', q);
    }
  }

  lemma QuotientIs(v: int, d: int, q: int, r: int)
    requires d > 0 && v == d * q + r && 0 <= r < d
    ensures v / d == q
  {
    OneQuotient(d, v / d, v % d, q, r);
  }

  lemma DivideTwice(v: nat, a: nat, b: nat)
    requires a >= 1 && b >= 1
    ensures a * b >= 1 && v / (a * b) == v / a / b
  {
    var q, r := v / a, v % a;
    var q2, r2 := q / b, q % b;
    DivideParts(v, a, b, q, r, q2, r2);
    QuotientIs(v, a * b, q2, a * r2 + r);
  }

  lemma DivideParts(v: int, a: int, b: int, q: int, r: int, q2: int, r2: int)
    requires a >= 1 && b >= 1 && v == a * q + r && q == b * q2 + r2 && 0 <= r < a && 0 <= r2 < b
    ensures a * b >= 1 && v == (a * b) * q2 + (a * r2 + r) && 0 <= a * r2 + r < a * b
  {
    assert a * q == a * (b * q2) + a * r2;
    assert a * (b * q2) == (a * b) * q2;
    LargerProduct(a, r2, b);
    assert a * r2 >= 0;
  }
}
