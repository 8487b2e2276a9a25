/** Small facts about natural numbers. */
module Arithmetic {

  function Min(a: nat, b: nat): nat {
    if a <= b then a else b
  }

  function Max(a: nat, b: nat): nat {
    if a < b then b else a
  }

  lemma {:induction false} ProductBounds(m: nat, a: int, b: int)
    ensures m * (a - b) == m * a - m * b
    ensures a - b >= 1 ==> m * (a - b) >= m
    ensures a - b <= -1 ==> m * (a - b) + m <= 0
  {
  }

  lemma {:induction false} ModUnique(x: nat, m: nat, q: nat, r: nat)
    requires m > 0 && r < m && x == m * q + r
    ensures x / m == q && x % m == r
  {
    assert x == m * (x / m) + x % m;
    ProductBounds(m, x / m, q);
  }

  lemma {:induction false} DivideTwice(v: nat, a: nat, b: nat)
    requires a > 0 && b > 0
    ensures a * b > 0 && v / a / b == v / (a * b)
  {
    var q, r := v / a, v % a;
    var p, s := q / b, q % b;
    assert v == a * q + r && q == b * p + s;
    ProductBounds(a, b, s);
    assert a * q == a * b * p + a * s;
    ModUnique(v, a * b, p, a * s + r);
  }

  /** What does not fit once multiplied did not fit before. */
  lemma {:induction false} CancelFactor(a: nat, b: nat, k: nat)
    requires k > 0 && a * k <= b * k
    ensures a <= b
  {
    ProductBounds(k, b, a);
  }

  lemma {:induction false} KeepFactor(a: nat, b: nat, k: nat)
    requires a <= b
    ensures a * k <= b * k && k * a <= k * b
  {
  }
}
