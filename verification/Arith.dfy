/** Facts about division and remainder that the solver does not find by itself. */
module Arith {

  lemma DivBounds(a: nat, d: nat)
    requires d > 0
    ensures a == (a / d) * d + a % d && 0 <= a % d < d
  {
  }

  lemma MulLe(a: int, b: int, c: nat)
    requires a <= b
    ensures a * c <= b * c
  {
  }

  /** A multiple of `d` other than 0 is at least `d` away from it. */
  lemma MulGe(k: int, d: int)
    requires d > 0
    ensures k >= 1 ==> k * d >= d
    ensures k <= -1 ==> k * d <= -d
  {
    if k >= 1 {
      MulLe(1, k, d);
    } else if k <= -1 {
      MulLe(k, -1, d);
    }
  }

  /** Floor division is unique. */
  lemma FloorUnique(x: int, d: int, q: int)
    requires d > 0 && q * d <= x < q * d + d
    ensures x / d == q && x % d == x - q * d
  {
    var e := x / d;
    assert x == e * d + x % d;
    assert (e - q) * d == e * d - q * d;
    MulGe(e - q, d);
  }

  lemma DivUnique(a: nat, d: nat, q: nat)
    requires d > 0 && q * d <= a < (q + 1) * d
    ensures a / d == q && a % d == a - q * d
  {
    assert (q + 1) * d == q * d + d;
    FloorUnique(a, d, q);
  }

  lemma DivLess(a: nat, d: nat, n: nat)
    requires d > 0 && a < n * d
    ensures a / d < n
  {
    var e := a / d;
    DivBounds(a, d);
    assert (n - e) * d == n * d - e * d;
    MulGe(n - e, d);
  }

  lemma ModSmall(x: nat, d: nat)
    requires x < d
    ensures x % d == x
  {
    FloorUnique(x, d, 0);
  }

  lemma MulMod(q: nat, d: nat)
    requires d > 0
    ensures (q * d) % d == 0
  {
    DivUnique(q * d, d, q);
  }
}
