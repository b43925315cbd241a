/** The few facts about division that the address computations need. */
module Arithmetic {
  lemma NonzeroMultiple(e: int, d: int)
    requires d >= 0 && e != 0
    ensures if e > 0 then e * d >= d else e * d <= -d
  {
    if e > 0 {
      assert (e - 1) * d >= 0;
    } else {
      assert (-e - 1) * d >= 0;
    }
  }

  lemma MulMono(a: int, b: int, c: nat)
    requires a >= b
    ensures a * c >= b * c
  {
    assert (a - b) * c >= 0;
  }

  lemma DivModUnique(d: nat, q: nat, r: nat)
    requires r < d
    ensures (q * d + r) / d == q && (q * d + r) % d == r
  {
    var x := q * d + r;
    var e := x / d - q;
    assert x == x / d * d + x % d;
    assert e * d == r - x % d;
    if e != 0 {
      NonzeroMultiple(e, d);
      assert false;
    }
  }

  lemma AddMultiple(x: nat, k: nat, d: nat)
    requires d > 0
    ensures (k * d + x) / d == k + x / d && (k * d + x) % d == x % d
  {
    assert x == x / d * d + x % d;
    assert k * d + x == (k + x / d) * d + x % d;
    DivModUnique(d, k + x / d, x % d);
  }

  lemma DivDiv(x: nat, a: nat, b: nat)
    requires a > 0 && b > 0
    ensures a * b > 0 && x / a / b == x / (a * b)
  {
    var q, r := x / a, x % a;
    var p, s := q / b, q % b;
    Recompose(x, a, b, q, r, p, s);
    DivModUnique(a * b, p, s * a + r);
  }

  lemma Recompose(x: nat, a: nat, b: nat, q: nat, r: nat, p: nat, s: nat)
    requires x == q * a + r && r < a
    requires q == p * b + s && s < b
    ensures x == p * (a * b) + (s * a + r) && s * a + r < a * b
  {
    assert q * a == p * b * a + s * a;
    assert (b - 1 - s) * a >= 0;
  }
}
