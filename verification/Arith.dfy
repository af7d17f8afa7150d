/** Facts of nonlinear arithmetic, one step each. */
module Arith {

  lemma Distribute(a: int, b: int, c: int)
    ensures (a + b) * c == a * c + b * c
  {}

  lemma MulNat(a: nat, b: nat)
    ensures a * b >= 0
  {}

  lemma MulLess(a: nat, b: nat, c: nat)
    requires a < b && c > 0
    ensures a * c < b * c
    ensures a * c + c <= b * c
  {
    var d := b - a - 1;
    Distribute(a + 1, d, c);
    Distribute(a, 1, c);
    MulNat(d, c);
  }

  /** Quotient and remainder are unique. */
  lemma DivModUnique(v: nat, m: nat, q: nat, r: nat)
    requires r < m && v == q * m + r
    ensures v / m == q && v % m == r
  {
    var q', r' := v / m, v % m;
    assert v == q' * m + r';
    if q < q' {
      MulLess(q, q', m);
    } else if q' < q {
      MulLess(q', q, m);
    }
  }

  lemma Associate(a: int, b: int, c: int)
    ensures (a * b) * c == a * (b * c)
  {}

  lemma DivMod(v: nat, m: nat)
    requires m > 0
    ensures v == (v / m) * m + v % m && v % m < m
  {}

  lemma ModHalves(v: nat, m: nat, w: nat)
    requires m > 0 && w == 2 * m
    ensures (v % w) / 2 == (v / 2) % m
    ensures (v % w) % 2 == v % 2
  {
    var q, r := v / w, v % w;
    DivMod(v, w);
    var h := q * m;
    assert q * w == 2 * h by {
      Associate(q, 2, m);
    }
    assert v / 2 == h + r / 2;
    DivModUnique(v / 2, m, q, r / 2);
  }

  lemma DivCancel(q: nat, m: nat, d: nat)
    requires m > 0 && d > 0
    ensures m * d > 0 && (q * d) / (m * d) == q / m && (q * d) % (m * d) == (q % m) * d
  {
    var hi, lo := q / m, q % m;
    DivMod(q, m);
    Distribute(hi * m, lo, d);
    Associate(hi, m, d);
    MulLess(lo, m, d);
    MulLess(0, m, d);
    DivModUnique(q * d, m * d, hi, lo * d);
  }

  lemma DivDiv(v: nat, a: nat, b: nat)
    requires a > 0 && b > 0
    ensures a * b > 0 && (v / a) / b == v / (a * b)
  {
    var q, r := v / a, v % a;
    var q', r' := q / b, q % b;
    DivMod(v, a);
    DivMod(q, b);
    Distribute(q' * b, r', a);
    Associate(q', b, a);
    MulLess(r', b, a);
    MulLess(0, b, a);
    DivModUnique(v, a * b, q', r' * a + r);
  }
}
