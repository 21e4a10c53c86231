/** Facts about products and quotients of variables, kept out of the proofs that use them. */
module Arithmetic {
  lemma MulMonotone(a: int, b: int, c: nat)
    ensures a <= b ==> a * c <= b * c
    ensures (a + 1) * c == a * c + c && (a - 1) * c == a * c - c
  {
  }

  lemma DivUnique(n: nat, d: nat, q: nat)
    requires d > 0 && q * d <= n < q * d + d
    ensures n / d == q && n % d == n - q * d
  {
    var k := n / d;
    assert n == k * d + n % d;
    MulMonotone(k + 1, q, d);
    MulMonotone(q + 1, k, d);
  }

  lemma DivMod(v: nat, b: nat)
    requires b >= 2
    ensures v == (v / b) * b + v % b && 0 <= v % b < b && v / b <= v
    ensures v >= b ==> 0 < v / b < v
  {
  }

  lemma DivBound(v: nat, p: nat, b: nat)
    requires p > 0 && v < b * p
    ensures v / p < b && v % p < p && v == (v / p) * p + v % p
  {
  }

  /** Quotient and remainder by b * p, of a number whose last digit in base b is d. */
  lemma SplitDigit(a: nat, d: nat, b: nat, p: nat)
    requires d < b && p > 0
    ensures b * p > 0 && (b * a + d) / (b * p) == a / p && (b * a + d) % (b * p) == b * (a % p) + d
  {
    var q, r := a / p, a % p;
    assert a == q * p + r;
    Distribute(b, q, p, r);
    MulMonotone(r + 1, p, b);
    assert b * r + d < b * p;
    assert 0 < b * p;
    DivUnique(b * a + d, b * p, q);
  }

  lemma Distribute(b: int, q: int, p: int, r: int)
    ensures b * (q * p + r) == q * (b * p) + b * r
  {
  }

  lemma DivNat(v: nat, p: nat)
    requires p > 0
    ensures v / p >= 0 && 0 <= v % p < p && v == (v / p) * p + v % p
  {
  }

  /** Dividing by b * p is dividing by b and then by p, and the remainders agree. */
  lemma SplitQuotient(v: nat, b: nat, p: nat)
    requires b >= 2 && p > 0
    ensures b * p > 0 && v / (b * p) == (v / b) / p
    ensures (v % (b * p)) / b == (v / b) % p && (v % (b * p)) % b == v % b
  {
    var a, d := v / b, v % b;
    DivMod(v, b);
    assert v == b * a + d;
    SplitDigit(a, d, b, p);
    LastOf(a % p, d, b);
  }

  lemma LastOf(r: nat, d: nat, b: nat)
    requires d < b
    ensures (b * r + d) / b == r && (b * r + d) % b == d
  {
    DivUnique(b * r + d, b, r);
  }

  /** Dividing by p and then by b is dividing by b * p, and the remainders agree. */
  lemma DivDiv(v: nat, p: nat, b: nat)
    requires p > 0 && b > 0
    ensures b * p > 0 && (v / p) / b == v / (b * p)
    ensures (v / p) % b == (v % (b * p)) / p && (v % (b * p)) % p == v % p
  {
    DivNat(v, p);
    var q, r := v / p, v % p;
    DivNat(q, b);
    Recombine(v, q, q / b, q % b, r, b, p);
  }

  lemma Recombine(v: nat, q: nat, q': nat, d: nat, r: nat, b: nat, p: nat)
    requires d < b && r < p && v == q * p + r && q == q' * b + d
    ensures b * p > 0 && v / (b * p) == q' && (v % (b * p)) / p == d && (v % (b * p)) % p == r
  {
    MulMonotone(d + 1, b, p);
    MulMonotone(1, b, p);
    MulMonotone(0, d, p);
    Regroup(q', b, d, p);
    DivUnique(v, b * p, q');
    DivUnique(d * p + r, p, d);
  }

  lemma Regroup(q: int, b: int, d: int, p: int)
    ensures (q * b + d) * p == q * (b * p) + d * p
  {
  }
}
