/** Powers, with the few laws the number models need. */
module Powers {

  function Pow(base: nat, n: nat): nat {
    if n == 0 then 1 else base * Pow(base, n - 1)
  }

  lemma {:induction false} PowPositive(base: nat, n: nat)
    requires base > 0
    ensures Pow(base, n) > 0
  {
    if n > 0 { PowPositive(base, n - 1); }
  }

  lemma {:induction false} PowAdd(base: nat, m: nat, n: nat)
    ensures Pow(base, m + n) == Pow(base, m) * Pow(base, n)
  {
    if m > 0 {
      PowAdd(base, m - 1, n);
      assert base * (Pow(base, m - 1) * Pow(base, n)) == (base * Pow(base, m - 1)) * Pow(base, n);
    }
  }

  lemma {:induction false} PowMonotone(base: nat, m: nat, n: nat)
    requires base > 0 && m <= n
    ensures Pow(base, m) <= Pow(base, n)
  {
    PowAdd(base, m, n - m);
    PowPositive(base, n - m);
    PowPositive(base, m);
    MulMonotone(1, Pow(base, n - m), Pow(base, m));
  }

  lemma {:induction false} PowStrict(base: nat, m: nat, n: nat)
    requires base > 1 && m < n
    ensures Pow(base, m) < Pow(base, n)
  {
    PowMonotone(base, m, n - 1);
    PowPositive(base, n - 1);
  }

  lemma MulMonotone(a: int, b: int, c: int)
    requires a <= b && 0 <= c
    ensures a * c <= b * c
  {
  }

  lemma MulStrict(a: int, b: int, c: int)
    requires a < b && 0 < c
    ensures a * c < b * c
  {
  }

  lemma MulCancel(a: int, b: int, c: int)
    requires 0 < c && a * c < b * c
    ensures a < b
  {
    if a >= b { MulMonotone(b, a, c); }
  }

  lemma MulBoth(a: int, b: int, c: int, d: int)
    requires 0 <= a <= b && 0 <= c <= d
    ensures a * c <= b * d
  {
    MulMonotone(a, b, c);
    MulMonotone(c, d, b);
    assert c * b == b * c && d * b == b * d;
  }

  lemma MulDouble(a: int, b: int)
    ensures a * (2 * b) == 2 * (a * b)
    ensures (2 * a) * b == 2 * (a * b)
  {
  }

  lemma MulAssoc(a: int, b: int, c: int)
    ensures a * (b * c) == (a * b) * c
  {
  }

  lemma PowStep(base: nat, n: nat)
    ensures Pow(base, n + 1) == base * Pow(base, n)
  {
  }

  /** The quotient is the only number that leaves a remainder in range. */
  lemma DivUnique(a: nat, b: nat, q: nat, r: nat)
    requires b > 0 && a == q * b + r && r < b
    ensures a / b == q && a % b == r
  {
    var q' := a / b;
    assert a == q' * b + a % b;
    if q < q' { MulMonotone(q + 1, q', b); }
    if q' < q { MulMonotone(q' + 1, q, b); }
  }

  lemma DivHalve(d: nat, p: nat)
    requires p > 0
    ensures (d / p) / 2 == d / (2 * p)
  {
    var (q, r) := (d / p, d % p);
    var (h, b) := (q / 2, q % 2);
    MulDouble(h, p);
    Expand(h, b, p);
    DivUnique(d, 2 * p, h, b * p + r);
  }

  lemma Expand(h: int, b: int, p: int)
    requires b == 0 || b == 1
    ensures (2 * h + b) * p == 2 * (h * p) + b * p
    ensures b * p == if b == 0 then 0 else p
  {
  }
}
