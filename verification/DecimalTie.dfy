/**
 The exact tie test behind Number-to-string. The shortest decimal `s * 10^k`
 of a double may lie exactly as far above it as `(s - 1) * 10^k` lies below;
 then the even one of the two is wanted.
 */
module DecimalTie {
  import opened Powers

  const HIDDEN_BIT: nat := 0x10_0000_0000_0000
  const MIN_EXPONENT: int := -1074
  const MAX_EXPONENT: int := 971

  /** A positive finite binary64 value `m * 2^e`. */
  datatype Double = Double(m: nat, e: int)

  predicate Normal(n: Double) {
    HIDDEN_BIT <= n.m < 2 * HIDDEN_BIT
  }

  predicate ValidDouble(n: Double) {
    && MIN_EXPONENT <= n.e <= MAX_EXPONENT
    && (Normal(n) || (0 < n.m < HIDDEN_BIT && n.e == MIN_EXPONENT))
  }

  // ---------------------------------------------------------------------
  // Comparing binary and decimal values exactly: both sides times the same
  // powers of two and ten.

  /** What a unit of `10^k` is on the common scale. */
  function DecimalUnit(e: int, k: int): nat {
    Pow(10, if k > 0 then k else 0) * Pow(2, if e < 0 then -e else 0)
  }

  /** What a unit of `2^e` is on the common scale. */
  function BinaryUnit(e: int, k: int): nat {
    Pow(10, if k < 0 then -k else 0) * Pow(2, if e > 0 then e else 0)
  }

  /** The gap below the smallest significand of a binade is half the gap above it. */
  function QuartersBelow(n: Double): nat {
    if n.m == HIDDEN_BIT && n.e > MIN_EXPONENT then 1 else 2
  }

  /** `s * 10^k` is read back as `n`: it is nearer to `n` than to its neighbours, and a tie goes to an even `n`. */
  predicate RoundTrips(n: Double, s: nat, k: int) {
    var (t, u) := (DecimalUnit(n.e, k), BinaryUnit(n.e, k));
    var slack := if n.m % 2 == 0 then 0 else 1;
    (4 * n.m - QuartersBelow(n)) * u + slack <= 4 * s * t && 4 * s * t + slack <= (4 * n.m + 2) * u
  }

  /** `n` is exactly `(2s - 1) * 10^k / 2`. */
  predicate IsMidpoint(n: Double, s: nat, k: int) {
    2 * n.m * BinaryUnit(n.e, k) == (2 * s - 1) * DecimalUnit(n.e, k)
  }

  function DigitCount(s: nat): nat {
    if s < 10 then 1 else 1 + DigitCount(s / 10)
  }

  /** No decimal with fewer digits reads back as `n`. */
  ghost predicate Shortest(n: Double, s: nat, k: int) {
    && RoundTrips(n, s, k)
    && forall s': nat, k': int :: s' > 0 && RoundTrips(n, s', k') ==> DigitCount(s) <= DigitCount(s')
  }

  // ---------------------------------------------------------------------
  // The code

  /** How often two divides, and what is left. */
  function OddPart(m: nat): (r: (nat, nat))
    requires m > 0
    ensures r.0 % 2 == 1
  {
    if m % 2 == 1 then (m, 0)
    else
      var (odd, zeros) := OddPart(m / 2);
      (odd, zeros + 1)
  }

  function LowerEvenTie(n: Double, s: nat, k: int): bool
    requires ValidDouble(n)
  {
    if s % 2 == 0 || !(-24 <= k < 0) then false
    else
      // The stored exponent and fraction; the leading bit is put back without asking whether it was there.
      var exponentBits := if Normal(n) then n.e + 1075 else 0;
      var significand := if Normal(n) then n.m else n.m + HIDDEN_BIT;
      var (odd, zeros) := OddPart(significand);
      if exponentBits - 1075 + zeros != k - 1 then false
      else
        var (midpoint, factor) := (2 * s - 1, Pow(5, -k));
        PowPositive(5, -k);
        midpoint % factor == 0 && midpoint / factor == odd
  }

  // ---------------------------------------------------------------------
  // Odd parts

  lemma {:induction false} OddPartValue(m: nat)
    requires m > 0
    ensures m == OddPart(m).0 * Pow(2, OddPart(m).1)
  {
    if m % 2 == 0 {
      OddPartValue(m / 2);
      var (odd, zeros) := OddPart(m / 2);
      PowStep(2, zeros);
      MulDouble(odd, Pow(2, zeros));
    }
  }

  /** A number is an odd number times a power of two in one way only. */
  lemma {:induction false} OddUnique(a: nat, i: nat, b: nat, j: nat)
    requires a % 2 == 1 && b % 2 == 1 && a * Pow(2, i) == b * Pow(2, j)
    ensures a == b && i == j
    decreases i
  {
    if i == 0 || j == 0 {
      if i > 0 { PowStep(2, i - 1); MulDouble(a, Pow(2, i - 1)); }
      if j > 0 { PowStep(2, j - 1); MulDouble(b, Pow(2, j - 1)); }
      assert Pow(2, 0) == 1;
    } else {
      PowStep(2, i - 1);
      PowStep(2, j - 1);
      MulDouble(a, Pow(2, i - 1));
      MulDouble(b, Pow(2, j - 1));
      OddUnique(a, i - 1, b, j - 1);
    }
  }

  lemma {:induction false} OddProduct(a: nat, b: nat)
    requires a % 2 == 1 && b % 2 == 1
    ensures a * b % 2 == 1
  {
    var (i, j) := (a / 2, b / 2);
    assert a * b == 2 * (2 * i * j + i + j) + 1;
  }

  lemma {:induction false} OddFives(j: nat)
    ensures Pow(5, j) % 2 == 1
  {
    if j > 0 {
      OddFives(j - 1);
      PowStep(5, j - 1);
      OddProduct(5, Pow(5, j - 1));
    }
  }

  lemma {:induction false} TenIsTwoFive(j: nat)
    ensures Pow(10, j) == Pow(5, j) * Pow(2, j)
  {
    if j > 0 {
      TenIsTwoFive(j - 1);
      PowStep(10, j - 1);
      PowStep(5, j - 1);
      PowStep(2, j - 1);
      Regroup(Pow(5, j - 1), Pow(2, j - 1));
    }
  }

  lemma Regroup(a: int, b: int)
    ensures 10 * (a * b) == (5 * a) * (2 * b)
  {
    MulAssoc(5 * a, 2, b);
  }

  function Above(x: int): nat {
    if x > 0 then x else 0
  }

  // ---------------------------------------------------------------------
  // When a double is a midpoint

  lemma {:induction false} LeftForm(m: nat, e: int, k: int)
    requires m > 0
    ensures var (odd, zeros) := OddPart(m);
            2 * m * BinaryUnit(e, k) == odd * Pow(5, Above(-k)) * Pow(2, 1 + zeros + Above(-k) + Above(e))
  {
    hide Pow, OddPart;
    var (odd, zeros) := OddPart(m);
    var (j, i) := (Above(-k), Above(e));
    OddPartValue(m);
    TenIsTwoFive(j);
    PowStep(2, zeros);
    PowAdd(2, 1 + zeros, j);
    PowAdd(2, 1 + zeros + j, i);
    Shuffle(odd, Pow(2, zeros), Pow(5, j), Pow(2, j), Pow(2, i));
  }

  lemma Shuffle(odd: int, z: int, f: int, t: int, i: int)
    ensures 2 * (odd * z) * ((f * t) * i) == (odd * f) * (((2 * z) * t) * i)
  {
    calc {
      2 * (odd * z) * ((f * t) * i);
      { MulAssoc(2, odd, z); }
      (odd * (2 * z)) * ((f * t) * i);
      { MulAssoc(f, t, i); }
      (odd * (2 * z)) * (f * (t * i));
      { Swap(odd, 2 * z, f, t * i); }
      (odd * f) * ((2 * z) * (t * i));
      { MulAssoc(2 * z, t, i); }
      (odd * f) * (((2 * z) * t) * i);
    }
  }

  lemma Swap(a: int, b: int, c: int, d: int)
    ensures (a * b) * (c * d) == (a * c) * (b * d)
  {
    MulAssoc(a * b, c, d);
    MulAssoc(a, b, c);
    MulAssoc(a, c, b);
    MulAssoc(a * c, b, d);
  }

  lemma {:induction false} RightForm(s: nat, e: int, k: int)
    requires s > 0
    ensures (2 * s - 1) * DecimalUnit(e, k) == (2 * s - 1) * Pow(5, Above(k)) * Pow(2, Above(k) + Above(-e))
  {
    hide Pow;
    var (j, i) := (Above(k), Above(-e));
    TenIsTwoFive(j);
    PowAdd(2, j, i);
    MulAssoc(Pow(5, j), Pow(2, j), Pow(2, i));
    MulAssoc(2 * s - 1, Pow(5, j), Pow(2, j) * Pow(2, i));
  }

  /** A midpoint fixes the power of two and the odd part. */
  lemma {:induction false} MidpointForm(n: Double, s: nat, k: int)
    requires n.m > 0 && s > 0
    ensures var (odd, zeros) := OddPart(n.m);
            IsMidpoint(n, s, k) <==>
            n.e + zeros == k - 1 && odd * Pow(5, Above(-k)) == (2 * s - 1) * Pow(5, Above(k))
  {
    hide Pow, OddPart;
    var (odd, zeros) := OddPart(n.m);
    LeftForm(n.m, n.e, k);
    RightForm(s, n.e, k);
    OddFives(Above(-k));
    OddFives(Above(k));
    var (a, b) := (odd * Pow(5, Above(-k)), (2 * s - 1) * Pow(5, Above(k)));
    OddProduct(odd, Pow(5, Above(-k)));
    OddProduct(2 * s - 1, Pow(5, Above(k)));
    var (i, j) := (1 + zeros + Above(-k) + Above(n.e), Above(k) + Above(-n.e));
    if IsMidpoint(n, s, k) { OddUnique(a, i, b, j); }
  }

  /** At a midpoint the decimal step is no larger than the gap between doubles. */
  lemma {:induction false} MidpointStep(n: Double, s: nat, k: int)
    requires IsMidpoint(n, s, k) && RoundTrips(n, s, k)
    ensures DecimalUnit(n.e, k) <= BinaryUnit(n.e, k)
  {
    hide Pow, DecimalUnit, BinaryUnit;
    var (t, u) := (DecimalUnit(n.e, k), BinaryUnit(n.e, k));
    StepArithmetic(n.m, s, t, u);
  }

  lemma StepArithmetic(m: int, s: int, t: int, u: int)
    requires 2 * m * u == (2 * s - 1) * t
    requires 4 * s * t <= (4 * m + 2) * u
    ensures t <= u
  {
    assert (4 * m + 2) * u == 2 * (2 * m * u) + 2 * u;
    assert 2 * ((2 * s - 1) * t) == 4 * s * t - 2 * t;
  }

  /** An integral midpoint cannot be reached from either side. */
  lemma {:induction false} NoIntegralTie(n: Double, s: nat, k: int)
    requires n.m > 0 && s > 0 && k >= 0 && RoundTrips(n, s, k)
    ensures !IsMidpoint(n, s, k)
  {
    hide Pow, RoundTrips, IsMidpoint, OddPart;
    if IsMidpoint(n, s, k) {
      MidpointStep(n, s, k);
      MidpointForm(n, s, k);
      TenIsTwoFive(k);
      PowPositive(5, k);
      PowPositive(2, k);
      MulMonotone(1, Pow(5, k), Pow(2, k));
      assert Pow(10, 0) == 1 && Pow(2, 0) == 1 by { Zeroth(); }
      if n.e < 0 {
        PowStrict(2, 0, -n.e);
        MulMonotone(1, Pow(10, k), Pow(2, -n.e));
      } else {
        PowStrict(2, n.e, k);
      }
    }
  }

  lemma Zeroth()
    ensures Pow(10, 0) == 1 && Pow(2, 0) == 1 && Pow(5, 0) == 1
  {
  }

  lemma {:induction false} FiveToTwentyFive()
    ensures Pow(5, 24) == 59604644775390625 && Pow(5, 25) == 298023223876953125
    ensures Pow(5, 23) == 11920928955078125
  {
    assert Pow(5, 6) == 15625;
    PowAdd(5, 6, 6);
    PowAdd(5, 12, 12);
    PowStep(5, 24);
    PowStep(5, 23);
  }

  /**
   The arithmetic of the test fits unsigned 64-bit integers, and its bound is
   tight: one decimal further the factor exceeds every midpoint of 17 digits.
   */
  lemma {:induction false} FactorFits(s: nat, k: int)
    requires 0 < s < 100_000_000_000_000_000 && k < 0
    ensures 2 * s - 1 < 0x1_0000_0000_0000_0000
    ensures -24 <= k ==> Pow(5, -k) < 0x1_0000_0000_0000_0000
    ensures k < -24 ==> 2 * s - 1 < Pow(5, -k)
  {
    hide Pow;
    FiveToTwentyFive();
    if -24 <= k {
      PowMonotone(5, -k, 24);
    } else {
      PowMonotone(5, 25, -k);
    }
  }

  /** Beyond 24 decimals the factor 5^-k is larger than any 17-digit midpoint. */
  lemma {:induction false} NoDeepTie(n: Double, s: nat, k: int)
    requires n.m > 0 && 0 < s < 100_000_000_000_000_000 && k <= -25
    ensures !IsMidpoint(n, s, k)
  {
    hide Pow, IsMidpoint, OddPart;
    MidpointForm(n, s, k);
    Zeroth();
    FactorFits(s, k);
    PowPositive(5, -k);
    MulMonotone(1, OddPart(n.m).0, Pow(5, -k));
  }

  lemma {:induction false} TenToTwentyFour()
    ensures Pow(10, 24) < Pow(2, 80)
  {
    assert Pow(10, 3) == 1000 && Pow(2, 10) == 1024;
    PowAdd(10, 3, 3);
    PowAdd(10, 6, 6);
    PowAdd(10, 12, 12);
    PowAdd(2, 10, 10);
    PowAdd(2, 20, 20);
    PowAdd(2, 40, 40);
  }

  lemma {:induction false} SubnormalUnits(k: int)
    requires -24 <= k < 0
    ensures BinaryUnit(MIN_EXPONENT, k) * Pow(2, 54) < DecimalUnit(MIN_EXPONENT, k)
  {
    hide Pow;
    Zeroth();
    TenToTwentyFour();
    PowMonotone(10, -k, 24);
    PowMonotone(2, 80 + 54, 1074);
    PowAdd(2, 80, 54);
    PowPositive(2, 54);
    MulStrict(Pow(10, -k), Pow(2, 80), Pow(2, 54));
  }

  /** A decimal with at most 24 places is never read back as a subnormal. */
  lemma {:induction false} RoundTripIsNormal(n: Double, s: nat, k: int)
    requires ValidDouble(n) && s > 0 && -24 <= k < 0 && RoundTrips(n, s, k)
    ensures Normal(n)
  {
    hide Pow, DecimalUnit, BinaryUnit;
    if !Normal(n) {
      SubnormalUnits(k);
      Hidden();
      var (t, u) := (DecimalUnit(n.e, k), BinaryUnit(n.e, k));
      MulMonotone(4 * n.m + 2, Pow(2, 54), u);
      MulMonotone(1, 4 * s, t);
    }
  }

  lemma {:induction false} Hidden()
    ensures Pow(2, 54) == 4 * HIDDEN_BIT && Pow(2, 52) == HIDDEN_BIT
  {
    assert Pow(2, 13) == 8192;
    PowAdd(2, 13, 13);
    PowAdd(2, 26, 26);
    PowAdd(2, 52, 2);
    assert Pow(2, 2) == 4;
  }

  /**
   The test is exact: for a decimal of at most 17 digits that reads back as
   `n`, and any exponent, it holds just when `n` is the midpoint and `s` is odd.
   */
  lemma {:induction false} TieIsExact(n: Double, s: nat, k: int)
    requires ValidDouble(n) && 0 < s < 100_000_000_000_000_000 && RoundTrips(n, s, k)
    ensures LowerEvenTie(n, s, k) <==> s % 2 == 1 && IsMidpoint(n, s, k)
  {
    hide Pow, IsMidpoint, OddPart, RoundTrips;
    if k >= 0 {
      NoIntegralTie(n, s, k);
    } else if k < -24 {
      NoDeepTie(n, s, k);
    } else {
      RoundTripIsNormal(n, s, k);
      MidpointForm(n, s, k);
      Zeroth();
      PowPositive(5, -k);
      Quotient(2 * s - 1, Pow(5, -k), OddPart(n.m).0);
    }
  }

  lemma Quotient(a: nat, b: nat, q: nat)
    requires b > 0
    ensures a % b == 0 && a / b == q <==> q * b == a
  {
    if q * b == a { DivUnique(a, b, q, 0); }
  }

  // ---------------------------------------------------------------------
  // The decrement

  /** The tie at 2^-24, where the lower neighbour of the double is only half as far away. */
  const BAD_DIGITS: nat := 5960464477539063
  const BAD_EXPONENT: int := -23

  lemma {:induction false} TieForm(n: Double, s: nat, k: int)
    requires ValidDouble(n) && 0 < s < 100_000_000_000_000_000 && RoundTrips(n, s, k) && LowerEvenTie(n, s, k)
    ensures s % 2 == 1 && s > 1 && -24 <= k < 0 && IsMidpoint(n, s, k) && Normal(n)
    ensures var (odd, zeros) := OddPart(n.m); n.e + zeros == k - 1 && odd * Pow(5, -k) == 2 * s - 1
  {
    hide Pow, OddPart, RoundTrips, IsMidpoint;
    TieIsExact(n, s, k);
    RoundTripIsNormal(n, s, k);
    MidpointForm(n, s, k);
    Zeroth();
    PowStrict(5, 0, -k);
    MulMonotone(1, OddPart(n.m).0, Pow(5, -k));
  }

  /** The digit count does not change. */
  lemma {:induction false} DecrementKeepsLength(n: Double, s: nat, k: int)
    requires ValidDouble(n) && 0 < s < 100_000_000_000_000_000 && RoundTrips(n, s, k) && LowerEvenTie(n, s, k)
    ensures s - 1 > 0 && DigitCount(s - 1) == DigitCount(s)
  {
    hide Pow, OddPart, RoundTrips, LowerEvenTie, IsMidpoint, DigitCount;
    TieForm(n, s, k);
    OddDecrement(s);
  }

  lemma {:induction false} OddDecrement(s: nat)
    requires s % 2 == 1 && s > 1
    ensures DigitCount(s - 1) == DigitCount(s)
  {
    if s >= 10 {
      assert (s - 1) / 10 == s / 10;
    }
  }

  lemma SlackArithmetic(m: int, s: int, t: int, u: int, below: int)
    requires 2 * m * u == (2 * s - 1) * t
    ensures 4 * s * t == 4 * m * u + 2 * t && 4 * (s - 1) * t == 4 * m * u - 2 * t
    ensures (4 * m + 2) * u == 4 * m * u + 2 * u && (4 * m - below) * u == 4 * m * u - below * u
  {
  }

  /** The lower neighbour reads back as `n` unless the gap below `n` is too small for it. */
  lemma {:induction false} LowerRoundTrips(n: Double, s: nat, k: int)
    requires s > 1 && IsMidpoint(n, s, k) && RoundTrips(n, s, k)
    ensures var (t, u) := (DecimalUnit(n.e, k), BinaryUnit(n.e, k));
            RoundTrips(n, s - 1, k) <==> QuartersBelow(n) == 2 || 2 * t <= u
  {
    hide Pow, DecimalUnit, BinaryUnit;
    var (t, u) := (DecimalUnit(n.e, k), BinaryUnit(n.e, k));
    SlackArithmetic(n.m, s, t, u, QuartersBelow(n));
  }

  lemma {:induction false} OddPartOfHidden()
    ensures OddPart(HIDDEN_BIT) == (1, 52)
  {
    hide Pow, OddPart;
    OddPartValue(HIDDEN_BIT);
    Hidden();
    var (odd, zeros) := OddPart(HIDDEN_BIT);
    OddUnique(odd, zeros, 1, 52);
  }

  /** On the edge of a binade a tie has 23 or 24 decimals, and with 23 the lower neighbour is lost. */
  lemma {:induction false} EdgeTie(n: Double, s: nat, k: int)
    requires ValidDouble(n) && 0 < s < 100_000_000_000_000_000 && RoundTrips(n, s, k) && LowerEvenTie(n, s, k)
    requires n.m == HIDDEN_BIT
    ensures 2 * DecimalUnit(n.e, k) <= BinaryUnit(n.e, k) <==> !(s == BAD_DIGITS && k == BAD_EXPONENT)
    ensures 2 * DecimalUnit(n.e, k) > BinaryUnit(n.e, k) ==> n.e > MIN_EXPONENT
  {
    hide Pow, OddPart, RoundTrips, IsMidpoint, LowerEvenTie;
    TieForm(n, s, k);
    OddPartOfHidden();
    MidpointStep(n, s, k);
    var j := -k;
    assert n.e == -j - 53 && 2 * s - 1 == Pow(5, j);
    EdgeUnits(n.e, k);
    FiveToTwentyFive();
    Hidden();
    PowStep(2, 52);
    if j < 23 {
      PowMonotone(5, j, 22);
      PowStep(5, 22);
    }
  }

  lemma {:induction false} EdgeUnits(e: int, k: int)
    requires k < 0 && e == k - 53
    ensures DecimalUnit(e, k) <= BinaryUnit(e, k) <==> Pow(2, 53) <= Pow(5, -k)
    ensures 2 * DecimalUnit(e, k) <= BinaryUnit(e, k) <==> Pow(2, 54) <= Pow(5, -k)
  {
    hide Pow;
    var j := -k;
    Zeroth();
    TenIsTwoFive(j);
    PowAdd(2, 53, j);
    PowStep(2, 53);
    PowPositive(2, j);
    Compare(Pow(2, 53), Pow(5, j), Pow(2, j));
    Compare(2 * Pow(2, 53), Pow(5, j), Pow(2, j));
    MulDouble(Pow(2, 53), Pow(2, j));
  }

  lemma Compare(a: int, b: int, c: int)
    requires c > 0
    ensures a * c <= b * c <==> a <= b
  {
    if a <= b { MulMonotone(a, b, c); } else { MulStrict(b, a, c); }
  }

  /**
   The even decimal that replaces a tie reads back as `n` in every case but one:
   5960464477539063e-23 is the shortest form of 2^-24, and the test turns it
   into 5960464477539062e-23, which is a different double.
   */
  lemma {:induction false} DecrementRoundTripsIff(n: Double, s: nat, k: int)
    requires ValidDouble(n) && 0 < s < 100_000_000_000_000_000 && RoundTrips(n, s, k) && LowerEvenTie(n, s, k)
    ensures RoundTrips(n, s - 1, k) <==> !(s == BAD_DIGITS && k == BAD_EXPONENT)
  {
    hide Pow, OddPart, RoundTrips, IsMidpoint, LowerEvenTie, DecimalUnit, BinaryUnit;
    TieForm(n, s, k);
    LowerRoundTrips(n, s, k);
    if n.m == HIDDEN_BIT {
      EdgeTie(n, s, k);
    } else if s == BAD_DIGITS && k == BAD_EXPONENT {
      OnlyAtEdge(n, s, k);
    }
  }

  lemma {:induction false} OnlyAtEdge(n: Double, s: nat, k: int)
    requires ValidDouble(n) && 0 < s < 100_000_000_000_000_000 && RoundTrips(n, s, k) && LowerEvenTie(n, s, k)
    requires s == BAD_DIGITS && k == BAD_EXPONENT
    ensures n == Double(HIDDEN_BIT, -76)
  {
    hide Pow, OddPart, RoundTrips, IsMidpoint, LowerEvenTie;
    TieForm(n, s, k);
    FiveToTwentyFive();
    var (odd, zeros) := OddPart(n.m);
    MulCancelEqual(odd, 1, Pow(5, 23));
    OddPartValue(n.m);
    Hidden();
    PowStep(2, 52);
    if zeros < 52 {
      PowStrict(2, zeros, 52);
    } else if zeros > 52 {
      PowMonotone(2, 53, zeros);
    }
  }

  lemma MulCancelEqual(a: int, b: int, c: int)
    requires c > 0 && a * c == b * c
    ensures a == b
  {
    if a < b { MulStrict(a, b, c); }
    if b < a { MulStrict(b, a, c); }
  }

  lemma {:induction false} SameDecimal(n: Double, s: nat, k: int)
    requires k < 0 && RoundTrips(n, 10 * s, k)
    ensures RoundTrips(n, s, k + 1)
  {
    hide Pow;
    Zeroth();
    PowStep(10, -k - 1);
    var (t, u, u') := (DecimalUnit(n.e, k), BinaryUnit(n.e, k), BinaryUnit(n.e, k + 1));
    assert DecimalUnit(n.e, k + 1) == t;
    MulAssoc(10, Pow(10, -k - 1), Pow(2, Above(n.e)));
    assert u == 10 * u';
    Tenfold(4 * n.m - QuartersBelow(n), 4 * n.m + 2, s, t, u');
  }

  lemma Tenfold(low: int, high: int, s: int, t: int, u: int)
    ensures low * (10 * u) == 10 * (low * u) && high * (10 * u) == 10 * (high * u)
    ensures 4 * (10 * s) * t == 10 * (4 * s * t)
  {
  }

  /** A shortest decimal never leaves a trailing zero when it is decremented. */
  lemma {:induction false} DecrementLeavesNoZero(n: Double, s: nat, k: int)
    requires ValidDouble(n) && 0 < s < 100_000_000_000_000_000 && Shortest(n, s, k) && LowerEvenTie(n, s, k)
    ensures (s - 1) % 10 != 0
  {
    hide Pow, RoundTrips, LowerEvenTie;
    DecrementKeepsLength(n, s, k);
    DecrementRoundTripsIff(n, s, k);
    TieForm(n, s, k);
    if (s - 1) % 10 == 0 && !(s == BAD_DIGITS && k == BAD_EXPONENT) {
      var shorter := (s - 1) / 10;
      assert DigitCount(s - 1) == 1 + DigitCount(shorter);
      SameDecimal(n, shorter, k);
    }
  }

  // ---------------------------------------------------------------------
  // The shortest form of 2^-24

  lemma {:induction false} DigitCountBounds(s: nat)
    ensures s < Pow(10, DigitCount(s))
    ensures s > 0 ==> Pow(10, DigitCount(s) - 1) <= s
  {
    if s >= 10 {
      DigitCountBounds(s / 10);
    }
  }

  lemma {:induction false} SmallPowers()
    ensures Pow(2, 4) == 16 && Pow(2, 12) == 4096 && Pow(10, 2) == 100 && Pow(10, 5) == 100000
  {
  }

  lemma {:induction false} BigPowers()
    ensures Pow(2, 76) == 75557863725914323419136
    ensures Pow(10, 15) == 1000000000000000 && Pow(10, 16) == 10000000000000000
    ensures Pow(10, 22) == 10000000000000000000000 && Pow(10, 23) == 100000000000000000000000
  {
    hide Pow;
    SmallPowers();
    PowAdd(2, 12, 12);
    PowAdd(2, 24, 24);
    PowAdd(2, 48, 24);
    PowAdd(2, 72, 4);
    PowAdd(10, 5, 5);
    PowAdd(10, 10, 5);
    PowStep(10, 15);
    PowAdd(10, 15, 5);
    PowAdd(10, 20, 2);
    PowStep(10, 22);
  }

  lemma {:induction false} Scale(low: int, high: int, s: nat, t: int, u: int, p: nat)
    requires low * u <= 4 * s * t <= high * u
    ensures low * (u * p) <= 4 * (s * p) * t <= high * (u * p)
  {
    MulMonotone(low * u, 4 * s * t, p);
    MulMonotone(4 * s * t, high * u, p);
    assert low * u * p == low * (u * p) && high * u * p == high * (u * p);
    assert 4 * s * t * p == 4 * (s * p) * t;
  }

  /** No decimal of at most 15 digits is near enough to 2^-24. */
  lemma {:induction false} NoShorter(s: nat, k: int)
    requires 0 < s < 1000000000000000
    ensures !RoundTrips(Double(HIDDEN_BIT, -76), s, k)
  {
    hide Pow;
    BigPowers();
    Zeroth();
    var (t, u) := (DecimalUnit(-76, k), BinaryUnit(-76, k));
    var (low, high) := (4 * HIDDEN_BIT - 1, 4 * HIDDEN_BIT + 2);
    if RoundTrips(Double(HIDDEN_BIT, -76), s, k) {
      assert low * u <= 4 * s * t <= high * u;
      if k >= 0 {
        PowPositive(10, k);
        MulMonotone(1, Pow(10, k), Pow(2, 76));
        MulMonotone(1, 4 * s, t);
      } else if k < -22 {
        PowMonotone(10, 23, -k);
        MulMonotone(Pow(10, 23), u, low);
        MulMonotone(4 * s, 4 * 1000000000000000, t);
      } else {
        var p := Pow(10, 22 + k);
        PowAdd(10, -k, 22 + k);
        Scale(low, high, s, t, u, p);
        Gap(s * p);
      }
    }
  }

  lemma {:induction false} Gap(x: nat)
    ensures !((4 * HIDDEN_BIT - 1) * 10000000000000000000000 <= 4 * x * 75557863725914323419136
              <= (4 * HIDDEN_BIT + 2) * 10000000000000000000000)
  {
  }

  lemma {:induction false} BadIsShortest()
    requires RoundTrips(Double(HIDDEN_BIT, -76), BAD_DIGITS, BAD_EXPONENT)
    ensures Shortest(Double(HIDDEN_BIT, -76), BAD_DIGITS, BAD_EXPONENT)
  {
    hide Pow, RoundTrips, DigitCount;
    BigPowers();
    DigitCountBounds(BAD_DIGITS);
    if DigitCount(BAD_DIGITS) > 16 {
      PowMonotone(10, 16, DigitCount(BAD_DIGITS) - 1);
    }
    forall s: nat, k: int | s > 0 && RoundTrips(Double(HIDDEN_BIT, -76), s, k)
      ensures DigitCount(BAD_DIGITS) <= DigitCount(s)
    {
      if DigitCount(s) < 16 {
        DigitCountBounds(s);
        PowMonotone(10, DigitCount(s), 15);
        NoShorter(s, k);
      }
    }
  }

  /** The lost case exists: 2^-24 has this shortest form, the test fires, and the result is another double. */
  lemma {:induction false} BadTie()
    ensures var n := Double(HIDDEN_BIT, -76);
            && ValidDouble(n) && Shortest(n, BAD_DIGITS, BAD_EXPONENT)
            && LowerEvenTie(n, BAD_DIGITS, BAD_EXPONENT) && !RoundTrips(n, BAD_DIGITS - 1, BAD_EXPONENT)
  {
    hide Pow, OddPart;
    var n := Double(HIDDEN_BIT, -76);
    OddPartOfHidden();
    FiveToTwentyFive();
    Hidden();
    PowStep(2, 52);
    assert LowerEvenTie(n, BAD_DIGITS, BAD_EXPONENT);
    Zeroth();
    EdgeUnits(-76, -23);
    MidpointForm(n, BAD_DIGITS, BAD_EXPONENT);
    var (t, u) := (DecimalUnit(-76, -23), BinaryUnit(-76, -23));
    SlackArithmetic(n.m, BAD_DIGITS, t, u, 1);
    BadIsShortest();
  }
}
