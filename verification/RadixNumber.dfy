/**
 Binary, octal and hexadecimal text as a Number: the exact integer value,
 rounded once to 53 bits with ties to even (IEEE 754-2019, section 4.3.1).
 */
module RadixNumber {
  import opened Powers

  /** A binary format: significant bits, and the bits of its largest integers. */
  datatype Format = Format(precision: nat, bits: nat)

  const BINARY64: Format := Format(53, 1024)

  predicate Sensible(f: Format) {
    2 <= f.precision < f.bits
  }

  /** A nonnegative integral Number, or a value that is not one. */
  datatype Number = NaN | Infinity | Integer(value: nat)

  datatype Digit = NoDigit | Value(value: nat)

  function DigitOf(c: char, radix: nat): (d: Digit)
    ensures d.Value? ==> d.value < radix
  {
    var value :=
      if '0' <= c <= '9' then c as int - '0' as int
      else if 'a' <= c <= 'f' then c as int - 'a' as int + 10
      else if 'A' <= c <= 'F' then c as int - 'A' as int + 10
      else radix;
    if value < radix then Value(value) else NoDigit
  }

  predicate AllDigits(s: string, radix: nat) {
    forall i :: 0 <= i < |s| ==> DigitOf(s[i], radix).Value?
  }

  function ValueOf(s: string, radix: nat): nat
    requires AllDigits(s, radix)
  {
    if s == "" then 0 else ValueOf(s[..|s| - 1], radix) * radix + DigitOf(s[|s| - 1], radix).value
  }

  // ---------------------------------------------------------------------
  // Text and the number it spells, by the digits' own characters

  const SMALL_DIGITS: string := "0123456789abcdef"
  const CAPITAL_DIGITS: string := "0123456789ABCDEF"

  /** The character is the digit of that value. */
  predicate IsDigit(c: char, radix: nat, v: nat) {
    v < radix && v < 16 && (c == SMALL_DIGITS[v] || c == CAPITAL_DIGITS[v])
  }

  lemma {:induction false} DigitCodes(v: nat)
    requires v < 16
    ensures SMALL_DIGITS[v] == (if v < 10 then ('0' as int + v) as char else ('a' as int + (v - 10)) as char)
    ensures CAPITAL_DIGITS[v] == (if v < 10 then ('0' as int + v) as char else ('A' as int + (v - 10)) as char)
  {
    assert v == 0 || v == 1 || v == 2 || v == 3 || v == 4 || v == 5 || v == 6 || v == 7 || v == 8 || v == 9
           || v == 10 || v == 11 || v == 12 || v == 13 || v == 14 || v == 15;
  }

  /** A character has a value exactly when it is the digit of that value, in either case. */
  lemma {:induction false} DigitOfIff(c: char, radix: nat, v: nat)
    requires radix <= 16
    ensures DigitOf(c, radix) == Value(v) <==> IsDigit(c, radix, v)
  {
    if DigitOf(c, radix) == Value(v) {
      DigitCodes(v);
    }
    if IsDigit(c, radix, v) {
      DigitCodes(v);
    }
  }

  /** The text is digits of the radix that spell the number, most significant first. */
  ghost predicate Spells(s: string, radix: nat, n: nat)
    decreases |s|
  {
    if s == "" then n == 0
    else exists m: nat, v: nat :: Step(s, radix, n, m, v) && Spells(s[..|s| - 1], radix, m)
  }

  predicate Step(s: string, radix: nat, n: nat, m: nat, v: nat)
    requires s != ""
  {
    IsDigit(s[|s| - 1], radix, v) && n == m * radix + v
  }

  ghost predicate IsNumeral(s: string, radix: nat) {
    exists n: nat :: Spells(s, radix, n)
  }

  ghost predicate HasForeign(s: string, radix: nat) {
    exists i :: 0 <= i < |s| && IsForeign(s[i], radix)
  }

  ghost predicate IsForeign(c: char, radix: nat) {
    forall v: nat :: !IsDigit(c, radix, v)
  }

  lemma {:induction false} ForeignIff(s: string, radix: nat)
    requires radix <= 16
    ensures HasForeign(s, radix) <==> !AllDigits(s, radix)
  {
    forall i | 0 <= i < |s| ensures IsForeign(s[i], radix) <==> DigitOf(s[i], radix).NoDigit? {
      forall v: nat ensures DigitOf(s[i], radix) == Value(v) <==> IsDigit(s[i], radix, v) {
        DigitOfIff(s[i], radix, v);
      }
    }
  }

  lemma {:induction false} SpellsIff(s: string, radix: nat, n: nat)
    requires radix <= 16
    ensures Spells(s, radix, n) <==> AllDigits(s, radix) && n == ValueOf(s, radix)
    decreases |s|
  {
    if s != "" {
      var last := |s| - 1;
      var front := s[..last];
      if Spells(s, radix, n) {
        var m: nat, v: nat :| Step(s, radix, n, m, v) && Spells(front, radix, m);
        SpellsIff(front, radix, m);
        DigitOfIff(s[last], radix, v);
        assert forall i :: 0 <= i < last ==> s[i] == front[i];
      }
      if AllDigits(s, radix) {
        var m, v := ValueOf(front, radix), DigitOf(s[last], radix).value;
        DigitOfIff(s[last], radix, v);
        SpellsIff(front, radix, m);
        assert n == ValueOf(s, radix) ==> Step(s, radix, n, m, v);
      }
    }
  }

  lemma {:induction false} NumeralOf(s: string, radix: nat)
    requires radix <= 16 && AllDigits(s, radix)
    ensures IsNumeral(s, radix)
  {
    hide Spells;
    SpellsIff(s, radix, ValueOf(s, radix));
  }

  /** The digits of a number, in either case of letters. */
  function Printed(n: nat, radix: nat, capital: bool): string
    requires 2 <= radix <= 16
  {
    var digit := [if capital then CAPITAL_DIGITS[n % radix] else SMALL_DIGITS[n % radix]];
    if n < radix then digit else Printed(n / radix, radix, capital) + digit
  }

  lemma {:induction false} PrintedSpells(n: nat, radix: nat, capital: bool)
    requires 2 <= radix <= 16
    ensures Printed(n, radix, capital) != "" && Spells(Printed(n, radix, capital), radix, n)
  {
    hide Spells;
    var digit := [if capital then CAPITAL_DIGITS[n % radix] else SMALL_DIGITS[n % radix]];
    Requotient(n, radix);
    if n < radix {
      SpellsMore("", radix, 0, digit[0], n);
      assert "" + digit == digit;
    } else {
      PrintedSpells(n / radix, radix, capital);
      SpellsMore(Printed(n / radix, radix, capital), radix, n / radix, digit[0], n % radix);
    }
  }

  lemma {:induction false} Requotient(n: nat, radix: nat)
    requires radix > 0
    ensures n == n / radix * radix + n % radix && n % radix < radix && (n < radix ==> n % radix == n)
  {
  }

  lemma {:induction false} SpellsMore(s: string, radix: nat, m: nat, c: char, v: nat)
    requires ((s == "" && m == 0) || Spells(s, radix, m)) && IsDigit(c, radix, v)
    ensures Spells(s + [c], radix, m * radix + v)
  {
    var more := s + [c];
    assert more[..|more| - 1] == s;
    assert Step(more, radix, m * radix + v, m, v);
    assert Spells(s, radix, m);
  }

  // ---------------------------------------------------------------------
  // Rounding, independent of how it is computed

  ghost predicate Scaled(v: nat, m: nat, e: nat) {
    v == m * Pow(2, e)
  }

  /** An integer that the significant bits can hold. */
  ghost predicate Representable(f: Format, v: nat) {
    exists m: nat, e: nat :: Scaled(v, m, e) && m < Pow(2, f.precision)
  }

  /** The last of the significant bits is zero. */
  ghost predicate EvenSignificand(f: Format, v: nat)
    requires Sensible(f)
  {
    exists m: nat, e: nat :: Scaled(v, m, e) && Pow(2, f.precision - 1) <= m < Pow(2, f.precision) && m % 2 == 0
  }

  function Distance(a: int, b: int): nat {
    if a <= b then b - a else a - b
  }

  /** No representable integer is nearer to `exact`, and if one is as near then the significand here is even. */
  ghost predicate NearestEven(f: Format, exact: nat, v: nat)
    requires Sensible(f)
  {
    && Representable(f, v)
    && forall w: nat :: Representable(f, w) ==>
         && Distance(exact, v) <= Distance(exact, w)
         && (Distance(exact, v) == Distance(exact, w) && w != v ==> EvenSignificand(f, v))
  }

  /** Halfway between the largest finite integer and the power of two above it: overflow starts here. */
  ghost predicate Overflows(f: Format, exact: nat)
    requires Sensible(f)
  {
    exact + Pow(2, f.bits - f.precision - 1) >= Pow(2, f.bits)
  }

  ghost predicate Rounded(f: Format, exact: nat, r: Number)
    requires Sensible(f)
  {
    if Overflows(f, exact) then r == Infinity
    else r.Integer? && NearestEven(f, exact, r.value)
  }

  // ---------------------------------------------------------------------
  // The accumulator

  /** The bits read so far: the leading ones, the next one, and whether any later one was set. */
  datatype Accumulator = Accumulator(count: nat, significand: nat, guard: bool, sticky: bool)

  const NOTHING: Accumulator := Accumulator(0, 0, false, false)

  function Bit(b: bool): nat {
    if b then 1 else 0
  }

  function Push(f: Format, a: Accumulator, bit: bool): Accumulator {
    if a.count == 0 && !bit then a
    else
      var count := a.count + 1;
      if count <= f.precision then Accumulator(count, 2 * a.significand + Bit(bit), a.guard, a.sticky)
      else if count == f.precision + 1 then Accumulator(count, a.significand, bit, a.sticky)
      else Accumulator(count, a.significand, a.guard, a.sticky || bit)
  }

  ghost predicate HasLength(exact: nat, count: nat) {
    if count == 0 then exact == 0 else Pow(2, count - 1) <= exact < Pow(2, count)
  }

  /** The leading bits, the guard bit and the tail put together are the value; `sticky` says whether the tail is zero. */
  ghost predicate HasTail(f: Format, a: Accumulator, exact: nat, tail: nat)
    requires a.count > f.precision
  {
    && exact == (2 * a.significand + Bit(a.guard)) * Pow(2, a.count - f.precision - 1) + tail
    && tail < Pow(2, a.count - f.precision - 1)
    && (a.sticky <==> tail != 0)
  }

  /** The accumulator describes `exact` without loss. */
  ghost predicate Describes(f: Format, a: Accumulator, exact: nat) {
    if a.count <= f.precision then
      a.significand == exact && !a.guard && !a.sticky && HasLength(exact, a.count)
    else
      HasLength(a.significand, f.precision) && exists tail: nat :: HasTail(f, a, exact, tail)
  }

  lemma {:induction false} LengthGrows(exact: nat, count: nat, bit: bool)
    requires HasLength(exact, count) && (count > 0 || bit)
    ensures HasLength(2 * exact + Bit(bit), count + 1)
  {
    assert count > 0 ==> Pow(2, count) == 2 * Pow(2, count - 1);
    assert Pow(2, count + 1) == 2 * Pow(2, count);
  }

  lemma {:induction false} TailGrows(f: Format, a: Accumulator, exact: nat, tail: nat, bit: bool)
    requires a.count > f.precision && HasTail(f, a, exact, tail)
    ensures HasTail(f, Push(f, a, bit), 2 * exact + Bit(bit), 2 * tail + Bit(bit))
  {
    hide Pow;
    var k := a.count - f.precision - 1;
    PowStep(2, k);
    MulDouble(2 * a.significand + Bit(a.guard), Pow(2, k));
  }

  lemma {:induction false} PushDescribes(f: Format, a: Accumulator, exact: nat, bit: bool)
    requires Sensible(f) && Describes(f, a, exact)
    ensures Describes(f, Push(f, a, bit), 2 * exact + Bit(bit))
  {
    if a.count < f.precision {
      if a.count > 0 || bit { LengthGrows(exact, a.count, bit); }
    } else if a.count == f.precision {
      assert Pow(2, 0) == 1;
      assert HasTail(f, Push(f, a, bit), 2 * exact + Bit(bit), 0);
    } else {
      var tail :| HasTail(f, a, exact, tail);
      TailGrows(f, a, exact, tail, bit);
    }
  }

  /** The result from the accumulated bits. */
  function Round(f: Format, a: Accumulator): Number {
    if a.count <= f.precision then Integer(a.significand)
    else if a.count > f.bits then Infinity
    else
      var significand := if a.guard && (a.sticky || a.significand % 2 == 1) then a.significand + 1 else a.significand;
      Product(f, significand, a.count - f.precision)
  }

  /** A significand times a power of two: exact, or too large for a finite Number. */
  function Product(f: Format, significand: nat, exponent: nat): Number {
    var value := significand * Pow(2, exponent);
    if value < Pow(2, f.bits) then Integer(value) else Infinity
  }

  // ---------------------------------------------------------------------
  // The accumulator rounds correctly

  lemma {:induction false} LeadBound(significand: nat, precision: nat)
    requires precision >= 1 && HasLength(significand, precision)
    ensures Pow(2, precision) <= 2 * significand && significand < Pow(2, precision)
  {
    PowStep(2, precision - 1);
  }

  lemma {:induction false} ExponentAtLeast(f: Format, significand: nat, k: nat, m: nat, e: nat)
    requires Sensible(f) && HasLength(significand, f.precision) && m < Pow(2, f.precision)
    requires m * Pow(2, e) > significand * Pow(2, k)
    ensures e >= k
  {
    LeadBound(significand, f.precision);
    hide Pow, HasLength;
    if e < k {
      PowMonotone(2, e, k - 1);
      PowStep(2, k - 1);
      MulBoth(m, 2 * significand, Pow(2, e), Pow(2, k - 1));
      MulDouble(significand, Pow(2, k - 1));
    }
  }

  /** Nothing representable lies strictly between two neighbours of a binade. */
  lemma {:induction false} NothingBetween(f: Format, significand: nat, k: nat, w: nat)
    requires Sensible(f) && HasLength(significand, f.precision) && Representable(f, w)
    ensures w <= significand * Pow(2, k) || (significand + 1) * Pow(2, k) <= w
  {
    hide Pow, HasLength;
    if w > significand * Pow(2, k) {
      var m: nat, e: nat :| Scaled(w, m, e) && m < Pow(2, f.precision);
      ExponentAtLeast(f, significand, k, m, e);
      PowAdd(2, e - k, k);
      MulAssoc(m, Pow(2, e - k), Pow(2, k));
      var q := m * Pow(2, e - k);
      PowPositive(2, k);
      MulCancel(significand, q, Pow(2, k));
      MulMonotone(significand + 1, q, Pow(2, k));
    }
  }

  /** `exact` lies `offset` above the lower of two neighbours that are `2 * half` apart. */
  ghost predicate Between(f: Format, exact: nat, significand: nat, k: nat, half: nat, offset: nat) {
    && HasLength(significand, f.precision)
    && Pow(2, k) == 2 * half
    && exact == significand * Pow(2, k) + offset
    && offset < 2 * half
  }

  lemma {:induction false} LowerIsNearest(f: Format, exact: nat, significand: nat, k: nat, half: nat, offset: nat)
    requires Sensible(f) && Between(f, exact, significand, k, half, offset)
    requires offset < half || (offset == half && significand % 2 == 0)
    ensures NearestEven(f, exact, significand * Pow(2, k))
  {
    LeadBound(significand, f.precision);
    PowStep(2, f.precision - 1);
    hide Pow;
    var v := significand * Pow(2, k);
    assert Scaled(v, significand, k);
    if offset == half { assert EvenSignificand(f, v); }
    forall w: nat | Representable(f, w)
      ensures Distance(exact, v) <= Distance(exact, w)
      ensures Distance(exact, v) == Distance(exact, w) && w != v ==> EvenSignificand(f, v)
    {
      NothingBetween(f, significand, k, w);
      Distribute(significand, Pow(2, k));
    }
  }

  lemma Distribute(a: int, b: int)
    ensures (a + 1) * b == a * b + b
  {
  }

  lemma {:induction false} EvenPower(n: nat)
    requires n >= 1
    ensures Pow(2, n) % 2 == 0
  {
    PowStep(2, n - 1);
  }

  /** The upper neighbour is a value of the format, and even if the lower one is odd. */
  lemma {:induction false} UpperIsValue(f: Format, significand: nat, k: nat)
    requires Sensible(f) && HasLength(significand, f.precision)
    ensures Representable(f, (significand + 1) * Pow(2, k))
    ensures significand % 2 == 1 ==> EvenSignificand(f, (significand + 1) * Pow(2, k))
  {
    hide Pow;
    LeadBound(significand, f.precision);
    PowStep(2, f.precision - 1);
    EvenPower(f.precision - 1);
    var v := (significand + 1) * Pow(2, k);
    if significand + 1 < Pow(2, f.precision) {
      assert Scaled(v, significand + 1, k);
    } else {
      var top := Pow(2, f.precision - 1);
      assert significand + 1 == 2 * top;
      PowStep(2, k);
      MulDouble(top, Pow(2, k));
      assert Scaled(v, top, k + 1);
    }
  }

  lemma {:induction false} UpperIsNearest(f: Format, exact: nat, significand: nat, k: nat, half: nat, offset: nat)
    requires Sensible(f) && Between(f, exact, significand, k, half, offset)
    requires half < offset || (offset == half && significand % 2 == 1)
    ensures NearestEven(f, exact, (significand + 1) * Pow(2, k))
  {
    UpperIsValue(f, significand, k);
    hide Pow, EvenSignificand;
    var v := (significand + 1) * Pow(2, k);
    forall w: nat | Representable(f, w)
      ensures Distance(exact, v) <= Distance(exact, w)
      ensures Distance(exact, v) == Distance(exact, w) && w != v ==> EvenSignificand(f, v)
    {
      NothingBetween(f, significand, k, w);
      Distribute(significand, Pow(2, k));
    }
  }

  lemma {:induction false} NoOverflowBelow(f: Format, exact: nat, significand: nat, k: nat, half: nat, offset: nat)
    requires Sensible(f) && Between(f, exact, significand, k, half, offset) && k + f.precision < f.bits
    ensures !Overflows(f, exact) && (significand + 1) * Pow(2, k) < Pow(2, f.bits)
  {
    hide Pow, HasLength;
    LeadBound(significand, f.precision);
    PowAdd(2, f.precision, k);
    PowMonotone(2, f.precision + k, f.bits - 1);
    PowMonotone(2, f.bits - f.precision - 1, f.bits - 1);
    PowPositive(2, f.bits - 1);
    PowStep(2, f.bits - 1);
    MulMonotone(significand + 1, Pow(2, f.precision), Pow(2, k));
    Distribute(significand, Pow(2, k));
  }

  /** At the top binade only the last neighbour's upper half overflows. */
  lemma {:induction false} OverflowAtTop(f: Format, exact: nat, significand: nat, k: nat, half: nat, offset: nat)
    requires Sensible(f) && Between(f, exact, significand, k, half, offset) && k + f.precision == f.bits
    ensures if significand + 1 < Pow(2, f.precision)
            then !Overflows(f, exact) && (significand + 1) * Pow(2, k) < Pow(2, f.bits)
            else significand % 2 == 1 && (Overflows(f, exact) <==> offset >= half)
                 && (significand + 1) * Pow(2, k) == Pow(2, f.bits)
  {
    hide Pow, HasLength;
    LeadBound(significand, f.precision);
    PowAdd(2, f.precision, k);
    PowStep(2, k - 1);
    EvenPower(f.precision);
    PowPositive(2, k - 1);
    TopArithmetic(significand, Pow(2, f.precision), half, offset);
  }

  lemma TopArithmetic(significand: int, cap: int, half: int, offset: int)
    requires significand < cap && 0 <= offset < 2 * half
    ensures significand + 1 < cap ==>
              && significand * (2 * half) + offset + half < cap * (2 * half)
              && (significand + 1) * (2 * half) < cap * (2 * half)
    ensures significand + 1 == cap ==>
              (significand * (2 * half) + offset + half >= cap * (2 * half) <==> offset >= half)
  {
    var step := 2 * half;
    Distribute(significand, step);
    if significand + 1 < cap {
      Distribute(significand + 1, step);
      MulMonotone(significand + 2, cap, step);
    }
  }

  /** Where overflow starts, and which of the two neighbours reaches it. */
  lemma {:induction false} OverflowAt(f: Format, exact: nat, significand: nat, k: nat, half: nat, offset: nat)
    requires Sensible(f) && Between(f, exact, significand, k, half, offset) && k + f.precision <= f.bits
    ensures significand * Pow(2, k) < Pow(2, f.bits)
    ensures Overflows(f, exact) ==> significand % 2 == 1 && offset >= half && (significand + 1) * Pow(2, k) >= Pow(2, f.bits)
    ensures !Overflows(f, exact) && offset >= half ==> (significand + 1) * Pow(2, k) < Pow(2, f.bits)
  {
    hide Pow, HasLength, Overflows;
    PowPositive(2, k);
    Distribute(significand, Pow(2, k));
    if k + f.precision < f.bits {
      NoOverflowBelow(f, exact, significand, k, half, offset);
    } else {
      OverflowAtTop(f, exact, significand, k, half, offset);
    }
  }

  lemma {:induction false} RoundsShort(f: Format, exact: nat)
    requires Sensible(f) && exact < Pow(2, f.precision)
    ensures Rounded(f, exact, Integer(exact))
  {
    assert Pow(2, 0) == 1;
    assert Scaled(exact, exact, 0);
    PowMonotone(2, f.precision, f.bits - 1);
    PowMonotone(2, f.bits - f.precision - 1, f.bits - 1);
    PowStep(2, f.bits - 1);
  }

  lemma {:induction false} Huge(f: Format, exact: nat, significand: nat, k: nat)
    requires Sensible(f) && HasLength(significand, f.precision) && exact >= significand * Pow(2, k)
    requires k + f.precision > f.bits
    ensures Overflows(f, exact)
  {
    hide Pow;
    PowMonotone(2, f.bits, f.precision - 1 + k);
    PowAdd(2, f.precision - 1, k);
    MulMonotone(Pow(2, f.precision - 1), significand, Pow(2, k));
  }

  /** Rounding the accumulated bits is rounding the exact value. */
  lemma {:induction false} RoundCorrect(f: Format, a: Accumulator, exact: nat)
    requires Sensible(f) && Describes(f, a, exact)
    ensures Rounded(f, exact, Round(f, a))
  {
    hide Pow, NearestEven, Overflows, HasLength;
    if a.count <= f.precision {
      ShortLength(f, exact, a.count);
      RoundsShort(f, exact);
    } else {
      var tail :| HasTail(f, a, exact, tail);
      var (k, half) := (a.count - f.precision, Pow(2, a.count - f.precision - 1));
      var offset := Bit(a.guard) * half + tail;
      PowStep(2, k - 1);
      PowPositive(2, k - 1);
      Split(a.significand, a.guard, half);
      assert Between(f, exact, a.significand, k, half, offset);
      if a.count > f.bits {
        Huge(f, exact, a.significand, k);
      } else {
        OverflowAt(f, exact, a.significand, k, half, offset);
        if offset < half || (offset == half && a.significand % 2 == 0) {
          LowerIsNearest(f, exact, a.significand, k, half, offset);
        } else {
          UpperIsNearest(f, exact, a.significand, k, half, offset);
        }
      }
    }
  }

  lemma {:induction false} ShortLength(f: Format, exact: nat, count: nat)
    requires count <= f.precision && HasLength(exact, count)
    ensures exact < Pow(2, f.precision)
  {
    PowPositive(2, f.precision);
    PowMonotone(2, count, f.precision);
  }

  lemma Split(significand: nat, guard: bool, half: nat)
    ensures (2 * significand + Bit(guard)) * half == significand * (2 * half) + Bit(guard) * half
  {
    MulDouble(significand, half);
    MulDouble(half, significand);
  }

  // ---------------------------------------------------------------------
  // The loop over the digits

  /** What `shift` low bits of a digit are still to come after. */
  function Sofar(prefix: nat, digit: nat, digitBits: nat, shift: nat): nat
    requires shift <= digitBits
  {
    PowPositive(2, shift);
    prefix * Pow(2, digitBits - shift) + digit / Pow(2, shift)
  }

  lemma {:induction false} NextBit(prefix: nat, digit: nat, digitBits: nat, shift: nat)
    requires shift < digitBits
    ensures Pow(2, shift) > 0
    ensures Sofar(prefix, digit, digitBits, shift)
         == 2 * Sofar(prefix, digit, digitBits, shift + 1) + digit / Pow(2, shift) % 2
  {
    hide Pow;
    PowPositive(2, shift);
    PowStep(2, shift);
    PowStep(2, digitBits - shift - 1);
    MulDouble(prefix, Pow(2, digitBits - shift - 1));
    DivHalve(digit, Pow(2, shift));
  }

  lemma {:induction false} DigitEnds(prefix: nat, digit: nat, digitBits: nat)
    requires digit < Pow(2, digitBits)
    ensures Sofar(prefix, digit, digitBits, digitBits) == prefix
    ensures Sofar(prefix, digit, digitBits, 0) == prefix * Pow(2, digitBits) + digit
  {
    assert Pow(2, 0) == 1;
    DivUnique(digit, Pow(2, digitBits), 0, digit);
  }

  lemma {:induction false} ValueStep(s: string, radix: nat, i: nat)
    requires i < |s| && AllDigits(s[..i], radix) && DigitOf(s[i], radix).Value?
    ensures AllDigits(s[..i + 1], radix)
    ensures ValueOf(s[..i + 1], radix) == ValueOf(s[..i], radix) * radix + DigitOf(s[i], radix).value
  {
    var t := s[..i + 1];
    assert t[..|t| - 1] == s[..i];
    assert forall j :: 0 <= j < i ==> t[j] == s[..i][j];
  }

  lemma {:induction false} BadDigit(s: string, radix: nat, i: nat)
    requires i < |s| && DigitOf(s[i], radix).NoDigit?
    ensures !AllDigits(s, radix)
  {
  }

  /** The bits of one digit, from the highest down, into the four variables of the loop. */
  method PushDigit(a: Accumulator, ghost prefix: nat, digit: nat, digitBits: nat) returns (b: Accumulator)
    requires digit < Pow(2, digitBits) && Describes(BINARY64, a, prefix)
    ensures Describes(BINARY64, b, prefix * Pow(2, digitBits) + digit)
  {
    hide Pow, Describes, Sofar;
    var Accumulator(count, significand, guard, sticky) := a;
    DigitEnds(prefix, digit, digitBits);
    for shift := digitBits downto 0
      invariant Describes(BINARY64, Accumulator(count, significand, guard, sticky),
                          Sofar(prefix, digit, digitBits, shift))
    {
      NextBit(prefix, digit, digitBits, shift);
      var bit := digit / Pow(2, shift) % 2;
      PushDescribes(BINARY64, Accumulator(count, significand, guard, sticky),
                    Sofar(prefix, digit, digitBits, shift + 1), bit == 1);
      if count == 0 && bit == 0 { continue; }
      count := count + 1;
      if count <= 53 {
        significand := 2 * significand + bit;
      } else if count == 54 {
        guard := bit != 0;
      } else {
        sticky := sticky || bit != 0;
      }
    }
    b := Accumulator(count, significand, guard, sticky);
  }

  /**
   The text after `0x`, `0o` or `0b`. No digits or a foreign character is not a
   number; anything else is its exact value rounded once, whatever its length.
   */
  method ParseRadix(s: string, digitBits: nat) returns (r: Number)
    requires digitBits == 1 || digitBits == 3 || digitBits == 4
    ensures var radix := if digitBits == 1 then 2 else if digitBits == 3 then 8 else 16;
            && (r == NaN <==> s == "" || HasForeign(s, radix))
            && (forall n: nat :: s != "" && Spells(s, radix, n) ==> Rounded(BINARY64, n, r))
            && (s == "" || HasForeign(s, radix) || IsNumeral(s, radix))
  {
    hide Pow, Rounded, Describes, Spells, HasForeign, DigitOf, IsNumeral;
    if s == "" { return NaN; }
    var radix := Pow(2, digitBits);
    Radices(digitBits);
    ForeignIff(s, radix);
    forall n: nat ensures Spells(s, radix, n) <==> AllDigits(s, radix) && n == ValueOf(s, radix) {
      SpellsIff(s, radix, n);
    }
    if AllDigits(s, radix) {
      NumeralOf(s, radix);
    }
    var bits := NOTHING;
    Start();
    for i := 0 to |s|
      invariant AllDigits(s[..i], radix)
      invariant Describes(BINARY64, bits, ValueOf(s[..i], radix))
    {
      var digit := DigitOf(s[i], radix);
      if digit.NoDigit? {
        BadDigit(s, radix, i);
        return NaN;
      }
      bits := PushDigit(bits, ValueOf(s[..i], radix), digit.value, digitBits);
      ValueStep(s, radix, i);
    }
    assert s[..|s|] == s;
    RoundCorrect(BINARY64, bits, ValueOf(s, radix));
    var Accumulator(count, significand, guard, sticky) := bits;
    if count <= 53 { return Integer(significand); }
    if count > 1024 { return Infinity; }
    if guard && (sticky || significand % 2 != 0) { significand := significand + 1; }
    r := Product(BINARY64, significand, count - 53);
  }

  lemma Radices(digitBits: nat)
    requires digitBits == 1 || digitBits == 3 || digitBits == 4
    ensures Pow(2, digitBits) == if digitBits == 1 then 2 else if digitBits == 3 then 8 else 16
  {
  }

  lemma Start()
    ensures Describes(BINARY64, NOTHING, 0)
  {
  }
}
