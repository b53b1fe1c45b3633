/**
 Keys of Map and Set: SameValueZero on values, and the canonical form its hash
 is computed from.
 */
module SameValueZero {

  const TWO_63: nat := 0x8000_0000_0000_0000
  const INFINITY_BITS: nat := 0x7ff0_0000_0000_0000
  const ALL_ONES: nat := 0xffff_ffff_ffff_ffff

  /** A binary64 number by its bits; the sign is the top bit. */
  type Bits = n: nat | n <= ALL_ONES

  datatype Value =
    | Undefined
    | Null
    | Bool(flag: bool)
    | Number(bits: Bits)
    | BigInt(integer: int)
    | String(units: seq<nat>)
    | Symbol(symbol: nat)
    | Object(id: nat)

  predicate IsNan(b: Bits) {
    b % TWO_63 > INFINITY_BITS
  }

  predicate IsZero(b: Bits) {
    b % TWO_63 == 0
  }

  /** IEEE equality: a NaN equals nothing and the two zeros are equal. */
  predicate NumberEquals(a: Bits, b: Bits) {
    !IsNan(a) && !IsNan(b) && (a == b || (IsZero(a) && IsZero(b)))
  }

  predicate ValueEquals(a: Value, b: Value) {
    if a.Number? && b.Number? then NumberEquals(a.bits, b.bits) else a == b
  }

  predicate Same(a: Value, b: Value) {
    ValueEquals(a, b) || (a.Number? && b.Number? && IsNan(a.bits) && IsNan(b.bits))
  }

  /** What the hash of a key is computed from. */
  function Canonical(v: Value): (r: Value)
    ensures Same(v, r)
  {
    match v
    case Number(bits) => if IsNan(bits) then Number(ALL_ONES) else if IsZero(bits) then Number(0) else v
    case _ => v
  }

  /** Keys are the same exactly when they hash the same data. */
  lemma {:induction false} SameIffCanonical(a: Value, b: Value)
    ensures Same(a, b) <==> Canonical(a) == Canonical(b)
  {
    if a.Number? && b.Number? {
      assert IsNan(ALL_ONES) && !IsNan(0) && IsZero(0);
      assert !(IsNan(a.bits) && IsZero(a.bits));
    }
  }

  lemma {:induction false} SameIsEquivalence(a: Value, b: Value, c: Value)
    ensures Same(a, a)
    ensures Same(a, b) <==> Same(b, a)
    ensures Same(a, b) && Same(b, c) ==> Same(a, c)
  {
    SameIffCanonical(a, b);
    SameIffCanonical(b, c);
    SameIffCanonical(a, c);
  }

  /** The bit patterns of NaN, of either sign. */
  predicate NanBits(b: Bits) {
    0x7ff0_0000_0000_0001 <= b <= 0x7fff_ffff_ffff_ffff || 0xfff0_0000_0000_0001 <= b <= 0xffff_ffff_ffff_ffff
  }

  /** Positive and negative zero. */
  predicate ZeroBits(b: Bits) {
    b == 0 || b == 0x8000_0000_0000_0000
  }

  /** Two values are one key exactly when they are equal, or both zeros, or both NaN. */
  lemma {:induction false} SameKeyIff(a: Value, b: Value)
    ensures Same(a, b) <==>
            a == b || (a.Number? && b.Number? && ((ZeroBits(a.bits) && ZeroBits(b.bits)) || (NanBits(a.bits) && NanBits(b.bits))))
  {
    if a.Number? && b.Number? {
      NumberKinds(a.bits);
      NumberKinds(b.bits);
    }
  }

  lemma {:induction false} NumberKinds(b: Bits)
    ensures IsNan(b) <==> NanBits(b)
    ensures IsZero(b) <==> ZeroBits(b)
  {
  }
}
