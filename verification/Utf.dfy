/**
 UTF-8 and UTF-16 forms of Unicode scalar values.
 */
module Utf {
  import opened CodeUnits

  type Byte = n: nat | n < 256

  predicate IsScalar(c: nat) {
    c < 0xd800 || 0xe000 <= c <= 0x10ffff
  }

  type Scalar = c: nat | IsScalar(c)

  // ---------------------------------------------------------------------
  // UTF-16

  predicate IsHigh(unit: Unit) {
    0xd800 <= unit <= 0xdbff
  }

  predicate IsLow(unit: Unit) {
    0xdc00 <= unit <= 0xdfff
  }

  function Utf16(c: Scalar): seq<Unit> {
    if c < 0x10000 then [c]
    else
      assert IsScalar(c);
      var high: Unit := 0xd800 + (c - 0x10000) / 0x400;
      var low: Unit := 0xdc00 + (c - 0x10000) % 0x400;
      [high, low]
  }

  function Utf16All(text: seq<Scalar>): seq<Unit> {
    if text == [] then [] else Utf16(text[0]) + Utf16All(text[1..])
  }

  /** No surrogate stands alone. */
  ghost predicate WellFormed(units: seq<Unit>) {
    && (forall i :: 0 <= i < |units| && IsHigh(units[i]) ==> HasLow(units, i + 1))
    && (forall i :: 0 <= i < |units| && IsLow(units[i]) ==> HasHigh(units, i - 1))
  }

  predicate HasLow(units: seq<Unit>, i: int) {
    0 <= i < |units| && IsLow(units[i])
  }

  predicate HasHigh(units: seq<Unit>, i: int) {
    0 <= i < |units| && IsHigh(units[i])
  }

  // ---------------------------------------------------------------------
  // UTF-8

  predicate IsTail(b: Byte) {
    0x80 <= b <= 0xbf
  }

  /** A continuation byte: the low six bits. */
  function Tail(n: nat): (b: Byte)
    ensures IsTail(b) && n == n / 64 * 64 + (b - 0x80)
  {
    0x80 + n % 64
  }

  function Utf8(c: Scalar): seq<Byte> {
    if c < 0x80 then [c]
    else if c < 0x800 then
      var lead: Byte := 0xc0 + c / 64;
      [lead, Tail(c)]
    else if c < 0x10000 then
      var lead: Byte := 0xe0 + c / 64 / 64;
      [lead, Tail(c / 64), Tail(c)]
    else
      assert IsScalar(c);
      var lead: Byte := 0xf0 + c / 64 / 64 / 64;
      [lead, Tail(c / 64 / 64), Tail(c / 64), Tail(c)]
  }

  function Utf8All(text: seq<Scalar>): seq<Byte> {
    if text == [] then [] else Utf8(text[0]) + Utf8All(text[1..])
  }

  /** One well-formed UTF-8 sequence: the grammar of section 4 of RFC 3629. */
  predicate IsUtf8(b: seq<Byte>) {
    match |b|
    case 1 => b[0] <= 0x7f
    case 2 => 0xc2 <= b[0] <= 0xdf && IsTail(b[1])
    case 3 =>
      && IsTail(b[2])
      && ( || (b[0] == 0xe0 && 0xa0 <= b[1] <= 0xbf)
           || (0xe1 <= b[0] <= 0xec && IsTail(b[1]))
           || (b[0] == 0xed && 0x80 <= b[1] <= 0x9f)
           || (0xee <= b[0] <= 0xef && IsTail(b[1])))
    case 4 =>
      && IsTail(b[2]) && IsTail(b[3])
      && ( || (b[0] == 0xf0 && 0x90 <= b[1] <= 0xbf)
           || (0xf1 <= b[0] <= 0xf3 && IsTail(b[1]))
           || (b[0] == 0xf4 && 0x80 <= b[1] <= 0x8f))
    case _ => false
  }

  /** Appends the six bits of a continuation byte. */
  function Push(n: int, b: Byte): int {
    n * 64 + (b as int - 0x80)
  }

  /** The scalar value of a well-formed sequence. */
  function FromUtf8(b: seq<Byte>): (c: Scalar)
    requires IsUtf8(b)
  {
    var lead: int := b[0];
    if |b| == 1 then b[0]
    else if |b| == 2 then Push(lead - 0xc0, b[1])
    else if |b| == 3 then Push(Push(lead - 0xe0, b[1]), b[2])
    else Push(Push(Push(lead - 0xf0, b[1]), b[2]), b[3])
  }

  lemma {:induction false} PushTail(n: nat, b: Byte)
    requires IsTail(b)
    ensures Push(n, b) >= 0 && Push(n, b) / 64 == n && Tail(Push(n, b)) == b
  {
  }

  /** Every scalar value has exactly one well-formed sequence. */
  lemma {:induction false} Utf8IsUtf8(c: Scalar)
    ensures IsUtf8(Utf8(c)) && FromUtf8(Utf8(c)) == c
  {
    hide Tail;
    assert IsScalar(c);
    assert Push(c / 64, Tail(c)) == c;
    assert Push(c / 64 / 64, Tail(c / 64)) == c / 64;
    assert Push(c / 64 / 64 / 64, Tail(c / 64 / 64)) == c / 64 / 64;
  }

  lemma {:induction false} FromUtf8IsInverse(b: seq<Byte>)
    requires IsUtf8(b)
    ensures Utf8(FromUtf8(b)) == b
  {
    hide Tail;
    var lead: int := b[0];
    if |b| == 2 {
      PushTail(lead - 0xc0, b[1]);
    } else if |b| == 3 {
      PushTail(lead - 0xe0, b[1]);
      PushTail(Push(lead - 0xe0, b[1]), b[2]);
    } else if |b| == 4 {
      PushTail(lead - 0xf0, b[1]);
      PushTail(Push(lead - 0xf0, b[1]), b[2]);
      PushTail(Push(Push(lead - 0xf0, b[1]), b[2]), b[3]);
    }
  }

  /**
   The payload bits of each form, as section 3 of RFC 3629 lays them out: the
   first byte carries the highest.
   */
  lemma {:induction false} Utf8Layout(c: Scalar)
    ensures var b := Utf8(c);
            && (c <= 0x7f ==> b == [c])
            && (0x80 <= c <= 0x7ff ==> |b| == 2 && c == (b[0] as int - 0xc0) * 64 + (b[1] as int - 0x80))
            && (0x800 <= c <= 0xffff ==>
                  |b| == 3 && c == (b[0] as int - 0xe0) * 4096 + (b[1] as int - 0x80) * 64 + (b[2] as int - 0x80))
            && (0x10000 <= c ==>
                  |b| == 4 && c == (b[0] as int - 0xf0) * 262144 + (b[1] as int - 0x80) * 4096
                                   + (b[2] as int - 0x80) * 64 + (b[3] as int - 0x80))
  {
    hide Tail;
    assert IsScalar(c);
    assert Push(c / 64, Tail(c)) == c;
    assert Push(c / 64 / 64, Tail(c / 64)) == c / 64;
    assert Push(c / 64 / 64 / 64, Tail(c / 64 / 64)) == c / 64 / 64;
  }

  /** A surrogate pair carries ten bits each, the high one first, above 0x10000 (section 2.1 of RFC 2781). */
  lemma {:induction false} Utf16Layout(c: Scalar)
    ensures c <= 0xffff ==> Utf16(c) == [c]
    ensures c >= 0x10000 ==>
              var u := Utf16(c);
              |u| == 2 && IsHigh(u[0]) && IsLow(u[1]) && c == 0x10000 + (u[0] as int - 0xd800) * 1024 + (u[1] as int - 0xdc00)
  {
    assert IsScalar(c);
  }
}
