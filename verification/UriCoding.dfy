/**
 What encodeURI, decodeURI, escape and unescape do to a string of UTF-16 code
 units: each is a run of moves that emit units and step over input.
 */
module UriCoding {
  import opened Options
  import opened CodeUnits
  import opened Utf

  datatype Coder = Encode(component: bool) | Decode(component: bool) | Escape | Unescape

  datatype Move = Stop | Emit(output: seq<Unit>, width: nat)

  /** The units emitted before the end or the first malformed place. */
  datatype Coding = Coding(output: seq<Unit>, complete: bool)

  const PERCENT: Unit := 0x25
  const LETTER_U: Unit := 0x75

  function HexDigit(n: nat): (u: Unit)
    requires n < 16
  {
    if n < 10 then 0x30 + n else 0x41 + (n - 10)
  }

  function Percent(b: Byte): seq<Unit> {
    [PERCENT, HexDigit(b / 16), HexDigit(b % 16)]
  }

  function PercentAll(bytes: seq<Byte>): seq<Unit> {
    if bytes == [] then [] else Percent(bytes[0]) + PercentAll(bytes[1..])
  }

  /** The byte written as a percent sign and two hexadecimal digits at a place. */
  function PercentByte(units: seq<Unit>, i: nat): Option<Byte> {
    if i + 2 < |units| && units[i] == PERCENT && HexValue(units[i + 1]).Some? && HexValue(units[i + 2]).Some? then
      Some(HexValue(units[i + 1]).value * 16 + HexValue(units[i + 2]).value)
    else None
  }

  predicate Unescaped(c: nat, component: bool) {
    || 0x41 <= c <= 0x5a || 0x61 <= c <= 0x7a || 0x30 <= c <= 0x39
    || c in {0x2d, 0x5f, 0x2e, 0x21, 0x7e, 0x2a, 0x27, 0x28, 0x29}
    || (!component && Reserved(c))
  }

  predicate Reserved(c: nat) {
    c in {0x3b, 0x2f, 0x3f, 0x3a, 0x40, 0x26, 0x3d, 0x2b, 0x24, 0x2c, 0x23}
  }

  predicate EscapeKeeps(unit: Unit) {
    || 0x41 <= unit <= 0x5a || 0x61 <= unit <= 0x7a || 0x30 <= unit <= 0x39
    || unit in {0x40, 0x2a, 0x5f, 0x2b, 0x2d, 0x2e, 0x2f}
  }

  // ---------------------------------------------------------------------
  // Moves

  /** The scalar value at the start of the units, if no surrogate stands alone there. */
  function FirstScalar(units: seq<Unit>): (r: Option<Scalar>)
    requires units != []
    ensures r.Some? ==> Utf16(r.value) <= units
  {
    if IsHigh(units[0]) then
      if |units| >= 2 && IsLow(units[1]) then
        var high: int, low: int := units[0], units[1];
        Some(0x10000 + (high - 0xd800) * 0x400 + (low - 0xdc00))
      else None
    else if IsLow(units[0]) then None
    else Some(units[0])
  }

  /** A scalar value as encodeURI writes it. */
  function Encoded(c: Scalar, component: bool): seq<Unit> {
    if Unescaped(c, component) then Utf16(c) else PercentAll(Utf8(c))
  }

  /** How many bytes a UTF-8 sequence with this first byte has; 0 if none starts with it. */
  function Octets(first: Byte): nat {
    if first < 0x80 then 1
    else if 0xc2 <= first <= 0xdf then 2
    else if 0xe0 <= first <= 0xef then 3
    else if 0xf0 <= first <= 0xf4 then 4
    else 0
  }

  /** The next percent-written bytes, all of them continuation bytes. */
  function Tails(units: seq<Unit>, i: nat, count: nat): Option<seq<Byte>>
    decreases count
  {
    if count == 0 then Some([])
    else
      var b := PercentByte(units, i);
      if b.None? || !IsTail(b.value) then None
      else
        var rest := Tails(units, i + 3, count - 1);
        if rest.None? then None else Some([b.value] + rest.value)
  }

  function DecodeMove(units: seq<Unit>, component: bool): Move
    requires units != []
  {
    if units[0] != PERCENT then Emit([units[0]], 1)
    else
      var first := PercentByte(units, 0);
      if first.None? then Stop
      else if first.value < 0x80 then
        if !component && Reserved(first.value) then Emit(units[..3], 3) else Emit([first.value], 3)
      else
        var n := Octets(first.value);
        if n == 0 then Stop
        else
          var tails := Tails(units, 3, n - 1);
          if tails.None? || !IsUtf8([first.value] + tails.value) then Stop
          else Emit(Utf16(FromUtf8([first.value] + tails.value)), 3 * n)
  }

  function Escaped(unit: Unit): seq<Unit> {
    if EscapeKeeps(unit) then [unit]
    else if unit < 256 then [PERCENT, HexDigit(unit / 16), HexDigit(unit % 16)]
    else
      [PERCENT, LETTER_U, HexDigit(unit / 4096), HexDigit(unit / 256 % 16), HexDigit(unit / 16 % 16), HexDigit(unit % 16)]
  }

  /** The number written by some hexadecimal digits at a place. */
  function HexNumber(units: seq<Unit>, from: nat, count: nat): Option<nat> {
    if count == 0 then Some(0)
    else if from + count > |units| then None
    else
      var high := HexNumber(units, from, count - 1);
      var low := HexValue(units[from + count - 1]);
      if high.None? || low.None? then None else Some(high.value * 16 + low.value)
  }

  function UnescapeMove(units: seq<Unit>): Move
    requires units != []
  {
    var long := if units[0] == PERCENT && |units| > 1 && units[1] == LETTER_U then HexNumber(units, 2, 4) else None;
    if long.Some? then Emit([long.value % UNITS], 6)
    else
      var short := if units[0] == PERCENT then HexNumber(units, 1, 2) else None;
      if short.Some? then Emit([short.value % UNITS], 3) else Emit([units[0]], 1)
  }

  function Step(coder: Coder, units: seq<Unit>): Move
    requires units != []
  {
    match coder
    case Encode(component) =>
      var c := FirstScalar(units);
      if c.None? then Stop else Emit(Encoded(c.value, component), |Utf16(c.value)|)
    case Decode(component) => DecodeMove(units, component)
    case Escape => Emit(Escaped(units[0]), 1)
    case Unescape => UnescapeMove(units)
  }

  lemma {:induction false} TailsFit(units: seq<Unit>, i: nat, count: nat)
    requires count > 0 && Tails(units, i, count).Some?
    ensures i + 3 * count <= |units| && |Tails(units, i, count).value| == count
    decreases count
  {
    if count > 1 {
      TailsFit(units, i + 3, count - 1);
    }
  }

  lemma {:induction false} StepFits(coder: Coder, units: seq<Unit>)
    requires units != []
    ensures var move := Step(coder, units); move.Emit? ==> 1 <= move.width <= |units|
  {
    if coder.Decode? && units[0] == PERCENT {
      var first := PercentByte(units, 0);
      if first.Some? && Octets(first.value) > 1 && Tails(units, 3, Octets(first.value) - 1).Some? {
        TailsFit(units, 3, Octets(first.value) - 1);
      }
    }
  }

  function Run(coder: Coder, units: seq<Unit>): Coding {
    if units == [] then Coding([], true)
    else
      StepFits(coder, units);
      match Step(coder, units)
      case Stop => Coding([], false)
      case Emit(output, width) =>
        var rest := Run(coder, units[width..]);
        Coding(output + rest.output, rest.complete)
  }

  // ---------------------------------------------------------------------
  // The limit on a result, in bytes of two per unit

  datatype Error = Malformed | StringLimit

  datatype Result = Ok(value: seq<Unit>) | Err(error: Error)

  /** A limit refuses what does not fit; it never changes what does. */
  function Limited(coding: Coding, limit: nat): Result {
    if |coding.output| > limit / 2 then Err(StringLimit)
    else if coding.complete then Ok(coding.output)
    else Err(Malformed)
  }
}
