/**
 The URI coders are inverse to each other, accept exactly well-formed text, and
 escape is undone by unescape.
 */
module UriProof {
  import opened Options
  import opened CodeUnits
  import opened Utf
  import opened UriCoding

  // ---------------------------------------------------------------------
  // Encoding accepts exactly well-formed UTF-16

  lemma {:induction false} WellFormedFirst(units: seq<Unit>)
    requires units != []
    ensures var c := FirstScalar(units);
            WellFormed(units) <==> c.Some? && WellFormed(units[|Utf16(c.value)|..])
  {
    var c := FirstScalar(units);
    if c.None? {
      if IsHigh(units[0]) {
        assert !HasLow(units, 1);
      } else {
        assert !HasHigh(units, -1);
      }
    } else {
      var w := |Utf16(c.value)|;
      var rest := units[w..];
      assert !IsHigh(units[w - 1]) && w == 2 ==> IsHigh(units[0]) && IsLow(units[1]);
      assert forall i :: 0 <= i < |rest| ==> rest[i] == units[i + w];
      if WellFormed(units) {
        forall i | 0 <= i < |rest| && IsHigh(rest[i]) ensures HasLow(rest, i + 1) {
          assert HasLow(units, i + w + 1);
        }
        forall i | 0 <= i < |rest| && IsLow(rest[i]) ensures HasHigh(rest, i - 1) {
          assert HasHigh(units, i + w - 1);
        }
      }
      if WellFormed(rest) {
        forall i | 0 <= i < |units| && IsHigh(units[i]) ensures HasLow(units, i + 1) {
          if i >= w {
            assert IsHigh(rest[i - w]);
            assert HasLow(rest, i - w + 1);
          }
        }
        forall i | 0 <= i < |units| && IsLow(units[i]) ensures HasHigh(units, i - 1) {
          if i >= w {
            assert IsLow(rest[i - w]);
            assert HasHigh(rest, i - w - 1);
          }
        }
      }
    }
  }

  /** Given room, encoding succeeds exactly on strings in which no surrogate stands alone. */
  lemma {:induction false} EncodeSucceedsIff(units: seq<Unit>, component: bool)
    ensures Run(Encode(component), units).complete <==> WellFormed(units)
    decreases |units|
  {
    if units != [] {
      WellFormedFirst(units);
      var c := FirstScalar(units);
      if c.Some? {
        EncodeSucceedsIff(units[|Utf16(c.value)|..], component);
      }
    }
  }

  // ---------------------------------------------------------------------
  // Percent-written bytes

  lemma {:induction false} HexRoundTrip(n: nat)
    requires n < 16
    ensures HexValue(HexDigit(n)) == Some(n)
  {
  }

  lemma {:induction false} PercentReads(b: Byte, before: seq<Unit>, rest: seq<Unit>)
    ensures PercentByte(before + Percent(b) + rest, |before|) == Some(b)
  {
    HexRoundTrip(b / 16);
    HexRoundTrip(b % 16);
    var units, i := before + Percent(b) + rest, |before|;
    assert units[i] == PERCENT && units[i + 1] == HexDigit(b / 16) && units[i + 2] == HexDigit(b % 16);
  }

  /** The units write the bytes, each as a percent sign and two digits. */
  ghost predicate Writes(units: seq<Unit>, bytes: seq<Byte>) {
    |units| >= 3 * |bytes| && forall k :: 0 <= k < |bytes| ==> WritesAt(units, k, bytes[k])
  }

  predicate WritesAt(units: seq<Unit>, k: nat, b: Byte) {
    PercentByte(units, 3 * k) == Some(b)
  }

  lemma {:induction false} PercentLength(b: Byte)
    ensures |Percent(b)| == 3
  {
  }

  lemma {:induction false} PercentShift(head: seq<Unit>, tail: seq<Unit>, i: nat)
    ensures PercentByte(head + tail, |head| + i) == PercentByte(tail, i)
  {
  }

  lemma {:induction false} PercentAllWrites(bytes: seq<Byte>, rest: seq<Unit>)
    ensures |PercentAll(bytes)| == 3 * |bytes|
    ensures Writes(PercentAll(bytes) + rest, bytes)
  {
    hide PercentByte, Percent;
    if bytes != [] {
      var tail := PercentAll(bytes[1..]) + rest;
      assert |Percent(bytes[0])| == 3 by { PercentLength(bytes[0]); }
      PercentAllWrites(bytes[1..], rest);
      var units := PercentAll(bytes) + rest;
      assert units == Percent(bytes[0]) + tail;
      PercentReads(bytes[0], [], tail);
      assert [] + Percent(bytes[0]) + tail == units;
      forall k | 0 <= k < |bytes| ensures WritesAt(units, k, bytes[k]) {
        if k > 0 {
          assert WritesAt(tail, k - 1, bytes[1..][k - 1]);
          PercentShift(Percent(bytes[0]), tail, 3 * (k - 1));
        }
      }
    }
  }

  /** Continuation bytes are read as they are written. */
  lemma {:induction false} TailsRead(units: seq<Unit>, bytes: seq<Byte>, k: nat)
    requires Writes(units, bytes) && k <= |bytes| && forall j :: k <= j < |bytes| ==> IsTail(bytes[j])
    ensures Tails(units, 3 * k, |bytes| - k) == Some(bytes[k..])
    decreases |bytes| - k
  {
    hide PercentByte;
    if k == |bytes| {
      assert bytes[k..] == [];
    } else {
      assert WritesAt(units, k, bytes[k]);
      TailsRead(units, bytes, k + 1);
      assert 3 * (k + 1) == 3 * k + 3;
      assert [bytes[k]] + bytes[k + 1..] == bytes[k..];
    }
  }

  /** Continuation bytes that were read are written there. */
  lemma {:induction false} TailsWritten(units: seq<Unit>, i: nat, count: nat, j: nat)
    requires Tails(units, i, count).Some? && j < count
    ensures |Tails(units, i, count).value| == count
    ensures PercentByte(units, i + 3 * j) == Some(Tails(units, i, count).value[j])
    decreases count
  {
    hide PercentByte;
    TailsFit(units, i, count);
    if j > 0 {
      TailsWritten(units, i + 3, count - 1, j - 1);
    }
  }

  lemma {:induction false} Utf8Shape(bytes: seq<Byte>)
    requires IsUtf8(bytes)
    ensures |bytes| == Octets(bytes[0]) && forall j :: 1 <= j < |bytes| ==> IsTail(bytes[j])
    ensures bytes[0] < 0x80 <==> |bytes| == 1
  {
  }

  lemma {:induction false} Utf16Ascii(b: Byte)
    requires b < 0x80
    ensures IsUtf8([b]) && FromUtf8([b]) == b && Utf16(b) == [b] && Utf8(b) == [b]
  {
  }

  lemma {:induction false} WritesBefore(units: seq<Unit>, bytes: seq<Byte>, rest: seq<Unit>)
    requires Writes(units, bytes)
    ensures Writes(units + rest, bytes)
  {
    forall k | 0 <= k < |bytes| ensures WritesAt(units + rest, k, bytes[k]) {
      assert WritesAt(units, k, bytes[k]);
    }
  }

  /** What decoding leaves of a scalar value written in percent form: reserved ASCII stays as written, unless in a component. */
  function DecodedScalar(c: Scalar, written: seq<Unit>, component: bool): seq<Unit> {
    if !component && Reserved(c) then written else Utf16(c)
  }

  /** A scalar value written in percent form is decoded in one move, whatever follows. */
  lemma {:induction false} DecodeScalar(c: Scalar, written: seq<Unit>, rest: seq<Unit>, component: bool)
    requires Writes(written, Utf8(c)) && |written| == 3 * |Utf8(c)|
    ensures |written| > 0
    ensures DecodeMove(written + rest, component) == Emit(DecodedScalar(c, written, component), |written|)
  {
    hide Utf16, FromUtf8, Utf8, IsUtf8, PercentByte;
    var units, bytes := written + rest, Utf8(c);
    Utf8IsUtf8(c);
    assert bytes != [] by { Utf8NonEmpty(c); }
    WritesBefore(written, bytes, rest);
    assert WritesAt(units, 0, bytes[0]);
    assert units[0] == PERCENT by { PercentStarts(units, bytes[0]); }
    Utf8Shape(bytes);
    if |bytes| == 1 {
      assert bytes == [bytes[0]];
      Utf16Ascii(bytes[0]);
      assert units[..3] == written;
    } else {
      TailsRead(units, bytes, 1);
      assert [bytes[0]] + bytes[1..] == bytes;
      assert !Reserved(c) by { WideIsUnreserved(c); }
    }
  }

  lemma {:induction false} PercentStarts(units: seq<Unit>, b: Byte)
    requires PercentByte(units, 0) == Some(b)
    ensures units != [] && units[0] == PERCENT
  {
  }

  lemma {:induction false} WideIsUnreserved(c: Scalar)
    requires |Utf8(c)| > 1
    ensures !Reserved(c)
  {
  }

  lemma {:induction false} Utf8NonEmpty(c: Scalar)
    ensures Utf8(c) != []
  {
  }

  // ---------------------------------------------------------------------
  // Decoding undoes encoding

  lemma {:induction false} DecodeEncoded(c: Scalar, component: bool, rest: seq<Unit>)
    ensures Encoded(c, component) != []
    ensures DecodeMove(Encoded(c, component) + rest, component) == Emit(Utf16(c), |Encoded(c, component)|)
  {
    var units := Encoded(c, component) + rest;
    if Unescaped(c, component) {
      assert Utf16(c) == [c];
      assert units[0] == c;
    } else {
      PercentAllWrites(Utf8(c), []);
      assert PercentAll(Utf8(c)) + [] == PercentAll(Utf8(c));
      DecodeScalar(c, PercentAll(Utf8(c)), rest, component);
    }
  }

  /** Decoding, in the same mode, gives back every string that encoding accepts. */
  lemma {:induction false} DecodeUndoesEncode(units: seq<Unit>, component: bool)
    requires WellFormed(units)
    ensures Run(Decode(component), Run(Encode(component), units).output) == Coding(units, true)
    decreases |units|
  {
    hide Encoded, DecodeMove;
    if units != [] {
      WellFormedFirst(units);
      var c := FirstScalar(units).value;
      var rest := units[|Utf16(c)|..];
      DecodeUndoesEncode(rest, component);
      var head, tail := Encoded(c, component), Run(Encode(component), rest).output;
      DecodeEncoded(c, component, tail);
      assert (head + tail)[|head|..] == tail;
      assert Utf16(c) + rest == units;
    }
  }

  // ---------------------------------------------------------------------
  // Decoding accepts exactly text and UTF-8

  /** A unit other than a percent sign, or the UTF-8 of some text written in percent form. */
  datatype Piece = Plain(unit: Unit) | Coded(text: seq<Scalar>, written: seq<Unit>)

  ghost predicate IsPiece(p: Piece) {
    match p
    case Plain(unit) => unit != PERCENT
    case Coded(text, written) => |written| == 3 * |Utf8All(text)| && Writes(written, Utf8All(text))
  }

  function Spelled(p: Piece): seq<Unit> {
    match p
    case Plain(unit) => [unit]
    case Coded(_, written) => written
  }

  function Spelling(pieces: seq<Piece>): seq<Unit> {
    if pieces == [] then [] else Spelled(pieces[0]) + Spelling(pieces[1..])
  }

  ghost predicate Splits(units: seq<Unit>, pieces: seq<Piece>) {
    (forall i :: 0 <= i < |pieces| ==> IsPiece(pieces[i])) && Spelling(pieces) == units
  }

  /** What decoding leaves of a text in percent form, scalar value by scalar value. */
  function DecodedText(text: seq<Scalar>, written: seq<Unit>, component: bool): seq<Unit>
    requires |written| == 3 * |Utf8All(text)|
  {
    if text == [] then []
    else
      var n := 3 * |Utf8(text[0])|;
      DecodedScalar(text[0], written[..n], component) + DecodedText(text[1..], written[n..], component)
  }

  ghost function DecodedPieces(pieces: seq<Piece>, component: bool): seq<Unit>
    requires forall i :: 0 <= i < |pieces| ==> IsPiece(pieces[i])
  {
    if pieces == [] then []
    else
      assert IsPiece(pieces[0]);
      (match pieces[0]
       case Plain(unit) => [unit]
       case Coded(text, written) => DecodedText(text, written, component)) + DecodedPieces(pieces[1..], component)
  }

  /** In a component the whole text is decoded. */
  lemma {:induction false} ComponentText(text: seq<Scalar>, written: seq<Unit>)
    requires |written| == 3 * |Utf8All(text)|
    ensures DecodedText(text, written, true) == Utf16All(text)
  {
    if text != [] {
      ComponentText(text[1..], written[3 * |Utf8(text[0])|..]);
    }
  }

  lemma {:induction false} WritesParts(written: seq<Unit>, a: seq<Byte>, b: seq<Byte>)
    requires Writes(written, a + b) && |written| == 3 * |a + b|
    ensures Writes(written[..3 * |a|], a) && Writes(written[3 * |a|..], b)
  {
    var head, tail := written[..3 * |a|], written[3 * |a|..];
    forall k | 0 <= k < |a| ensures WritesAt(head, k, a[k]) {
      assert WritesAt(written, k, (a + b)[k]);
    }
    forall k | 0 <= k < |b| ensures WritesAt(tail, k, b[k]) {
      assert WritesAt(written, |a| + k, (a + b)[|a| + k]);
      assert 3 * (|a| + k) == 3 * |a| + 3 * k;
    }
  }

  /** A text in percent form is decoded whole, whatever follows. */
  lemma {:induction false} DecodeCoded(text: seq<Scalar>, written: seq<Unit>, rest: seq<Unit>, component: bool)
    requires IsPiece(Coded(text, written))
    ensures var after := Run(Decode(component), rest);
            Run(Decode(component), written + rest)
            == Coding(DecodedText(text, written, component) + after.output, after.complete)
    decreases |text|
  {
    hide Utf8, Utf16, DecodeMove, Writes, DecodedScalar;
    var after := Run(Decode(component), rest);
    if text == [] {
      assert written + rest == rest;
      assert [] + after.output == after.output;
    } else {
      var c, n := text[0], 3 * |Utf8(text[0])|;
      var head, tail := written[..n], written[n..];
      WritesParts(written, Utf8(c), Utf8All(text[1..]));
      DecodeScalar(c, head, tail + rest, component);
      DecodeCoded(text[1..], tail, rest, component);
      assert written + rest == head + (tail + rest);
      assert (head + (tail + rest))[n..] == tail + rest;
      var first, more := DecodedScalar(c, head, component), DecodedText(text[1..], tail, component);
      assert first + (more + after.output) == first + more + after.output;
    }
  }

  /** A string that splits into such pieces is decoded, piece by piece. */
  lemma {:induction false} DecodePieces(pieces: seq<Piece>, component: bool)
    requires forall i :: 0 <= i < |pieces| ==> IsPiece(pieces[i])
    ensures Run(Decode(component), Spelling(pieces)) == Coding(DecodedPieces(pieces, component), true)
  {
    hide DecodedText;
    if pieces != [] {
      var rest := Spelling(pieces[1..]);
      assert IsPiece(pieces[0]);
      DecodePieces(pieces[1..], component);
      match pieces[0]
      case Plain(unit) =>
        var units := [unit] + rest;
        assert units[0] == unit && units[1..] == rest;
      case Coded(text, written) =>
        DecodeCoded(text, written, rest, component);
    }
  }

  /** What a move reads at a percent sign is one scalar value in percent form. */
  lemma {:induction false} MoveReadsScalar(units: seq<Unit>, component: bool) returns (c: Scalar)
    requires units != [] && units[0] == PERCENT && DecodeMove(units, component).Emit?
    ensures var width := DecodeMove(units, component).width;
            width == 3 * |Utf8(c)| && width <= |units| && Writes(units[..width], Utf8(c))
  {
    hide Utf16, PercentByte;
    var first, width := PercentByte(units, 0).value, DecodeMove(units, component).width;
    StepFits(Decode(component), units);
    if first < 0x80 {
      Utf16Ascii(first);
      c := first;
      assert PercentByte(units[..3], 0) == Some(first) by { PercentTake(units, 3, 0); }
      assert WritesAt(units[..3], 0, first);
    } else {
      var n := Octets(first);
      var tails := Tails(units, 3, n - 1).value;
      var bytes := [first] + tails;
      c := FromUtf8(bytes);
      FromUtf8IsInverse(bytes);
      TailsFit(units, 3, n - 1);
      forall k | 0 <= k < n ensures WritesAt(units[..width], k, bytes[k]) {
        PercentTake(units, width, 3 * k);
        if k > 0 {
          TailsWritten(units, 3, n - 1, k - 1);
          assert 3 + 3 * (k - 1) == 3 * k;
        }
      }
    }
  }

  lemma {:induction false} PercentTake(units: seq<Unit>, width: nat, i: nat)
    requires i + 3 <= width <= |units|
    ensures PercentByte(units[..width], i) == PercentByte(units, i)
  {
  }

  lemma {:induction false} DecodedSplits(units: seq<Unit>, component: bool) returns (pieces: seq<Piece>)
    requires Run(Decode(component), units).complete
    ensures Splits(units, pieces)
    decreases |units|
  {
    hide Utf8, DecodeMove, Writes;
    if units == [] {
      pieces := [];
    } else {
      StepFits(Decode(component), units);
      var width := DecodeMove(units, component).width;
      var rest := DecodedSplits(units[width..], component);
      var piece;
      if units[0] != PERCENT {
        assert width == 1 by { PlainMove(units, component); }
        piece := Plain(units[0]);
      } else {
        var c := MoveReadsScalar(units, component);
        piece := Coded([c], units[..width]);
        assert Utf8All([c]) == Utf8(c) + [] == Utf8(c);
      }
      pieces := [piece] + rest;
      assert pieces[1..] == rest;
      assert Spelled(piece) + units[width..] == units;
    }
  }

  lemma {:induction false} PlainMove(units: seq<Unit>, component: bool)
    requires units != [] && units[0] != PERCENT
    ensures DecodeMove(units, component) == Emit([units[0]], 1)
  {
  }

  /**
   Decoding succeeds exactly on strings that split into units other than the
   percent sign and percent runs whose bytes are UTF-8. The result is then those
   units, with each run decoded; outside a component, reserved ASCII stays as it
   is written.
   */
  lemma {:induction false} DecodeAcceptsIff(units: seq<Unit>, component: bool)
    ensures Run(Decode(component), units).complete <==> exists pieces :: Splits(units, pieces)
    ensures forall pieces :: Splits(units, pieces) ==>
              Run(Decode(component), units).output == DecodedPieces(pieces, component)
  {
    hide Run, DecodedPieces, IsPiece, Spelling;
    if Run(Decode(component), units).complete {
      var pieces := DecodedSplits(units, component);
    }
    forall pieces | Splits(units, pieces)
      ensures Run(Decode(component), units) == Coding(DecodedPieces(pieces, component), true)
    {
      DecodePieces(pieces, component);
    }
  }

  // ---------------------------------------------------------------------
  // unescape undoes escape

  lemma {:induction false} HexNumberPair(units: seq<Unit>, from: nat, n: nat)
    requires n < 256 && from + 2 <= |units| && units[from] == HexDigit(n / 16) && units[from + 1] == HexDigit(n % 16)
    ensures HexNumber(units, from, 2) == Some(n)
  {
    HexRoundTrip(n / 16);
    HexRoundTrip(n % 16);
    assert HexNumber(units, from, 1) == Some(n / 16) by {
      assert HexNumber(units, from, 0) == Some(0);
    }
  }

  lemma {:induction false} HexNumberQuad(units: seq<Unit>, from: nat, n: nat)
    requires n < 65536 && from + 4 <= |units|
    requires units[from] == HexDigit(n / 4096) && units[from + 1] == HexDigit(n / 256 % 16)
    requires units[from + 2] == HexDigit(n / 16 % 16) && units[from + 3] == HexDigit(n % 16)
    ensures HexNumber(units, from, 4) == Some(n)
  {
    hide HexDigit, HexValue;
    HexDigits(n);
    HexNumberPair(units, from, n / 256);
    HexRoundTrip(n / 16 % 16);
    HexRoundTrip(n % 16);
    assert HexNumber(units, from, 3) == Some(n / 16);
  }

  lemma {:induction false} HexDigits(n: nat)
    ensures n / 256 / 16 == n / 4096 && n / 16 == n / 256 * 16 + n / 16 % 16 && n == n / 16 * 16 + n % 16
  {
  }

  lemma {:induction false} UnescapeEscaped(unit: Unit, rest: seq<Unit>)
    ensures Escaped(unit) != []
    ensures UnescapeMove(Escaped(unit) + rest) == Emit([unit], |Escaped(unit)|)
  {
    hide HexNumber;
    var units := Escaped(unit) + rest;
    assert forall i :: 0 <= i < |Escaped(unit)| ==> units[i] == Escaped(unit)[i];
    if EscapeKeeps(unit) {
    } else if unit < 256 {
      HexNumberPair(units, 1, unit);
      assert units[1] != LETTER_U;
    } else {
      HexNumberQuad(units, 2, unit);
    }
  }

  /** unescape gives back whatever escape was given, lone surrogates and literal percent signs included. */
  lemma {:induction false} UnescapeUndoesEscape(units: seq<Unit>)
    ensures Run(Escape, units).complete
    ensures Run(Unescape, Run(Escape, units).output) == Coding(units, true)
  {
    hide Escaped, UnescapeMove;
    if units != [] {
      UnescapeUndoesEscape(units[1..]);
      var head, tail := Escaped(units[0]), Run(Escape, units[1..]).output;
      UnescapeEscaped(units[0], tail);
      assert (head + tail)[|head|..] == tail;
      assert [units[0]] + units[1..] == units;
    }
  }

  /** unescape accepts everything. */
  lemma {:induction false} UnescapeIsTotal(units: seq<Unit>)
    ensures Run(Unescape, units).complete
    decreases |units|
  {
    hide UnescapeMove;
    if units != [] {
      StepFits(Unescape, units);
      UnescapeEmits(units);
      UnescapeIsTotal(units[UnescapeMove(units).width..]);
    }
  }

  lemma {:induction false} UnescapeEmits(units: seq<Unit>)
    requires units != []
    ensures UnescapeMove(units).Emit?
  {
  }
}
