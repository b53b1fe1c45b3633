/**
 The coders as they run: an index over the input, an output that grows, and a
 limit looked at before each append.
 */
module UriMethods {
  import opened Options
  import opened CodeUnits
  import opened Utf
  import opened UriCoding
  import opened UriProof

  datatype Appended = Room(output: seq<Unit>) | Full

  function Append(output: seq<Unit>, units: seq<Unit>, limit: nat): Appended {
    if |output| + |units| > limit / 2 then Full else Room(output + units)
  }

  /** What is left to do at an index, behind what is already written. */
  ghost predicate Resumes(coder: Coder, units: seq<Unit>, index: nat, output: seq<Unit>, limit: nat) {
    && index <= |units| && |output| <= limit / 2
    && var rest := Run(coder, units[index..]);
       Run(coder, units) == Coding(output + rest.output, rest.complete)
  }

  lemma {:induction false} ResumesAtStart(coder: Coder, units: seq<Unit>, limit: nat)
    ensures Resumes(coder, units, 0, [], limit)
  {
    assert units[0..] == units;
    assert [] + Run(coder, units).output == Run(coder, units).output;
  }

  lemma {:induction false} ResumesAtEnd(coder: Coder, units: seq<Unit>, output: seq<Unit>, limit: nat)
    requires Resumes(coder, units, |units|, output, limit)
    ensures Limited(Run(coder, units), limit) == Ok(output)
  {
    assert units[|units|..] == [];
    assert output + [] == output;
  }

  /** One move on: either it fits, or the whole result does not. */
  lemma {:induction false} ResumesAfter(coder: Coder, units: seq<Unit>, index: nat, output: seq<Unit>, limit: nat)
    requires index < |units| && Resumes(coder, units, index, output, limit)
    ensures var move := Step(coder, units[index..]);
            if move.Stop? then Limited(Run(coder, units), limit) == Err(Malformed)
            else if |output| + |move.output| > limit / 2 then Limited(Run(coder, units), limit) == Err(StringLimit)
            else Resumes(coder, units, index + move.width, output + move.output, limit)
  {
    hide Step;
    var here := units[index..];
    StepFits(coder, here);
    var move := Step(coder, here);
    if move.Stop? {
      assert output + [] == output;
    } else {
      assert here[move.width..] == units[index + move.width..];
      var rest := Run(coder, here[move.width..]);
      assert output + (move.output + rest.output) == output + move.output + rest.output;
    }
  }

  method EncodeUri(units: seq<Unit>, component: bool, limit: nat) returns (r: Result)
    ensures r == Limited(Run(Encode(component), units), limit)
  {
    hide Run, Limited, Resumes, Utf8, PercentAll, Unescaped;
    var output: seq<Unit> := [];
    var index := 0;
    ResumesAtStart(Encode(component), units, limit);
    while index < |units|
      invariant index <= |units| && |output| <= limit / 2
      invariant Resumes(Encode(component), units, index, output, limit)
      decreases |units| - index
    {
      ghost var here := units[index..];
      ResumesAfter(Encode(component), units, index, output, limit);
      StepFits(Encode(component), here);
      var unit := units[index];
      var codePoint: int, width := unit, 1;
      if 0xd800 <= unit <= 0xdbff {
        if index + 1 >= |units| {
          return Err(Malformed);
        }
        var low := units[index + 1];
        if !(0xdc00 <= low <= 0xdfff) {
          return Err(Malformed);
        }
        assert here[0] == unit && here[1] == low;
        var high: int, lower: int := unit, low;
        codePoint, width := 0x10000 + (high - 0xd800) * 0x400 + (lower - 0xdc00), 2;
      } else if 0xdc00 <= unit <= 0xdfff {
        return Err(Malformed);
      }
      assert FirstScalar(here) == Some(codePoint);
      assert Utf16(codePoint) == here[..width] == units[index..index + width];
      if Unescaped(codePoint, component) {
        var appended := Append(output, units[index..index + width], limit);
        if appended.Full? {
          return Err(StringLimit);
        }
        output := appended.output;
      } else {
        var appended := AppendPercents(output, Utf8(codePoint), limit);
        if appended.Full? {
          return Err(StringLimit);
        }
        output := appended.output;
      }
      index := index + width;
    }
    ResumesAtEnd(Encode(component), units, output, limit);
    r := Ok(output);
  }

  /** Appends the bytes one by one; what fits is what would fit at once. */
  method AppendPercents(start: seq<Unit>, bytes: seq<Byte>, limit: nat) returns (r: Appended)
    requires |start| <= limit / 2
    ensures r == Append(start, PercentAll(bytes), limit)
  {
    var output := start;
    var i := 0;
    assert bytes[0..] == bytes;
    while i < |bytes|
      invariant 0 <= i <= |bytes| && |output| <= limit / 2
      invariant output + PercentAll(bytes[i..]) == start + PercentAll(bytes)
    {
      var byte := bytes[i];
      var appended := Append(output, Percent(byte), limit);
      assert bytes[i..][1..] == bytes[i + 1..];
      assert output + (Percent(byte) + PercentAll(bytes[i + 1..])) == output + Percent(byte) + PercentAll(bytes[i + 1..]);
      if appended.Full? {
        assert |start + PercentAll(bytes)| == |start| + |PercentAll(bytes)|;
        return Full;
      }
      output := appended.output;
      i := i + 1;
    }
    assert bytes[|bytes|..] == [] && output + [] == output;
    r := Room(output);
  }

  method DecodeUri(units: seq<Unit>, component: bool, limit: nat) returns (r: Result)
    ensures r == Limited(Run(Decode(component), units), limit)
  {
    hide Run, Limited, Resumes, IsUtf8, FromUtf8, Utf16;
    var output: seq<Unit> := [];
    var index := 0;
    ResumesAtStart(Decode(component), units, limit);
    while index < |units|
      invariant index <= |units| && Resumes(Decode(component), units, index, output, limit)
      decreases |units| - index
    {
      ghost var here := units[index..];
      ResumesAfter(Decode(component), units, index, output, limit);
      StepFits(Decode(component), here);
      PercentHere(units, index, 0);
      var unit := units[index];
      if unit != PERCENT {
        var appended := Append(output, [unit], limit);
        if appended.Full? {
          return Err(StringLimit);
        }
        output := appended.output;
        index := index + 1;
        continue;
      }
      var start := index;
      var first := PercentByte(units, start);
      if first.None? {
        return Err(Malformed);
      }
      if first.value < 0x80 {
        index := index + 3;
        assert units[start..index] == here[..3];
        var piece := if !component && Reserved(first.value) then units[start..index] else [first.value];
        var appended := Append(output, piece, limit);
        if appended.Full? {
          return Err(StringLimit);
        }
        output := appended.output;
        continue;
      }
      var octets := Octets(first.value);
      if octets == 0 {
        return Err(Malformed);
      }
      var tails := ReadTails(units, start, octets - 1);
      if tails.None? {
        return Err(Malformed);
      }
      var bytes := [first.value] + tails.value;
      if !IsUtf8(bytes) {
        return Err(Malformed);
      }
      var appended := Append(output, Utf16(FromUtf8(bytes)), limit);
      if appended.Full? {
        return Err(StringLimit);
      }
      output := appended.output;
      index := start + octets * 3;
    }
    ResumesAtEnd(Decode(component), units, output, limit);
    r := Ok(output);
  }

  lemma {:induction false} PercentHere(units: seq<Unit>, start: nat, i: nat)
    requires start <= |units|
    ensures PercentByte(units[start..], i) == PercentByte(units, start + i)
  {
    PercentShift(units[..start], units[start..], i);
    assert units[..start] + units[start..] == units;
  }

  method ReadTails(units: seq<Unit>, start: nat, count: nat) returns (r: Option<seq<Byte>>)
    requires start <= |units|
    ensures r == Tails(units[start..], 3, count)
  {
    ghost var here := units[start..];
    var bytes: seq<Byte> := [];
    var offset := 0;
    ghost var all := Tails(here, 3, count);
    assert all.Some? ==> [] + all.value == all.value;
    while offset < count
      invariant 0 <= offset <= count
      invariant var rest := Tails(here, 3 + 3 * offset, count - offset);
                all == if rest.Some? then Some(bytes + rest.value) else None
    {
      PercentHere(units, start, 3 + 3 * offset);
      var byte := PercentByte(units, start + (offset + 1) * 3);
      if byte.None? || !IsTail(byte.value) {
        return None;
      }
      ghost var rest := Tails(here, 3 + 3 * (offset + 1), count - offset - 1);
      if rest.Some? {
        assert bytes + ([byte.value] + rest.value) == bytes + [byte.value] + rest.value;
      }
      bytes := bytes + [byte.value];
      offset := offset + 1;
    }
    assert bytes + [] == bytes;
    r := Some(bytes);
  }

  method EscapeString(units: seq<Unit>, limit: nat) returns (r: Result)
    ensures r == Limited(Run(Escape, units), limit)
  {
    hide Run, Limited, Resumes, HexDigit;
    var output: seq<Unit> := [];
    var index := 0;
    ResumesAtStart(Escape, units, limit);
    while index < |units|
      invariant index <= |units| && Resumes(Escape, units, index, output, limit)
    {
      ResumesAfter(Escape, units, index, output, limit);
      var unit := units[index];
      var piece: seq<Unit> := [unit];
      if !EscapeKeeps(unit) {
        var d0, d1, d2, d3 := HexDigit(unit / 4096), HexDigit(unit / 256 % 16), HexDigit(unit / 16 % 16), HexDigit(unit % 16);
        if unit < 256 {
          piece := [PERCENT, d2, d3];
        } else {
          piece := [PERCENT, LETTER_U, d0, d1, d2, d3];
        }
      }
      var appended := Append(output, piece, limit);
      if appended.Full? {
        return Err(StringLimit);
      }
      output := appended.output;
      index := index + 1;
    }
    ResumesAtEnd(Escape, units, output, limit);
    r := Ok(output);
  }

  lemma {:induction false} HexHere(units: seq<Unit>, start: nat, from: nat, count: nat)
    requires start <= |units|
    ensures HexNumber(units[start..], from, count) == HexNumber(units, start + from, count)
  {
    if count > 0 {
      HexHere(units, start, from, count - 1);
    }
  }

  method UnescapeString(units: seq<Unit>, limit: nat) returns (r: Result)
    ensures r == Limited(Run(Unescape, units), limit)
  {
    hide Run, Limited, Resumes, HexNumber;
    var output: seq<Unit> := [];
    var index := 0;
    ResumesAtStart(Unescape, units, limit);
    while index < |units|
      invariant index <= |units| && Resumes(Unescape, units, index, output, limit)
      decreases |units| - index
    {
      ghost var here := units[index..];
      ResumesAfter(Unescape, units, index, output, limit);
      StepFits(Unescape, here);
      HexHere(units, index, 2, 4);
      HexHere(units, index, 1, 2);
      var value, width := units[index], 1;
      if units[index] == PERCENT {
        var decoded := None;
        if index + 1 < |units| && units[index + 1] == LETTER_U {
          decoded := HexNumber(units, index + 2, 4);
        }
        if decoded.Some? {
          value, width := decoded.value % UNITS, 6;
        } else {
          decoded := HexNumber(units, index + 1, 2);
          if decoded.Some? {
            value, width := decoded.value % UNITS, 3;
          }
        }
      }
      var appended := Append(output, [value], limit);
      if appended.Full? {
        return Err(StringLimit);
      }
      output := appended.output;
      index := index + width;
    }
    ResumesAtEnd(Unescape, units, output, limit);
    r := Ok(output);
  }
}
