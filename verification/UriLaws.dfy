/**
 The texts the coders write and accept, character by character: which stay as
 they are, which digits stand for the others, and what the limit counts.
 */
module UriLaws {
  import opened Options
  import opened CodeUnits
  import opened Utf
  import opened UriCoding
  import opened UriProof

  const DECIMAL: string := "0123456789"
  const URI_MARKS: string := "-_.!~*'()"
  const URI_RESERVED: string := ";/?:@&=+$,#"
  const ESCAPE_MARKS: string := "@*_+-./"
  const HEX: string := "0123456789ABCDEF"

  predicate Among(c: nat, text: string) {
    exists i :: 0 <= i < |text| && text[i] as nat == c
  }

  predicate IsAlphanumeric(c: nat) {
    Among(c, CAPITAL_LETTERS) || Among(c, SMALL_LETTERS) || Among(c, DECIMAL)
  }

  function Digit(n: nat): Unit
    requires n < 16
  {
    HEX[n] as nat
  }

  lemma {:induction false} LettersAmong(c: nat)
    ensures Among(c, CAPITAL_LETTERS) <==> 0x41 <= c <= 0x5a
    ensures Among(c, SMALL_LETTERS) <==> 0x61 <= c <= 0x7a
  {
    if Among(c, CAPITAL_LETTERS) {
      var i :| 0 <= i < |CAPITAL_LETTERS| && CAPITAL_LETTERS[i] as nat == c;
      LetterCodes(i);
    }
    if Among(c, SMALL_LETTERS) {
      var i :| 0 <= i < |SMALL_LETTERS| && SMALL_LETTERS[i] as nat == c;
      LetterCodes(i);
    }
    if 0x41 <= c <= 0x5a {
      LetterCodes(c - 0x41);
      assert CAPITAL_LETTERS[c - 0x41] as nat == c;
    }
    if 0x61 <= c <= 0x7a {
      LetterCodes(c - 0x61);
      assert SMALL_LETTERS[c - 0x61] as nat == c;
    }
  }

  lemma {:induction false} HexCodes(n: nat)
    requires n < 16
    ensures Digit(n) == HexDigit(n) && (n < 10 ==> DECIMAL[n] as nat == 0x30 + n)
  {
    assert n == 0 || n == 1 || n == 2 || n == 3 || n == 4 || n == 5 || n == 6 || n == 7 || n == 8 || n == 9
           || n == 10 || n == 11 || n == 12 || n == 13 || n == 14 || n == 15;
  }

  lemma {:induction false} DecimalAmong(c: nat)
    ensures Among(c, DECIMAL) <==> 0x30 <= c <= 0x39
  {
    if Among(c, DECIMAL) {
      var i :| 0 <= i < |DECIMAL| && DECIMAL[i] as nat == c;
      HexCodes(i);
    }
    if 0x30 <= c <= 0x39 {
      HexCodes(c - 0x30);
      assert DECIMAL[c - 0x30] as nat == c;
    }
  }

  lemma {:induction false} MarksAmong(c: nat)
    ensures Among(c, URI_MARKS) <==> c in {0x2d, 0x5f, 0x2e, 0x21, 0x7e, 0x2a, 0x27, 0x28, 0x29}
  {
    assert URI_MARKS[0] == '-' && URI_MARKS[1] == '_' && URI_MARKS[2] == '.' && URI_MARKS[3] == '!' && URI_MARKS[4] == '~';
    assert URI_MARKS[5] == '*' && URI_MARKS[6] == '\'' && URI_MARKS[7] == '(' && URI_MARKS[8] == ')';
  }

  lemma {:induction false} ReservedAmong(c: nat)
    ensures Among(c, URI_RESERVED) <==> Reserved(c)
  {
    var t := URI_RESERVED;
    assert t[0] == ';' && t[1] == '/' && t[2] == '?' && t[3] == ':' && t[4] == '@' && t[5] == '&';
    assert t[6] == '=' && t[7] == '+' && t[8] == '$' && t[9] == ',' && t[10] == '#';
  }

  lemma {:induction false} EscapeMarksAmong(c: nat)
    ensures Among(c, ESCAPE_MARKS) <==> c in {0x40, 0x2a, 0x5f, 0x2b, 0x2d, 0x2e, 0x2f}
  {
    var t := ESCAPE_MARKS;
    assert t[0] == '@' && t[1] == '*' && t[2] == '_' && t[3] == '+' && t[4] == '-' && t[5] == '.' && t[6] == '/';
  }

  // ---------------------------------------------------------------------
  // What encodeURI and encodeURIComponent write

  predicate StaysInUri(c: nat, component: bool) {
    IsAlphanumeric(c) || Among(c, URI_MARKS) || (!component && Among(c, URI_RESERVED))
  }

  function PercentText(bytes: seq<Byte>): seq<Unit> {
    if bytes == [] then []
    else [0x25, Digit(bytes[0] / 16), Digit(bytes[0] % 16)] + PercentText(bytes[1..])
  }

  function UriText(text: seq<Scalar>, component: bool): seq<Unit> {
    if text == [] then []
    else
      (if StaysInUri(text[0], component) then Utf16(text[0]) else PercentText(Utf8(text[0]))) +
      UriText(text[1..], component)
  }

  lemma {:induction false} StaysIff(c: nat, component: bool)
    ensures StaysInUri(c, component) <==> Unescaped(c, component)
  {
    hide Among;
    LettersAmong(c);
    DecimalAmong(c);
    MarksAmong(c);
    ReservedAmong(c);
  }

  lemma {:induction false} PercentIs(bytes: seq<Byte>)
    ensures PercentAll(bytes) == PercentText(bytes)
  {
    if bytes != [] {
      HexCodes(bytes[0] / 16);
      HexCodes(bytes[0] % 16);
      PercentIs(bytes[1..]);
    }
  }

  lemma {:induction false} FirstOf(c: Scalar, rest: seq<Unit>)
    ensures FirstScalar(Utf16(c) + rest) == Some(c)
  {
    assert IsScalar(c);
    var units := Utf16(c) + rest;
    if c >= 0x10000 {
      assert units[0] == Utf16(c)[0] && units[1] == Utf16(c)[1];
    } else {
      assert units[0] == c;
    }
  }

  /**
   Encoding a text writes letters, digits, the marks, and outside a component the
   reserved characters as they are, and everything else as the upper-case
   hexadecimal digits of its UTF-8.
   */
  lemma {:induction false} EncodeWrites(text: seq<Scalar>, component: bool)
    ensures Run(Encode(component), Utf16All(text)) == Coding(UriText(text, component), true)
  {
    hide StaysInUri, PercentText, PercentAll, Utf8, Unescaped, FirstScalar;
    if text != [] {
      var c, rest := text[0], Utf16All(text[1..]);
      var units := Utf16(c) + rest;
      FirstOf(c, rest);
      StaysIff(c, component);
      PercentIs(Utf8(c));
      EncodeWrites(text[1..], component);
      assert units[|Utf16(c)|..] == rest;
      assert units != [] by { Utf16NonEmpty(c); }
    }
  }

  lemma {:induction false} Utf16NonEmpty(c: Scalar)
    ensures Utf16(c) != []
  {
  }

  /** Every string that encoding accepts is the UTF-16 of some text. */
  lemma {:induction false} WellFormedIsText(units: seq<Unit>) returns (text: seq<Scalar>)
    requires WellFormed(units)
    ensures Utf16All(text) == units
    decreases |units|
  {
    hide WellFormed, Utf16;
    if units == [] {
      text := [];
    } else {
      WellFormedFirst(units);
      var c := FirstScalar(units).value;
      assert Utf16(c) != [] by { Utf16NonEmpty(c); }
      var rest := WellFormedIsText(units[|Utf16(c)|..]);
      text := [c] + rest;
      assert text[1..] == rest;
      assert Utf16(c) + units[|Utf16(c)|..] == units;
    }
  }

  // ---------------------------------------------------------------------
  // What escape writes, and what unescape reads

  function EscapeText(units: seq<Unit>): seq<Unit> {
    if units == [] then []
    else
      var u := units[0];
      (if IsAlphanumeric(u) || Among(u, ESCAPE_MARKS) then [u]
       else if u < 256 then [0x25, Digit(u / 16), Digit(u % 16)]
       else [0x25, 0x75, Digit(u / 4096), Digit(u / 256 % 16), Digit(u / 16 % 16), Digit(u % 16)]) +
      EscapeText(units[1..])
  }

  lemma {:induction false} EscapedIs(u: Unit)
    ensures EscapeText([u]) == Escaped(u)
  {
    hide Among;
    LettersAmong(u);
    DecimalAmong(u);
    EscapeMarksAmong(u);
    HexCodes(u % 16);
    HexCodes(u / 16 % 16);
    HexCodes(u / 256 % 16);
    HexCodes(u / 4096);
    assert EscapeText([u][1..]) == [];
  }

  /** escape keeps letters, digits and its marks, and writes every other unit with two or four upper-case digits. */
  lemma {:induction false} EscapeWrites(units: seq<Unit>)
    ensures Run(Escape, units) == Coding(EscapeText(units), true)
  {
    hide Escaped, IsAlphanumeric, Among;
    if units != [] {
      EscapeWrites(units[1..]);
      EscapedIs(units[0]);
      assert [units[0]][1..] == [];
    }
  }

  /** Four digits after `%u`. */
  predicate IsLong(units: seq<Unit>) {
    && |units| >= 6 && units[0] == 0x25 && units[1] == 0x75
    && HexValue(units[2]).Some? && HexValue(units[3]).Some? && HexValue(units[4]).Some? && HexValue(units[5]).Some?
  }

  /** Two digits after `%`. */
  predicate IsShort(units: seq<Unit>) {
    |units| >= 3 && units[0] == 0x25 && HexValue(units[1]).Some? && HexValue(units[2]).Some?
  }

  lemma {:induction false} UnescapeMoveIs(units: seq<Unit>)
    requires units != []
    ensures IsLong(units) ==>
              var u := ((HexValue(units[2]).value * 16 + HexValue(units[3]).value) * 16 + HexValue(units[4]).value) * 16
                       + HexValue(units[5]).value;
              u < 0x10000 && UnescapeMove(units) == Emit([u], 6)
    ensures !IsLong(units) && IsShort(units) ==>
              UnescapeMove(units) == Emit([HexValue(units[1]).value * 16 + HexValue(units[2]).value], 3)
    ensures !IsLong(units) && !IsShort(units) ==> UnescapeMove(units) == Emit([units[0]], 1)
  {
    hide HexValue, HexNumber;
    HexPair(units, 1);
    HexFour(units, 2);
  }

  /** unescape reads a long form as its unit, else a short form as its unit, else takes one unit as it is. */
  lemma {:induction false} UnescapeReads(units: seq<Unit>)
    requires units != []
    ensures IsLong(units) ==>
              var u := ((HexValue(units[2]).value * 16 + HexValue(units[3]).value) * 16 + HexValue(units[4]).value) * 16
                       + HexValue(units[5]).value;
              u < 0x10000 && Run(Unescape, units).output == [u] + Run(Unescape, units[6..]).output
    ensures !IsLong(units) && IsShort(units) ==>
              Run(Unescape, units).output
              == [HexValue(units[1]).value * 16 + HexValue(units[2]).value] + Run(Unescape, units[3..]).output
    ensures !IsLong(units) && !IsShort(units) ==>
              Run(Unescape, units).output == [units[0]] + Run(Unescape, units[1..]).output
  {
    hide HexValue, UnescapeMove;
    StepFits(Unescape, units);
    UnescapeMoveIs(units);
  }

  lemma {:induction false} HexPair(units: seq<Unit>, from: nat)
    ensures var r := HexNumber(units, from, 2);
            && (r.Some? <==> from + 2 <= |units| && HexValue(units[from]).Some? && HexValue(units[from + 1]).Some?)
            && (r.Some? ==> r.value == HexValue(units[from]).value * 16 + HexValue(units[from + 1]).value < 256)
  {
    hide HexValue;
    assert HexNumber(units, from, 0) == Some(0);
    assert HexNumber(units, from, 1) ==
           if from < |units| && HexValue(units[from]).Some? then Some(HexValue(units[from]).value) else None;
  }

  lemma {:induction false} HexFour(units: seq<Unit>, from: nat)
    ensures var r := HexNumber(units, from, 4);
            && (r.Some? <==> from + 4 <= |units| && HexValue(units[from]).Some? && HexValue(units[from + 1]).Some?
                             && HexValue(units[from + 2]).Some? && HexValue(units[from + 3]).Some?)
            && (r.Some? ==>
                  r.value == ((HexValue(units[from]).value * 16 + HexValue(units[from + 1]).value) * 16
                              + HexValue(units[from + 2]).value) * 16 + HexValue(units[from + 3]).value < 0x10000)
  {
    hide HexValue;
    HexPair(units, from);
    var three := HexNumber(units, from, 3);
    assert three.Some? <==> HexNumber(units, from, 2).Some? && from + 3 <= |units| && HexValue(units[from + 2]).Some?;
  }

  // ---------------------------------------------------------------------
  // The limit

  /** A result of two bytes a unit fits the limit, and only one that does not fit is refused for it. */
  lemma {:induction false} LimitCounts(coding: Coding, limit: nat)
    ensures var r := Limited(coding, limit);
            && (r == Err(StringLimit) <==> 2 * |coding.output| > limit)
            && (r.Ok? <==> coding.complete && 2 * |coding.output| <= limit)
            && (r.Ok? ==> r.value == coding.output)
  {
  }
}
