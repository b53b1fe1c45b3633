/**
 UTF-16 code units and `Canonicalize` (ECMA-262, section 22.2.2.7.3) for a
 pattern with neither the `u` nor the `v` flag.
 */
module CodeUnits {
  import opened Options

  const UNITS := 0x10000

  type Unit = u: nat | u < UNITS

  /** The six character class escapes. */
  datatype ClassEscape = Digit | NonDigit | Whitespace | NonWhitespace | Word | NonWord

  predicate IsDecimal(point: nat) {
    0x30 <= point <= 0x39
  }

  /** The value of a hexadecimal digit. */
  function HexValue(point: nat): (r: Option<nat>)
    ensures r.Some? ==> r.value < 16
  {
    if IsDecimal(point) then Some(point - 0x30)
    else if 0x61 <= point <= 0x66 then Some(point - 0x61 + 10)
    else if 0x41 <= point <= 0x46 then Some(point - 0x41 + 10)
    else None
  }

  predicate IsLetter(point: nat) {
    0x41 <= point <= 0x5a || 0x61 <= point <= 0x7a
  }

  predicate IsWhitespace(point: nat) {
    || 0x09 <= point <= 0x0d || point == 0x20 || point == 0xa0 || point == 0x1680
    || 0x2000 <= point <= 0x200a || point == 0x2028 || point == 0x2029 || point == 0x202f
    || point == 0x205f || point == 0x3000 || point == 0xfeff
  }

  predicate IsWord(point: nat) {
    IsDecimal(point) || IsLetter(point) || point == 0x5f
  }

  predicate IsLineTerminator(point: nat) {
    point == 0x0a || point == 0x0d || point == 0x2028 || point == 0x2029
  }

  predicate EscapeMatches(escape: ClassEscape, point: nat) {
    match escape
    case Digit => IsDecimal(point)
    case NonDigit => !IsDecimal(point)
    case Whitespace => IsWhitespace(point)
    case NonWhitespace => !IsWhitespace(point)
    case Word => IsWord(point)
    case NonWord => !IsWord(point)
  }

  function CanonicalizeAscii(unit: Unit): Unit {
    if 0x61 <= unit <= 0x7a then unit - 0x20 else unit
  }

  /**
   `Canonicalize` of one unit. `upper` is the Unicode upper case mapping of a
   scalar value, which may have several points.
   */
  function Canonicalize(upper: nat -> seq<nat>, unit: Unit): Unit {
    if unit < 0x80 then
      CanonicalizeAscii(unit)
    else if 0xd800 <= unit <= 0xdfff then
      unit // a lone surrogate is not a character
    else
      var mapped := upper(unit);
      if |mapped| == 1 && 0x80 <= mapped[0] < UNITS then mapped[0] else unit
  }

  /** What the pattern rewrite relies on about a canonicalization. */
  ghost predicate Sound(c: Unit -> Unit) {
    && (forall u: Unit :: u < 0x80 ==> c(u) == CanonicalizeAscii(u))
    && (forall u: Unit :: u >= 0x80 ==> c(u) >= 0x80)
    && (forall u: Unit :: c(c(u)) == c(u))
    && (forall u: Unit :: IsWhitespace(c(u)) == IsWhitespace(u))
    && (forall u: Unit :: IsLineTerminator(c(u)) == IsLineTerminator(u))
  }

  /** The three facts about the Unicode table itself. */
  ghost predicate UpperTable(upper: nat -> seq<nat>) {
    forall u: Unit :: 0x80 <= u ==>
      var v := Canonicalize(upper, u);
      && Canonicalize(upper, v) == v
      && IsWhitespace(v) == IsWhitespace(u)
      && IsLineTerminator(v) == IsLineTerminator(u)
  }

  /** The ASCII rule is what the code enforces; the rest comes from the table. */
  lemma CanonicalizeIsSound(upper: nat -> seq<nat>)
    requires UpperTable(upper)
    ensures Sound(u => Canonicalize(upper, u))
  {
    forall u: Unit | 0x80 <= u
      ensures Canonicalize(upper, u) >= 0x80
      ensures Canonicalize(upper, Canonicalize(upper, u)) == Canonicalize(upper, u)
    {
    }
  }

  const SMALL_LETTERS: string := "abcdefghijklmnopqrstuvwxyz"
  const CAPITAL_LETTERS: string := "ABCDEFGHIJKLMNOPQRSTUVWXYZ"

  /** Small letters become capital, and no other ASCII unit changes. */
  lemma AsciiLetters(upper: nat -> seq<nat>, i: nat, unit: Unit)
    requires i < 26 && unit < 0x80
    ensures Canonicalize(upper, SMALL_LETTERS[i] as nat) == CAPITAL_LETTERS[i] as nat
    ensures (forall k :: 0 <= k < 26 ==> SMALL_LETTERS[k] as nat != unit) ==> Canonicalize(upper, unit) == unit
  {
    assert SMALL_LETTERS[i] as nat == 0x61 + i && CAPITAL_LETTERS[i] as nat == 0x41 + i by { LetterCodes(i); }
    if 0x61 <= unit <= 0x7a {
      LetterCodes(unit - 0x61);
    }
  }

  lemma LetterCodes(i: nat)
    requires i < 26
    ensures SMALL_LETTERS[i] as nat == 0x61 + i && CAPITAL_LETTERS[i] as nat == 0x41 + i
  {
    if i < 13 {
      assert i == 0 || i == 1 || i == 2 || i == 3 || i == 4 || i == 5 || i == 6 || i == 7 || i == 8 || i == 9
             || i == 10 || i == 11 || i == 12;
    } else {
      assert i == 13 || i == 14 || i == 15 || i == 16 || i == 17 || i == 18 || i == 19 || i == 20 || i == 21
             || i == 22 || i == 23 || i == 24 || i == 25;
    }
  }

  /** A unit beyond ASCII becomes its upper case if that is a single unit beyond ASCII; nothing else is changed. */
  lemma BeyondAscii(upper: nat -> seq<nat>, unit: Unit, to: Unit)
    requires unit >= 0x80 && to != unit
    ensures Canonicalize(upper, unit) == to <==> !(0xd800 <= unit <= 0xdfff) && upper(unit) == [to] && to >= 0x80
  {
  }

  /** `subject` with every unit mapped: the ASCII fast path and the table path. */
  method CanonicalizeSubject(upper: nat -> seq<nat>, subject: seq<Unit>) returns (mapped: seq<Unit>)
    ensures mapped == Mapped(u => Canonicalize(upper, u), subject)
  {
    var ascii := true;
    for i := 0 to |subject|
      invariant ascii <==> forall j :: 0 <= j < i ==> subject[j] < 0x80
    {
      ascii := ascii && subject[i] < 0x80;
    }
    mapped := [];
    for i := 0 to |subject|
      invariant |mapped| == i
      invariant forall j :: 0 <= j < i ==> mapped[j] == Canonicalize(upper, subject[j])
    {
      mapped := mapped + [if ascii then CanonicalizeAscii(subject[i]) else Canonicalize(upper, subject[i])];
    }
  }

  function Mapped(c: Unit -> Unit, subject: seq<Unit>): (m: seq<Unit>)
    ensures |m| == |subject|
    ensures forall i :: 0 <= i < |m| ==> m[i] == c(subject[i])
  {
    seq(|subject|, i requires 0 <= i < |subject| => c(subject[i]))
  }

  /** A sound canonicalization never mixes the members of a class escape with the others. */
  lemma EscapeUnaffected(c: Unit -> Unit, escape: ClassEscape, u: Unit)
    requires Sound(c)
    ensures EscapeMatches(escape, c(u)) == EscapeMatches(escape, u)
  {
    if u < 0x80 {
      assert c(u) == CanonicalizeAscii(u);
    } else {
      assert c(u) >= 0x80;
    }
  }
}
