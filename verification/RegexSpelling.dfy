/**
 What the spellings of pattern syntax stand for, by number: each is printed from
 the units it is to denote, and read back.
 */
module RegexSpelling {
  import opened Options
  import opened CodeUnits
  import opened RegexReader
  import opened RegexRewrite

  const LOWER_DIGITS: string := "0123456789abcdef"
  const UPPER_DIGITS: string := "0123456789ABCDEF"

  /** The character of a digit, from the two alphabets. */
  function DigitPoint(n: nat, upper: bool): nat
    requires n < 16
  {
    (if upper then UPPER_DIGITS[n] else LOWER_DIGITS[n]) as nat
  }

  /** A number in so many hexadecimal digits, most significant first. */
  function HexDigits(n: nat, count: nat, upper: bool): Points
    decreases count
  {
    if count == 0 then [] else HexDigits(n / 16, count - 1, upper) + [DigitPoint(n % 16, upper)]
  }

  lemma {:induction false} DigitPointReads(n: nat, upper: bool)
    requires n < 16
    ensures HexValue(DigitPoint(n, upper)) == Some(n)
    ensures n < 10 ==> DigitPoint(n, upper) == 0x30 + n
  {
    var point := DigitPoint(n, upper);
    assert n == 0 || n == 1 || n == 2 || n == 3 || n == 4 || n == 5 || n == 6 || n == 7 || n == 8 || n == 9
           || n == 10 || n == 11 || n == 12 || n == 13 || n == 14 || n == 15;
  }

  /** Nothing but these characters is a hexadecimal digit. */
  lemma {:induction false} OnlyDigitsRead(point: nat)
    ensures HexValue(point).Some? ==>
              point == DigitPoint(HexValue(point).value, false) || point == DigitPoint(HexValue(point).value, true)
  {
    if HexValue(point).Some? {
      var n := HexValue(point).value;
      assert n == 0 || n == 1 || n == 2 || n == 3 || n == 4 || n == 5 || n == 6 || n == 7 || n == 8 || n == 9
             || n == 10 || n == 11 || n == 12 || n == 13 || n == 14 || n == 15;
    }
  }

  /** Digits that are written are read, whatever follows. */
  lemma {:induction false} HexSpelled(n: nat, count: nat, upper: bool, b: Points)
    requires n < Pow16(count)
    ensures |HexDigits(n, count, upper)| == count
    ensures Hex(HexDigits(n, count, upper) + b, count) == Some(n)
    decreases count
  {
    hide DigitPoint;
    if count > 0 {
      var digits, last := HexDigits(n / 16, count - 1, upper), DigitPoint(n % 16, upper);
      HexSpelled(n / 16, count - 1, upper, [last] + b);
      DigitPointReads(n % 16, upper);
      assert digits + [last] + b == digits + ([last] + b);
    }
  }

  /** One to three octal digits, the first at most 3 if there are three. */
  predicate IsOctal(digits: seq<nat>) {
    && 1 <= |digits| <= 3
    && (forall i :: 0 <= i < |digits| ==> digits[i] < 8)
    && (|digits| == 3 ==> digits[0] <= 3)
  }

  function OctalNumber(digits: seq<nat>): nat {
    if digits == [] then 0 else 8 * OctalNumber(digits[..|digits| - 1]) + digits[|digits| - 1]
  }

  function DecimalPoints(digits: seq<nat>): Points {
    seq(|digits|, i requires 0 <= i < |digits| => 0x30 + digits[i])
  }

  /** What follows cannot be taken as one more digit. */
  predicate OctalEnds(digits: seq<nat>, b: Points)
    requires IsOctal(digits)
  {
    |digits| == 3 || (|digits| == 2 && digits[0] > 3) || b == [] || !(0x30 <= b[0] <= 0x37)
  }

  lemma {:induction false} OctalSpelled(digits: seq<nat>, b: Points)
    requires IsOctal(digits) && OctalEnds(digits, b)
    ensures OctalNumber(digits) < 256
    ensures Octal(DecimalPoints(digits) + b) == Some((OctalNumber(digits), |digits|))
  {
    var q := DecimalPoints(digits) + b;
    assert forall i :: 0 <= i < |digits| ==> q[i] == 0x30 + digits[i];
    assert OctalNumber(digits[..0]) == 0;
    assert OctalNumber(digits[..1]) == digits[0] by { assert digits[..1][..0] == []; }
    if |digits| == 1 {
      assert digits[..1] == digits;
    } else {
      assert digits[..2][..1] == digits[..1];
      assert OctalNumber(digits[..2]) == 8 * digits[0] + digits[1];
      if |digits| == 2 {
        assert digits[..2] == digits;
      }
    }
    assert |b| > 0 ==> q[|digits|] == b[0];
  }

  // ---------------------------------------------------------------------
  // Members of a class

  /** A way to write one member of a class. */
  datatype Spelling =
    | AsItself(unit: nat)
    | Control(which: nat)
    | HexTwo(unit: nat, upper: bool)
    | HexFour(unit: nat, upper: bool)
    | InOctal(digits: seq<nat>)
    | ControlLetter(letter: nat)
    | Backslashed(unit: nat)

  /** The letters of the control escapes of a class, for the units 8 to 13. */
  const CONTROL_LETTERS: string := "btnvfr"

  /** Characters that have a meaning of their own after a backslash in a class. */
  const TAKEN: string := "dDsSwWbtnvfr01234567cxuk"

  predicate IsSpelling(s: Spelling) {
    match s
    case AsItself(unit) => unit < 0x10000 && unit != BACKSLASH && unit != CLOSE_CLASS && unit != HYPHEN
    case Control(which) => which < 6
    case HexTwo(unit, _) => unit < 256
    case HexFour(unit, _) => unit < 0x10000
    case InOctal(digits) => IsOctal(digits)
    case ControlLetter(letter) => 0x30 <= letter <= 0x39 || 0x41 <= letter <= 0x5a || letter == 0x5f || 0x61 <= letter <= 0x7a
    case Backslashed(unit) => unit < 0x10000 && forall i :: 0 <= i < |TAKEN| ==> TAKEN[i] as nat != unit
  }

  function Spelled(s: Spelling): Points
    requires IsSpelling(s)
  {
    match s
    case AsItself(unit) => [unit]
    case Control(which) => [BACKSLASH, CONTROL_LETTERS[which] as nat]
    case HexTwo(unit, upper) => [BACKSLASH, 'x' as nat] + HexDigits(unit, 2, upper)
    case HexFour(unit, upper) => [BACKSLASH, 'u' as nat] + HexDigits(unit, 4, upper)
    case InOctal(digits) => [BACKSLASH] + DecimalPoints(digits)
    case ControlLetter(letter) => [BACKSLASH, 'c' as nat, letter]
    case Backslashed(unit) => [BACKSLASH, unit]
  }

  /** The unit a spelling is for. */
  function Denoted(s: Spelling): nat
    requires IsSpelling(s)
  {
    match s
    case AsItself(unit) => unit
    case Control(which) => 8 + which
    case HexTwo(unit, _) => unit
    case HexFour(unit, _) => unit
    case InOctal(digits) => OctalNumber(digits)
    case ControlLetter(letter) => letter % 32
    case Backslashed(unit) => unit
  }

  predicate Ends(s: Spelling, b: Points)
    requires IsSpelling(s)
  {
    s.InOctal? ==> OctalEnds(s.digits, b)
  }

  lemma {:induction false} ControlReads(which: nat, b: Points, named: bool)
    requires which < 6
    ensures ReadAtom([BACKSLASH, CONTROL_LETTERS[which] as nat] + b, named) == Some((OneUnit(8 + which), 2))
  {
    var q := [BACKSLASH, CONTROL_LETTERS[which] as nat] + b;
    assert q[1] == CONTROL_LETTERS[which] as nat;
    assert which == 0 || which == 1 || which == 2 || which == 3 || which == 4 || which == 5;
  }

  lemma {:induction false} HexAtomReads(unit: nat, count: nat, upper: bool, b: Points, named: bool)
    requires (count == 2 && unit < 256) || (count == 4 && unit < 0x10000)
    ensures var q := [BACKSLASH, if count == 2 then 0x78 else 0x75] + HexDigits(unit, count, upper);
            |q| == 2 + count && ReadAtom(q + b, named) == Some((OneUnit(unit), 2 + count))
  {
    HexBounds();
    HexSpelled(unit, count, upper, b);
    var q := [BACKSLASH, if count == 2 then 0x78 else 0x75] + HexDigits(unit, count, upper);
    assert (q + b)[2..] == HexDigits(unit, count, upper) + b;
    hide Hex, HexDigits;
    assert (q + b)[1] == if count == 2 then 0x78 else 0x75;
    assert ReadAtom(q + b, named) == ReadHexAtom(q + b, count);
  }

  lemma {:induction false} OctalAtomReads(digits: seq<nat>, b: Points, named: bool)
    requires IsOctal(digits) && OctalEnds(digits, b)
    ensures OctalNumber(digits) < 256
    ensures ReadAtom([BACKSLASH] + DecimalPoints(digits) + b, named) == Some((OneUnit(OctalNumber(digits)), 1 + |digits|))
  {
    OctalSpelled(digits, b);
    var q := [BACKSLASH] + DecimalPoints(digits) + b;
    assert q[1..] == DecimalPoints(digits) + b;
    assert q[1] == 0x30 + digits[0];
  }

  lemma {:induction false} BackslashedReads(unit: nat, b: Points, named: bool)
    requires IsSpelling(Backslashed(unit))
    ensures ReadAtom([BACKSLASH, unit] + b, named) == Some((OneUnit(unit), 2))
  {
    var q := [BACKSLASH, unit] + b;
    assert q[1] == unit;
    NotTaken(unit);
  }

  lemma {:induction false} NotTaken(unit: nat)
    requires forall i :: 0 <= i < |TAKEN| ==> TAKEN[i] as nat != unit
    ensures EscapeOf(unit).None? && ControlOf(unit).None? && OctalValue(unit).None?
    ensures unit != 0x62 && unit != 0x63 && unit != 0x78 && unit != 0x75 && unit != 0x6b
  {
    assert TAKEN[0] == 'd' && TAKEN[1] == 'D' && TAKEN[2] == 's' && TAKEN[3] == 'S' && TAKEN[4] == 'w' && TAKEN[5] == 'W';
    assert TAKEN[6] == 'b' && TAKEN[7] == 't' && TAKEN[8] == 'n' && TAKEN[9] == 'v' && TAKEN[10] == 'f' && TAKEN[11] == 'r';
    assert TAKEN[12] == '0' && TAKEN[13] == '1' && TAKEN[14] == '2' && TAKEN[15] == '3';
    assert TAKEN[16] == '4' && TAKEN[17] == '5' && TAKEN[18] == '6' && TAKEN[19] == '7';
    assert TAKEN[20] == 'c' && TAKEN[21] == 'x' && TAKEN[22] == 'u' && TAKEN[23] == 'k';
  }

  /** Every spelling of a member reads as the unit it is for, whatever follows. */
  lemma {:induction false} AtomSpelled(s: Spelling, b: Points, named: bool)
    requires IsSpelling(s) && Ends(s, b)
    ensures Denoted(s) < UNITS && Spelled(s) != []
    ensures ReadAtom(Spelled(s) + b, named) == Some((OneUnit(Denoted(s)), |Spelled(s)|))
  {
    hide ReadAtom, HexDigits, DecimalPoints, OctalNumber, OctalEnds, Octal, Hex;
    match s
    case AsItself(unit) => PlainReads(unit, b, named);
    case Control(which) => ControlReads(which, b, named);
    case HexTwo(unit, upper) => HexAtomReads(unit, 2, upper, b, named);
    case HexFour(unit, upper) => HexAtomReads(unit, 4, upper, b, named);
    case InOctal(digits) =>
      OctalAtomReads(digits, b, named);
      DecimalCount(digits);
    case ControlLetter(letter) => ControlLetterReads(letter, b, named);
    case Backslashed(unit) => BackslashedReads(unit, b, named);
  }

  lemma {:induction false} DecimalCount(digits: seq<nat>)
    ensures |DecimalPoints(digits)| == |digits|
  {
  }

  lemma {:induction false} PlainReads(unit: nat, b: Points, named: bool)
    requires unit < UNITS && unit != BACKSLASH
    ensures ReadAtom([unit] + b, named) == Some((OneUnit(unit), 1))
  {
  }

  lemma {:induction false} ControlLetterReads(letter: nat, b: Points, named: bool)
    requires IsDecimal(letter) || IsLetter(letter) || letter == 0x5f
    ensures ReadAtom([BACKSLASH, 0x63, letter] + b, named) == Some((OneUnit(letter % 32), 3))
  {
    var q := [BACKSLASH, 0x63, letter] + b;
    assert q[1] == 0x63 && q[2] == letter;
  }

  // ---------------------------------------------------------------------
  // Class escapes

  const CLASS_LETTERS: string := "dDsSwW"

  /** What each class escape matches, by number: digits, white space and line terminators, and word characters. */
  predicate ClassMatches(which: nat, u: nat) {
    match which
    case 0 => 0x30 <= u <= 0x39
    case 1 => !(0x30 <= u <= 0x39)
    case 2 => u in SPACES || 0x2000 <= u <= 0x200a
    case 3 => !(u in SPACES || 0x2000 <= u <= 0x200a)
    case 4 => 0x30 <= u <= 0x39 || 0x41 <= u <= 0x5a || u == 0x5f || 0x61 <= u <= 0x7a
    case _ => !(0x30 <= u <= 0x39 || 0x41 <= u <= 0x5a || u == 0x5f || 0x61 <= u <= 0x7a)
  }

  const SPACES: set<nat> :=
    {9, 10, 11, 12, 13, 0x20, 0xa0, 0x1680, 0x2028, 0x2029, 0x202f, 0x205f, 0x3000, 0xfeff}

  function ClassUnits(which: nat): set<Unit> {
    set u: Unit | ClassMatches(which, u)
  }

  lemma {:induction false} ClassEscapeReads(which: nat, b: Points, named: bool)
    requires which < 6
    ensures var r := ReadAtom([BACKSLASH, CLASS_LETTERS[which] as nat] + b, named);
            r.Some? && r.value.1 == 2 && r.value.0.Escape? && AtomMembers(r.value.0) == ClassUnits(which)
  {
    var q := [BACKSLASH, CLASS_LETTERS[which] as nat] + b;
    assert q[1] == CLASS_LETTERS[which] as nat;
    assert which == 0 || which == 1 || which == 2 || which == 3 || which == 4 || which == 5;
    var escape := EscapeOf(q[1]).value;
    forall u: Unit ensures EscapeMatches(escape, u) <==> ClassMatches(which, u) {}
  }

  // ---------------------------------------------------------------------
  // Whole classes

  datatype Part = Member(spelling: Spelling) | Class(which: nat)

  /** A part alone, or two with a hyphen between them. */
  datatype Item = Alone(part: Part) | Hyphenated(left: Part, right: Part)

  predicate IsPart(p: Part) {
    match p
    case Member(s) => IsSpelling(s)
    case Class(which) => which < 6
  }

  function PartText(p: Part): Points
    requires IsPart(p)
  {
    match p
    case Member(s) => Spelled(s)
    case Class(which) => [BACKSLASH, CLASS_LETTERS[which] as nat]
  }

  predicate Amid(low: nat, u: nat, high: nat) {
    low <= u <= high
  }

  function PartUnits(p: Part): set<Unit>
    requires IsPart(p)
  {
    match p
    case Member(s) => set u: Unit | Amid(Denoted(s), u, Denoted(s))
    case Class(which) => ClassUnits(which)
  }

  predicate PartEnds(p: Part, b: Points)
    requires IsPart(p)
  {
    p.Member? ==> Ends(p.spelling, b)
  }

  predicate IsRange(item: Item) {
    item.Hyphenated? && item.left.Member? && item.right.Member?
  }

  /** Both parts are well spelled, and a range is not reversed. */
  predicate IsItem(item: Item) {
    match item
    case Alone(p) => IsPart(p)
    case Hyphenated(left, right) => IsPart(left) && IsPart(right)
  }

  predicate Reversed(item: Item)
    requires IsItem(item)
  {
    IsRange(item) && Denoted(item.left.spelling) > Denoted(item.right.spelling)
  }

  function ItemText(item: Item): Points
    requires IsItem(item)
  {
    match item
    case Alone(p) => PartText(p)
    case Hyphenated(left, right) => PartText(left) + [HYPHEN] + PartText(right)
  }

  function LastPart(item: Item): Part {
    if item.Alone? then item.part else item.right
  }

  /** A range is all units between its ends; a class escape beside a hyphen makes the hyphen a member. */
  function ItemUnits(item: Item): set<Unit>
    requires IsItem(item)
  {
    match item
    case Alone(p) => PartUnits(p)
    case Hyphenated(left, right) =>
      if IsRange(item) then set u: Unit | Amid(Denoted(left.spelling), u, Denoted(right.spelling))
      else PartUnits(left) + {0x2d} + PartUnits(right)
  }

  ghost predicate PartReadsAs(p: Part, r: Option<(Atom, nat)>)
    requires IsPart(p)
  {
    && r.Some? && r.value.1 == |PartText(p)| && AtomMembers(r.value.0) == PartUnits(p)
    && (p.Member? ==> Denoted(p.spelling) < UNITS && r.value.0 == OneUnit(Denoted(p.spelling)))
    && (p.Class? ==> r.value.0.Escape?)
  }

  lemma {:induction false} PartReads(p: Part, b: Points, named: bool)
    requires IsPart(p) && PartEnds(p, b)
    ensures PartReadsAs(p, ReadAtom(PartText(p) + b, named))
    ensures PartText(p) != [] && PartText(p)[0] != HYPHEN && PartText(p)[0] != CLOSE_CLASS
  {
    hide ReadAtom, Denoted, ClassUnits, Ends;
    match p
    case Member(s) =>
      AtomSpelled(s, b, named);
      assert AtomMembers(OneUnit(Denoted(s))) == PartUnits(p);
      SpelledStart(s);
    case Class(which) => ClassEscapeReads(which, b, named);
  }

  lemma {:induction false} SpelledStart(s: Spelling)
    requires IsSpelling(s)
    ensures Spelled(s) != [] && Spelled(s)[0] != HYPHEN && Spelled(s)[0] != CLOSE_CLASS
  {
    hide HexDigits, DecimalPoints;
  }

  /** An item, followed by something that is no hyphen, contributes its units; a reversed range is an error. */
  lemma {:induction false} ItemReads(item: Item, b: Points, named: bool)
    requires IsItem(item) && PartEnds(LastPart(item), b) && (b == [] || b[0] != HYPHEN)
    ensures var r := ReadItem(ItemText(item) + b, named);
            if Reversed(item) then r.None? else r == Some(Members(ItemUnits(item), |ItemText(item)|))
    ensures ItemText(item) != [] && ItemText(item)[0] != HYPHEN && ItemText(item)[0] != CLOSE_CLASS
  {
    hide ReadAtom, PartText, PartUnits, AtomMembers, Denoted;
    match item
    case Alone(p) =>
      PartReads(p, b, named);
      var q, n := PartText(p) + b, |PartText(p)|;
      assert n < |q| ==> q[n] == b[0];
    case Hyphenated(left, right) =>
      var rest := [HYPHEN] + PartText(right) + b;
      assert PartEnds(left, rest) by { HyphenEnds(left, PartText(right) + b); assert rest == [HYPHEN] + (PartText(right) + b); }
      PartReads(left, rest, named);
      PartReads(right, b, named);
      var q, n := ItemText(item) + b, |PartText(left)|;
      assert q == PartText(left) + rest;
      assert q[n] == HYPHEN && q[n + 1] == PartText(right)[0] && q[n + 1..] == PartText(right) + b;
      if IsRange(item) {
        assert forall low: Unit, high: Unit, u: Unit :: u in UnitRange(low, high) <==> low <= u <= high;
        assert !Reversed(item) ==> UnitRange(Denoted(left.spelling), Denoted(right.spelling)) == ItemUnits(item);
      }
  }

  lemma {:induction false} HyphenEnds(p: Part, b: Points)
    requires IsPart(p)
    ensures PartEnds(p, [HYPHEN] + b)
  {
  }

  predicate AllItems(items: seq<Item>) {
    forall i :: 0 <= i < |items| ==> IsItem(items[i])
  }

  predicate NoneReversed(items: seq<Item>)
    requires AllItems(items)
  {
    forall i :: 0 <= i < |items| ==> !Reversed(items[i])
  }

  function ItemsText(items: seq<Item>): Points
    requires AllItems(items)
  {
    if items == [] then [] else ItemText(items[0]) + ItemsText(items[1..])
  }

  function ItemsUnits(items: seq<Item>): set<Unit>
    requires AllItems(items)
  {
    if items == [] then {} else ItemUnits(items[0]) + ItemsUnits(items[1..])
  }

  /** No item can take the beginning of the next as its own. */
  predicate Apart(items: seq<Item>)
    requires AllItems(items)
  {
    items == [] || (PartEnds(LastPart(items[0]), ItemsText(items[1..]) + [CLOSE_CLASS]) && Apart(items[1..]))
  }

  lemma {:induction false} EndsSame(p: Part, b: Points, b': Points)
    requires IsPart(p) && PartEnds(p, b) && b != [] && b' != [] && b[0] == b'[0]
    ensures PartEnds(p, b')
  {
  }

  lemma {:induction false} ItemsRead(items: seq<Item>, b: Points, named: bool)
    requires AllItems(items) && Apart(items)
    ensures ReadMembers(ItemsText(items) + [CLOSE_CLASS] + b, named)
            == if NoneReversed(items) then Some(Members(ItemsUnits(items), |ItemsText(items)| + 1)) else None
    ensures var q := ItemsText(items) + [CLOSE_CLASS] + b; q[0] != HYPHEN
  {
    hide ReadItem, ItemText, ItemUnits, PartEnds;
    var q := ItemsText(items) + [CLOSE_CLASS] + b;
    if items == [] {
      assert q[0] == CLOSE_CLASS;
    } else {
      var item, rest := items[0], ItemsText(items[1..]) + [CLOSE_CLASS] + b;
      ItemsRead(items[1..], b, named);
      var plain := ItemsText(items[1..]) + [CLOSE_CLASS];
      assert plain[0] == rest[0];
      EndsSame(LastPart(item), plain, rest);
      ItemReads(item, rest, named);
      var n := |ItemText(item)|;
      assert q == ItemText(item) + rest && q[n..] == rest && q[0] == ItemText(item)[0];
      assert NoneReversed(items) <==> !Reversed(item) && NoneReversed(items[1..]);
    }
  }

  function ClassSource(negated: bool, items: seq<Item>): Points
    requires AllItems(items)
  {
    [OPEN_CLASS] + (if negated then [CARET] else []) + ItemsText(items) + [CLOSE_CLASS]
  }

  /**
   A class written from its items denotes the units of its items, and its
   rewrite is the printed class of their canonical units; with a reversed range
   among them it is an error.
   */
  lemma {:induction false} ClassSpelled(c: Unit -> Unit, negated: bool, items: seq<Item>, b: Points, named: bool)
    requires AllItems(items) && Apart(items)
    requires !negated ==> ItemsText(items) == [] || ItemsText(items)[0] != CARET
    ensures var q, n := ClassSource(negated, items) + b, |ClassSource(negated, items)|;
            && q[0] == OPEN_CLASS
            && (NoneReversed(items) ==>
                  && ReadSet(q, named) == Some((Set(negated, ItemsUnits(items)), n))
                  && RewriteClass(c, q, named) == Some((ClassText(negated, set u | u in ItemsUnits(items) :: c(u)), n)))
            && (!NoneReversed(items) ==> RewriteClass(c, q, named) == None)
  {
    hide ItemsText, ItemsUnits, ReadMembers, ClassText;
    ItemsRead(items, b, named);
    var q := ClassSource(negated, items) + b;
    var body := ItemsText(items) + [CLOSE_CLASS] + b;
    if negated {
      assert q[1] == CARET && q[2..] == body;
    } else {
      assert q[1] == body[0];
      assert q[1..] == body;
    }
    assert Image(c, ItemsUnits(items)) == set u | u in ItemsUnits(items) :: c(u);
  }

  // ---------------------------------------------------------------------
  // Escapes outside a class

  /** `\t \n \v \f \r` stand for the units 9 to 13, and are copied. */
  lemma {:induction false} ControlEscapes(c: Unit -> Unit, which: nat, b: Points, groups: nat, named: bool)
    requires 1 <= which < 6
    ensures var escape := [BACKSLASH, CONTROL_LETTERS[which] as nat];
            && ReadToken(escape + b, groups, named) == Some((Escaped(8 + which), 2))
            && RewriteOne(c, escape + b, groups, named) == Some((escape, 2))
  {
    var escape := [BACKSLASH, CONTROL_LETTERS[which] as nat];
    assert (escape + b)[1] == escape[1] && (escape + b)[..2] == escape;
    assert which == 1 || which == 2 || which == 3 || which == 4 || which == 5;
  }

  /** Class escapes and word boundaries are copied, and a class escape accepts what its number says. */
  lemma {:induction false} ClassEscapes(c: Unit -> Unit, which: nat, b: Points, groups: nat, named: bool)
    requires which < 6
    ensures var escape := [BACKSLASH, CLASS_LETTERS[which] as nat];
            && RewriteOne(c, escape + b, groups, named) == Some((escape, 2))
            && var r := ReadToken(escape + b, groups, named);
               r.Some? && r.value.1 == 2 && LeafOf(r.value.0, false).members == ClassUnits(which)
               && !LeafOf(r.value.0, false).inverted
  {
    var escape := [BACKSLASH, CLASS_LETTERS[which] as nat];
    assert (escape + b)[1] == escape[1] && (escape + b)[..2] == escape;
    ClassEscapeReads(which, b, named);
    assert which == 0 || which == 1 || which == 2 || which == 3 || which == 4 || which == 5;
  }

  /** A unit spelled by its hexadecimal digits stands for itself, and is rewritten as its canonical unit. */
  lemma {:induction false} HexEscapes(c: Unit -> Unit, unit: nat, count: nat, upper: bool, b: Points, groups: nat, named: bool)
    requires (count == 2 && unit < 256) || (count == 4 && unit < 0x10000)
    ensures var escape := [BACKSLASH, if count == 2 then 0x78 else 0x75] + HexDigits(unit, count, upper);
            && ReadToken(escape + b, groups, named) == Some((Escaped(unit), 2 + count))
            && RewriteOne(c, escape + b, groups, named) == Some((EscapedLiteralText(c, unit), 2 + count))
  {
    hide Hex, HexDigits, EscapedLiteralText;
    HexBounds();
    HexSpelled(unit, count, upper, b);
    var escape := [BACKSLASH, if count == 2 then 0x78 else 0x75] + HexDigits(unit, count, upper);
    var q := escape + b;
    assert q[2..] == HexDigits(unit, count, upper) + b;
    assert q[1] == if count == 2 then 0x78 else 0x75;
  }

  lemma {:induction false} FirstDigitCounts(digits: Points)
    requires digits != [] && forall i :: 0 <= i < |digits| ==> IsDecimal(digits[i])
    ensures DecimalNumber(digits) >= digits[0] - 0x30
  {
    if |digits| > 1 {
      FirstDigitCounts(digits[..|digits| - 1]);
    }
  }

  /** Beyond the groups of the pattern an octal escape stands for its number, and is rewritten as its canonical unit. */
  lemma {:induction false} OctalEscapes(c: Unit -> Unit, digits: seq<nat>, b: Points, groups: nat, named: bool)
    requires IsOctal(digits) && OctalEnds(digits, b) && groups < digits[0]
    ensures OctalNumber(digits) < 256
    ensures var escape := [BACKSLASH] + DecimalPoints(digits);
            && ReadToken(escape + b, groups, named) == Some((Escaped(OctalNumber(digits)), 1 + |digits|))
            && RewriteOne(c, escape + b, groups, named) == Some((EscapedLiteralText(c, OctalNumber(digits)), 1 + |digits|))
  {
    hide Octal, OctalNumber, EscapedLiteralText, DecimalNumber;
    OctalSpelled(digits, b);
    var q := [BACKSLASH] + DecimalPoints(digits) + b;
    assert q[1..] == DecimalPoints(digits) + b;
    assert q[1] == 0x30 + digits[0];
    FirstDigitCounts(q[1..][..Decimals(q[1..])]);
  }

  /** The decimal digits of a number, without leading zeros. */
  function DecimalDigits(n: nat): seq<nat> {
    if n < 10 then [n] else DecimalDigits(n / 10) + [n % 10]
  }

  lemma {:induction false} DecimalSpelled(n: nat)
    ensures var d := DecimalDigits(n); |d| > 0 && (forall i :: 0 <= i < |d| ==> d[i] < 10) && (n > 0 ==> d[0] > 0)
    ensures var p := DecimalPoints(DecimalDigits(n));
            (forall i :: 0 <= i < |p| ==> IsDecimal(p[i])) && DecimalNumber(p) == n
  {
    if n >= 10 {
      DecimalSpelled(n / 10);
      var p := DecimalPoints(DecimalDigits(n));
      assert p[..|p| - 1] == DecimalPoints(DecimalDigits(n / 10));
    }
  }

  lemma {:induction false} DecimalsStop(p: Points, b: Points)
    requires (forall i :: 0 <= i < |p| ==> IsDecimal(p[i])) && (b == [] || !IsDecimal(b[0]))
    ensures Decimals(p + b) == |p|
  {
    if p == [] {
      assert p + b == b;
    } else {
      DecimalsStop(p[1..], b);
      assert (p + b)[1..] == p[1..] + b;
    }
  }

  /** A reference to one of the pattern's groups is read as its number, and copied. */
  lemma {:induction false} ReferencesSpelled(c: Unit -> Unit, n: nat, b: Points, groups: nat, named: bool)
    requires 1 <= n <= groups && (b == [] || !(0x30 <= b[0] <= 0x39))
    ensures var escape := [BACKSLASH] + DecimalPoints(DecimalDigits(n));
            && ReadToken(escape + b, groups, named) == Some((Numbered(n), |escape|))
            && RewriteOne(c, escape + b, groups, named) == Some((escape, |escape|))
  {
    hide DecimalNumber, DecimalDigits, Decimals;
    DecimalSpelled(n);
    var p := DecimalPoints(DecimalDigits(n));
    var escape := [BACKSLASH] + p;
    var q := escape + b;
    DecimalsStop(p, b);
    assert q[1..] == p + b && q[1..][..|p|] == p && q[..1 + |p|] == escape;
    assert q[1] == p[0] == 0x30 + DecimalDigits(n)[0];
    assert IsDecimal(p[0]);
  }

  const SYNTAX: string := "^$\\.*+?()[]{}|"

  /** Characters with a meaning in a pattern, and digits. */
  predicate IsMeant(unit: nat) {
    0x30 <= unit <= 0x39 || exists i :: 0 <= i < |SYNTAX| && SYNTAX[i] as nat == unit
  }

  lemma {:induction false} SyntaxSpelled(unit: nat)
    ensures IsSyntax(unit) || IsDecimal(unit) <==> IsMeant(unit)
  {
    assert SYNTAX[0] == '^' && SYNTAX[1] == '$' && SYNTAX[2] == '\\' && SYNTAX[3] == '.' && SYNTAX[4] == '*';
    assert SYNTAX[5] == '+' && SYNTAX[6] == '?' && SYNTAX[7] == '(' && SYNTAX[8] == ')' && SYNTAX[9] == '[';
    assert SYNTAX[10] == ']' && SYNTAX[11] == '{' && SYNTAX[12] == '}' && SYNTAX[13] == '|';
  }

  /** A unit without a meaning of its own becomes its canonical unit; syntax characters and digits are copied. */
  lemma {:induction false} LiteralsSpelled(c: Unit -> Unit, unit: Unit, b: Points, groups: nat, named: bool)
    requires Sound(c) && unit != '(' as nat && unit != '[' as nat && unit != '\\' as nat
    ensures ReadToken([unit] + b, groups, named) == Some((Raw(unit), 1))
    ensures RewriteOne(c, [unit] + b, groups, named) == Some(([if IsMeant(unit) then unit else c(unit)], 1))
  {
    SyntaxSpelled(unit);
    hide IsMeant;
    assert ([unit] + b)[0] == unit;
    if unit < 0x80 {
      assert c(unit) == CanonicalizeAscii(unit);
    } else {
      assert c(unit) >= 0x80;
    }
  }

  /** The ways to open a group. */
  function OpeningText(opening: Opening): Points {
    match opening
    case Capture => [0x28]
    case Plain => [0x28, 0x3f, 0x3a]
    case Ahead(negative) => [0x28, 0x3f, if negative then 0x21 else 0x3d]
    case Behind(negative) => [0x28, 0x3f, 0x3c, if negative then 0x21 else 0x3d]
    case NamedCapture(name) => [0x28, 0x3f, 0x3c] + name + [0x3e]
  }

  /** A name is not empty, does not start a lookbehind, and ends at its bracket. */
  predicate IsOpening(opening: Opening, b: Points) {
    && (opening.Capture? ==> b == [] || b[0] != 0x3f)
    && (opening.NamedCapture? ==>
          opening.name != [] && opening.name[0] != 0x3d && opening.name[0] != 0x21 && 0x3e !in opening.name)
  }

  lemma {:induction false} NameEnds(name: Points, b: Points)
    requires GREATER !in name
    ensures IndexOf(name + [GREATER] + b, GREATER) == Some(|name|)
  {
    var q := name + [GREATER] + b;
    if name == [] {
      assert q[0] == GREATER;
    } else {
      assert q[0] == name[0] && q[1..] == name[1..] + [GREATER] + b;
      assert name[0] in name;
      NameEnds(name[1..], b);
    }
  }

  /** Each way to open a group is read as such, and copied. */
  lemma {:induction false} OpeningsSpelled(c: Unit -> Unit, opening: Opening, b: Points, groups: nat, named: bool)
    requires IsOpening(opening, b)
    ensures var text := OpeningText(opening);
            && ReadToken(text + b, groups, named) == Some((Open(opening), |text|))
            && RewriteOne(c, text + b, groups, named) == Some((text, |text|))
  {
    hide IndexOf;
    var text := OpeningText(opening);
    var q := text + b;
    assert q[..|text|] == text;
    assert forall i :: 0 <= i < |text| ==> q[i] == text[i];
    if opening.NamedCapture? {
      NameEnds(opening.name, b);
      assert q[3..] == opening.name + [GREATER] + b;
      assert q[3..3 + |opening.name|] == opening.name;
      assert q[3] == opening.name[0];
    } else if opening.Capture? && b != [] {
      assert q[1] == b[0];
    }
  }

  // ---------------------------------------------------------------------
  // When the rewrite refuses

  lemma {:induction false} OneRefusedIff(c: Unit -> Unit, q: Points, groups: nat, named: bool)
    requires q != []
    ensures var r, t := RewriteOne(c, q, groups, named), ReadToken(q, groups, named);
            (r.Some? <==> t.Some?) && (r.Some? ==> r.value.1 == t.value.1)
  {
    hide Hex, Octal, DecimalNumber, Decimals, IndexOf, ReadMembers, ClassText, LiteralText, EscapedLiteralText;
  }

  /** The rewrite succeeds exactly on texts that read as tokens: it refuses no pattern the syntax allows. */
  lemma {:induction false} RewriteSucceedsIff(c: Unit -> Unit, q: Points, groups: nat, named: bool)
    ensures RewritePattern(c, q, groups, named).Some? <==> ReadAll(q, groups, named).Some?
    decreases |q|
  {
    hide RewriteOne, ReadToken;
    if q != [] {
      OneRefusedIff(c, q, groups, named);
      RewriteAdvances(c, q, groups, named);
      var first := ReadToken(q, groups, named);
      if first.Some? {
        RewriteSucceedsIff(c, q[first.value.1..], groups, named);
      }
    }
  }
}
