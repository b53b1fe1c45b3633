/**
 How the text of a pattern with neither `u` nor `v` is read (ECMA-262, section
 22.2.1 with the Annex B.1.2 additions): text to tokens, tokens to a tree. All
 functions read from the front of the text they are given.
 */
module RegexReader {
  import opened Options
  import opened CodeUnits
  import opened RegexMatcher

  type Points = seq<nat>

  const BACKSLASH: nat := 0x5c
  const OPEN_PAREN: nat := 0x28
  const CLOSE_PAREN: nat := 0x29
  const STAR: nat := 0x2a
  const PLUS: nat := 0x2b
  const COMMA: nat := 0x2c
  const HYPHEN: nat := 0x2d
  const DOT: nat := 0x2e
  const SLASH: nat := 0x2f
  const COLON: nat := 0x3a
  const LESS: nat := 0x3c
  const EQUALS: nat := 0x3d
  const GREATER: nat := 0x3e
  const QUESTION: nat := 0x3f
  const BANG: nat := 0x21
  const DOLLAR: nat := 0x24
  const OPEN_CLASS: nat := 0x5b
  const CLOSE_CLASS: nat := 0x5d
  const CARET: nat := 0x5e
  const OPEN_BRACE: nat := 0x7b
  const BAR: nat := 0x7c
  const CLOSE_BRACE: nat := 0x7d

  // ---------------------------------------------------------------------
  // Digits

  function OctalValue(point: nat): Option<nat> {
    if 0x30 <= point <= 0x37 then Some(point - 0x30) else None
  }

  /** The value of exactly `count` hex digits. */
  function Hex(q: Points, count: nat): (v: Option<nat>)
    ensures v.Some? ==> count <= |q| && v.value < Pow16(count)
  {
    if count == 0 then Some(0)
    else if |q| < count then None
    else
      var high := Hex(q, count - 1);
      var low := HexValue(q[count - 1]);
      if high.None? || low.None? then None else Some(high.value * 16 + low.value)
  }

  function Pow16(n: nat): nat {
    if n == 0 then 1 else 16 * Pow16(n - 1)
  }

  lemma HexBounds()
    ensures Pow16(2) == 0x100 && Pow16(4) == 0x10000
  {
    assert Pow16(1) == 16;
    assert Pow16(3) == 16 * Pow16(2);
  }

  /** A legacy octal escape: one to three digits, at most 255; its value and length. */
  function Octal(q: Points): (v: Option<(Unit, nat)>)
    ensures v.Some? ==> 1 <= v.value.1 <= 3 && v.value.1 <= |q| && v.value.0 < 256
  {
    if q == [] || OctalValue(q[0]).None? then None
    else
      var a := OctalValue(q[0]).value;
      if |q| < 2 || OctalValue(q[1]).None? then Some((a, 1))
      else
        var b := OctalValue(q[1]).value;
        if a > 3 || |q| < 3 || OctalValue(q[2]).None? then Some((a * 8 + b, 2))
        else Some((a * 64 + b * 8 + OctalValue(q[2]).value, 3))
  }

  /** How many decimal digits `q` starts with. */
  function Decimals(q: Points): (n: nat)
    ensures n <= |q|
    ensures forall i :: 0 <= i < n ==> IsDecimal(q[i])
    ensures n < |q| ==> !IsDecimal(q[n])
  {
    if q == [] || !IsDecimal(q[0]) then 0 else 1 + Decimals(q[1..])
  }

  function DecimalNumber(digits: Points): nat
    requires forall i :: 0 <= i < |digits| ==> IsDecimal(digits[i])
  {
    if digits == [] then 0
    else
      assert IsDecimal(digits[|digits| - 1]);
      DecimalNumber(digits[..|digits| - 1]) * 10 + (digits[|digits| - 1] - 0x30)
  }

  /** The index of the first `point` in `q`, if any. */
  function IndexOf(q: Points, point: nat): (i: Option<nat>)
    ensures i.Some? ==> i.value < |q| && q[i.value] == point && point !in q[..i.value]
    ensures i.None? ==> point !in q
  {
    if q == [] then None
    else if q[0] == point then Some(0)
    else
      var rest := IndexOf(q[1..], point);
      if rest.None? then None
      else
        assert q[..rest.value + 1] == [q[0]] + q[1..][..rest.value];
        Some(rest.value + 1)
  }

  // ---------------------------------------------------------------------
  // Classes

  datatype Atom = OneUnit(unit: Unit) | Escape(escape: ClassEscape)

  function EscapeOf(letter: nat): Option<ClassEscape> {
    if letter == 0x64 then Some(Digit)
    else if letter == 0x44 then Some(NonDigit)
    else if letter == 0x73 then Some(Whitespace)
    else if letter == 0x53 then Some(NonWhitespace)
    else if letter == 0x77 then Some(Word)
    else if letter == 0x57 then Some(NonWord)
    else None
  }

  /** The unit a control escape letter names. */
  function ControlOf(letter: nat): Option<Unit> {
    if letter == 0x74 then Some(0x09)
    else if letter == 0x6e then Some(0x0a)
    else if letter == 0x76 then Some(0x0b)
    else if letter == 0x66 then Some(0x0c)
    else if letter == 0x72 then Some(0x0d)
    else None
  }

  function IdentityAtom(point: nat): Option<(Atom, nat)> {
    if point < UNITS then Some((OneUnit(point), 2)) else None
  }

  /** One member of a class and how many points spell it. */
  function ReadAtom(q: Points, named: bool): (r: Option<(Atom, nat)>)
    ensures r.Some? ==> 1 <= r.value.1 <= |q|
  {
    if q == [] then None
    else if q[0] != BACKSLASH then
      if q[0] < UNITS then Some((OneUnit(q[0]), 1)) else None
    else if |q| < 2 then None
    else
      var e := q[1];
      if EscapeOf(e).Some? then Some((Escape(EscapeOf(e).value), 2))
      else if e == 0x62 then Some((OneUnit(0x08), 2))
      else if ControlOf(e).Some? then Some((OneUnit(ControlOf(e).value), 2))
      else if OctalValue(e).Some? then
        var (unit, length) := Octal(q[1..]).value;
        Some((OneUnit(unit), 1 + length))
      else if e == 0x63 then
        if |q| > 2 && (IsDecimal(q[2]) || IsLetter(q[2]) || q[2] == 0x5f) then Some((OneUnit(q[2] % 32), 3))
        else Some((OneUnit(BACKSLASH), 1))
      else if e == 0x78 then ReadHexAtom(q, 2)
      else if e == 0x75 then ReadHexAtom(q, 4)
      else if e == 0x6b && named then None
      else IdentityAtom(e)
  }

  function ReadHexAtom(q: Points, count: nat): (r: Option<(Atom, nat)>)
    requires |q| >= 2 && (count == 2 || count == 4)
    ensures r.Some? ==> 1 <= r.value.1 <= |q|
  {
    HexBounds();
    var value := Hex(q[2..], count);
    if value.Some? then Some((OneUnit(value.value), 2 + count)) else IdentityAtom(q[1])
  }

  function AtomMembers(atom: Atom): set<Unit> {
    match atom
    case OneUnit(unit) => {unit}
    case Escape(escape) => set u: Unit | EscapeMatches(escape, u)
  }

  predicate Between(low: nat, u: nat, high: nat) {
    low <= u <= high
  }

  function UnitRange(low: Unit, high: Unit): set<Unit> {
    set u: Unit | Between(low, u, high)
  }

  /** The members some class text stands for, and the length of that text. */
  datatype Members = Members(units: set<Unit>, length: nat)

  /** The members one class item contributes ; a reversed range is an error. */
  function ReadItem(q: Points, named: bool): (r: Option<Members>)
    ensures r.Some? ==> 1 <= r.value.length <= |q|
  {
    var first := ReadAtom(q, named);
    if first.None? then None
    else
      var (a, n) := first.value;
      if n + 1 < |q| && q[n] == HYPHEN && q[n + 1] != CLOSE_CLASS then
        var second := ReadAtom(q[n + 1..], named);
        if second.None? then None
        else
          var (b, m) := second.value;
          if a.OneUnit? && b.OneUnit? then
            if a.unit <= b.unit then Some(Members(UnitRange(a.unit, b.unit), n + 1 + m)) else None
          else Some(Members(AtomMembers(a) + {HYPHEN} + AtomMembers(b), n + 1 + m))
      else Some(Members(AtomMembers(a), n))
  }

  /** The members up to and including the closing bracket. */
  function ReadMembers(q: Points, named: bool): (r: Option<Members>)
    ensures r.Some? ==> 1 <= r.value.length <= |q|
    decreases |q|
  {
    if q != [] && q[0] == CLOSE_CLASS then Some(Members({}, 1))
    else
      var item := ReadItem(q, named);
      if item.None? then None
      else
        var Members(units, n) := item.value;
        var rest := ReadMembers(q[n..], named);
        if rest.None? then None else Some(Members(units + rest.value.units, n + rest.value.length))
  }

  // ---------------------------------------------------------------------
  // Tokens

  datatype Opening = Capture | NamedCapture(name: Points) | Plain | Ahead(negative: bool) | Behind(negative: bool)

  /**
   `Raw` is a point written as itself, which may be syntax; `Escaped` is a unit
   spelled by an escape, which never is.
   */
  datatype Token =
    | Raw(unit: Unit)
    | Escaped(unit: Unit)
    | ClassEscape(escape: ClassEscape)
    | WordBoundary(negated: bool)
    | Numbered(number: nat)
    | NamedRef(name: Points)
    | Set(negated: bool, members: set<Unit>)
    | Open(opening: Opening)

  function ReadSet(q: Points, named: bool): (r: Option<(Token, nat)>)
    requires q != [] && q[0] == OPEN_CLASS
    ensures r.Some? ==> 1 <= r.value.1 <= |q|
  {
    var negated := |q| > 1 && q[1] == CARET;
    var body := if negated then 2 else 1;
    var members := ReadMembers(q[body..], named);
    if members.None? then None
    else Some((Set(negated, members.value.units), body + members.value.length))
  }

  function ReadOpen(q: Points): (r: Option<(Token, nat)>)
    requires q != [] && q[0] == OPEN_PAREN
    ensures r.Some? ==> 1 <= r.value.1 <= |q|
  {
    if |q| < 2 || q[1] != QUESTION then Some((Open(Capture), 1))
    else if |q| < 3 then None
    else if q[2] == COLON then Some((Open(Plain), 3))
    else if q[2] == EQUALS then Some((Open(Ahead(false)), 3))
    else if q[2] == BANG then Some((Open(Ahead(true)), 3))
    else if q[2] != LESS then None
    else if |q| > 3 && q[3] == EQUALS then Some((Open(Behind(false)), 4))
    else if |q| > 3 && q[3] == BANG then Some((Open(Behind(true)), 4))
    else
      var close := IndexOf(q[3..], GREATER);
      if close.None? then None
      else Some((Open(NamedCapture(q[3..3 + close.value])), 4 + close.value))
  }

  function IdentityEscape(point: nat): Option<(Token, nat)> {
    if point < UNITS then Some((Escaped(point), 2)) else None
  }

  function ReadHexEscape(q: Points, count: nat): (r: Option<(Token, nat)>)
    requires |q| >= 2 && (count == 2 || count == 4)
    ensures r.Some? ==> 1 <= r.value.1 <= |q|
  {
    HexBounds();
    var value := Hex(q[2..], count);
    if value.Some? then Some((Escaped(value.value), 2 + count)) else IdentityEscape(q[1])
  }

  function ReadDecimalEscape(q: Points, groups: nat): (r: Option<(Token, nat)>)
    requires |q| >= 2 && IsDecimal(q[1]) && q[1] != 0x30
    ensures r.Some? ==> 1 <= r.value.1 <= |q|
  {
    var n := Decimals(q[1..]);
    var number := DecimalNumber(q[1..][..n]);
    if number <= groups then Some((Numbered(number), 1 + n))
    else if q[1] >= 0x38 then IdentityEscape(q[1])
    else
      var (unit, length) := Octal(q[1..]).value;
      Some((Escaped(unit), 1 + length))
  }

  function ReadEscape(q: Points, groups: nat, named: bool): (r: Option<(Token, nat)>)
    requires q != [] && q[0] == BACKSLASH
    ensures r.Some? ==> 1 <= r.value.1 <= |q|
  {
    if |q| < 2 then None
    else
      var e := q[1];
      if EscapeOf(e).Some? then Some((ClassEscape(EscapeOf(e).value), 2))
      else if e == 0x62 then Some((WordBoundary(false), 2))
      else if e == 0x42 then Some((WordBoundary(true), 2))
      else if ControlOf(e).Some? then Some((Escaped(ControlOf(e).value), 2))
      else if e == 0x30 then
        if |q| < 3 || !IsDecimal(q[2]) then Some((Escaped(0), 2))
        else
          var (unit, length) := Octal(q[1..]).value;
          Some((Escaped(unit), 1 + length))
      else if e == 0x63 then
        if |q| > 2 && IsLetter(q[2]) then Some((Escaped(q[2] % 32), 3))
        else Some((Escaped(BACKSLASH), 1)) // the `c` is read again, as a character
      else if e == 0x78 then ReadHexEscape(q, 2)
      else if e == 0x75 then ReadHexEscape(q, 4)
      else if IsDecimal(e) then ReadDecimalEscape(q, groups)
      else if e == 0x6b && named then
        if |q| < 3 || q[2] != LESS then None
        else
          var close := IndexOf(q[3..], GREATER);
          if close.None? then None
          else Some((NamedRef(q[3..3 + close.value]), 4 + close.value))
      else IdentityEscape(e)
  }

  /** The first token and how many points it takes. */
  function ReadToken(q: Points, groups: nat, named: bool): (r: Option<(Token, nat)>)
    requires q != []
    ensures r.Some? ==> 1 <= r.value.1 <= |q|
  {
    if q[0] == BACKSLASH then ReadEscape(q, groups, named)
    else if q[0] == OPEN_PAREN then ReadOpen(q)
    else if q[0] == OPEN_CLASS then ReadSet(q, named)
    else if q[0] < UNITS then Some((Raw(q[0]), 1))
    else None
  }

  function ReadAll(q: Points, groups: nat, named: bool): Option<seq<Token>>
    decreases |q|
  {
    if q == [] then Some([])
    else
      var first := ReadToken(q, groups, named);
      if first.None? then None
      else
        var rest := ReadAll(q[first.value.1..], groups, named);
        if rest.None? then None else Some([first.value.0] + rest.value)
  }

  // ---------------------------------------------------------------------
  // What the grammar sees of a token: everything but which units it accepts.

  datatype Brace = Brace(min: nat, max: Option<nat>, length: nat)

  datatype View =
    | Character
    | Mark(unit: Unit)
    | Braced(brace: Brace)
    | Assertion(negated: bool)
    | ToNumber(number: nat)
    | ToName(name: Points)
    | Opens(opening: Opening)

  predicate IsRaw(ts: seq<Token>, i: nat, unit: Unit) {
    i < |ts| && ts[i] == Raw(unit)
  }

  /** The end of the run of raw digits at `i`. */
  function DigitsEnd(ts: seq<Token>, i: nat): (j: nat)
    requires i <= |ts|
    ensures i <= j <= |ts|
    decreases |ts| - i
  {
    if i < |ts| && ts[i].Raw? && IsDecimal(ts[i].unit) then DigitsEnd(ts, i + 1) else i
  }

  function DigitsNumber(ts: seq<Token>, i: nat, j: nat): nat
    requires i <= j <= |ts|
    requires forall k :: i <= k < j ==> ts[k].Raw? && IsDecimal(ts[k].unit)
    decreases j
  {
    if i == j then 0
    else
      assert ts[j - 1].Raw? && IsDecimal(ts[j - 1].unit);
      DigitsNumber(ts, i, j - 1) * 10 + (ts[j - 1].unit - 0x30)
  }

  lemma DigitsAreRaw(ts: seq<Token>, i: nat)
    requires i <= |ts|
    ensures forall k :: i <= k < DigitsEnd(ts, i) ==> ts[k].Raw? && IsDecimal(ts[k].unit)
    decreases |ts| - i
  {
    if i < |ts| && ts[i].Raw? && IsDecimal(ts[i].unit) { DigitsAreRaw(ts, i + 1); }
  }

  /** A quantifier `{n}`, `{n,}` or `{n,m}` that starts at `i`. */
  function BraceAt(ts: seq<Token>, i: nat): Option<Brace> {
    if !IsRaw(ts, i, OPEN_BRACE) then None
    else
      var j := DigitsEnd(ts, i + 1);
      DigitsAreRaw(ts, i + 1);
      if j == i + 1 then None
      else
        var min := DigitsNumber(ts, i + 1, j);
        if IsRaw(ts, j, CLOSE_BRACE) then Some(Brace(min, Some(min), j + 1 - i))
        else if !IsRaw(ts, j, COMMA) then None
        else
          var k := DigitsEnd(ts, j + 1);
          DigitsAreRaw(ts, j + 1);
          if !IsRaw(ts, k, CLOSE_BRACE) then None
          else Some(Brace(min, if k == j + 1 then None else Some(DigitsNumber(ts, j + 1, k)), k + 1 - i))
  }

  predicate IsMark(unit: Unit) {
    || unit == CLOSE_PAREN || unit == BAR || unit == CARET || unit == DOLLAR
    || unit == STAR || unit == PLUS || unit == QUESTION
  }

  function ViewAt(ts: seq<Token>, i: nat): View
    requires i < |ts|
  {
    match ts[i]
    case Raw(unit) =>
      if IsMark(unit) then Mark(unit)
      else if BraceAt(ts, i).Some? then Braced(BraceAt(ts, i).value)
      else Character
    case Escaped(_) => Character
    case ClassEscape(_) => Character
    case Set(_, _) => Character
    case WordBoundary(negated) => Assertion(negated)
    case Numbered(number) => ToNumber(number)
    case NamedRef(name) => ToName(name)
    case Open(opening) => Opens(opening)
  }

  function Views(ts: seq<Token>): (vs: seq<View>)
    ensures |vs| == |ts|
    ensures forall i :: 0 <= i < |ts| ==> vs[i] == ViewAt(ts, i)
  {
    seq(|ts|, i requires 0 <= i < |ts| => ViewAt(ts, i))
  }

  // ---------------------------------------------------------------------
  // The grammar. A parse yields its tree, the index after it and the number
  // of capture groups opened so far.

  datatype Parsed = Parsed(tree: Tree, next: nat, groups: nat)

  /** Group names in numbering order; `decode` resolves the escapes in a name. */
  function GroupNames(vs: seq<View>, decode: Points -> Points): seq<Option<Points>> {
    if vs == [] then []
    else
      var rest := GroupNames(vs[1..], decode);
      match vs[0]
      case Opens(Capture) => [None] + rest
      case Opens(NamedCapture(name)) => [Some(decode(name))] + rest
      case _ => rest
  }

  /** The numbers of the groups called `name`. */
  function NumbersOf(names: seq<Option<Points>>, name: Points, from: nat): seq<nat>
    requires from <= |names|
    decreases |names| - from
  {
    if from == |names| then []
    else (if names[from] == Some(name) then [from + 1] else []) + NumbersOf(names, name, from + 1)
  }

  datatype Grammar = Grammar(views: seq<View>, names: seq<Option<Points>>, decode: Points -> Points)

  predicate MarkAt(g: Grammar, i: nat, unit: Unit) {
    i < |g.views| && g.views[i] == Mark(unit)
  }

  function ParseDisjunction(g: Grammar, i: nat, groups: nat): (r: Option<Parsed>)
    requires i <= |g.views|
    ensures r.Some? ==> i <= r.value.next <= |g.views|
    decreases |g.views| - i, 3
  {
    var left := ParseAlternative(g, i, groups);
    if left.None? || !MarkAt(g, left.value.next, BAR) then left
    else
      var right := ParseDisjunction(g, left.value.next + 1, left.value.groups);
      if right.None? then None
      else Some(right.value.(tree := Alt(left.value.tree, right.value.tree)))
  }

  function ParseAlternative(g: Grammar, i: nat, groups: nat): (r: Option<Parsed>)
    requires i <= |g.views|
    ensures r.Some? ==> i <= r.value.next <= |g.views|
    decreases |g.views| - i, 2
  {
    if i == |g.views| || MarkAt(g, i, BAR) || MarkAt(g, i, CLOSE_PAREN) then Some(Parsed(Empty, i, groups))
    else
      var term := ParseTerm(g, i, groups);
      if term.None? then None
      else
        var rest := ParseAlternative(g, term.value.next, term.value.groups);
        if rest.None? then None
        else Some(rest.value.(tree := Cat(term.value.tree, rest.value.tree)))
  }

  function ParseTerm(g: Grammar, i: nat, groups: nat): (r: Option<Parsed>)
    requires i < |g.views|
    ensures r.Some? ==> i < r.value.next <= |g.views|
    decreases |g.views| - i, 1
  {
    match g.views[i]
    case Character => ParseQuantifier(g, Parsed(Char(i), i + 1, groups), groups)
    case ToNumber(number) => ParseQuantifier(g, Parsed(BackRef([number]), i + 1, groups), groups)
    case ToName(name) =>
      var numbers := NumbersOf(g.names, g.decode(name), 0);
      if numbers == [] then None
      else ParseQuantifier(g, Parsed(BackRef(numbers), i + 1, groups), groups)
    case Assertion(negated) => Some(Parsed(Boundary(negated), i + 1, groups))
    case Mark(unit) =>
      if unit == CARET then Some(Parsed(LineStart, i + 1, groups))
      else if unit == DOLLAR then Some(Parsed(LineEnd, i + 1, groups))
      else None // nothing to repeat
    case Braced(_) => None // nothing to repeat
    case Opens(opening) =>
      var number := groups + 1;
      var inner := ParseDisjunction(g, i + 1, if opening.Capture? || opening.NamedCapture? then number else groups);
      if inner.None? || !MarkAt(g, inner.value.next, CLOSE_PAREN) then None
      else
        var closed := inner.value.(next := inner.value.next + 1);
        match opening
        case Capture => ParseQuantifier(g, closed.(tree := Group(number, closed.tree)), groups)
        case NamedCapture(_) => ParseQuantifier(g, closed.(tree := Group(number, closed.tree)), groups)
        case Plain => ParseQuantifier(g, closed, groups)
        case Ahead(negative) => ParseQuantifier(g, closed.(tree := Look(true, negative, closed.tree)), groups)
        case Behind(negative) => Some(closed.(tree := Look(false, negative, closed.tree)))
  }

  /** The quantifier after `atom`, if there is one, and its `?`. */
  function ParseQuantifier(g: Grammar, atom: Parsed, groups: nat): (r: Option<Parsed>)
    requires atom.next <= |g.views|
    ensures r.Some? ==> atom.next <= r.value.next <= |g.views|
  {
    var i := atom.next;
    if i == |g.views| then Some(atom)
    else
      match g.views[i]
      case Mark(unit) =>
        if unit == STAR then ParseLazy(g, atom, groups, 0, None, 1)
        else if unit == PLUS then ParseLazy(g, atom, groups, 1, None, 1)
        else if unit == QUESTION then ParseLazy(g, atom, groups, 0, Some(1), 1)
        else Some(atom)
      case Braced(Brace(min, max, length)) =>
        if max.Some? && max.value < min then None else ParseLazy(g, atom, groups, min, max, length)
      case _ => Some(atom)
  }

  function ParseLazy(g: Grammar, atom: Parsed, groups: nat, min: nat, max: Option<nat>, length: nat): (r: Option<Parsed>)
    requires atom.next <= |g.views|
    ensures r.Some? ==> atom.next <= r.value.next <= |g.views|
  {
    var i := atom.next + length;
    if i > |g.views| then None
    else
      var lazy := MarkAt(g, i, QUESTION);
      var count := if atom.groups >= groups then atom.groups - groups else 0;
      Some(Parsed(Repeat(atom.tree, min, max, !lazy, groups, count), if lazy then i + 1 else i, atom.groups))
  }

  function Parse(vs: seq<View>, decode: Points -> Points): Option<Tree> {
    var r := ParseDisjunction(Grammar(vs, GroupNames(vs, decode), decode), 0, 0);
    if r.Some? && r.value.next == |vs| then Some(r.value.tree) else None
  }

  // ---------------------------------------------------------------------
  // The units a token accepts, and matching a pattern's text.

  function LeafOf(token: Token, dotAll: bool): Leaf {
    match token
    case Raw(unit) =>
      if unit == DOT then Leaf(set u: Unit | dotAll || !IsLineTerminator(u), false)
      else Leaf({unit}, false)
    case Escaped(unit) => Leaf({unit}, false)
    case ClassEscape(escape) => Leaf(AtomMembers(Escape(escape)), false)
    case Set(negated, members) => Leaf(members, negated)
    case _ => Leaf({}, false)
  }

  function Leaves(ts: seq<Token>, dotAll: bool): (leaves: seq<Leaf>)
    ensures |leaves| == |ts|
    ensures forall i :: 0 <= i < |ts| ==> leaves[i] == LeafOf(ts[i], dotAll)
  {
    seq(|ts|, i requires 0 <= i < |ts| => LeafOf(ts[i], dotAll))
  }

  /** The flags that change what a tree means, and how group names are decoded. */
  datatype Mode = Mode(multiline: bool, dotAll: bool, decode: Points -> Points)

  datatype Verdict = SyntaxError | Found(found: Option<Match>)

  ghost function FindTokens(ts: seq<Token>, mode: Mode, comparison: Comparison, subject: seq<Unit>, start: nat): Verdict {
    match Parse(Views(ts), mode.decode)
    case None => SyntaxError
    case Some(tree) => Found(Find(Context(Leaves(ts, mode.dotAll), subject, comparison, mode.multiline), tree, start))
  }

  /** The first match of the pattern `text` in `subject` at or after `start`. */
  ghost function FindText(text: Points, groups: nat, named: bool, mode: Mode, comparison: Comparison,
                          subject: seq<Unit>, start: nat): Verdict
  {
    match ReadAll(text, groups, named)
    case None => SyntaxError
    case Some(ts) => FindTokens(ts, mode, comparison, subject, start)
  }
}
