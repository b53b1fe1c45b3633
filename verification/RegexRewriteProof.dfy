/**
 The rewritten text reads as the original tokens with canonical units, and so
 it matches the canonicalized subject exactly where the original matches.
 */
module RegexRewriteProof {
  import opened Options
  import opened CodeUnits
  import opened RegexReader
  import opened RegexRewrite

  // ---------------------------------------------------------------------
  // The text of a class

  ghost function Denoted(runs: seq<(Unit, Unit)>): set<Unit> {
    if runs == [] then {} else UnitRange(runs[0].0, runs[0].1) + Denoted(runs[1..])
  }

  /** In order, disjoint, and with a gap between neighbours. */
  ghost predicate MaximalRuns(runs: seq<(Unit, Unit)>) {
    && (forall i :: 0 <= i < |runs| ==> runs[i].0 <= runs[i].1)
    && (forall i, j :: 0 <= i < j < |runs| ==> runs[i].1 as int + 1 < runs[j].0)
  }

  lemma {:induction false} RunsFromMembers(x: set<Unit>, u: nat, v: Unit)
    ensures v in Denoted(RunsFrom(x, u)) <==> v in x && u <= v
    decreases UNITS - u
  {
    if u < UNITS {
      if u !in x {
        RunsFromMembers(x, u + 1, v);
      } else {
        RunsFromMembers(x, RunEnd(x, u) + 1, v);
      }
    }
  }

  lemma {:induction false} RunsFromMaximal(x: set<Unit>, u: nat)
    ensures MaximalRuns(RunsFrom(x, u))
    ensures forall i :: 0 <= i < |RunsFrom(x, u)| ==> u <= RunsFrom(x, u)[i].0 && RunsFrom(x, u)[i].0 in x
    decreases UNITS - u
  {
    if u < UNITS {
      if u !in x {
        RunsFromMaximal(x, u + 1);
      } else {
        RunsFromMaximal(x, RunEnd(x, u) + 1);
      }
    }
  }

  /** The runs printed for a set denote exactly that set and cannot be merged. */
  lemma {:induction false} RunsDenote(x: set<Unit>)
    ensures MaximalRuns(Runs(x)) && Denoted(Runs(x)) == x
  {
    RunsFromMaximal(x, 0);
    forall v: Unit
      ensures v in Denoted(Runs(x)) <==> v in x
    {
      RunsFromMembers(x, 0, v);
    }
  }

  lemma {:induction false} ClassUnitReads(unit: Unit, named: bool, b: Points)
    ensures ReadAtom(ClassUnitText(unit) + b, named) == Some((OneUnit(unit), |ClassUnitText(unit)|))
    ensures (ClassUnitText(unit) + b)[0] != HYPHEN && (ClassUnitText(unit) + b)[0] != CLOSE_CLASS
    ensures (ClassUnitText(unit) + b)[0] != CARET
  {
  }

  lemma {:induction false} RunReads(run: (Unit, Unit), named: bool, b: Points)
    requires run.0 <= run.1
    requires b != [] && b[0] != HYPHEN
    ensures ReadItem(RunText(run) + b, named) == Some(Members(UnitRange(run.0, run.1), |RunText(run)|))
  {
    var low := ClassUnitText(run.0);
    if run.0 == run.1 {
      assert RunText(run) + b == low + b;
      ClassUnitReads(run.0, named, b);
      assert UnitRange(run.0, run.1) == {run.0};
    } else {
      var tail := ClassUnitText(run.1) + b;
      assert RunTail(run) == [HYPHEN] + ClassUnitText(run.1);
      assert RunText(run) + b == low + ([HYPHEN] + tail);
      ClassUnitReads(run.0, named, [HYPHEN] + tail);
      ClassUnitReads(run.1, named, b);
      assert (RunText(run) + b)[|low| + 1..] == tail;
    }
  }

  lemma {:induction false} RunStarts(run: (Unit, Unit), b: Points)
    ensures var q := RunText(run) + b; q[0] != HYPHEN && q[0] != CLOSE_CLASS && q[0] != CARET
  {
    assert RunText(run) + b == ClassUnitText(run.0) + (RunTail(run) + b);
  }

  lemma {:induction false} RunsStart(runs: seq<(Unit, Unit)>, end: Points)
    requires end != [] && end[0] != HYPHEN && end[0] != CARET
    ensures var q := RunsText(runs) + end; q != [] && q[0] != HYPHEN && q[0] != CARET
  {
    if runs != [] {
      RunStarts(runs[0], []);
      assert RunText(runs[0]) + [] == RunText(runs[0]);
    }
  }

  ghost predicate ReadsAs(q: Points, named: bool, members: Members) {
    ReadMembers(q, named) == Some(members)
  }

  lemma {:induction false} MembersStep(q: Points, named: bool, item: Members, rest: Members)
    requires q != [] && q[0] != CLOSE_CLASS
    requires ReadItem(q, named) == Some(item)
    requires ReadsAs(q[item.length..], named, rest)
    ensures ReadsAs(q, named, Members(item.units + rest.units, item.length + rest.length))
  {
  }

  lemma {:induction false} RunThenMembers(run: (Unit, Unit), named: bool, b: Points, rest: Members)
    requires run.0 <= run.1
    requires b != [] && b[0] != HYPHEN
    requires ReadsAs(b, named, rest)
    ensures ReadsAs(RunText(run) + b, named, Members(UnitRange(run.0, run.1) + rest.units, |RunText(run)| + rest.length))
  {
    hide ReadsAs, ReadItem;
    var q := RunText(run) + b;
    RunStarts(run, b);
    RunReads(run, named, b);
    assert q[|RunText(run)|..] == b;
    MembersStep(q, named, Members(UnitRange(run.0, run.1), |RunText(run)|), rest);
  }

  lemma {:induction false} EndReads(end: Points, named: bool)
    requires end != [] && end[0] == CLOSE_CLASS
    ensures ReadsAs(end, named, Members({}, 1))
  {
  }

  lemma {:induction false} RunsRead(runs: seq<(Unit, Unit)>, named: bool, end: Points)
    requires forall i :: 0 <= i < |runs| ==> runs[i].0 <= runs[i].1
    requires end != [] && end[0] == CLOSE_CLASS
    ensures ReadsAs(RunsText(runs) + end, named, Members(Denoted(runs), |RunsText(runs)| + 1))
  {
    hide ReadsAs, RunText;
    if runs == [] {
      assert RunsText(runs) + end == end;
      EndReads(end, named);
    } else {
      var rest := RunsText(runs[1..]) + end;
      RunsRead(runs[1..], named, end);
      RunsStart(runs[1..], end);
      RunThenMembers(runs[0], named, rest, Members(Denoted(runs[1..]), |RunsText(runs[1..])| + 1));
      assert RunsText(runs) + end == RunText(runs[0]) + rest;
    }
  }

  ghost predicate TokenReadsAs(q: Points, groups: nat, named: bool, token: Token, length: nat) {
    q != [] && ReadToken(q, groups, named) == Some((token, length))
  }

  lemma {:induction false} SetReads(negated: bool, body: Points, groups: nat, named: bool, members: Members)
    requires body != [] && body[0] != CARET && ReadsAs(body, named, members)
    ensures TokenReadsAs([OPEN_CLASS] + (if negated then [CARET] else []) + body, groups, named,
                         Set(negated, members.units), members.length + if negated then 2 else 1)
  {
    var head := [OPEN_CLASS] + if negated then [CARET] else [];
    assert (head + body)[|head|..] == body;
  }

  /** Reading the printed class gives back its members. */
  lemma {:induction false} ClassReads(negated: bool, members: set<Unit>, groups: nat, named: bool, b: Points)
    ensures TokenReadsAs(ClassText(negated, members) + b, groups, named,
                         Set(negated, members), |ClassText(negated, members)|)
  {
    hide ReadToken, ReadMembers, ReadsAs, TokenReadsAs;
    var text := RunsText(Runs(members));
    var end: Points := [CLOSE_CLASS] + b;
    var head: Points := [OPEN_CLASS] + if negated then [CARET] else [];
    assert TokenReadsAs(head + (text + end), groups, named, Set(negated, members), |text| + |head| + 1) by {
      RunsDenote(members);
      RunsRead(Runs(members), named, end);
      RunsStart(Runs(members), end);
      SetReads(negated, text + end, groups, named, Members(members, |text| + 1));
    }
    assert ClassText(negated, members) + b == head + (text + end);
  }

  lemma {:induction false} ImageIdempotent(c: Unit -> Unit, x: set<Unit>)
    requires Sound(c)
    ensures Image(c, Image(c, x)) == Image(c, x)
  {
    forall v | v in Image(c, x)
      ensures v in Image(c, Image(c, x))
    {
      var u :| u in x && c(u) == v;
      assert c(v) == v;
    }
  }

  /** A rewritten class is a fixed point of the rewrite. */
  lemma {:induction false} RewriteClassIdempotent(c: Unit -> Unit, q: Points, named: bool, b: Points)
    requires Sound(c)
    requires q != [] && q[0] == OPEN_CLASS && RewriteClass(c, q, named).Some?
    ensures var text := RewriteClass(c, q, named).value.0;
            RewriteClass(c, text + b, named) == Some((text, |text|))
  {
    var token := ReadSet(q, named).value.0;
    var image := Image(c, token.members);
    ClassReads(token.negated, image, 0, named, b);
    ImageIdempotent(c, token.members);
  }

  // ---------------------------------------------------------------------
  // One token

  /** `t'` is `t` with its units mapped; a unit written as itself is never syntax or a digit by accident. */
  ghost predicate Related(c: Unit -> Unit, t: Token, t': Token) {
    match t
    case Raw(unit) => t' == Raw(c(unit))
    case Escaped(unit) =>
      && (t' == Escaped(c(unit)) || (t' == Raw(c(unit)) && !IsSyntax(c(unit)) && !IsDecimal(c(unit))))
      && (unit == COMMA ==> t' == Raw(COMMA))
    case Set(negated, members) => t' == Set(negated, Image(c, members))
    case _ => t' == t
  }

  /** What follows in the rewritten text starts with a digit or a `?` only if the original does. */
  ghost predicate Follows(rest: Points, b: Points) {
    && (b != [] && IsDecimal(b[0]) ==> rest != [] && IsDecimal(rest[0]))
    && (b != [] && b[0] == QUESTION ==> rest != [] && rest[0] == QUESTION)
  }

  lemma {:induction false} LiteralReads(c: Unit -> Unit, unit: Unit, groups: nat, named: bool, b: Points)
    ensures TokenReadsAs(LiteralText(c, unit) + b, groups, named,
                         if IsSyntax(c(unit)) then Escaped(c(unit)) else Raw(c(unit)), |LiteralText(c, unit)|)
  {
  }

  lemma {:induction false} DigitReads(digit: Unit, groups: nat, named: bool, b: Points)
    requires IsDecimal(digit)
    ensures TokenReadsAs([BACKSLASH, 0x78, 0x33, digit] + b, groups, named, Escaped(digit), 4)
  {
    var q: Points := [BACKSLASH, 0x78, 0x33, digit] + b;
    assert q[2..] == [0x33, digit] + b;
    assert Hex(q[2..], 1) == Some(3);
    assert Hex(q[2..], 2) == Some(digit);
  }

  /** The token an escaped literal reads back as. */
  ghost function EscapedLiteralToken(c: Unit -> Unit, unit: Unit): Token {
    if IsDecimal(c(unit)) || IsSyntax(c(unit)) then Escaped(c(unit)) else Raw(c(unit))
  }

  lemma {:induction false} EscapedLiteralReads(c: Unit -> Unit, unit: Unit, groups: nat, named: bool, b: Points)
    requires Sound(c)
    ensures TokenReadsAs(EscapedLiteralText(c, unit) + b, groups, named,
                         EscapedLiteralToken(c, unit), |EscapedLiteralText(c, unit)|)
    ensures Related(c, Escaped(unit), EscapedLiteralToken(c, unit))
  {
    assert c(c(unit)) == c(unit);
    if IsDecimal(c(unit)) {
      DigitReads(c(unit), groups, named, b);
    } else {
      LiteralReads(c, c(unit), groups, named, b);
    }
  }

  /** Replacing what `q` starts with by `text` keeps the token, whatever `b` comes next. */
  ghost predicate KeepsToken(c: Unit -> Unit, q: Points, groups: nat, named: bool, text: Points, length: nat, b: Points)
    requires q != []
  {
    && text != []
    && var (r, r') := (ReadToken(q, groups, named), ReadToken(text + b, groups, named));
       r.Some? && r'.Some? && r.value.1 == length && r'.value.1 == |text| && Related(c, r.value.0, r'.value.0)
  }

  lemma {:induction false} DecimalsOfCopy(q: Points, n: nat, b: Points)
    requires n == Decimals(q) && (b != [] ==> !IsDecimal(b[0]))
    ensures Decimals(q[..n] + b) == n
    decreases |q|
  {
    if n == 0 {
      assert q[..n] + b == b;
    } else {
      DecimalsOfCopy(q[1..], n - 1, b);
      assert (q[..n] + b)[1..] == q[1..][..n - 1] + b;
    }
  }

  lemma {:induction false} NumberedCopy(c: Unit -> Unit, q: Points, groups: nat, named: bool, b: Points)
    requires |q| >= 2 && q[0] == BACKSLASH && IsDecimal(q[1]) && q[1] != 0x30
    requires var n := Decimals(q[1..]); DecimalNumber(q[1..][..n]) <= groups && (b != [] ==> !IsDecimal(b[0]))
    ensures var n := Decimals(q[1..]); KeepsToken(c, q, groups, named, q[..1 + n], 1 + n, b)
  {
    var n := Decimals(q[1..]);
    var q' := q[..1 + n] + b;
    assert q'[1..] == q[1..][..n] + b;
    DecimalsOfCopy(q[1..], n, b);
    assert q'[1..][..n] == q[1..][..n];
  }

  lemma {:induction false} IndexOfCopy(q: Points, point: nat, i: nat, b: Points)
    requires IndexOf(q, point) == Some(i)
    ensures IndexOf(q[..i + 1] + b, point) == Some(i)
    decreases |q|
  {
    if q[0] != point {
      IndexOfCopy(q[1..], point, i - 1, b);
      assert (q[..i + 1] + b)[1..] == q[1..][..i] + b;
    }
  }

  lemma {:induction false} NameCopy(q: Points, i: nat, b: Points)
    requires |q| >= 3 && IndexOf(q[3..], GREATER) == Some(i)
    ensures var q' := q[..4 + i] + b; IndexOf(q'[3..], GREATER) == Some(i) && q'[3..3 + i] == q[3..3 + i]
  {
    IndexOfCopy(q[3..], GREATER, i, b);
    var q' := q[..4 + i] + b;
    assert q'[3..] == q[3..][..i + 1] + b;
    assert q'[3..3 + i] == q[3..3 + i];
  }

  lemma {:induction false} NamedRefCopy(c: Unit -> Unit, q: Points, groups: nat, b: Points)
    requires |q| >= 3 && q[0] == BACKSLASH && q[1] == 0x6b && q[2] == LESS && IndexOf(q[3..], GREATER).Some?
    ensures var n := 4 + IndexOf(q[3..], GREATER).value; KeepsToken(c, q, groups, true, q[..n], n, b)
  {
    NameCopy(q, IndexOf(q[3..], GREATER).value, b);
  }

  /** An opening that is copied reads the same in its new place. */
  lemma {:induction false} OpenCopy(q: Points, b: Points)
    requires q != [] && q[0] == OPEN_PAREN && RewriteGroup(q).Some?
    requires Follows(q[RewriteGroup(q).value.1..], b)
    ensures var (text, n) := RewriteGroup(q).value;
            && text == q[..n] && text != [] && (text + b)[0] == OPEN_PAREN
            && ReadOpen(q).Some? && ReadOpen(q).value.1 == n && ReadOpen(text + b) == ReadOpen(q)
  {
    hide IndexOf;
    var n := RewriteGroup(q).value.1;
    var copy := q[..n] + b;
    assert forall i :: 0 <= i < n ==> copy[i] == q[i];
    if n >= 4 && q[3] != EQUALS && q[3] != BANG {
      NameCopy(q, n - 4, b);
    }
  }

  lemma {:induction false} GroupKeeps(c: Unit -> Unit, q: Points, groups: nat, named: bool, b: Points)
    requires q != [] && q[0] == OPEN_PAREN && RewriteGroup(q).Some?
    requires Follows(q[RewriteGroup(q).value.1..], b)
    ensures var (text, n) := RewriteGroup(q).value; KeepsToken(c, q, groups, named, text, n, b)
  {
    hide RewriteGroup, ReadOpen, ReadEscape, ReadSet;
    OpenCopy(q, b);
    var n := RewriteGroup(q).value.1;
    assert ReadToken(q, groups, named) == ReadOpen(q);
    assert ReadToken(q[..n] + b, groups, named) == ReadOpen(q[..n] + b);
    assert ReadOpen(q).value.0.Open? by { OpensGroup(q); }
  }

  lemma {:induction false} OpensGroup(q: Points)
    requires q != [] && q[0] == OPEN_PAREN && ReadOpen(q).Some?
    ensures ReadOpen(q).value.0.Open?
  {
  }

  /** The token of a two-point escape that does not depend on the points after it. */
  ghost function ShortToken(e: Unit): Token {
    if EscapeOf(e).Some? then ClassEscape(EscapeOf(e).value)
    else if e == 0x62 then WordBoundary(false)
    else if e == 0x42 then WordBoundary(true)
    else if ControlOf(e).Some? then Escaped(ControlOf(e).value)
    else if e == 0x30 then Escaped(0)
    else Escaped(e)
  }

  predicate IsShort(e: nat) {
    CopiedEscape(e) || e == 0x30 || IsSyntax(e) || e == SLASH || e == HYPHEN
  }

  lemma {:induction false} ShortReads(e: Unit, b: Points, groups: nat, named: bool)
    requires IsShort(e) && (e == 0x30 && b != [] ==> !IsDecimal(b[0]))
    ensures TokenReadsAs([BACKSLASH, e] + b, groups, named, ShortToken(e), 2)
  {
    hide Hex, Octal, ReadDecimalEscape, ReadHexEscape;
    var q: Points := [BACKSLASH, e] + b;
    assert |q| > 2 ==> q[2] == b[0];
  }

  lemma {:induction false} ShortCopy(c: Unit -> Unit, q: Points, groups: nat, named: bool, b: Points)
    requires Sound(c) && |q| >= 2 && q[0] == BACKSLASH && IsShort(q[1])
    requires q[1] == 0x30 && |q| > 2 ==> !IsDecimal(q[2])
    requires Follows(q[2..], b)
    ensures KeepsToken(c, q, groups, named, q[..2], 2, b)
  {
    hide ReadToken;
    ShortReads(q[1], q[2..], groups, named);
    ShortReads(q[1], b, groups, named);
    assert q == [BACKSLASH, q[1]] + q[2..];
    assert q[..2] + b == [BACKSLASH, q[1]] + b;
    assert Related(c, ShortToken(q[1]), ShortToken(q[1]));
  }

  lemma {:induction false} ControlReads(letter: Unit, b: Points, groups: nat, named: bool)
    requires IsLetter(letter)
    ensures TokenReadsAs([BACKSLASH, 0x63, letter] + b, groups, named, Escaped(letter % 32), 3)
  {
    hide Hex, Octal, ReadDecimalEscape, ReadHexEscape;
  }

  lemma {:induction false} ControlCopy(c: Unit -> Unit, q: Points, groups: nat, named: bool, b: Points)
    requires Sound(c) && |q| >= 3 && q[0] == BACKSLASH && q[1] == 0x63 && IsLetter(q[2])
    ensures KeepsToken(c, q, groups, named, q[..3], 3, b)
  {
    hide ReadToken;
    ControlReads(q[2], q[3..], groups, named);
    ControlReads(q[2], b, groups, named);
    assert q == [BACKSLASH, 0x63, q[2]] + q[3..];
    assert q[..3] + b == [BACKSLASH, 0x63, q[2]] + b;
  }

  lemma {:induction false} LiteralKeeps(c: Unit -> Unit, q: Points, unit: Unit, n: nat, groups: nat, named: bool, b: Points)
    requires Sound(c) && TokenReadsAs(q, groups, named, Escaped(unit), n)
    ensures KeepsToken(c, q, groups, named, EscapedLiteralText(c, unit), n, b)
  {
    hide ReadToken;
    EscapedLiteralReads(c, unit, groups, named, b);
  }

  lemma {:induction false} HexKeeps(c: Unit -> Unit, q: Points, count: nat, groups: nat, named: bool, b: Points)
    requires Sound(c)
    requires |q| >= 2 && q[0] == BACKSLASH && ((q[1] == 0x78 && count == 2) || (q[1] == 0x75 && count == 4))
    ensures var (text, n) := RewriteHexEscape(c, q, count).value; KeepsToken(c, q, groups, named, text, n, b)
  {
    hide KeepsToken, EscapedLiteralText;
    HexBounds();
    var value := Hex(q[2..], count);
    if value.Some? {
      LiteralKeeps(c, q, value.value, 2 + count, groups, named, b);
    } else {
      LiteralKeeps(c, q, q[1], 2, groups, named, b);
    }
  }

  lemma {:induction false} DecimalKeeps(c: Unit -> Unit, q: Points, groups: nat, named: bool, b: Points)
    requires Sound(c)
    requires |q| >= 2 && q[0] == BACKSLASH && IsDecimal(q[1]) && q[1] != 0x30
    requires Follows(q[RewriteDecimalEscape(c, q, groups).value.1..], b)
    ensures var (text, n) := RewriteDecimalEscape(c, q, groups).value; KeepsToken(c, q, groups, named, text, n, b)
  {
    hide KeepsToken, EscapedLiteralText;
    var n := Decimals(q[1..]);
    if DecimalNumber(q[1..][..n]) <= groups {
      assert 1 + n < |q| ==> q[1 + n] == q[1..][n];
      NumberedCopy(c, q, groups, named, b);
    } else if q[1] >= 0x38 {
      LiteralKeeps(c, q, q[1], 2, groups, named, b);
    } else {
      var (unit, length) := Octal(q[1..]).value;
      LiteralKeeps(c, q, unit, 1 + length, groups, named, b);
    }
  }

  lemma {:induction false} EscapeKeeps(c: Unit -> Unit, q: Points, groups: nat, named: bool, b: Points)
    requires Sound(c) && q != [] && q[0] == BACKSLASH && RewriteEscape(c, q, groups, named).Some?
    requires Follows(q[RewriteEscape(c, q, groups, named).value.1..], b)
    ensures var (text, n) := RewriteEscape(c, q, groups, named).value; KeepsToken(c, q, groups, named, text, n, b)
  {
    hide KeepsToken, EscapedLiteralText, RewriteHexEscape, RewriteDecimalEscape, Hex, IndexOf, ReadDecimalEscape, ReadHexEscape, Decimals;
    var e := q[1];
    if CopiedEscape(e) {
      ShortCopy(c, q, groups, named, b);
    } else if e == 0x30 {
      if |q| < 3 || !IsDecimal(q[2]) {
        ShortCopy(c, q, groups, named, b);
      } else {
        var (unit, length) := Octal(q[1..]).value;
        LiteralKeeps(c, q, unit, 1 + length, groups, named, b);
      }
    } else if e == 0x63 {
      if |q| > 2 && IsLetter(q[2]) {
        ControlCopy(c, q, groups, named, b);
      } else {
        BackslashKeeps(c, q, groups, named, b);
      }
    } else if e == 0x78 {
      HexKeeps(c, q, 2, groups, named, b);
    } else if e == 0x75 {
      HexKeeps(c, q, 4, groups, named, b);
    } else if IsDecimal(e) {
      DecimalKeeps(c, q, groups, named, b);
    } else if e == 0x6b && named {
      NamedRefCopy(c, q, groups, b);
    } else if IsSyntax(e) || e == SLASH || e == HYPHEN {
      ShortCopy(c, q, groups, named, b);
    } else {
      LiteralKeeps(c, q, e, 2, groups, named, b);
    }
  }

  /** `\c` without a letter: the backslash is spelled `\\` and the `c` stays for the next step. */
  lemma {:induction false} BackslashKeeps(c: Unit -> Unit, q: Points, groups: nat, named: bool, b: Points)
    requires Sound(c) && |q| >= 2 && q[0] == BACKSLASH && q[1] == 0x63 && !(|q| > 2 && IsLetter(q[2]))
    ensures KeepsToken(c, q, groups, named, [BACKSLASH, BACKSLASH], 1, b)
  {
    hide Hex, Octal, ReadDecimalEscape, ReadHexEscape, IndexOf;
  }

  lemma {:induction false} ClassKeeps(c: Unit -> Unit, q: Points, groups: nat, named: bool, b: Points)
    requires q != [] && q[0] == OPEN_CLASS && RewriteClass(c, q, named).Some?
    ensures var (text, n) := RewriteClass(c, q, named).value; KeepsToken(c, q, groups, named, text, n, b)
  {
    hide ReadMembers, ReadEscape, ReadOpen;
    var token := ReadSet(q, named).value.0;
    ClassReads(token.negated, Image(c, token.members), groups, named, b);
  }

  lemma {:induction false} RawKeeps(c: Unit -> Unit, q: Points, groups: nat, named: bool, b: Points)
    requires Sound(c) && q != [] && q[0] < UNITS && q[0] != BACKSLASH && q[0] != OPEN_PAREN && q[0] != OPEN_CLASS
    ensures var text := RewriteOne(c, q, groups, named).value.0; KeepsToken(c, q, groups, named, text, 1, b)
  {
    hide ReadEscape, ReadOpen, ReadSet;
    if !(IsSyntax(q[0]) || IsDecimal(q[0])) { LiteralReads(c, q[0], groups, named, b); }
  }

  /** One step of the rewrite replaces one token by the mapped token. */
  lemma {:induction false} OneKeeps(c: Unit -> Unit, q: Points, groups: nat, named: bool, b: Points)
    requires Sound(c) && q != [] && RewriteOne(c, q, groups, named).Some?
    requires Follows(q[RewriteOne(c, q, groups, named).value.1..], b)
    ensures var (text, n) := RewriteOne(c, q, groups, named).value; KeepsToken(c, q, groups, named, text, n, b)
  {
    hide KeepsToken, RewriteEscape, RewriteGroup, RewriteClass;
    if q[0] == BACKSLASH {
      EscapeKeeps(c, q, groups, named, b);
    } else if q[0] == OPEN_PAREN {
      GroupKeeps(c, q, groups, named, b);
    } else if q[0] == OPEN_CLASS {
      ClassKeeps(c, q, groups, named, b);
    } else {
      RawKeeps(c, q, groups, named, b);
    }
  }

  ghost predicate SafeStart(text: Points) {
    text != [] && !IsDecimal(text[0]) && text[0] != QUESTION
  }

  lemma {:induction false} LiteralStart(c: Unit -> Unit, unit: Unit)
    requires Sound(c)
    ensures SafeStart(EscapedLiteralText(c, unit))
  {
    assert c(c(unit)) == c(unit);
  }

  lemma {:induction false} EscapeStart(c: Unit -> Unit, q: Points, groups: nat, named: bool)
    requires Sound(c) && q != [] && q[0] == BACKSLASH && RewriteEscape(c, q, groups, named).Some?
    ensures SafeStart(RewriteEscape(c, q, groups, named).value.0)
  {
    hide EscapedLiteralText;
    forall u: Unit ensures SafeStart(EscapedLiteralText(c, u)) { LiteralStart(c, u); }
  }

  /** The rewritten text starts with a digit or a `?` only where the original does. */
  lemma {:induction false} RewriteFollows(c: Unit -> Unit, q: Points, groups: nat, named: bool)
    requires Sound(c) && RewritePattern(c, q, groups, named).Some?
    ensures Follows(q, RewritePattern(c, q, groups, named).value)
  {
    hide RewriteEscape, RewriteClass, RewriteGroup;
    if q != [] {
      var text := RewriteOne(c, q, groups, named).value.0;
      if q[0] == BACKSLASH { EscapeStart(c, q, groups, named); }
      else if q[0] == OPEN_PAREN { assert text != [] && text[0] == q[0] by { GroupStart(q); } }
      else if q[0] == OPEN_CLASS { assert text != [] && text[0] == q[0] by { ClassStart(c, q, named); } }
    }
  }

  lemma {:induction false} GroupStart(q: Points)
    requires q != [] && q[0] == OPEN_PAREN && RewriteGroup(q).Some?
    ensures var text := RewriteGroup(q).value.0; text != [] && text[0] == q[0]
  {
  }

  lemma {:induction false} ClassStart(c: Unit -> Unit, q: Points, named: bool)
    requires q != [] && q[0] == OPEN_CLASS && RewriteClass(c, q, named).Some?
    ensures var text := RewriteClass(c, q, named).value.0; text != [] && text[0] == q[0]
  {
  }

  // ---------------------------------------------------------------------
  // The whole pattern

  ghost predicate AllRelated(c: Unit -> Unit, ts: seq<Token>, ts': seq<Token>) {
    |ts| == |ts'| && forall i :: 0 <= i < |ts| ==> Related(c, ts[i], ts'[i])
  }

  lemma {:induction false} RelatedCons(c: Unit -> Unit, t: Token, t': Token, ts: seq<Token>, ts': seq<Token>)
    requires Related(c, t, t') && AllRelated(c, ts, ts')
    ensures AllRelated(c, [t] + ts, [t'] + ts')
  {
    hide Related;
  }

  /** The rewritten text reads as the original tokens with mapped units. */
  lemma {:induction false} RewriteReads(c: Unit -> Unit, q: Points, groups: nat, named: bool)
    requires Sound(c) && RewritePattern(c, q, groups, named).Some?
    ensures var (r, r') := (ReadAll(q, groups, named), ReadAll(RewritePattern(c, q, groups, named).value, groups, named));
            r.Some? && r'.Some? && AllRelated(c, r.value, r'.value)
    decreases |q|
  {
    hide RewriteOne, ReadToken, Related;
    if q != [] {
      RewriteAdvances(c, q, groups, named);
      var (text, n) := RewriteOne(c, q, groups, named).value;
      var rest := RewritePattern(c, q[n..], groups, named).value;
      RewriteReads(c, q[n..], groups, named);
      RewriteFollows(c, q[n..], groups, named);
      OneKeeps(c, q, groups, named, rest);
      var out := text + rest;
      assert out[|text|..] == rest;
      var (token, token') := (ReadToken(q, groups, named).value.0, ReadToken(out, groups, named).value.0);
      assert ReadAll(q, groups, named).value == [token] + ReadAll(q[n..], groups, named).value;
      assert ReadAll(out, groups, named).value == [token'] + ReadAll(rest, groups, named).value;
      RelatedCons(c, token, token', ReadAll(q[n..], groups, named).value, ReadAll(rest, groups, named).value);
      assert RewritePattern(c, q, groups, named) == Some(out);
    }
  }
}
