/**
 The case-insensitive rewrite: the pattern text is mapped through Canonicalize
 so that it can be matched exactly against the mapped subject.
 */
module RegexRewrite {
  import opened Options
  import opened CodeUnits
  import opened RegexReader

  predicate IsSyntax(point: nat) {
    || point == CARET || point == DOLLAR || point == BACKSLASH || point == DOT
    || point == STAR || point == PLUS || point == QUESTION || point == OPEN_PAREN
    || point == CLOSE_PAREN || point == OPEN_CLASS || point == CLOSE_CLASS
    || point == OPEN_BRACE || point == CLOSE_BRACE || point == BAR
  }

  // ---------------------------------------------------------------------
  // Classes

  /** The last unit of the run of members that contains `u`. */
  function RunEnd(x: set<Unit>, u: Unit): (high: Unit)
    requires u in x
    ensures u <= high
    ensures forall v: Unit :: u <= v <= high ==> v in x
    ensures high + 1 < UNITS ==> high + 1 !in x
    decreases UNITS - u, x
  {
    if u + 1 < UNITS && u + 1 in x then RunEnd(x, u + 1) else u
  }

  /** The maximal runs of the members at or above `u`, in order. */
  function RunsFrom(x: set<Unit>, u: nat): (runs: seq<(Unit, Unit)>)
    decreases UNITS - u, x
  {
    if u >= UNITS then []
    else if u !in x then RunsFrom(x, u + 1)
    else [(u, RunEnd(x, u))] + RunsFrom(x, RunEnd(x, u) + 1)
  }

  function Runs(x: set<Unit>): seq<(Unit, Unit)> {
    RunsFrom(x, 0)
  }

  predicate NeedsClassEscape(unit: Unit) {
    unit == BACKSLASH || unit == CLOSE_CLASS || unit == CARET || unit == HYPHEN
  }

  function ClassUnitText(unit: Unit): (text: Points)
    ensures 1 <= |text| <= 2
  {
    if NeedsClassEscape(unit) then [BACKSLASH, unit] else [unit]
  }

  function RunTail(run: (Unit, Unit)): Points {
    if run.1 > run.0 then [HYPHEN] + ClassUnitText(run.1) else []
  }

  function RunText(run: (Unit, Unit)): (text: Points)
    ensures text != []
  {
    ClassUnitText(run.0) + RunTail(run)
  }

  function RunsText(runs: seq<(Unit, Unit)>): Points {
    if runs == [] then [] else RunText(runs[0]) + RunsText(runs[1..])
  }

  function Image(c: Unit -> Unit, x: set<Unit>): (y: set<Unit>)
    ensures forall u: Unit :: u in x ==> c(u) in y
    ensures forall v :: v in y ==> exists u :: u in x && c(u) == v
  {
    set u | u in x :: c(u)
  }

  function ClassText(negated: bool, members: set<Unit>): Points {
    [OPEN_CLASS] + (if negated then [CARET] else []) + RunsText(Runs(members)) + [CLOSE_CLASS]
  }

  /** The rewritten class at the front of `q` and the length of the original. */
  function RewriteClass(c: Unit -> Unit, q: Points, named: bool): Option<(Points, nat)>
    requires q != [] && q[0] == OPEN_CLASS
  {
    match ReadSet(q, named)
    case None => None
    case Some((token, length)) => Some((ClassText(token.negated, Image(c, token.members)), length))
  }

  // ---------------------------------------------------------------------
  // Literals, escapes and groups

  function LiteralText(c: Unit -> Unit, unit: Unit): Points {
    if IsSyntax(c(unit)) then [BACKSLASH, c(unit)] else [c(unit)]
  }

  /** A digit is spelled `\xNN` so that it cannot extend a preceding `\1` or `\0`. */
  function EscapedLiteralText(c: Unit -> Unit, unit: Unit): Points {
    var mapped := c(unit);
    if IsDecimal(mapped) then [BACKSLASH, 0x78, 0x33, mapped] else LiteralText(c, mapped)
  }

  predicate CopiedEscape(letter: nat) {
    EscapeOf(letter).Some? || letter == 0x62 || letter == 0x42 || ControlOf(letter).Some?
  }

  function RewriteHexEscape(c: Unit -> Unit, q: Points, count: nat): Option<(Points, nat)>
    requires |q| >= 2 && q[1] < UNITS && (count == 2 || count == 4)
  {
    HexBounds();
    var value := Hex(q[2..], count);
    if value.Some? then Some((EscapedLiteralText(c, value.value), 2 + count))
    else Some((EscapedLiteralText(c, q[1]), 2))
  }

  function RewriteDecimalEscape(c: Unit -> Unit, q: Points, groups: nat): Option<(Points, nat)>
    requires |q| >= 2 && IsDecimal(q[1]) && q[1] != 0x30
  {
    var n := Decimals(q[1..]);
    if DecimalNumber(q[1..][..n]) <= groups then Some((q[..1 + n], 1 + n))
    else if q[1] >= 0x38 then Some((EscapedLiteralText(c, q[1]), 2))
    else
      var (unit, length) := Octal(q[1..]).value;
      Some((EscapedLiteralText(c, unit), 1 + length))
  }

  function RewriteEscape(c: Unit -> Unit, q: Points, groups: nat, named: bool): Option<(Points, nat)>
    requires q != [] && q[0] == BACKSLASH
  {
    if |q| < 2 then None
    else
      var e := q[1];
      if CopiedEscape(e) then Some((q[..2], 2))
      else if e == 0x30 then
        if |q| < 3 || !IsDecimal(q[2]) then Some((q[..2], 2))
        else
          var (unit, length) := Octal(q[1..]).value;
          Some((EscapedLiteralText(c, unit), 1 + length))
      else if e == 0x63 then
        if |q| > 2 && IsLetter(q[2]) then Some((q[..3], 3)) else Some(([BACKSLASH, BACKSLASH], 1))
      else if e == 0x78 then RewriteHexEscape(c, q, 2)
      else if e == 0x75 then RewriteHexEscape(c, q, 4)
      else if IsDecimal(e) then RewriteDecimalEscape(c, q, groups)
      else if e == 0x6b then
        if !named then Some((EscapedLiteralText(c, e), 2))
        else if |q| < 3 || q[2] != LESS then None
        else
          var close := IndexOf(q[3..], GREATER);
          if close.None? then None else Some((q[..4 + close.value], 4 + close.value))
      else if e >= UNITS then None
      else if IsSyntax(e) || e == SLASH || e == HYPHEN then Some((q[..2], 2))
      else Some((EscapedLiteralText(c, e), 2))
  }

  function RewriteGroup(q: Points): Option<(Points, nat)>
    requires q != [] && q[0] == OPEN_PAREN
  {
    if |q| < 2 || q[1] != QUESTION then Some((q[..1], 1))
    else if |q| < 3 then None
    else if q[2] == COLON || q[2] == EQUALS || q[2] == BANG then Some((q[..3], 3))
    else if q[2] != LESS then None // a modifier group, or nothing valid
    else if |q| > 3 && (q[3] == EQUALS || q[3] == BANG) then Some((q[..4], 4))
    else
      var close := IndexOf(q[3..], GREATER);
      if close.None? then None else Some((q[..4 + close.value], 4 + close.value))
  }

  /** The rewrite of what `q` starts with and how many points it replaces. */
  function RewriteOne(c: Unit -> Unit, q: Points, groups: nat, named: bool): (r: Option<(Points, nat)>)
    requires q != []
  {
    if q[0] == BACKSLASH then RewriteEscape(c, q, groups, named)
    else if q[0] == OPEN_PAREN then RewriteGroup(q)
    else if q[0] == OPEN_CLASS then RewriteClass(c, q, named)
    else if IsSyntax(q[0]) || IsDecimal(q[0]) then Some(([q[0]], 1))
    else if q[0] < UNITS then Some((LiteralText(c, q[0]), 1))
    else None
  }

  lemma RewriteAdvances(c: Unit -> Unit, q: Points, groups: nat, named: bool)
    requires q != []
    ensures var r := RewriteOne(c, q, groups, named); r.Some? ==> 1 <= r.value.1 <= |q|
  {
  }

  /** The whole rewritten pattern; `None` where the syntax is not modelled. */
  function RewritePattern(c: Unit -> Unit, q: Points, groups: nat, named: bool): Option<Points>
    decreases |q|
  {
    if q == [] then Some([])
    else
      RewriteAdvances(c, q, groups, named);
      var first := RewriteOne(c, q, groups, named);
      if first.None? then None
      else
        var rest := RewritePattern(c, q[first.value.1..], groups, named);
        if rest.None? then None else Some(first.value.0 + rest.value)
  }
}
