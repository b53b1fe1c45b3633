/**
 A printer for patterns, and the proof that the grammar reads back what was
 printed: alternatives, terms, groups numbered from left to right, and
 quantifiers with their bounds.
 */
module RegexGrammar {
  import opened Options
  import opened CodeUnits
  import opened RegexMatcher
  import opened RegexReader
  import opened RegexSpelling
  import opened RegexMatcherLaws

  datatype Regex = Only(branch: Branch) | Either(branch: Branch, others: Regex)

  datatype Branch = Done | Then(term: Term, rest: Branch)

  datatype Term =
    | Edge(negated: bool)
    | LineBegins
    | LineEnds
    | Before(negative: bool, body: Regex)
    | Once(item: Item)
    | Times(item: Item, count: Count, lazy: bool)

  datatype Item =
    | Letter
    | Back(number: nat)
    | Taken(name: Option<Points>, body: Regex)
    | Kept(body: Regex)
    | After(negative: bool, body: Regex)

  /** Braces hold `min` and, if there is an upper bound, how far it lies above; `inside` stands between them. */
  datatype Count = AnyNumber | AtLeastOnce | AtMostOnce | Braces(min: nat, above: Option<nat>, inside: seq<View>)

  // ---------------------------------------------------------------------
  // What is written

  function ShowRegex(r: Regex): seq<View> {
    match r
    case Only(b) => ShowBranch(b)
    case Either(b, others) => ShowBranch(b) + ([Mark(BAR)] + ShowRegex(others))
  }

  function ShowBranch(b: Branch): seq<View> {
    match b
    case Done => []
    case Then(t, rest) => ShowTerm(t) + ShowBranch(rest)
  }

  function ShowTerm(t: Term): seq<View> {
    match t
    case Edge(negated) => [Assertion(negated)]
    case LineBegins => [Mark(CARET)]
    case LineEnds => [Mark(DOLLAR)]
    case Before(negative, body) => Enclosed(Behind(negative), ShowRegex(body))
    case Once(item) => ShowItem(item)
    case Times(item, count, lazy) => ShowItem(item) + ShowCount(count, lazy)
  }

  function ShowItem(item: Item): seq<View> {
    match item
    case Letter => [Character]
    case Back(number) => [ToNumber(number)]
    case Taken(name, body) => Enclosed(Opened(name), ShowRegex(body))
    case Kept(body) => Enclosed(Plain, ShowRegex(body))
    case After(negative, body) => Enclosed(Ahead(negative), ShowRegex(body))
  }

  function Opened(name: Option<Points>): Opening {
    if name.Some? then NamedCapture(name.value) else Capture
  }

  function Enclosed(opening: Opening, body: seq<View>): seq<View> {
    [Opens(opening)] + (body + [Mark(CLOSE_PAREN)])
  }

  function ShowCount(count: Count, lazy: bool): seq<View> {
    Marks(count) + if lazy then [Mark(QUESTION)] else []
  }

  function Marks(count: Count): (marks: seq<View>)
    ensures marks != []
  {
    match count
    case AnyNumber => [Mark(STAR)]
    case AtLeastOnce => [Mark(PLUS)]
    case AtMostOnce => [Mark(QUESTION)]
    case Braces(min, _, inside) => [Braced(Brace(min, Most(count), 1 + |inside|))] + inside
  }

  function Least(count: Count): nat {
    match count
    case AtLeastOnce => 1
    case Braces(min, _, _) => min
    case _ => 0
  }

  function Most(count: Count): Option<nat> {
    match count
    case AtMostOnce => Some(1)
    case Braces(min, Some(above), _) => Some(min + above)
    case _ => None
  }

  // ---------------------------------------------------------------------
  // What it stands for: the number of groups in it, and its tree when it
  // starts at view `i` with `groups` groups opened before it.

  function RegexGroups(r: Regex): nat {
    match r
    case Only(b) => BranchGroups(b)
    case Either(b, others) => BranchGroups(b) + RegexGroups(others)
  }

  function BranchGroups(b: Branch): nat {
    match b
    case Done => 0
    case Then(t, rest) => TermGroups(t) + BranchGroups(rest)
  }

  function TermGroups(t: Term): nat {
    match t
    case Before(_, body) => RegexGroups(body)
    case Once(item) => ItemGroups(item)
    case Times(item, _, _) => ItemGroups(item)
    case _ => 0
  }

  function ItemGroups(item: Item): nat {
    match item
    case Taken(_, body) => 1 + RegexGroups(body)
    case Kept(body) => RegexGroups(body)
    case After(_, body) => RegexGroups(body)
    case _ => 0
  }

  function RegexTree(r: Regex, i: nat, groups: nat): Tree {
    match r
    case Only(b) => BranchTree(b, i, groups)
    case Either(b, others) =>
      Alt(BranchTree(b, i, groups), RegexTree(others, i + |ShowBranch(b)| + 1, groups + BranchGroups(b)))
  }

  function BranchTree(b: Branch, i: nat, groups: nat): Tree {
    match b
    case Done => Empty
    case Then(t, rest) => Cat(TermTree(t, i, groups), BranchTree(rest, i + |ShowTerm(t)|, groups + TermGroups(t)))
  }

  function TermTree(t: Term, i: nat, groups: nat): Tree {
    match t
    case Edge(negated) => Boundary(negated)
    case LineBegins => LineStart
    case LineEnds => LineEnd
    case Before(negative, body) => Look(false, negative, RegexTree(body, i + 1, groups))
    case Once(item) => ItemTree(item, i, groups)
    case Times(item, count, lazy) =>
      Repeat(ItemTree(item, i, groups), Least(count), Most(count), !lazy, groups, ItemGroups(item))
  }

  function ItemTree(item: Item, i: nat, groups: nat): Tree {
    match item
    case Letter => Char(i)
    case Back(number) => BackRef([number])
    case Taken(_, body) => Group(groups + 1, RegexTree(body, i + 1, groups + 1))
    case Kept(body) => RegexTree(body, i + 1, groups)
    case After(negative, body) => Look(true, negative, RegexTree(body, i + 1, groups))
  }

  // ---------------------------------------------------------------------
  // Reading it back

  ghost predicate Shown(g: Grammar, i: nat, s: seq<View>) {
    i + |s| <= |g.views| && g.views[i..i + |s|] == s
  }

  lemma {:induction false} ShownParts(g: Grammar, i: nat, a: seq<View>, b: seq<View>)
    requires Shown(g, i, a + b)
    ensures Shown(g, i, a) && Shown(g, i + |a|, b)
  {
    var s := g.views[i..i + |a + b|];
    assert g.views[i..i + |a|] == s[..|a|] == a;
    assert g.views[i + |a|..i + |a| + |b|] == s[|a|..] == b;
  }

  lemma {:induction false} ShownFirst(g: Grammar, i: nat, v: View, s: seq<View>)
    requires Shown(g, i, [v] + s)
    ensures i < |g.views| && g.views[i] == v && Shown(g, i + 1, s)
  {
    ShownParts(g, i, [v], s);
    assert g.views[i..i + 1][0] == v;
  }

  lemma {:induction false} ShownOne(g: Grammar, i: nat, v: View)
    requires Shown(g, i, [v])
    ensures i < |g.views| && g.views[i] == v
  {
    assert g.views[i..i + 1][0] == v;
  }

  /** A pattern ends at the end or before a closing parenthesis; a branch also before a bar. */
  predicate RegexEnds(g: Grammar, i: nat) {
    i == |g.views| || MarkAt(g, i, CLOSE_PAREN)
  }

  predicate BranchEnds(g: Grammar, i: nat) {
    RegexEnds(g, i) || MarkAt(g, i, BAR)
  }

  predicate Quantifies(v: View) {
    v == Mark(STAR) || v == Mark(PLUS) || v == Mark(QUESTION) || v.Braced?
  }

  /** No quantifier starts here. */
  predicate Unquantified(g: Grammar, i: nat) {
    i < |g.views| ==> !Quantifies(g.views[i])
  }

  lemma {:induction false} TermStarts(t: Term)
    ensures ShowTerm(t) != [] && !Quantifies(ShowTerm(t)[0])
    ensures ShowTerm(t)[0] != Mark(BAR) && ShowTerm(t)[0] != Mark(CLOSE_PAREN)
  {
    hide ShowRegex, ShowCount;
  }

  lemma {:induction false} TermShown(g: Grammar, t: Term, i: nat)
    requires Shown(g, i, ShowTerm(t))
    ensures i < |g.views| && !Quantifies(g.views[i]) && !MarkAt(g, i, BAR) && !MarkAt(g, i, CLOSE_PAREN)
  {
    hide ShowTerm;
    TermStarts(t);
    assert g.views[i..i + |ShowTerm(t)|][0] == g.views[i];
  }

  lemma ShownNothing(g: Grammar, i: nat)
    requires Shown(g, i, [])
    ensures i <= |g.views|
  {
  }

  lemma {:induction false} BranchStarts(g: Grammar, b: Branch, i: nat)
    requires Shown(g, i, ShowBranch(b)) && BranchEnds(g, i + |ShowBranch(b)|)
    ensures Unquantified(g, i)
  {
    hide ShowTerm, Shown;
    if b.Then? {
      ShownParts(g, i, ShowTerm(b.term), ShowBranch(b.rest));
      TermShown(g, b.term, i);
    }
  }

  /** After the marks a question mark makes a quantifier lazy. */
  lemma {:induction false} LazyParses(g: Grammar, item: Parsed, groups: nat, min: nat, max: Option<nat>, length: nat, lazy: bool)
    requires item.groups >= groups && item.next + length <= |g.views|
    requires if lazy then MarkAt(g, item.next + length, QUESTION) else Unquantified(g, item.next + length)
    ensures ParseLazy(g, item, groups, min, max, length) ==
            Some(Parsed(Repeat(item.tree, min, max, !lazy, groups, item.groups - groups),
                        item.next + length + (if lazy then 1 else 0), item.groups))
  {
  }

  lemma {:induction false} MarksParse(g: Grammar, item: Parsed, groups: nat, count: Count)
    requires item.next < |g.views| && g.views[item.next] == Marks(count)[0]
    ensures ParseQuantifier(g, item, groups) == ParseLazy(g, item, groups, Least(count), Most(count), |Marks(count)|)
  {
    hide ParseLazy;
  }

  lemma {:induction false} CountParses(g: Grammar, item: Parsed, groups: nat, count: Count, lazy: bool)
    requires item.groups >= groups && Shown(g, item.next, ShowCount(count, lazy))
    requires Unquantified(g, item.next + |ShowCount(count, lazy)|)
    ensures item.next <= |g.views|
    ensures ParseQuantifier(g, item, groups) ==
            Some(Parsed(Repeat(item.tree, Least(count), Most(count), !lazy, groups, item.groups - groups),
                        item.next + |ShowCount(count, lazy)|, item.groups))
  {
    hide Marks, ParseQuantifier, ParseLazy, Least, Most;
    var marks := Marks(count);
    ShownParts(g, item.next, marks, if lazy then [Mark(QUESTION)] else []);
    assert g.views[item.next..item.next + |marks|][0] == g.views[item.next];
    MarksParse(g, item, groups, count);
    if lazy { ShownOne(g, item.next + |marks|, Mark(QUESTION)); }
    LazyParses(g, item, groups, Least(count), Most(count), |marks|, lazy);
  }

  lemma {:induction false} OnlyParses(g: Grammar, i: nat, groups: nat)
    requires i <= |g.views| && ParseAlternative(g, i, groups).Some?
    requires RegexEnds(g, ParseAlternative(g, i, groups).value.next)
    ensures ParseDisjunction(g, i, groups) == ParseAlternative(g, i, groups)
  {
    hide ParseAlternative;
  }

  lemma {:induction false} EitherParses(g: Grammar, i: nat, groups: nat)
    requires i <= |g.views| && ParseAlternative(g, i, groups).Some?
    requires var left := ParseAlternative(g, i, groups).value;
             MarkAt(g, left.next, BAR) && ParseDisjunction(g, left.next + 1, left.groups).Some?
    ensures var left := ParseAlternative(g, i, groups).value;
            var right := ParseDisjunction(g, left.next + 1, left.groups).value;
            ParseDisjunction(g, i, groups) == Some(right.(tree := Alt(left.tree, right.tree)))
  {
    hide ParseAlternative;
  }

  lemma {:induction false} RegexParses(g: Grammar, r: Regex, i: nat, groups: nat)
    requires Shown(g, i, ShowRegex(r)) && RegexEnds(g, i + |ShowRegex(r)|)
    ensures i <= |g.views|
    ensures ParseDisjunction(g, i, groups) ==
            Some(Parsed(RegexTree(r, i, groups), i + |ShowRegex(r)|, groups + RegexGroups(r)))
    decreases r, 0
  {
    hide Shown, ParseAlternative, ParseDisjunction, ShowBranch, BranchTree, BranchGroups;
    match r
    case Only(b) =>
      BranchParses(g, b, i, groups);
      OnlyParses(g, i, groups);
    case Either(b, others) =>
      var s := ShowBranch(b);
      ShownParts(g, i, s, [Mark(BAR)] + ShowRegex(others));
      ShownFirst(g, i + |s|, Mark(BAR), ShowRegex(others));
      BranchParses(g, b, i, groups);
      RegexParses(g, others, i + |s| + 1, groups + BranchGroups(b));
      EitherParses(g, i, groups);
  }

  lemma {:induction false} BranchParses(g: Grammar, b: Branch, i: nat, groups: nat)
    requires Shown(g, i, ShowBranch(b)) && BranchEnds(g, i + |ShowBranch(b)|)
    ensures i <= |g.views|
    ensures ParseAlternative(g, i, groups) ==
            Some(Parsed(BranchTree(b, i, groups), i + |ShowBranch(b)|, groups + BranchGroups(b)))
    decreases b
  {
    hide ParseTerm, ShowTerm, TermTree, TermGroups, Shown;
    if b.Done? {
      ShownNothing(g, i);
    } else {
      var s := ShowTerm(b.term);
      ShownParts(g, i, s, ShowBranch(b.rest));
      TermShown(g, b.term, i);
      BranchStarts(g, b.rest, i + |s|);
      TermParses(g, b.term, i, groups);
      BranchParses(g, b.rest, i + |s|, groups + TermGroups(b.term));
    }
  }

  lemma {:induction false} TermParses(g: Grammar, t: Term, i: nat, groups: nat)
    requires Shown(g, i, ShowTerm(t)) && Unquantified(g, i + |ShowTerm(t)|)
    ensures i < |g.views|
    ensures ParseTerm(g, i, groups) ==
            Some(Parsed(TermTree(t, i, groups), i + |ShowTerm(t)|, groups + TermGroups(t)))
    decreases t
  {
    hide Shown, ShowRegex, ShowItem, ShowCount, ParseDisjunction, ParseQuantifier, RegexTree, RegexGroups;
    match t
    case Before(negative, body) => EnclosedParses(g, Behind(negative), body, i, groups);
    case Once(item) =>
      ItemParses(g, item, i, groups);
      NoCount(g, Parsed(ItemTree(item, i, groups), i + |ShowItem(item)|, groups + ItemGroups(item)), groups);
    case Times(item, count, lazy) =>
      ShownParts(g, i, ShowItem(item), ShowCount(count, lazy));
      ItemParses(g, item, i, groups);
      CountParses(g, Parsed(ItemTree(item, i, groups), i + |ShowItem(item)|, groups + ItemGroups(item)), groups, count, lazy);
    case Edge(negated) => ShownOne(g, i, Assertion(negated));
    case LineBegins => ShownOne(g, i, Mark(CARET));
    case LineEnds => ShownOne(g, i, Mark(DOLLAR));
  }

  lemma NoCount(g: Grammar, item: Parsed, groups: nat)
    requires item.next <= |g.views| && Unquantified(g, item.next)
    ensures ParseQuantifier(g, item, groups) == Some(item)
  {
  }

  /** An item is read as a term whose quantifier is still to come. */
  lemma {:induction false} ItemParses(g: Grammar, item: Item, i: nat, groups: nat)
    requires Shown(g, i, ShowItem(item))
    ensures i < |g.views| && i + |ShowItem(item)| <= |g.views|
    ensures ParseTerm(g, i, groups) ==
            ParseQuantifier(g, Parsed(ItemTree(item, i, groups), i + |ShowItem(item)|, groups + ItemGroups(item)), groups)
    decreases item
  {
    hide Shown, ShowRegex, ParseDisjunction, ParseQuantifier, RegexTree, RegexGroups;
    match item
    case Taken(name, body) => EnclosedParses(g, Opened(name), body, i, groups);
    case Kept(body) => EnclosedParses(g, Plain, body, i, groups);
    case After(negative, body) => EnclosedParses(g, Ahead(negative), body, i, groups);
    case Letter => ShownOne(g, i, Character);
    case Back(number) => ShownOne(g, i, ToNumber(number));
  }

  lemma {:induction false} EnclosedParses(g: Grammar, opening: Opening, body: Regex, i: nat, groups: nat)
    requires Shown(g, i, Enclosed(opening, ShowRegex(body)))
    ensures var inner := groups + if opening.Capture? || opening.NamedCapture? then 1 else 0;
            var end := i + 1 + |ShowRegex(body)|;
            && end < |g.views| && g.views[i] == Opens(opening) && MarkAt(g, end, CLOSE_PAREN)
            && ParseDisjunction(g, i + 1, inner) ==
               Some(Parsed(RegexTree(body, i + 1, inner), end, inner + RegexGroups(body)))
    decreases body, 1
  {
    hide Shown, ShowRegex, ParseDisjunction, RegexTree, RegexGroups;
    var s := ShowRegex(body);
    ShownFirst(g, i, Opens(opening), s + [Mark(CLOSE_PAREN)]);
    ShownParts(g, i + 1, s, [Mark(CLOSE_PAREN)]);
    ShownOne(g, i + 1 + |s|, Mark(CLOSE_PAREN));
    RegexParses(g, body, i + 1, groups + if opening.Capture? || opening.NamedCapture? then 1 else 0);
  }

  /** Every printed pattern is read back as its own tree. */
  lemma {:induction false} ParseReads(r: Regex, decode: Points -> Points)
    ensures Parse(ShowRegex(r), decode) == Some(RegexTree(r, 0, 0))
  {
    var vs := ShowRegex(r);
    var g := Grammar(vs, GroupNames(vs, decode), decode);
    assert vs[0..0 + |vs|] == vs;
    RegexParses(g, r, 0, 0);
  }

  // ---------------------------------------------------------------------
  // Braces as they are written

  predicate Stands(ts: seq<Token>, i: nat, point: nat) {
    i < |ts| && ts[i].Raw? && ts[i].unit == point
  }

  /** Each point stands at its place as itself. */
  ghost predicate Written(ts: seq<Token>, i: nat, text: Points) {
    i + |text| <= |ts| && forall k :: 0 <= k < |text| ==> Stands(ts, i + k, text[k])
  }

  lemma {:induction false} WrittenParts(ts: seq<Token>, i: nat, a: Points, b: Points)
    requires Written(ts, i, a + b)
    ensures Written(ts, i, a) && Written(ts, i + |a|, b)
  {
    forall k | 0 <= k < |a| ensures Stands(ts, i + k, a[k]) {
      assert (a + b)[k] == a[k];
    }
    forall k | 0 <= k < |b| ensures Stands(ts, i + |a| + k, b[k]) {
      assert (a + b)[|a| + k] == b[k];
      assert i + (|a| + k) == i + |a| + k;
    }
  }

  lemma {:induction false} WrittenFirst(ts: seq<Token>, i: nat, text: Points)
    requires Written(ts, i, text) && text != []
    ensures Stands(ts, i, text[0])
  {
    assert Stands(ts, i + 0, text[0]);
  }

  lemma {:induction false} DigitsWritten(ts: seq<Token>, i: nat, digits: Points)
    requires Written(ts, i, digits) && (forall k :: 0 <= k < |digits| ==> IsDecimal(digits[k]))
    requires i + |digits| < |ts| && ts[i + |digits|].Raw? && !IsDecimal(ts[i + |digits|].unit)
    ensures DigitsEnd(ts, i) == i + |digits|
    decreases |digits|
  {
    if digits != [] {
      WrittenFirst(ts, i, digits);
      assert digits == digits[..1] + digits[1..];
      WrittenParts(ts, i, digits[..1], digits[1..]);
      DigitsWritten(ts, i + 1, digits[1..]);
    }
  }

  lemma {:induction false} NumberWritten(ts: seq<Token>, i: nat, digits: Points)
    requires Written(ts, i, digits) && (forall k :: 0 <= k < |digits| ==> IsDecimal(digits[k]))
    requires forall k :: i <= k < i + |digits| ==> ts[k].Raw? && IsDecimal(ts[k].unit)
    ensures DigitsNumber(ts, i, i + |digits|) == DecimalNumber(digits)
    decreases |digits|
  {
    if digits != [] {
      var n := |digits| - 1;
      assert Stands(ts, i + n, digits[n]);
      assert digits == digits[..n] + digits[n..];
      WrittenParts(ts, i, digits[..n], digits[n..]);
      NumberWritten(ts, i, digits[..n]);
    }
  }

  function Decimal(n: nat): Points {
    DecimalPoints(DecimalDigits(n))
  }

  /** `{n}`, `{n,}` and `{n,m}`. */
  function BraceText(min: nat, max: Option<nat>, exact: bool): Points {
    [OPEN_BRACE] + Decimal(min) +
    (if exact then [CLOSE_BRACE] else [COMMA] + (if max.Some? then Decimal(max.value) else []) + [CLOSE_BRACE])
  }

  /** A decimal number and the point after it are read as such. */
  lemma {:induction false} NumberReads(ts: seq<Token>, i: nat, n: nat, b: Points)
    requires b != [] && !IsDecimal(b[0]) && Written(ts, i, Decimal(n) + b)
    ensures |Decimal(n)| > 0 && Written(ts, i + |Decimal(n)|, b)
    ensures DigitsEnd(ts, i) == i + |Decimal(n)|
    ensures forall k :: i <= k < i + |Decimal(n)| ==> ts[k].Raw? && IsDecimal(ts[k].unit)
    ensures DigitsNumber(ts, i, i + |Decimal(n)|) == n
  {
    hide DecimalNumber, DigitsNumber, DecimalDigits, DigitsEnd;
    var digits := Decimal(n);
    DecimalSpelled(n);
    WrittenParts(ts, i, digits, b);
    WrittenFirst(ts, i + |digits|, b);
    DigitsWritten(ts, i, digits);
    DigitsAreRaw(ts, i);
    NumberWritten(ts, i, digits);
  }

  /** A quantifier in braces is read with the numbers that are written in it. */
  lemma {:induction false} BracesRead(ts: seq<Token>, i: nat, min: nat, max: Option<nat>, exact: bool)
    requires Written(ts, i, BraceText(min, max, exact)) && (exact ==> max == Some(min))
    ensures BraceAt(ts, i) == Some(Brace(min, max, |BraceText(min, max, exact)|))
  {
    hide Decimal, DigitsNumber, DigitsEnd, Written;
    var close: Points := [CLOSE_BRACE];
    var upper := if max.Some? then Decimal(max.value) else [];
    var tail := if exact then close else [COMMA] + (upper + close);
    assert BraceText(min, max, exact) == [OPEN_BRACE] + (Decimal(min) + tail);
    WrittenParts(ts, i, [OPEN_BRACE], Decimal(min) + tail);
    WrittenFirst(ts, i, [OPEN_BRACE]);
    NumberReads(ts, i + 1, min, tail);
    var j := i + 1 + |Decimal(min)|;
    WrittenFirst(ts, j, tail);
    if !exact {
      WrittenParts(ts, j, [COMMA], upper + close);
      WrittenParts(ts, j + 1, upper, close);
      WrittenFirst(ts, j + 1 + |upper|, close);
      if max.Some? {
        NumberReads(ts, j + 1, max.value, close);
      } else {
        DigitsWritten(ts, j + 1, upper);
      }
    }
  }

  // ---------------------------------------------------------------------
  // What tokens and names refer to

  /** Which units a token accepts when they are compared exactly. */
  lemma {:induction false} TokenAccepts(token: Token, dotAll: bool, u: Unit)
    ensures Accepts(Exact, LeafOf(token, dotAll), u) <==>
            match token
            case Raw(unit) => if unit == 0x2e then dotAll || !EndsLine(u) else u == unit
            case Escaped(unit) => u == unit
            case ClassEscape(escape) => EscapeMatches(escape, u)
            case Set(negated, members) => if negated then u !in members else u in members
            case _ => false
  {
  }

  /** A name refers to exactly the groups that have it. */
  lemma {:induction false} NumbersIff(names: seq<Option<Points>>, name: Points, from: nat)
    requires from <= |names|
    ensures forall n: nat :: n in NumbersOf(names, name, from) <==> from < n <= |names| && names[n - 1] == Some(name)
    decreases |names| - from
  {
    if from < |names| { NumbersIff(names, name, from + 1); }
  }
}
