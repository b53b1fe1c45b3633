/**
 What the rewrite keeps. A rewritten pattern has the same tree as the original
 exactly when no escaped comma stands inside `{digits , digits}`: such a comma
 is written back unescaped and turns a literal brace into a quantifier.
 */
module RegexMeaning {
  import opened Options
  import opened CodeUnits
  import opened RegexMatcher
  import opened RegexReader
  import opened RegexRewrite
  import opened RegexRewriteProof

  /** A literal `{n\,}` or `{n\,m}` at `i`, however the comma is escaped. */
  predicate EscapedCommaAt(ts: seq<Token>, i: nat) {
    && IsRaw(ts, i, OPEN_BRACE)
    && var j := DigitsEnd(ts, i + 1);
       && j > i + 1
       && j < |ts| && ts[j] == Escaped(COMMA)
       && IsRaw(ts, DigitsEnd(ts, j + 1), CLOSE_BRACE)
  }

  predicate EscapedComma(ts: seq<Token>) {
    exists i :: 0 <= i < |ts| && EscapedCommaAt(ts, i)
  }

  /** The same condition on the text of a pattern. */
  predicate HasEscapedComma(text: Points, groups: nat, named: bool) {
    var ts := ReadAll(text, groups, named);
    ts.Some? && EscapedComma(ts.value)
  }

  // ---------------------------------------------------------------------
  // Views

  /** A token is raw `unit` before the rewrite exactly when it is after it; only the comma is different. */
  lemma {:induction false} RawAgrees(c: Unit -> Unit, ts: seq<Token>, ts': seq<Token>, i: nat, unit: Unit)
    requires Sound(c) && AllRelated(c, ts, ts')
    requires IsSyntax(unit) || IsDecimal(unit) || unit == COMMA
    ensures IsRaw(ts', i, unit) <==> IsRaw(ts, i, unit) || (unit == COMMA && i < |ts| && ts[i] == Escaped(COMMA))
  {
    if i < |ts| { assert Related(c, ts[i], ts'[i]); }
  }

  lemma {:induction false} DigitAgrees(c: Unit -> Unit, ts: seq<Token>, ts': seq<Token>, i: nat)
    requires Sound(c) && AllRelated(c, ts, ts') && i < |ts|
    ensures (ts[i].Raw? && IsDecimal(ts[i].unit)) == (ts'[i].Raw? && IsDecimal(ts'[i].unit))
    ensures ts[i].Raw? && IsDecimal(ts[i].unit) ==> ts'[i] == ts[i]
  {
    assert Related(c, ts[i], ts'[i]);
  }

  lemma {:induction false} DigitsEndAgrees(c: Unit -> Unit, ts: seq<Token>, ts': seq<Token>, i: nat)
    requires Sound(c) && AllRelated(c, ts, ts') && i <= |ts|
    ensures DigitsEnd(ts', i) == DigitsEnd(ts, i)
    ensures forall k :: i <= k < DigitsEnd(ts, i) ==> ts'[k] == ts[k]
    decreases |ts| - i
  {
    if i < |ts| {
      DigitAgrees(c, ts, ts', i);
      if ts[i].Raw? && IsDecimal(ts[i].unit) { DigitsEndAgrees(c, ts, ts', i + 1); }
    }
  }

  lemma {:induction false} DigitsNumberAgrees(ts: seq<Token>, ts': seq<Token>, i: nat, j: nat)
    requires i <= j <= |ts| && |ts| == |ts'|
    requires forall k :: i <= k < j ==> ts[k].Raw? && IsDecimal(ts[k].unit)
    requires forall k :: i <= k < j ==> ts'[k] == ts[k]
    ensures DigitsNumber(ts', i, j) == DigitsNumber(ts, i, j)
    decreases j
  {
    if i < j { DigitsNumberAgrees(ts, ts', i, j - 1); }
  }

  lemma {:induction false} BraceAgrees(c: Unit -> Unit, ts: seq<Token>, ts': seq<Token>, i: nat)
    requires Sound(c) && AllRelated(c, ts, ts')
    ensures !EscapedCommaAt(ts, i) ==> BraceAt(ts', i) == BraceAt(ts, i)
    ensures EscapedCommaAt(ts, i) ==> BraceAt(ts, i).None? && BraceAt(ts', i).Some?
  {
    hide AllRelated;
    RawAgrees(c, ts, ts', i, OPEN_BRACE);
    assert |ts| == |ts'| by { assert AllRelated(c, ts, ts'); LengthsAgree(c, ts, ts'); }
    if IsRaw(ts, i, OPEN_BRACE) {
      var j := DigitsEnd(ts, i + 1);
      DigitsAreRaw(ts, i + 1);
      DigitsEndAgrees(c, ts, ts', i + 1);
      DigitsNumberAgrees(ts, ts', i + 1, j);
      RawAgrees(c, ts, ts', j, CLOSE_BRACE);
      RawAgrees(c, ts, ts', j, COMMA);
      if IsRaw(ts', j, COMMA) {
        var k := DigitsEnd(ts, j + 1);
        DigitsAreRaw(ts, j + 1);
        DigitsEndAgrees(c, ts, ts', j + 1);
        DigitsNumberAgrees(ts, ts', j + 1, k);
        RawAgrees(c, ts, ts', k, CLOSE_BRACE);
      }
    }
  }

  lemma {:induction false} LengthsAgree(c: Unit -> Unit, ts: seq<Token>, ts': seq<Token>)
    requires AllRelated(c, ts, ts')
    ensures |ts| == |ts'|
  {
  }

  lemma {:induction false} MarkAgrees(c: Unit -> Unit, unit: Unit)
    requires Sound(c)
    ensures IsMark(c(unit)) == IsMark(unit)
    ensures IsMark(unit) || unit == OPEN_BRACE || unit == DOT ==> c(unit) == unit
    ensures c(unit) == DOT ==> unit == DOT
  {
  }

  lemma {:induction false} ViewAgrees(c: Unit -> Unit, ts: seq<Token>, ts': seq<Token>, i: nat)
    requires Sound(c) && AllRelated(c, ts, ts') && i < |ts|
    ensures !EscapedCommaAt(ts, i) ==> ViewAt(ts', i) == ViewAt(ts, i)
    ensures EscapedCommaAt(ts, i) ==> ViewAt(ts, i) == Character && ViewAt(ts', i).Braced?
  {
    hide BraceAt;
    assert Related(c, ts[i], ts'[i]);
    BraceAgrees(c, ts, ts', i);
    if ts[i].Raw? {
      MarkAgrees(c, ts[i].unit);
    } else if ts[i].Escaped? {
      NoBrace(ts, i);
      NoBrace(ts', i);
    }
  }

  lemma {:induction false} NoBrace(ts: seq<Token>, i: nat)
    ensures !IsRaw(ts, i, OPEN_BRACE) ==> BraceAt(ts, i) == None
  {
  }

  /** What the grammar sees is unchanged exactly when there is no escaped comma in a brace. */
  lemma {:induction false} ViewsAgree(c: Unit -> Unit, ts: seq<Token>, ts': seq<Token>)
    requires Sound(c) && AllRelated(c, ts, ts')
    ensures Views(ts') == Views(ts) <==> !EscapedComma(ts)
  {
    hide EscapedCommaAt, ViewAt;
    forall i | 0 <= i < |ts|
      ensures !EscapedCommaAt(ts, i) ==> ViewAt(ts', i) == ViewAt(ts, i)
      ensures EscapedCommaAt(ts, i) ==> ViewAt(ts, i) == Character && ViewAt(ts', i).Braced?
    {
      ViewAgrees(c, ts, ts', i);
    }
    if EscapedComma(ts) {
      var i :| 0 <= i < |ts| && EscapedCommaAt(ts, i);
      assert Views(ts)[i] != Views(ts')[i];
    }
  }

  // ---------------------------------------------------------------------
  // Leaves

  lemma {:induction false} LeafAgrees(c: Unit -> Unit, t: Token, t': Token, dotAll: bool)
    requires Sound(c) && Related(c, t, t')
    ensures LeafFollows(c, LeafOf(t, dotAll), LeafOf(t', dotAll))
  {
    var leaf, leaf' := LeafOf(t, dotAll), LeafOf(t', dotAll);
    forall u: Unit
      ensures Accepts(Folded(c), leaf, u) == Accepts(Exact, leaf', c(u))
    {
      match t
      case Raw(unit) =>
        MarkAgrees(c, unit);
        if unit == DOT { SelfAccepts(c, leaf, u); }
      case Escaped(unit) =>
        assert c(unit) == DOT ==> IsSyntax(c(unit));
      case ClassEscape(escape) =>
        EscapeUnaffected(c, escape, u);
        forall m: Unit | c(m) == c(u) ensures EscapeMatches(escape, m) == EscapeMatches(escape, u) {
          EscapeUnaffected(c, escape, m);
        }
        SelfAccepts(c, leaf, u);
      case Set(negated, members) =>
      case _ =>
    }
  }

  lemma {:induction false} SelfAccepts(c: Unit -> Unit, leaf: Leaf, u: Unit)
    ensures u in leaf.members ==> exists m :: m in leaf.members && c(m) == c(u)
  {
  }

  // ---------------------------------------------------------------------
  // The tree shows which tokens were read as characters

  ghost predicate HasLeaf(t: Tree, p: nat) {
    match t
    case Char(at) => at == p
    case Cat(first, second) => HasLeaf(first, p) || HasLeaf(second, p)
    case Alt(left, right) => HasLeaf(left, p) || HasLeaf(right, p)
    case Group(_, body) => HasLeaf(body, p)
    case Look(_, _, body) => HasLeaf(body, p)
    case Repeat(body, _, _, _, _, _) => HasLeaf(body, p)
    case _ => false
  }

  /** `p` is a character of its own, not part of a braced quantifier. */
  ghost predicate Standing(vs: seq<View>, p: nat) {
    && p < |vs| && vs[p].Character?
    && forall q :: 0 <= q < p && vs[q].Braced? ==> q + vs[q].brace.length <= p
  }

  /** The tree of `r`, parsed from `from`, has a leaf at `p` if `p` is a standing character of its span, and only at characters. */
  ghost predicate LeavesExactly(g: Grammar, from: nat, r: Parsed, p: nat) {
    && (from <= p < r.next && Standing(g.views, p) ==> HasLeaf(r.tree, p))
    && (HasLeaf(r.tree, p) ==> p < |g.views| && g.views[p].Character?)
  }

  lemma {:induction false} DisjunctionLeaves(g: Grammar, i: nat, groups: nat, p: nat)
    requires i <= |g.views| && ParseDisjunction(g, i, groups).Some?
    ensures LeavesExactly(g, i, ParseDisjunction(g, i, groups).value, p)
    decreases |g.views| - i, 3
  {
    var left := ParseAlternative(g, i, groups).value;
    AlternativeLeaves(g, i, groups, p);
    if MarkAt(g, left.next, BAR) { DisjunctionLeaves(g, left.next + 1, left.groups, p); }
  }

  lemma {:induction false} AlternativeLeaves(g: Grammar, i: nat, groups: nat, p: nat)
    requires i <= |g.views| && ParseAlternative(g, i, groups).Some?
    ensures LeavesExactly(g, i, ParseAlternative(g, i, groups).value, p)
    decreases |g.views| - i, 2
  {
    if i != |g.views| && !MarkAt(g, i, BAR) && !MarkAt(g, i, CLOSE_PAREN) {
      var term := ParseTerm(g, i, groups).value;
      TermLeaves(g, i, groups, p);
      AlternativeLeaves(g, term.next, term.groups, p);
    }
  }

  lemma {:induction false} QuantifierLeaves(g: Grammar, from: nat, atom: Parsed, groups: nat, p: nat)
    requires atom.next <= |g.views| && LeavesExactly(g, from, atom, p)
    requires ParseQuantifier(g, atom, groups).Some?
    ensures LeavesExactly(g, from, ParseQuantifier(g, atom, groups).value, p)
  {
  }

  lemma {:induction false} TermLeaves(g: Grammar, i: nat, groups: nat, p: nat)
    requires i < |g.views| && ParseTerm(g, i, groups).Some?
    ensures LeavesExactly(g, i, ParseTerm(g, i, groups).value, p)
    decreases |g.views| - i, 1
  {
    hide ParseQuantifier;
    match g.views[i]
    case Character =>
      QuantifierLeaves(g, i, Parsed(Char(i), i + 1, groups), groups, p);
    case ToNumber(number) =>
      QuantifierLeaves(g, i, Parsed(BackRef([number]), i + 1, groups), groups, p);
    case ToName(name) =>
      QuantifierLeaves(g, i, Parsed(BackRef(NumbersOf(g.names, g.decode(name), 0)), i + 1, groups), groups, p);
    case Opens(opening) =>
      var number := groups + 1;
      var from := if opening.Capture? || opening.NamedCapture? then number else groups;
      var inner := ParseDisjunction(g, i + 1, from).value;
      DisjunctionLeaves(g, i + 1, from, p);
      var closed := inner.(next := inner.next + 1);
      match opening {
        case Capture => QuantifierLeaves(g, i, closed.(tree := Group(number, closed.tree)), groups, p);
        case NamedCapture(_) => QuantifierLeaves(g, i, closed.(tree := Group(number, closed.tree)), groups, p);
        case Plain => QuantifierLeaves(g, i, closed, groups, p);
        case Ahead(negative) => QuantifierLeaves(g, i, closed.(tree := Look(true, negative, closed.tree)), groups, p);
        case Behind(negative) =>
      }
    case _ =>
  }

  lemma {:induction false} BraceSpan(ts: seq<Token>, q: nat, p: nat)
    requires BraceAt(ts, q).Some? && q < p < q + BraceAt(ts, q).value.length
    ensures p < |ts| && ts[p].Raw? && ts[p].unit != OPEN_BRACE
  {
    var j := DigitsEnd(ts, q + 1);
    DigitsAreRaw(ts, q + 1);
    if IsRaw(ts, j, COMMA) { DigitsAreRaw(ts, j + 1); }
  }

  lemma {:induction false} CommaStands(ts: seq<Token>, i: nat)
    requires i < |ts| && EscapedCommaAt(ts, i)
    ensures Standing(Views(ts), i)
  {
    var vs := Views(ts);
    forall q | 0 <= q < i && vs[q].Braced?
      ensures q + vs[q].brace.length <= i
    {
      assert vs[q] == ViewAt(ts, q);
      if q + vs[q].brace.length > i { BraceSpan(ts, q, i); }
    }
  }

  /** Where the original parses, the rewrite keeps its tree exactly when no brace holds an escaped comma. */
  lemma {:induction false} TreeKeptIff(c: Unit -> Unit, ts: seq<Token>, ts': seq<Token>, decode: Points -> Points)
    requires Sound(c) && AllRelated(c, ts, ts')
    requires Parse(Views(ts), decode).Some?
    ensures Parse(Views(ts'), decode) == Parse(Views(ts), decode) <==> !EscapedComma(ts)
  {
    hide ViewAt, EscapedCommaAt, ParseDisjunction, AllRelated;
    ViewsAgree(c, ts, ts');
    if EscapedComma(ts) && Parse(Views(ts'), decode) == Parse(Views(ts), decode) {
      var i :| 0 <= i < |ts| && EscapedCommaAt(ts, i);
      ViewAgrees(c, ts, ts', i);
      CommaStands(ts, i);
      LengthsAgree(c, ts, ts');
      var (vs, vs') := (Views(ts), Views(ts'));
      DisjunctionLeaves(Grammar(vs, GroupNames(vs, decode), decode), 0, 0, i);
      DisjunctionLeaves(Grammar(vs', GroupNames(vs', decode), decode), 0, 0, i);
    }
  }

  // ---------------------------------------------------------------------
  // Meaning

  lemma {:induction false} TokensKeepMeaning(c: Unit -> Unit, ts: seq<Token>, ts': seq<Token>, mode: Mode,
                                             subject: seq<Unit>, start: nat)
    requires Sound(c) && AllRelated(c, ts, ts') && !EscapedComma(ts)
    ensures FindTokens(ts', mode, Exact, Mapped(c, subject), start) == FindTokens(ts, mode, Folded(c), subject, start)
  {
    hide ViewAt, EscapedComma, Related, Outcomes, Find, LeafOf;
    ViewsAgree(c, ts, ts');
    var folded := Context(Leaves(ts, mode.dotAll), subject, Folded(c), mode.multiline);
    var exact := Context(Leaves(ts', mode.dotAll), Mapped(c, subject), Exact, mode.multiline);
    forall i | 0 <= i < |ts|
      ensures LeafFollows(c, folded.leaves[i], exact.leaves[i])
    {
      LeafAgrees(c, ts[i], ts'[i], mode.dotAll);
    }
    var tree := Parse(Views(ts), mode.decode);
    if tree.Some? { FindAgrees(c, folded, exact, tree.value, start); }
  }

  /**
   The rewritten pattern, matched exactly on the mapped subject, finds the same
   match with the same captures as the original compared through `c`, for every
   subject and start, unless a brace of the pattern holds an escaped comma.
   */
  lemma {:induction false} RewriteKeepsMeaning(c: Unit -> Unit, text: Points, groups: nat, named: bool, mode: Mode,
                                               subject: seq<Unit>, start: nat)
    requires Sound(c) && RewritePattern(c, text, groups, named).Some?
    requires !HasEscapedComma(text, groups, named)
    ensures FindText(RewritePattern(c, text, groups, named).value, groups, named, mode, Exact, Mapped(c, subject), start)
         == FindText(text, groups, named, mode, Folded(c), subject, start)
  {
    hide ReadAll, RewritePattern, FindTokens, AllRelated;
    RewriteReads(c, text, groups, named);
    var (ts, ts') := (ReadAll(text, groups, named).value,
                      ReadAll(RewritePattern(c, text, groups, named).value, groups, named).value);
    TokensKeepMeaning(c, ts, ts', mode, subject, start);
  }

  ghost function TreeOf(text: Points, groups: nat, named: bool, decode: Points -> Points): Option<Tree> {
    var ts := ReadAll(text, groups, named);
    if ts.None? then None else Parse(Views(ts.value), decode)
  }

  /** The exact condition, on the text: the rewrite of a pattern that parses keeps its tree or the comma is there. */
  lemma {:induction false} RewriteKeepsTreeIff(c: Unit -> Unit, text: Points, groups: nat, named: bool,
                                               decode: Points -> Points)
    requires Sound(c) && RewritePattern(c, text, groups, named).Some?
    requires TreeOf(text, groups, named, decode).Some?
    ensures TreeOf(RewritePattern(c, text, groups, named).value, groups, named, decode)
         == TreeOf(text, groups, named, decode)
         <==> !HasEscapedComma(text, groups, named)
  {
    hide ReadAll, RewritePattern, Parse, AllRelated, EscapedComma;
    RewriteReads(c, text, groups, named);
    TreeKeptIff(c, ReadAll(text, groups, named).value,
                ReadAll(RewritePattern(c, text, groups, named).value, groups, named).value, decode);
  }

  // ---------------------------------------------------------------------
  // `/a{0\,}/i` is such a pattern: it stands for the text `a{0,}`, but its rewrite `A{0,}` repeats `A`.

  const COMMA_PATTERN: Points := [0x61, 0x7b, 0x30, 0x5c, 0x2c, 0x7d]
  const COMMA_REWRITTEN: Points := [0x41, 0x7b, 0x30, 0x2c, 0x7d]
  const COMMA_TOKENS: seq<Token> := [Raw(0x61), Raw(0x7b), Raw(0x30), Escaped(0x2c), Raw(0x7d)]
  const REWRITTEN_TOKENS: seq<Token> := [Raw(0x41), Raw(0x7b), Raw(0x30), Raw(0x2c), Raw(0x7d)]

  lemma {:induction false} ReadRaw(q: Points, ts: seq<Token>)
    requires q != [] && q[0] < UNITS && q[0] != BACKSLASH && q[0] != OPEN_PAREN && q[0] != OPEN_CLASS
    requires ReadAll(q[1..], 0, false) == Some(ts)
    ensures ReadAll(q, 0, false) == Some([Raw(q[0])] + ts)
  {
  }

  lemma {:induction false} RewriteRaw(c: Unit -> Unit, q: Points, out: Points)
    requires Sound(c) && q != [] && q[0] < UNITS && q[0] != BACKSLASH && q[0] != OPEN_PAREN && q[0] != OPEN_CLASS
    requires RewritePattern(c, q[1..], 0, false) == Some(out)
    ensures RewritePattern(c, q, 0, false) == Some([c(q[0])] + out)
  {
  }

  lemma {:induction false} CommaSteps(c: Unit -> Unit)
    requires Sound(c)
    ensures ReadAll([0x5c, 0x2c, 0x7d], 0, false) == Some([Escaped(0x2c), Raw(0x7d)])
    ensures RewritePattern(c, [0x5c, 0x2c, 0x7d], 0, false) == Some([0x2c, 0x7d])
    ensures ReadAll([0x2c, 0x7d], 0, false) == Some([Raw(0x2c), Raw(0x7d)])
  {
    var one: Points := [0x7d];
    var two: Points := [0x2c, 0x7d];
    var three: Points := [0x5c, 0x2c, 0x7d];
    assert one[1..] == [] && two[1..] == one && three[2..] == one;
    var brace := [Raw(0x7d)];
    assert brace + [] == brace && one + [] == one && [0x2c] + one == two;
    assert ReadAll(one, 0, false) == Some(brace);
    assert ReadToken(three, 0, false) == Some((Escaped(0x2c), 2));
    assert RewritePattern(c, one, 0, false) == Some(one);
    assert RewriteOne(c, three, 0, false) == Some(([0x2c], 2));
    assert [Escaped(0x2c)] + brace == [Escaped(0x2c), Raw(0x7d)] && [Raw(0x2c)] + brace == [Raw(0x2c), Raw(0x7d)];
  }

  lemma {:induction false} CommaPatternReads(c: Unit -> Unit)
    requires Sound(c)
    ensures RewritePattern(c, COMMA_PATTERN, 0, false) == Some(COMMA_REWRITTEN)
    ensures ReadAll(COMMA_PATTERN, 0, false) == Some(COMMA_TOKENS)
    ensures ReadAll(COMMA_REWRITTEN, 0, false) == Some(REWRITTEN_TOKENS)
  {
    hide ReadAll, RewritePattern;
    CommaSteps(c);
    var (p, r) := (COMMA_PATTERN, COMMA_REWRITTEN);
    var (ts, ts') := (COMMA_TOKENS, REWRITTEN_TOKENS);
    assert p[3..] == [0x5c, 0x2c, 0x7d] && p[2..][1..] == p[3..] && p[1..][1..] == p[2..];
    assert r[3..] == [0x2c, 0x7d] && r[2..][1..] == r[3..] && r[1..][1..] == r[2..];
    assert [ts[0]] + ts[1..] == ts && [ts'[0]] + ts'[1..] == ts' && [r[0]] + r[1..] == r;
    assert ts[3..] == [Escaped(0x2c), Raw(0x7d)] && [ts[2]] + ts[3..] == ts[2..] && [ts[1]] + ts[2..] == ts[1..];
    assert ts'[3..] == [Raw(0x2c), Raw(0x7d)] && [ts'[2]] + ts'[3..] == ts'[2..] && [ts'[1]] + ts'[2..] == ts'[1..];
    ReadRaw(p[2..], ts[3..]);
    ReadRaw(p[1..], ts[2..]);
    ReadRaw(p, ts[1..]);
    assert [r[2]] + r[3..] == r[2..] && [r[1]] + r[2..] == r[1..];
    RewriteRaw(c, p[2..], r[3..]);
    RewriteRaw(c, p[1..], r[2..]);
    RewriteRaw(c, p, r[1..]);
    ReadRaw(r[2..], ts'[3..]);
    ReadRaw(r[1..], ts'[2..]);
    ReadRaw(r, ts'[1..]);
  }

  lemma {:induction false} ParseCharacter(g: Grammar, i: nat, rest: Tree)
    requires i < |g.views| && g.views[i] == Character && (i + 1 < |g.views| ==> g.views[i + 1] == Character)
    requires ParseAlternative(g, i + 1, 0) == Some(Parsed(rest, |g.views|, 0))
    ensures ParseAlternative(g, i, 0) == Some(Parsed(Cat(Char(i), rest), |g.views|, 0))
  {
  }

  lemma {:induction false} CommaTree(decode: Points -> Points)
    ensures Parse(Views(COMMA_TOKENS), decode)
         == Some(Cat(Char(0), Cat(Char(1), Cat(Char(2), Cat(Char(3), Cat(Char(4), Empty))))))
  {
    hide ParseTerm;
    var ts := COMMA_TOKENS;
    assert DigitsEnd(ts, 2) == 3;
    var vs := Views(ts);
    var g := Grammar(vs, GroupNames(vs, decode), decode);
    assert forall i :: 0 <= i < 5 ==> g.views[i] == Character;
    assert ParseAlternative(g, 5, 0) == Some(Parsed(Empty, 5, 0));
    ParseCharacter(g, 4, Empty);
    ParseCharacter(g, 3, Cat(Char(4), Empty));
    ParseCharacter(g, 2, Cat(Char(3), Cat(Char(4), Empty)));
    ParseCharacter(g, 1, Cat(Char(2), Cat(Char(3), Cat(Char(4), Empty))));
    ParseCharacter(g, 0, Cat(Char(1), Cat(Char(2), Cat(Char(3), Cat(Char(4), Empty)))));
  }

  lemma {:induction false} RewrittenTree(decode: Points -> Points)
    ensures Parse(Views(REWRITTEN_TOKENS), decode) == Some(Cat(Repeat(Char(0), 0, None, true, 0, 0), Empty))
  {
    var ts := REWRITTEN_TOKENS;
    assert DigitsEnd(ts, 2) == 3 && DigitsEnd(ts, 4) == 4;
    assert DigitsNumber(ts, 2, 3) == 0;
    var vs := Views(ts);
    var g := Grammar(vs, GroupNames(vs, decode), decode);
    assert vs[0] == Character && vs[1] == Braced(Brace(0, None, 4));
    assert ParseAlternative(g, 5, 0) == Some(Parsed(Empty, 5, 0));
    assert ParseTerm(g, 0, 0) == Some(Parsed(Repeat(Char(0), 0, None, true, 0, 0), 5, 0));
    assert ParseAlternative(g, 0, 0) == Some(Parsed(Cat(Repeat(Char(0), 0, None, true, 0, 0), Empty), 5, 0));
  }

  /** On the empty subject the original has no match and its rewrite has one. */
  lemma {:induction false} CommaChangesMeaning(c: Unit -> Unit, mode: Mode)
    requires Sound(c)
    ensures HasEscapedComma(COMMA_PATTERN, 0, false)
    ensures RewritePattern(c, COMMA_PATTERN, 0, false) == Some(COMMA_REWRITTEN)
    ensures FindText(COMMA_PATTERN, 0, false, mode, Folded(c), [], 0) == Found(None)
    ensures FindText(COMMA_REWRITTEN, 0, false, mode, Exact, Mapped(c, []), 0) == Found(Some(Match(0, 0, map[])))
  {
    hide ReadAll, RewritePattern, Parse, Views;
    CommaPatternReads(c);
    CommaTree(mode.decode);
    RewrittenTree(mode.decode);
    assert EscapedCommaAt(COMMA_TOKENS, 1);
    assert Mapped(c, []) == [];
    var x := State(0, map[]);
    var k := Context(Leaves(COMMA_TOKENS, mode.dotAll), [], Folded(c), mode.multiline);
    var t := Cat(Char(1), Cat(Char(2), Cat(Char(3), Cat(Char(4), Empty))));
    assert Outcomes(k, Char(0), x, true) == [];
    assert Outcomes(k, Cat(Char(0), t), x, true) == [];
    assert Find(k, Cat(Char(0), t), 0) == Find(k, Cat(Char(0), t), 1) == None;
    var k' := Context(Leaves(REWRITTEN_TOKENS, mode.dotAll), [], Exact, mode.multiline);
    assert Outcomes(k', Repeat(Char(0), 0, None, true, 0, 0), x, true) == [x];
    assert Each(k', Empty, x, [x], true) == [x];
    assert Outcomes(k', Cat(Repeat(Char(0), 0, None, true, 0, 0), Empty), x, true) == [x];
  }

  // ---------------------------------------------------------------------
  // An escaped comma need not show: behind an alternative that always matches, the changed tree is never asked.

  const HIDDEN_PATTERN: Points := [0x7c] + COMMA_PATTERN
  const HIDDEN_TOKENS: seq<Token> := [Raw(0x7c), Raw(0x61), Raw(0x7b), Raw(0x30), Escaped(0x2c), Raw(0x7d)]
  const SHOWN_TOKENS: seq<Token> := [Raw(0x7c), Raw(0x41), Raw(0x7b), Raw(0x30), Raw(0x2c), Raw(0x7d)]

  lemma {:induction false} HiddenReads(c: Unit -> Unit)
    requires Sound(c)
    ensures RewritePattern(c, HIDDEN_PATTERN, 0, false) == Some([0x7c] + COMMA_REWRITTEN)
    ensures ReadAll(HIDDEN_PATTERN, 0, false) == Some(HIDDEN_TOKENS)
    ensures ReadAll([0x7c] + COMMA_REWRITTEN, 0, false) == Some(SHOWN_TOKENS)
  {
    hide ReadAll, RewritePattern;
    CommaPatternReads(c);
    var (p, r) := (HIDDEN_PATTERN, [0x7c] + COMMA_REWRITTEN);
    assert p[1..] == COMMA_PATTERN && r[1..] == COMMA_REWRITTEN;
    assert [Raw(0x7c)] + COMMA_TOKENS == HIDDEN_TOKENS && [Raw(0x7c)] + REWRITTEN_TOKENS == SHOWN_TOKENS;
    ReadRaw(p, COMMA_TOKENS);
    ReadRaw(r, REWRITTEN_TOKENS);
    RewriteRaw(c, p, COMMA_REWRITTEN);
  }

  /** A first alternative that is empty is taken at once, whatever the other is. */
  lemma {:induction false} EmptyFirst(k: Context, t: Tree, start: nat)
    ensures Find(k, Alt(Empty, t), start) == if start > |k.subject| then None else Some(Match(start, start, map[]))
  {
    if start <= |k.subject| {
      var x := State(start, map[]);
      assert Outcomes(k, Empty, x, true) == [x];
      assert Outcomes(k, Alt(Empty, t), x, true)[0] == x;
    }
  }

  lemma {:induction false} BarFirst(g: Grammar, t: Tree)
    requires |g.views| > 0 && g.views[0] == Mark(BAR)
    requires ParseAlternative(g, 1, 0) == Some(Parsed(t, |g.views|, 0))
    ensures ParseDisjunction(g, 0, 0) == Some(Parsed(Alt(Empty, t), |g.views|, 0))
  {
    hide ParseTerm;
    assert ParseAlternative(g, 0, 0) == Some(Parsed(Empty, 0, 0));
    assert ParseDisjunction(g, 1, 0) == Some(Parsed(t, |g.views|, 0));
  }

  lemma {:induction false} HiddenTree(decode: Points -> Points) returns (t: Tree)
    ensures Parse(Views(HIDDEN_TOKENS), decode) == Some(Alt(Empty, t))
  {
    hide ParseTerm;
    var ts := HIDDEN_TOKENS;
    assert DigitsEnd(ts, 3) == 4;
    var vs := Views(ts);
    var g := Grammar(vs, GroupNames(vs, decode), decode);
    assert vs[0] == Mark(BAR);
    assert forall i :: 1 <= i < 6 ==> g.views[i] == Character;
    assert ParseAlternative(g, 6, 0) == Some(Parsed(Empty, 6, 0));
    ParseCharacter(g, 5, Empty);
    ParseCharacter(g, 4, Cat(Char(5), Empty));
    ParseCharacter(g, 3, Cat(Char(4), Cat(Char(5), Empty)));
    ParseCharacter(g, 2, Cat(Char(3), Cat(Char(4), Cat(Char(5), Empty))));
    ParseCharacter(g, 1, Cat(Char(2), Cat(Char(3), Cat(Char(4), Cat(Char(5), Empty)))));
    t := Cat(Char(1), Cat(Char(2), Cat(Char(3), Cat(Char(4), Cat(Char(5), Empty)))));
    BarFirst(g, t);
  }

  lemma {:induction false} ShownTree(decode: Points -> Points) returns (t: Tree)
    ensures Parse(Views(SHOWN_TOKENS), decode) == Some(Alt(Empty, t))
  {
    var ts := SHOWN_TOKENS;
    assert DigitsEnd(ts, 3) == 4 && DigitsEnd(ts, 5) == 5;
    assert DigitsNumber(ts, 3, 4) == 0;
    var vs := Views(ts);
    var g := Grammar(vs, GroupNames(vs, decode), decode);
    assert vs[0] == Mark(BAR) && vs[1] == Character && vs[2] == Braced(Brace(0, None, 4));
    assert ParseAlternative(g, 6, 0) == Some(Parsed(Empty, 6, 0));
    assert ParseTerm(g, 1, 0) == Some(Parsed(Repeat(Char(1), 0, None, true, 0, 0), 6, 0));
    t := Cat(Repeat(Char(1), 0, None, true, 0, 0), Empty);
    assert ParseAlternative(g, 1, 0) == Some(Parsed(t, 6, 0));
    BarFirst(g, t);
  }

  /** The tree of this pattern changes, yet every search finds the same. */
  lemma {:induction false} CommaMayStayHidden(c: Unit -> Unit, mode: Mode, subject: seq<Unit>, start: nat)
    requires Sound(c)
    ensures HasEscapedComma(HIDDEN_PATTERN, 0, false)
    ensures var out := RewritePattern(c, HIDDEN_PATTERN, 0, false);
            && out.Some?
            && TreeOf(out.value, 0, false, mode.decode) != TreeOf(HIDDEN_PATTERN, 0, false, mode.decode)
            && FindText(out.value, 0, false, mode, Exact, Mapped(c, subject), start)
               == FindText(HIDDEN_PATTERN, 0, false, mode, Folded(c), subject, start)
  {
    hide ReadAll, RewritePattern, Parse, Views, Find, Leaves;
    HiddenReads(c);
    var t := HiddenTree(mode.decode);
    var t' := ShownTree(mode.decode);
    assert EscapedCommaAt(HIDDEN_TOKENS, 2);
    RewriteKeepsTreeIff(c, HIDDEN_PATTERN, 0, false, mode.decode);
    EmptyFirst(Context(Leaves(HIDDEN_TOKENS, mode.dotAll), subject, Folded(c), mode.multiline), t, start);
    EmptyFirst(Context(Leaves(SHOWN_TOKENS, mode.dotAll), Mapped(c, subject), Exact, mode.multiline), t', start);
  }
}
