/**
 The pattern semantics of ECMA-262 (section 22.2.2) as a backtracking matcher
 that lists its outcomes in the order they are tried. The comparison of code
 units is a parameter: exact, or through a canonicalization.
 */
module RegexMatcher {
  import opened Options
  import opened CodeUnits

  /**
   A parsed pattern. A character matcher is the index of the token it was read
   from, so two token sequences with the same structure share one tree.
   */
  datatype Tree =
    | Empty
    | Char(at: nat)
    | Cat(first: Tree, second: Tree)
    | Alt(left: Tree, right: Tree)
    | Group(number: nat, body: Tree)
    | BackRef(groups: seq<nat>)
    | Look(ahead: bool, negative: bool, body: Tree)
    | Boundary(negated: bool)
    | LineStart
    | LineEnd
    | Repeat(body: Tree, min: nat, max: Option<nat>, greedy: bool, firstGroup: nat, groupCount: nat)

  /** What a character matcher accepts before case is considered. */
  datatype Leaf = Leaf(members: set<Unit>, inverted: bool)

  datatype Comparison = Exact | Folded(canon: Unit -> Unit)

  type Range = (nat, nat)

  datatype State = State(end: nat, captures: map<nat, Range>)

  datatype Context = Context(leaves: seq<Leaf>, subject: seq<Unit>, comparison: Comparison, multiline: bool)

  datatype Match = Match(start: nat, end: nat, captures: map<nat, Range>)

  /** CharacterSetMatcher: some member equals the unit; `[^...]` inverts that. */
  ghost predicate Accepts(comparison: Comparison, leaf: Leaf, unit: Unit) {
    match comparison
    case Exact => (unit in leaf.members) != leaf.inverted
    case Folded(c) => (exists member :: member in leaf.members && c(member) == c(unit)) != leaf.inverted
  }

  predicate SameUnit(comparison: Comparison, a: Unit, b: Unit) {
    match comparison
    case Exact => a == b
    case Folded(c) => c(a) == c(b)
  }

  ghost predicate AcceptsAt(k: Context, leaf: nat, position: nat) {
    leaf < |k.leaves| && position < |k.subject| && Accepts(k.comparison, k.leaves[leaf], k.subject[position])
  }

  /** The `length` units at `a` and at `b` are the same text. */
  predicate SameText(k: Context, a: nat, b: nat, length: nat) {
    && a + length <= |k.subject|
    && b + length <= |k.subject|
    && var (left, right) := (k.subject[a..a + length], k.subject[b..b + length]);
       forall i :: 0 <= i < length ==> SameUnit(k.comparison, left[i], right[i])
  }

  predicate IsWordAt(subject: seq<Unit>, position: int) {
    0 <= position < |subject| && IsWord(subject[position])
  }

  predicate AtBoundary(k: Context, position: nat) {
    IsWordAt(k.subject, position - 1) != IsWordAt(k.subject, position)
  }

  predicate AtLineStart(k: Context, position: nat) {
    position == 0 || (k.multiline && position <= |k.subject| && IsLineTerminator(k.subject[position - 1]))
  }

  predicate AtLineEnd(k: Context, position: nat) {
    position == |k.subject| || (k.multiline && position < |k.subject| && IsLineTerminator(k.subject[position]))
  }

  /** The captured range a backreference compares with: the first of its groups that took part. */
  function Referenced(groups: seq<nat>, captures: map<nat, Range>): Option<Range> {
    if groups == [] then None
    else if groups[0] in captures then Some(captures[groups[0]])
    else Referenced(groups[1..], captures)
  }

  function ForgetGroups(captures: map<nat, Range>, first: nat, count: nat): map<nat, Range> {
    map g | g in captures && !(first < g <= first + count) :: captures[g]
  }

  /** How far a match may still move from `end`. */
  function Room(k: Context, end: nat, forward: bool): nat
    requires end <= |k.subject|
  {
    if forward then |k.subject| - end else end
  }

  ghost predicate Onward(k: Context, x: State, ys: seq<State>, forward: bool)
    requires x.end <= |k.subject|
  {
    forall y :: y in ys ==>
      y.end <= |k.subject| && Room(k, y.end, forward) <= Room(k, x.end, forward)
  }

  function Reference(k: Context, range: Range, x: State, forward: bool): seq<State> {
    var (low, high) := range;
    if high < low || (!forward && x.end < high - low) then []
    else
      var length := high - low;
      var from := if forward then x.end else x.end - length;
      if SameText(k, low, from, length) then [x.(end := if forward then x.end + length else from)] else []
  }

  /** Every way `t` can match from `x`, in the order the specification tries them. */
  ghost function Outcomes(k: Context, t: Tree, x: State, forward: bool): (ys: seq<State>)
    requires x.end <= |k.subject|
    ensures Onward(k, x, ys, forward)
    decreases t, 1, 0, 0, 0
  {
    match t
    case Empty => [x]
    case Char(at) =>
      if forward then
        if AcceptsAt(k, at, x.end) then [x.(end := x.end + 1)] else []
      else
        if x.end > 0 && AcceptsAt(k, at, x.end - 1) then [x.(end := x.end - 1)] else []
    case Cat(first, second) =>
      if forward then Each(k, second, x, Outcomes(k, first, x, forward), forward)
      else Each(k, first, x, Outcomes(k, second, x, forward), forward)
    case Alt(left, right) => Outcomes(k, left, x, forward) + Outcomes(k, right, x, forward)
    case Group(number, body) => Captured(k, number, x, Outcomes(k, body, x, forward), forward)
    case BackRef(groups) =>
      (match Referenced(groups, x.captures)
       case None => [x]
       case Some(range) => Reference(k, range, x, forward))
    case Look(ahead, negative, body) =>
      var inner := Outcomes(k, body, x, ahead);
      if negative then (if inner == [] then [x] else [])
      else if inner == [] then [] else [x.(captures := inner[0].captures)]
    case Boundary(negated) => if AtBoundary(k, x.end) != negated then [x] else []
    case LineStart => if AtLineStart(k, x.end) then [x] else []
    case LineEnd => if AtLineEnd(k, x.end) then [x] else []
    case Repeat(body, min, max, greedy, firstGroup, groupCount) =>
      Iterate(k, body, min, max, greedy, firstGroup, groupCount, x, forward)
  }

  /** The outcomes of `t` from each of `xs` in turn. */
  ghost function Each(k: Context, t: Tree, origin: State, xs: seq<State>, forward: bool): (ys: seq<State>)
    requires origin.end <= |k.subject| && Onward(k, origin, xs, forward)
    ensures Onward(k, origin, ys, forward)
    decreases t, 2, 0, 0, |xs|
  {
    if xs == [] then []
    else Outcomes(k, t, xs[0], forward) + Each(k, t, origin, xs[1..], forward)
  }

  ghost function Captured(k: Context, number: nat, x: State, ys: seq<State>, forward: bool): (zs: seq<State>)
    requires x.end <= |k.subject| && Onward(k, x, ys, forward)
    ensures Onward(k, x, zs, forward)
  {
    if ys == [] then []
    else
      var range := if forward then (x.end, ys[0].end) else (ys[0].end, x.end);
      [ys[0].(captures := ys[0].captures[number := range])] + Captured(k, number, x, ys[1..], forward)
  }

  /** RepeatMatcher: an iteration of an optional repeat must consume something. */
  ghost function Iterate(k: Context, body: Tree, min: nat, max: Option<nat>, greedy: bool,
                         firstGroup: nat, groupCount: nat, x: State, forward: bool): (ys: seq<State>)
    requires x.end <= |k.subject|
    ensures Onward(k, x, ys, forward)
    decreases body, 3, min + Room(k, x.end, forward), 1, 0
  {
    if max == Some(0) then [x]
    else
      var start := x.(captures := ForgetGroups(x.captures, firstGroup, groupCount));
      var once := Outcomes(k, body, start, forward);
      var more := IterateEach(k, body, min, max, greedy, firstGroup, groupCount, x, once, forward);
      if min != 0 then more
      else if greedy then more + [x]
      else [x] + more
  }

  ghost function IterateEach(k: Context, body: Tree, min: nat, max: Option<nat>, greedy: bool,
                             firstGroup: nat, groupCount: nat, x: State, once: seq<State>,
                             forward: bool): (ys: seq<State>)
    requires x.end <= |k.subject| && Onward(k, x, once, forward) && max != Some(0)
    ensures Onward(k, x, ys, forward)
    decreases body, 3, min + Room(k, x.end, forward), 0, |once|
  {
    if once == [] then []
    else
      var y := once[0];
      var rest := IterateEach(k, body, min, max, greedy, firstGroup, groupCount, x, once[1..], forward);
      if min == 0 && y.end == x.end then rest
      else
        var fewer := if min == 0 then 0 else min - 1;
        var bound := if max.None? then None else Some(max.value - 1);
        Iterate(k, body, fewer, bound, greedy, firstGroup, groupCount, y, forward) + rest
  }

  /** The first match at or after `start`. */
  ghost function Find(k: Context, t: Tree, start: nat): Option<Match>
    decreases |k.subject| - start
  {
    if start > |k.subject| then None
    else
      var ys := Outcomes(k, t, State(start, map[]), true);
      if ys != [] then Some(Match(start, ys[0].end, ys[0].captures))
      else Find(k, t, start + 1)
  }

  // ---------------------------------------------------------------------
  // Matching through `c` is matching exactly on mapped leaves and a mapped subject.

  /** `mapped` accepts `c(u)` exactly where `original` accepts `u` through `c`. */
  ghost predicate LeafFollows(c: Unit -> Unit, original: Leaf, mapped: Leaf) {
    forall u: Unit :: Accepts(Folded(c), original, u) == Accepts(Exact, mapped, c(u))
  }

  ghost predicate Simulates(c: Unit -> Unit, folded: Context, exact: Context) {
    && folded.comparison == Folded(c)
    && exact.comparison == Exact
    && exact.subject == Mapped(c, folded.subject)
    && exact.multiline == folded.multiline
    && |exact.leaves| == |folded.leaves|
    && forall i :: 0 <= i < |exact.leaves| ==> LeafFollows(c, folded.leaves[i], exact.leaves[i])
  }

  lemma {:induction false} SameTextAgrees(c: Unit -> Unit, f: Context, e: Context, a: nat, b: nat, length: nat)
    requires Simulates(c, f, e)
    ensures SameText(f, a, b, length) == SameText(e, a, b, length)
  {
    if a + length <= |f.subject| && b + length <= |f.subject| {
      var (p, q) := (f.subject[a..a + length], f.subject[b..b + length]);
      var (p', q') := (e.subject[a..a + length], e.subject[b..b + length]);
      assert forall i :: 0 <= i < length ==>
        SameUnit(f.comparison, p[i], q[i]) == SameUnit(e.comparison, p'[i], q'[i]);
    }
  }

  lemma {:induction false} WordAgrees(c: Unit -> Unit, f: Context, e: Context, position: int)
    requires Sound(c) && Simulates(c, f, e)
    ensures IsWordAt(f.subject, position) == IsWordAt(e.subject, position)
  {
    if 0 <= position < |f.subject| { EscapeUnaffected(c, Word, f.subject[position]); }
  }

  lemma {:induction false} OutcomesAgree(c: Unit -> Unit, f: Context, e: Context, t: Tree, x: State, forward: bool)
    requires Sound(c) && Simulates(c, f, e) && x.end <= |f.subject|
    ensures Outcomes(f, t, x, forward) == Outcomes(e, t, x, forward)
    decreases t, 1, 0, 0, 0
  {
    match t
    case Empty =>
    case Char(at) =>
      if at < |f.leaves| { assert LeafFollows(c, f.leaves[at], e.leaves[at]); }
    case Cat(first, second) =>
      if forward {
        OutcomesAgree(c, f, e, first, x, forward);
        EachAgrees(c, f, e, second, x, Outcomes(f, first, x, forward), forward);
      } else {
        OutcomesAgree(c, f, e, second, x, forward);
        EachAgrees(c, f, e, first, x, Outcomes(f, second, x, forward), forward);
      }
    case Alt(left, right) =>
      OutcomesAgree(c, f, e, left, x, forward);
      OutcomesAgree(c, f, e, right, x, forward);
    case Group(number, body) =>
      OutcomesAgree(c, f, e, body, x, forward);
      CapturedAgrees(f, e, number, x, Outcomes(f, body, x, forward), forward);
    case BackRef(groups) =>
      var range := Referenced(groups, x.captures);
      if range.Some? { ReferenceAgrees(c, f, e, range.value, x, forward); }
    case Look(ahead, negative, body) =>
      OutcomesAgree(c, f, e, body, x, ahead);
    case Boundary(negated) =>
      WordAgrees(c, f, e, x.end - 1);
      WordAgrees(c, f, e, x.end);
    case LineStart =>
    case LineEnd =>
    case Repeat(body, min, max, greedy, firstGroup, groupCount) =>
      IterateAgrees(c, f, e, body, min, max, greedy, firstGroup, groupCount, x, forward);
  }

  lemma {:induction false} ReferenceAgrees(c: Unit -> Unit, f: Context, e: Context, range: Range, x: State, forward: bool)
    requires Simulates(c, f, e)
    ensures Reference(f, range, x, forward) == Reference(e, range, x, forward)
  {
    hide SameText, Simulates;
    if range.0 <= range.1 && (forward || range.1 - range.0 <= x.end) {
      var length := range.1 - range.0;
      SameTextAgrees(c, f, e, range.0, if forward then x.end else x.end - length, length);
    }
  }

  lemma {:induction false} EachAgrees(c: Unit -> Unit, f: Context, e: Context, t: Tree, origin: State,
                                      xs: seq<State>, forward: bool)
    requires Sound(c) && Simulates(c, f, e)
    requires origin.end <= |f.subject| && Onward(f, origin, xs, forward)
    ensures Onward(e, origin, xs, forward)
    ensures Each(f, t, origin, xs, forward) == Each(e, t, origin, xs, forward)
    decreases t, 2, 0, 0, |xs|
  {
    if xs != [] {
      assert xs[0] in xs;
      OutcomesAgree(c, f, e, t, xs[0], forward);
      EachAgrees(c, f, e, t, origin, xs[1..], forward);
    }
  }

  lemma {:induction false} CapturedAgrees(f: Context, e: Context, number: nat, x: State, ys: seq<State>, forward: bool)
    requires |f.subject| == |e.subject| && x.end <= |f.subject| && Onward(f, x, ys, forward)
    ensures Onward(e, x, ys, forward)
    ensures Captured(f, number, x, ys, forward) == Captured(e, number, x, ys, forward)
  {
    if ys != [] { CapturedAgrees(f, e, number, x, ys[1..], forward); }
  }

  lemma {:induction false} IterateAgrees(c: Unit -> Unit, f: Context, e: Context, body: Tree, min: nat, max: Option<nat>,
                                         greedy: bool, firstGroup: nat, groupCount: nat, x: State, forward: bool)
    requires Sound(c) && Simulates(c, f, e) && x.end <= |f.subject|
    ensures Iterate(f, body, min, max, greedy, firstGroup, groupCount, x, forward)
         == Iterate(e, body, min, max, greedy, firstGroup, groupCount, x, forward)
    decreases body, 3, min + Room(f, x.end, forward), 1, 0
  {
    if max != Some(0) {
      var start := x.(captures := ForgetGroups(x.captures, firstGroup, groupCount));
      OutcomesAgree(c, f, e, body, start, forward);
      IterateEachAgrees(c, f, e, body, min, max, greedy, firstGroup, groupCount, x,
                        Outcomes(f, body, start, forward), forward);
    }
  }

  lemma {:induction false} IterateEachAgrees(c: Unit -> Unit, f: Context, e: Context, body: Tree, min: nat,
                                             max: Option<nat>, greedy: bool, firstGroup: nat, groupCount: nat,
                                             x: State, once: seq<State>, forward: bool)
    requires Sound(c) && Simulates(c, f, e)
    requires x.end <= |f.subject| && Onward(f, x, once, forward) && max != Some(0)
    ensures Onward(e, x, once, forward)
    ensures IterateEach(f, body, min, max, greedy, firstGroup, groupCount, x, once, forward)
         == IterateEach(e, body, min, max, greedy, firstGroup, groupCount, x, once, forward)
    decreases body, 3, min + Room(f, x.end, forward), 0, |once|
  {
    if once != [] {
      var y := once[0];
      assert y in once;
      IterateEachAgrees(c, f, e, body, min, max, greedy, firstGroup, groupCount, x, once[1..], forward);
      if !(min == 0 && y.end == x.end) {
        var fewer := if min == 0 then 0 else min - 1;
        var bound := if max.None? then None else Some(max.value - 1);
        IterateAgrees(c, f, e, body, fewer, bound, greedy, firstGroup, groupCount, y, forward);
      }
    }
  }

  /** Same match, same capture ranges, for every pattern tree and every start. */
  lemma {:induction false} FindAgrees(c: Unit -> Unit, f: Context, e: Context, t: Tree, start: nat)
    requires Sound(c) && Simulates(c, f, e)
    ensures Find(f, t, start) == Find(e, t, start)
    decreases |f.subject| - start
  {
    if start <= |f.subject| {
      OutcomesAgree(c, f, e, t, State(start, map[]), true);
      FindAgrees(c, f, e, t, start + 1);
    }
  }
}
