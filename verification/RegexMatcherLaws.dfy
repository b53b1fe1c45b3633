/**
 What the matcher does with literal text, captures, look-around and repeats,
 said by positions of the subject.
 */
module RegexMatcherLaws {
  import opened Options
  import opened CodeUnits
  import opened RegexMatcher

  // ---------------------------------------------------------------------
  // The first match

  ghost predicate NoneAt(k: Context, t: Tree, position: nat) {
    position <= |k.subject| ==> Outcomes(k, t, State(position, map[]), true) == []
  }

  /** A search ends at the least start that has an outcome, with the first one there. */
  lemma {:induction false} FindIsFirst(k: Context, t: Tree, start: nat)
    ensures match Find(k, t, start)
            case None => forall i: nat :: i >= start ==> NoneAt(k, t, i)
            case Some(m) =>
              && start <= m.start <= |k.subject| && (forall i: nat :: start <= i < m.start ==> NoneAt(k, t, i))
              && var ys := Outcomes(k, t, State(m.start, map[]), true);
                 ys != [] && m.end == ys[0].end && m.captures == ys[0].captures
    decreases |k.subject| - start
  {
    if start <= |k.subject| && Outcomes(k, t, State(start, map[]), true) == [] {
      FindIsFirst(k, t, start + 1);
      assert NoneAt(k, t, start);
    }
  }

  // ---------------------------------------------------------------------
  // Literal text, in either direction

  /** `count` character matchers in a row. */
  function Word(from: nat, count: nat): Tree
    decreases count
  {
    if count == 0 then Empty else Cat(Char(from), Word(from + 1, count - 1))
  }

  /** The unit at `p` is accepted by its matcher in a word that starts at `position`. */
  ghost predicate Fits(k: Context, from: nat, position: int, p: nat) {
    position <= p && AcceptsAt(k, from + (p - position), p)
  }

  /** Each unit from `position` on is accepted by its matcher. */
  ghost predicate StandsAt(k: Context, from: nat, count: nat, position: int) {
    && 0 <= position && position + count <= |k.subject|
    && forall p: nat :: position <= p < position + count ==> Fits(k, from, position, p)
  }

  lemma {:induction false} StandsFirst(k: Context, from: nat, count: nat, position: int)
    requires count > 0
    ensures StandsAt(k, from, count, position) <==>
            0 <= position && AcceptsAt(k, from, position) && StandsAt(k, from + 1, count - 1, position + 1)
  {
    if 0 <= position {
      assert Fits(k, from, position, position) == AcceptsAt(k, from, position);
      if StandsAt(k, from, count, position) {
        var (f, q) := (from + 1, position + 1);
        forall p: nat | position < p < position + count ensures Fits(k, f, q, p) {
          assert Fits(k, from, position, p);
        }
      }
      if AcceptsAt(k, from, position) && StandsAt(k, from + 1, count - 1, position + 1) {
        forall p: nat | position <= p < position + count ensures Fits(k, from, position, p) {
          assert p > position ==> Fits(k, from + 1, position + 1, p);
        }
      }
    }
  }

  /** Literal text matches where it stands: after the position going forward, before it going backward. */
  lemma {:induction false} WordOutcomes(k: Context, from: nat, count: nat, x: State, forward: bool)
    requires x.end <= |k.subject|
    ensures var low := if forward then x.end else x.end - count;
            Outcomes(k, Word(from, count), x, forward) ==
            if StandsAt(k, from, count, low) then [x.(end := if forward then low + count else low)] else []
    decreases count
  {
    hide AcceptsAt, StandsAt;
    if count == 0 {
      StandsNothing(k, from, x.end);
      assert x.end - count == x.end;
    } else if forward {
      StandsFirst(k, from, count, x.end);
      if AcceptsAt(k, from, x.end) {
        Within(k, from, x.end);
        var y := x.(end := x.end + 1);
        WordOutcomes(k, from + 1, count - 1, y, forward);
        assert Outcomes(k, Char(from), x, forward) == [y];
        EachOnce(k, Word(from + 1, count - 1), x, y, forward);
      } else {
        assert Outcomes(k, Char(from), x, forward) == [];
      }
    } else {
      StandsFirst(k, from, count, x.end - count);
      WordOutcomes(k, from + 1, count - 1, x, forward);
      if StandsAt(k, from + 1, count - 1, x.end - (count - 1)) {
        StandsWithin(k, from + 1, count - 1, x.end - (count - 1));
        var y := x.(end := x.end - (count - 1));
        EachOnce(k, Char(from), x, y, forward);
      }
    }
  }

  lemma {:induction false} EachOnce(k: Context, t: Tree, x: State, y: State, forward: bool)
    requires x.end <= |k.subject| && Onward(k, x, [y], forward)
    ensures y.end <= |k.subject| && Each(k, t, x, [y], forward) == Outcomes(k, t, y, forward)
  {
    assert y in [y];
    assert [y][1..] == [];
    assert Each(k, t, x, [], forward) == [];
  }

  lemma StandsWithin(k: Context, from: nat, count: nat, position: int)
    requires StandsAt(k, from, count, position)
    ensures 0 <= position && position + count <= |k.subject|
  {
  }

  lemma StandsNothing(k: Context, from: nat, position: nat)
    requires position <= |k.subject|
    ensures StandsAt(k, from, 0, position)
  {
  }

  lemma Within(k: Context, leaf: nat, position: nat)
    requires AcceptsAt(k, leaf, position)
    ensures position < |k.subject|
  {
  }

  /** Look-ahead asks for the text after the position, look-behind for the text before it; neither moves. */
  lemma {:induction false} LookAsks(k: Context, from: nat, count: nat, ahead: bool, negative: bool, x: State, forward: bool)
    requires x.end <= |k.subject|
    ensures Outcomes(k, Look(ahead, negative, Word(from, count)), x, forward) ==
            if StandsAt(k, from, count, if ahead then x.end else x.end - count) != negative then [x] else []
  {
    hide StandsAt;
    WordOutcomes(k, from, count, x, ahead);
  }

  /** A group records where its text stands, low end first, in both directions. */
  lemma {:induction false} GroupRecords(k: Context, number: nat, from: nat, count: nat, x: State, forward: bool)
    requires x.end <= |k.subject|
    ensures var low := if forward then x.end else x.end - count;
            Outcomes(k, Group(number, Word(from, count)), x, forward) ==
            if StandsAt(k, from, count, low) then
              [State(if forward then low + count else low, x.captures[number := (low, low + count)])]
            else []
  {
    hide StandsAt;
    WordOutcomes(k, from, count, x, forward);
    var ys := Outcomes(k, Word(from, count), x, forward);
    assert ys != [] ==> Captured(k, number, x, ys[1..], forward) == [];
  }

  /** The text as the comparison sees it. */
  function Seen(comparison: Comparison, text: seq<Unit>): seq<Unit> {
    match comparison
    case Exact => text
    case Folded(c) => Mapped(c, text)
  }

  /** A backreference matches where the text of its group stands again; one to a group without text matches nothing. */
  lemma {:induction false} ReferenceRepeats(k: Context, number: nat, x: State, forward: bool)
    requires x.end <= |k.subject|
    requires number in x.captures ==> x.captures[number].0 <= x.captures[number].1 <= |k.subject|
    ensures Outcomes(k, BackRef([number]), x, forward) ==
            if number !in x.captures then [x]
            else
              var (low, high) := x.captures[number];
              var from := if forward then x.end else x.end - (high - low);
              var to := from + (high - low);
              if 0 <= from && to <= |k.subject|
                 && Seen(k.comparison, k.subject[from..to]) == Seen(k.comparison, k.subject[low..high])
              then [x.(end := if forward then to else from)] else []
  {
    hide SameText, Seen;
    if number in x.captures {
      assert Referenced([number], x.captures) == Some(x.captures[number]);
      var (low, high) := x.captures[number];
      var from := if forward then x.end else x.end - (high - low);
      if 0 <= from { TextSeen(k, low, from, high - low); }
    } else {
      assert [number][1..] == [] && Referenced([], x.captures) == None;
      assert Referenced([number], x.captures) == None;
    }
  }

  lemma {:induction false} TextSeen(k: Context, a: nat, b: nat, length: nat)
    requires a + length <= |k.subject|
    ensures SameText(k, a, b, length) <==>
            b + length <= |k.subject|
            && Seen(k.comparison, k.subject[b..b + length]) == Seen(k.comparison, k.subject[a..a + length])
  {
    if b + length <= |k.subject| {
      var (left, right) := (k.subject[a..a + length], k.subject[b..b + length]);
      var (l, r) := (Seen(k.comparison, left), Seen(k.comparison, right));
      assert forall i :: 0 <= i < length ==> SameUnit(k.comparison, left[i], right[i]) == (l[i] == r[i]);
    }
  }

  predicate EndsLine(unit: Unit) {
    unit == 10 || unit == 13 || unit == 0x2028 || unit == 0x2029
  }

  /** Where the anchors hold. */
  lemma {:induction false} AnchorsHold(k: Context, x: State, forward: bool)
    requires x.end <= |k.subject|
    ensures Outcomes(k, LineStart, x, forward) ==
            if x.end == 0 || (k.multiline && EndsLine(k.subject[x.end - 1])) then [x] else []
    ensures Outcomes(k, LineEnd, x, forward) ==
            if x.end == |k.subject| || (k.multiline && EndsLine(k.subject[x.end])) then [x] else []
  {
  }

  // ---------------------------------------------------------------------
  // Repeats

  /** The ends `low` to `high`, longest first or shortest first. */
  function Ends(x: State, low: nat, high: int, greedy: bool): seq<State>
    decreases high - low
  {
    if high < low then []
    else if greedy then Ends(x, low + 1, high, greedy) + [x.(end := x.end + low)]
    else [x.(end := x.end + low)] + Ends(x, low + 1, high, greedy)
  }

  lemma {:induction false} EndsShift(x: State, low: nat, high: int, greedy: bool)
    ensures Ends(x.(end := x.end + 1), low, high, greedy) == Ends(x, low + 1, high + 1, greedy)
    decreases high - low
  {
    if low <= high {
      EndsShift(x, low + 1, high, greedy);
    }
  }

  function Most(run: nat, max: Option<nat>): nat {
    if max.Some? && max.value < run then max.value else run
  }

  lemma {:induction false} EndsNone(x: State, min: nat, greedy: bool)
    ensures Ends(x, min, 0, greedy) == if min == 0 then [x] else []
  {
    assert Ends(x, min + 1, 0, greedy) == [];
  }

  lemma {:induction false} EndsOnce(x: State, min: nat, run: nat, max: Option<nat>, greedy: bool)
    requires run > 0 && max != Some(0)
    ensures var fewer := if min == 0 then 0 else min - 1;
            var bound := if max.None? then None else Some(max.value - 1);
            var more := Ends(x.(end := x.end + 1), fewer, Most(run - 1, bound), greedy);
            Ends(x, min, Most(run, max), greedy) == if min != 0 then more else if greedy then more + [x] else [x] + more
  {
    var bound := if max.None? then None else Some(max.value - 1);
    EndsShift(x, if min == 0 then 0 else min - 1, Most(run - 1, bound), greedy);
  }

  /** Before a unit that is not accepted stand exactly `run` that are. */
  ghost predicate RunAt(k: Context, leaf: nat, position: nat, run: nat) {
    && (forall p: nat :: position <= p < position + run ==> AcceptsAt(k, leaf, p))
    && !AcceptsAt(k, leaf, position + run)
  }

  /** A repeat of a body that has no groups to forget. */
  lemma {:induction false} RepeatUnfolds(k: Context, body: Tree, min: nat, max: Option<nat>, greedy: bool, first: nat,
                                         x: State, once: seq<State>)
    requires x.end <= |k.subject| && Outcomes(k, body, x, true) == once && max != Some(0)
    ensures var more := IterateEach(k, body, min, max, greedy, first, 0, x, once, true);
            Iterate(k, body, min, max, greedy, first, 0, x, true) ==
            if min != 0 then more else if greedy then more + [x] else [x] + more
  {
    var start := x.(captures := ForgetGroups(x.captures, first, 0));
    assert ForgetGroups(x.captures, first, 0) == x.captures;
    assert start == x;
    assert Outcomes(k, body, start, true) == once;
  }

  /** One turn of a repeat whose body has one outcome, further on. */
  lemma {:induction false} RepeatOnce(k: Context, body: Tree, min: nat, max: Option<nat>, greedy: bool, first: nat,
                                      x: State, y: State)
    requires x.end < y.end <= |k.subject| && Outcomes(k, body, x, true) == [y] && max != Some(0)
    ensures var fewer := if min == 0 then 0 else min - 1;
            var bound := if max.None? then None else Some(max.value - 1);
            var more := Iterate(k, body, fewer, bound, greedy, first, 0, y, true);
            Iterate(k, body, min, max, greedy, first, 0, x, true) ==
            if min != 0 then more else if greedy then more + [x] else [x] + more
  {
    RepeatUnfolds(k, body, min, max, greedy, first, x, [y]);
    assert [y][1..] == [];
    assert IterateEach(k, body, min, max, greedy, first, 0, x, [], true) == [];
  }

  /**
   A repeated character takes every number of units between its bounds that the
   run allows: the most first when greedy, the fewest first when lazy.
   */
  lemma {:induction false} RepeatTakes(k: Context, leaf: nat, min: nat, max: Option<nat>, greedy: bool, first: nat,
                                       x: State, run: nat)
    requires x.end <= |k.subject| && RunAt(k, leaf, x.end, run) && (max.Some? ==> min <= max.value)
    ensures Outcomes(k, Repeat(Char(leaf), min, max, greedy, first, 0), x, true) == Ends(x, min, Most(run, max), greedy)
  {
    IterateTakes(k, leaf, min, max, greedy, first, x, run);
  }

  lemma {:induction false} IterateTakes(k: Context, leaf: nat, min: nat, max: Option<nat>, greedy: bool, first: nat,
                                        x: State, run: nat)
    requires x.end <= |k.subject| && RunAt(k, leaf, x.end, run) && (max.Some? ==> min <= max.value)
    ensures Iterate(k, Char(leaf), min, max, greedy, first, 0, x, true) == Ends(x, min, Most(run, max), greedy)
    decreases run
  {
    hide AcceptsAt, RunAt, Iterate, IterateEach, Ends;
    RunParts(k, leaf, x.end, run);
    EndsNone(x, min, greedy);
    if max == Some(0) {
      IterateStops(k, Char(leaf), min, greedy, first, x);
    } else if run == 0 {
      RepeatUnfolds(k, Char(leaf), min, max, greedy, first, x, []);
      IterateNothing(k, Char(leaf), min, max, greedy, first, x);
    } else {
      Within(k, leaf, x.end);
      var y := x.(end := x.end + 1);
      RepeatOnce(k, Char(leaf), min, max, greedy, first, x, y);
      var fewer := if min == 0 then 0 else min - 1;
      var bound := if max.None? then None else Some(max.value - 1);
      IterateTakes(k, leaf, fewer, bound, greedy, first, y, run - 1);
      EndsOnce(x, min, run, max, greedy);
    }
  }

  lemma IterateStops(k: Context, body: Tree, min: nat, greedy: bool, first: nat, x: State)
    requires x.end <= |k.subject|
    ensures Iterate(k, body, min, Some(0), greedy, first, 0, x, true) == [x]
  {
  }

  lemma IterateNothing(k: Context, body: Tree, min: nat, max: Option<nat>, greedy: bool, first: nat, x: State)
    requires x.end <= |k.subject| && max != Some(0)
    ensures IterateEach(k, body, min, max, greedy, first, 0, x, [], true) == []
  {
  }

  lemma {:induction false} RunParts(k: Context, leaf: nat, position: nat, run: nat)
    requires RunAt(k, leaf, position, run)
    ensures AcceptsAt(k, leaf, position) <==> run > 0
    ensures run > 0 ==> RunAt(k, leaf, position + 1, run - 1)
  {
    assert position + 1 + (run - 1) == position + run;
    assert run > 0 ==> AcceptsAt(k, leaf, position);
  }
}
