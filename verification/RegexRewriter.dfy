/**
 The rewrite as the program runs it: a bit set filled in place and two loops
 over an index that append to a buffer.
 */
module RegexRewriter {
  import opened Options
  import opened CodeUnits
  import opened RegexReader
  import opened RegexRewrite
  import opened RegexRewriteProof

  /** Runs with gaps between them are determined by the units they cover. */
  lemma {:induction false} MaximalRunsUnique(a: seq<(Unit, Unit)>, b: seq<(Unit, Unit)>)
    requires MaximalRuns(a) && MaximalRuns(b) && Denoted(a) == Denoted(b)
    ensures a == b
  {
    if a == [] || b == [] {
      if a != [] { FirstRun(a); }
      if b != [] { FirstRun(b); }
    } else {
      FirstRun(a);
      FirstRun(b);
      EndsNoLater(a, b);
      EndsNoLater(b, a);
      TailRuns(a);
      TailRuns(b);
      MaximalRunsUnique(a[1..], b[1..]);
    }
  }

  lemma {:induction false} EndsNoLater(a: seq<(Unit, Unit)>, b: seq<(Unit, Unit)>)
    requires MaximalRuns(a) && MaximalRuns(b) && a != [] && b != [] && Denoted(a) == Denoted(b)
    ensures a[0].0 == b[0].0 && a[0].1 >= b[0].1
  {
    FirstRun(a);
    FirstRun(b);
    var next := a[0].1 as int + 1;
    assert next < UNITS ==> next !in Denoted(b);
  }

  /** The first run starts at the least unit and stops where its successor is not covered. */
  lemma {:induction false} FirstRun(a: seq<(Unit, Unit)>)
    requires MaximalRuns(a) && a != []
    ensures a[0].0 in Denoted(a)
    ensures forall u: Unit :: a[0].0 <= u <= a[0].1 ==> u in Denoted(a)
    ensures forall u :: u in Denoted(a) ==> a[0].0 <= u
    ensures a[0].1 + 1 < UNITS ==> a[0].1 + 1 !in Denoted(a)
  {
    RestAbove(a[1..], a[0].1 as int + 2);
  }

  lemma {:induction false} RestAbove(a: seq<(Unit, Unit)>, bound: int)
    requires MaximalRuns(a) && (a != [] ==> bound <= a[0].0)
    ensures forall u :: u in Denoted(a) ==> bound <= u
  {
    if a != [] { RestAbove(a[1..], bound); }
  }

  lemma {:induction false} TailRuns(a: seq<(Unit, Unit)>)
    requires MaximalRuns(a) && a != []
    ensures MaximalRuns(a[1..]) && Denoted(a[1..]) == Denoted(a) - UnitRange(a[0].0, a[0].1)
  {
    RestAbove(a[1..], a[0].1 as int + 2);
  }

  lemma {:induction false} DenotedAppend(a: seq<(Unit, Unit)>, run: (Unit, Unit))
    ensures Denoted(a + [run]) == Denoted(a) + UnitRange(run.0, run.1)
  {
    if a == [] {
      assert a + [run] == [run];
    } else {
      DenotedAppend(a[1..], run);
      assert (a + [run])[1..] == a[1..] + [run];
    }
  }

  lemma {:induction false} DenotedWiden(a: seq<(Unit, Unit)>, high: Unit)
    requires a != [] && a[|a| - 1].0 <= a[|a| - 1].1 && a[|a| - 1].1 as int + 1 == high
    ensures Denoted(a[|a| - 1 := (a[|a| - 1].0, high)]) == Denoted(a) + {high}
  {
    var (front, last) := (a[..|a| - 1], a[|a| - 1]);
    assert a == front + [last];
    assert a[|a| - 1 := (last.0, high)] == front + [(last.0, high)];
    DenotedAppend(front, last);
    DenotedAppend(front, (last.0, high));
    assert UnitRange(last.0, high) == UnitRange(last.0, last.1) + {high};
  }

  predicate Below(low: int, v: int, end: int) {
    low <= v < end
  }

  class UnitSet {
    const bits: array<bool>

    ghost predicate Valid() {
      bits.Length == UNITS
    }

    ghost function Contents(): set<Unit>
      requires Valid()
      reads bits
    {
      set u: Unit | bits[u]
    }

    constructor ()
      ensures Valid() && fresh(bits) && Contents() == {}
    {
      bits := new bool[UNITS](_ => false);
    }

    method Add(unit: Unit)
      requires Valid()
      modifies bits
      ensures Contents() == old(Contents()) + {unit}
    {
      bits[unit] := true;
    }

    method AddRange(low: Unit, high: Unit)
      requires Valid() && low <= high
      modifies bits
      ensures Contents() == old(Contents()) + UnitRange(low, high)
    {
      for u := low to high as int + 1
        invariant Contents() == old(Contents()) + (set v: Unit | Below(low, v, u))
      {
        Add(u);
      }
    }

    method AddAtom(atom: Atom)
      requires Valid()
      modifies bits
      ensures Contents() == old(Contents()) + AtomMembers(atom)
    {
      match atom
      case OneUnit(unit) => Add(unit);
      case Escape(escape) =>
        for u := 0 to UNITS
          invariant Contents() == old(Contents()) + set v: Unit | v < u && EscapeMatches(escape, v)
        {
          if EscapeMatches(escape, u) { Add(u); }
        }
    }

    method CanonicalUnits(c: Unit -> Unit) returns (canonical: UnitSet)
      requires Valid()
      ensures canonical.Valid() && fresh(canonical.bits) && canonical.Contents() == Image(c, Contents())
    {
      canonical := new UnitSet();
      for u := 0 to UNITS
        invariant canonical.Valid() && fresh(canonical.bits)
        invariant canonical.Contents() == set v | v in Contents() && v < u :: c(v)
      {
        if bits[u] { canonical.Add(c(u)); }
      }
    }

    /** The maximal runs of the members, in order. */
    method Ranges() returns (runs: seq<(Unit, Unit)>)
      requires Valid()
      ensures runs == Runs(Contents())
    {
      hide Denoted;
      runs := [];
      ghost var x := Contents();
      assert Denoted(runs) == set v | v in x && v < 0 by { EmptyRuns(); }
      for u := 0 to UNITS
        invariant MaximalRuns(runs) && Denoted(runs) == set v | v in x && v < u
        invariant EndBelow(runs, u)
      {
        if bits[u] {
          Extend(runs, u);
          // A further member exists, so the successor of the last run's end is still a unit.
          if runs != [] && runs[|runs| - 1].1 + 1 == u {
            runs := runs[|runs| - 1 := (runs[|runs| - 1].0, u)];
          } else {
            runs := runs + [(u, u)];
          }
        }
      }
      RunsDenote(x);
      MaximalRunsUnique(runs, Runs(x));
    }
  }

  ghost predicate EndBelow(runs: seq<(Unit, Unit)>, u: nat) {
    forall i :: 0 <= i < |runs| ==> runs[i].1 < u
  }

  lemma EmptyRuns()
    ensures Denoted([]) == {}
  {
  }

  /** Adding a unit above every run widens the last run or starts a new one. */
  lemma {:induction false} Extend(runs: seq<(Unit, Unit)>, u: Unit)
    requires MaximalRuns(runs) && EndBelow(runs, u)
    ensures var next := if runs != [] && runs[|runs| - 1].1 as int + 1 == u
                        then runs[|runs| - 1 := (runs[|runs| - 1].0, u)] else runs + [(u, u)];
            MaximalRuns(next) && EndBelow(next, u + 1) && Denoted(next) == Denoted(runs) + {u}
  {
    hide Denoted;
    if runs != [] && runs[|runs| - 1].1 as int + 1 == u {
      DenotedWiden(runs, u);
    } else {
      DenotedAppend(runs, (u, u));
      assert UnitRange(u, u) == {u};
    }
  }

  // ---------------------------------------------------------------------

  /** What is still to be read at `index`, added to `sofar`, is what was to be read at `start`. */
  ghost predicate Continues(points: Points, start: nat, index: nat, named: bool, sofar: set<Unit>)
    requires start <= index <= |points|
  {
    var (whole, rest) := (ReadMembers(points[start..], named), ReadMembers(points[index..], named));
    && whole.Some? == rest.Some?
    && (whole.Some? ==>
          && whole.value.units == sofar + rest.value.units
          && whole.value.length == index - start + rest.value.length)
  }

  lemma {:induction false} StepMembers(points: Points, start: nat, index: nat, named: bool, sofar: set<Unit>)
    requires start <= index <= |points| && Continues(points, start, index, named, sofar)
    requires !(index < |points| && points[index] == CLOSE_CLASS)
    ensures var item := ReadItem(points[index..], named);
            match item
            case None => ReadMembers(points[start..], named) == None
            case Some(Members(units, length)) => Continues(points, start, index + length, named, sofar + units)
  {
    hide ReadItem;
    var item := ReadItem(points[index..], named);
    if item.Some? {
      assert points[index..][item.value.length..] == points[index + item.value.length..];
    }
  }

  /** Adds the members of the class item at `index`; returns the index after it. */
  method AddItem(members: UnitSet, points: Points, index: nat, named: bool) returns (next: Option<nat>)
    requires members.Valid() && index <= |points|
    modifies members.bits
    ensures var r := ReadItem(points[index..], named);
            && next.Some? == r.Some?
            && (r.Some? ==> members.Contents() == old(members.Contents()) + r.value.units
                            && next.value == index + r.value.length)
  {
    hide ReadAtom;
    var first := ReadAtom(points[index..], named);
    if first.None? { return None; }
    var (a, n) := first.value;
    var after := index + n;
    if !(after + 1 < |points| && points[after] == HYPHEN && points[after + 1] != CLOSE_CLASS) {
      members.AddAtom(a);
      return Some(after);
    }
    assert points[after + 1..] == points[index..][n + 1..];
    var second := ReadAtom(points[after + 1..], named);
    if second.None? { return None; }
    var (b, m) := second.value;
    if a.OneUnit? && b.OneUnit? {
      if a.unit > b.unit { return None; }
      members.AddRange(a.unit, b.unit);
    } else {
      members.AddAtom(a);
      members.Add(HYPHEN);
      members.AddAtom(b);
    }
    next := Some(after + 1 + m);
  }

  /** Reads the members from `start` into a bit set; returns the index after the closing bracket. */
  method ReadMembersAt(points: Points, start: nat, named: bool) returns (members: UnitSet, next: Option<nat>)
    requires start <= |points|
    ensures members.Valid() && fresh(members) && fresh(members.bits)
    ensures var r := ReadMembers(points[start..], named);
            && next.Some? == r.Some?
            && (r.Some? ==> members.Contents() == r.value.units && next.value == start + r.value.length)
  {
    hide ReadItem;
    var index := start;
    members := new UnitSet();
    while !(index < |points| && points[index] == CLOSE_CLASS)
      invariant start <= index <= |points| && members.Valid() && fresh(members) && fresh(members.bits)
      invariant Continues(points, start, index, named, members.Contents())
      decreases |points| - index
    {
      StepMembers(points, start, index, named, members.Contents());
      var after := AddItem(members, points, index, named);
      if after.None? { return members, None; }
      index := after.value;
    }
    next := Some(index + 1);
  }

  lemma {:induction false} RunsTextAppend(runs: seq<(Unit, Unit)>, run: (Unit, Unit))
    ensures RunsText(runs + [run]) == RunsText(runs) + RunText(run)
  {
    hide RunText;
    if runs == [] {
      assert runs + [run] == [run];
    } else {
      RunsTextAppend(runs[1..], run);
      assert (runs + [run])[1..] == runs[1..] + [run];
    }
  }

  lemma RunsTextNone()
    ensures RunsText([]) == []
  {
  }

  method RunsTextOf(ranges: seq<(Unit, Unit)>) returns (text: Points)
    ensures text == RunsText(ranges)
  {
    hide ClassUnitText, RunsText;
    text := [];
    RunsTextNone();
    for i := 0 to |ranges|
      invariant text == RunsText(ranges[..i])
    {
      ghost var before := text;
      RunsTextAppend(ranges[..i], ranges[i]);
      assert ranges[..i] + [ranges[i]] == ranges[..i + 1];
      text := text + ClassUnitText(ranges[i].0);
      if ranges[i].1 > ranges[i].0 {
        text := text + [HYPHEN] + ClassUnitText(ranges[i].1);
      }
      assert text == before + RunText(ranges[i]);
    }
    assert ranges[..|ranges|] == ranges;
  }

  /** The rewrite of the class at `at` and the index after the class. */
  method RewriteClassAt(c: Unit -> Unit, points: Points, at: nat, named: bool)
    returns (text: Points, next: Option<nat>)
    requires at < |points| && points[at] == OPEN_CLASS
    ensures var r := RewriteClass(c, points[at..], named);
            next.Some? == r.Some? && (r.Some? ==> text == r.value.0 && next.value == at + r.value.1)
  {
    hide ReadMembers, RunsText;
    text := [];
    var negated := at + 1 < |points| && points[at + 1] == CARET;
    var start := at + if negated then 2 else 1;
    assert points[start..] == points[at..][start - at..];
    var members, end := ReadMembersAt(points, start, named);
    if end.None? { return [], None; }
    var canonical := members.CanonicalUnits(c);
    var ranges := canonical.Ranges();
    var body := RunsTextOf(ranges);
    text := [OPEN_CLASS] + (if negated then [CARET] else []) + body + [CLOSE_CLASS];
    next := end;
  }

  /** Rewriting what is left at `index` completes `text` to the rewrite of the whole. */
  ghost predicate Completes(c: Unit -> Unit, points: Points, groups: nat, named: bool, index: nat, text: Points)
    requires index <= |points|
  {
    var (whole, rest) := (RewritePattern(c, points, groups, named), RewritePattern(c, points[index..], groups, named));
    whole.Some? == rest.Some? && (whole.Some? ==> whole.value == text + rest.value)
  }

  lemma {:induction false} StepPattern(c: Unit -> Unit, points: Points, groups: nat, named: bool, index: nat, text: Points)
    requires index < |points| && Completes(c, points, groups, named, index, text)
    ensures var step := RewriteOne(c, points[index..], groups, named);
            match step
            case None => RewritePattern(c, points, groups, named) == None
            case Some((more, length)) =>
              index + length <= |points| && Completes(c, points, groups, named, index + length, text + more)
  {
    hide RewriteOne;
    var q := points[index..];
    RewriteAdvances(c, q, groups, named);
    var step := RewriteOne(c, q, groups, named);
    if step.Some? { assert q[step.value.1..] == points[index + step.value.1..]; }
  }

  lemma CompletesEnds(c: Unit -> Unit, points: Points, groups: nat, named: bool, text: Points)
    ensures Completes(c, points, groups, named, 0, [])
    ensures Completes(c, points, groups, named, |points|, text) ==>
              RewritePattern(c, points, groups, named) == Some(text)
  {
    hide RewriteOne;
    assert points[0..] == points;
    assert text + [] == text;
  }

  /** The whole pattern, one step at a time. */
  method Rewrite(c: Unit -> Unit, points: Points, groups: nat, named: bool) returns (out: Option<Points>)
    ensures out == RewritePattern(c, points, groups, named)
  {
    hide RewriteOne, RewritePattern, RewriteClass, Completes;
    var text: Points := [];
    var index := 0;
    CompletesEnds(c, points, groups, named, []);
    while index < |points|
      invariant index <= |points| && Completes(c, points, groups, named, index, text)
      decreases |points| - index
    {
      StepPattern(c, points, groups, named, index, text);
      RewriteAdvances(c, points[index..], groups, named);
      if points[index] == OPEN_CLASS {
        var more, next := RewriteClassAt(c, points, index, named);
        ClassStep(c, points[index..], groups, named);
        if next.None? { return None; }
        text, index := text + more, next.value;
      } else {
        var step := RewriteOne(c, points[index..], groups, named);
        if step.None? { return None; }
        text, index := text + step.value.0, index + step.value.1;
      }
    }
    CompletesEnds(c, points, groups, named, text);
    out := Some(text);
  }

  lemma {:induction false} ClassStep(c: Unit -> Unit, q: Points, groups: nat, named: bool)
    requires q != [] && q[0] == OPEN_CLASS
    ensures RewriteOne(c, q, groups, named) == RewriteClass(c, q, named)
  {
  }
}
