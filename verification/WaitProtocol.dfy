/**
 What every interleaving of registering, waiting, timing out and notifying
 keeps.
 */
module WaitProtocol {
  import opened Options
  import opened WaitQueue

  /** Everyone still in line: a notify in progress holds the front part aside. */
  function Line(s: State): seq<Waiter> {
    (if s.notify.Some? then s.notify.value.remaining else []) + s.queue
  }

  ghost predicate InOrder(s: State) {
    && |s.offsets| == |s.phases|
    && Ascending(Line(s)) && Known(Line(s), |s.phases|)
    && NoDuplicates(s.wakes) && Known(s.wakes, |s.phases|)
  }

  /** A waiter is in line exactly until it is woken or has finished, and Ok is only ever the result of a wake. */
  ghost predicate Fits(line: seq<Waiter>, wakes: seq<Waiter>, phase: Phase, w: Waiter) {
    && (w in line ==> w !in wakes && !phase.Finished?)
    && (w !in line && w !in wakes ==> phase.Finished?)
    && (!phase.Waiting? && phase.result == Woken ==> w in wakes)
  }

  ghost predicate Accounted(s: State) {
    forall w :: 0 <= w < |s.phases| ==> Fits(Line(s), s.wakes, s.phases[w], w)
  }

  /** How far a notify has come: what it woke and kept, and what it would do with the rest of its queue. */
  ghost predicate Progress(s: State) {
    match s.notify
    case None => s.reported == |s.wakes|
    case Some(n) =>
      && n.woken <= n.count && n.mark == s.reported && n.mark + n.woken == |s.wakes|
      && s.wakes[n.mark..] + Chosen(s.queue, s.offsets, n.offset, n.count - n.woken)
         == Chosen(n.start, s.offsets, n.offset, n.count)
      && n.remaining + Excluding(s.queue, Chosen(s.queue, s.offsets, n.offset, n.count - n.woken))
         == Excluding(n.start, Chosen(n.start, s.offsets, n.offset, n.count))
  }

  ghost predicate Invariant(s: State) {
    InOrder(s) && Accounted(s) && Progress(s)
  }

  // ---------------------------------------------------------------------
  // One step at a time

  lemma {:induction false} KnownMore(list: seq<Waiter>, w: Waiter)
    requires Known(list, w)
    ensures w !in list && Known(list, w + 1) && Known(list + [w], w + 1)
    ensures Ascending(list) ==> Ascending(list + [w])
  {
  }

  lemma {:induction false} RegisterKeeps(s: State, offset: nat)
    requires Invariant(s) && s.notify.None?
    ensures Invariant(Next(s, Register(offset)))
  {
    hide Ascending, Known, NoDuplicates;
    var s' := Next(s, Register(offset));
    var w := |s.phases|;
    assert Line(s) == s.queue && Line(s') == s.queue + [w];
    KnownMore(s.queue, w);
    KnownMore(s.wakes, w);
    assert Accounted(s') by {
      forall v | 0 <= v < |s'.phases| ensures Fits(Line(s'), s'.wakes, s'.phases[v], v) {
        assert v < w ==> Fits(Line(s), s.wakes, s.phases[v], v);
      }
    }
  }

  lemma {:induction false} DecideKeeps(s: State, w: Waiter, timeout: bool)
    requires Invariant(s) && Enabled(s, Decide(w, timeout))
    ensures Invariant(Next(s, Decide(w, timeout)))
  {
    hide Chosen, Excluding;
    var s' := Next(s, Decide(w, timeout));
    assert Line(s') == Line(s);
    assert Accounted(s') by {
      forall v | 0 <= v < |s'.phases| ensures Fits(Line(s'), s'.wakes, s'.phases[v], v) {
        assert Fits(Line(s), s.wakes, s.phases[v], v);
      }
    }
  }

  lemma {:induction false} LeaveKeeps(s: State, w: Waiter)
    requires Invariant(s) && Enabled(s, Leave(w))
    ensures Invariant(Next(s, Leave(w)))
  {
    hide Chosen, Excluding, Ascending;
    var s' := Next(s, Leave(w));
    assert Line(s) == s.queue && Line(s') == s'.queue;
    ExcludingIn(s.queue, [w]);
    assert Accounted(s') by {
      forall v | 0 <= v < |s'.phases| ensures Fits(s'.queue, s'.wakes, s'.phases[v], v) {
        assert Fits(s.queue, s.wakes, s.phases[v], v);
      }
    }
    assert Known(s'.queue, |s.phases|) by {
      forall i | 0 <= i < |s'.queue| ensures s'.queue[i] < |s.phases| {
        assert s'.queue[i] in s.queue;
      }
    }
  }

  lemma {:induction false} BeginKeeps(s: State, offset: nat, count: nat)
    requires Invariant(s) && s.notify.None?
    ensures Invariant(Next(s, Begin(offset, count)))
  {
    hide Chosen, Excluding;
    var s' := Next(s, Begin(offset, count));
    var chosen := Chosen(s.queue, s.offsets, offset, count);
    assert Line(s) == s.queue && Line(s') == s.queue;
    assert s'.wakes[|s.wakes|..] == [] && [] + chosen == chosen;
    assert [] + Excluding(s.queue, chosen) == Excluding(s.queue, chosen);
  }

  lemma {:induction false} FrontKnown(s: State)
    requires InOrder(s) && s.queue != []
    ensures s.queue[0] < |s.offsets| && s.queue[0] in Line(s)
    ensures Ascending(s.queue)
  {
    var k := |Line(s)| - |s.queue|;
    assert Line(s)[k] == s.queue[0];
    forall i, j | 0 <= i < j < |s.queue| ensures s.queue[i] < s.queue[j] {
      assert s.queue[i] == Line(s)[k + i] && s.queue[j] == Line(s)[k + j];
    }
  }

  lemma {:induction false} PopLine(s: State)
    requires Invariant(s) && Enabled(s, Pop) && s.queue[0] < |s.offsets|
    ensures var s', w := Next(s, Pop), s.queue[0];
            && Ascending(Line(s'))
            && (s'.wakes == s.wakes ==> Line(s') == Line(s))
            && (s'.wakes != s.wakes ==> s'.wakes == s.wakes + [w])
            && (s'.wakes != s.wakes ==> forall v :: v in Line(s') <==> v in Line(s) && v != w)
  {
    hide Chosen, Excluding, Progress, Accounted, Ascending;
    var s' := Next(s, Pop);
    var n := s.notify.value;
    var w := s.queue[0];
    assert s.queue == [w] + s.queue[1..];
    if s'.wakes == s.wakes {
      assert Line(s') == Line(s);
    } else {
      assert Line(s) == n.remaining + [w] + s.queue[1..];
      assert Line(s') == n.remaining + s.queue[1..];
      RemoveOne(n.remaining, w, s.queue[1..]);
    }
  }

  lemma {:induction false} PopKeepsOrder(s: State)
    requires Invariant(s) && Enabled(s, Pop) && s.queue[0] < |s.offsets|
    ensures InOrder(Next(s, Pop)) && Accounted(Next(s, Pop))
  {
    hide Chosen, Excluding, Progress, Ascending, Line;
    var s' := Next(s, Pop);
    var w := s.queue[0];
    PopLine(s);
    FrontKnown(s);
    assert Fits(Line(s), s.wakes, s.phases[w], w);
    assert Known(Line(s'), |s.phases|) by {
      forall i | 0 <= i < |Line(s')| ensures Line(s')[i] < |s.phases| {
        assert Line(s')[i] in Line(s);
      }
    }
    forall v | 0 <= v < |s'.phases| ensures Fits(Line(s'), s'.wakes, s'.phases[v], v) {
      assert Fits(Line(s), s.wakes, s.phases[v], v);
    }
  }

  lemma {:induction false} RemoveOne(a: seq<Waiter>, w: Waiter, b: seq<Waiter>)
    requires Ascending(a + [w] + b)
    ensures Ascending(a + b)
    ensures forall v :: v in a + b <==> v in a + [w] + b && v != w
  {
    var all, rest := a + [w] + b, a + b;
    forall i | 0 <= i < |rest| ensures rest[i] == all[if i < |a| then i else i + 1] {}
    assert all[|a|] == w;
    forall v | v in all && v != w ensures v in rest {
      var i :| 0 <= i < |all| && all[i] == v;
      assert rest[if i < |a| then i else i - 1] == v;
    }
    forall v | v in rest ensures v in all && v != w {
      var i :| 0 <= i < |rest| && rest[i] == v;
      assert all[if i < |a| then i else i + 1] == v;
    }
  }

  lemma {:induction false} PopKeepsProgress(s: State)
    requires Invariant(s) && Enabled(s, Pop) && s.queue[0] < |s.offsets|
    ensures Progress(Next(s, Pop))
  {
    hide Chosen, Excluding, Accounted;
    FrontKnown(s);
    var s' := Next(s, Pop);
    var n := s.notify.value;
    var w := s.queue[0];
    ChosenStep(s.queue, s.offsets, n.offset, n.count - n.woken);
    ExcludingStep(s.queue, s.offsets, n.offset, n.count - n.woken);
    if s'.wakes == s.wakes {
      var rest := Excluding(s'.queue, Chosen(s'.queue, s.offsets, n.offset, n.count - n.woken));
      assert n.remaining + ([w] + rest) == n.remaining + [w] + rest;
    } else {
      assert s'.wakes[n.mark..] == s.wakes[n.mark..] + [w];
      var rest := Chosen(s'.queue, s.offsets, n.offset, n.count - n.woken - 1);
      assert s.wakes[n.mark..] + ([w] + rest) == s.wakes[n.mark..] + [w] + rest;
    }
  }

  lemma {:induction false} EndKeeps(s: State)
    requires Invariant(s) && Enabled(s, End)
    ensures Invariant(Next(s, End))
  {
    hide Chosen, Excluding;
    var s' := Next(s, End);
    assert Line(s) == s.notify.value.remaining && Line(s') == s.notify.value.remaining;
  }

  lemma {:induction false} StepKeeps(s: State, step: Step)
    requires Invariant(s) && Enabled(s, step)
    ensures step.Pop? ==> s.queue[0] < |s.offsets|
    ensures Invariant(Next(s, step))
  {
    hide InOrder, Accounted, Progress, Next;
    if step.Pop? {
      FrontKnown(s);
    }
    match step
    case Register(offset) => RegisterKeeps(s, offset);
    case Decide(w, timeout) => DecideKeeps(s, w, timeout);
    case Leave(w) => LeaveKeeps(s, w);
    case Begin(offset, count) => BeginKeeps(s, offset, count);
    case Pop => PopKeeps(s);
    case End => EndKeeps(s);
  }

  lemma {:induction false} PopKeeps(s: State)
    requires Invariant(s) && Enabled(s, Pop) && s.queue[0] < |s.offsets|
    ensures Invariant(Next(s, Pop))
  {
    PopKeepsOrder(s);
    PopKeepsProgress(s);
  }

  // ---------------------------------------------------------------------
  // Whole runs

  ghost predicate IsRun(states: seq<State>, steps: seq<Step>) {
    && |states| == |steps| + 1
    && states[0] == INITIAL
    && (forall i :: 0 <= i < |steps| ==> Enabled(states[i], steps[i]))
    && (forall i :: 0 <= i < |steps| && (steps[i].Pop? ==> states[i].queue[0] < |states[i].offsets|) ==>
          states[i + 1] == Next(states[i], steps[i]))
  }

  lemma {:induction false} EveryState(states: seq<State>, steps: seq<Step>, i: nat)
    requires IsRun(states, steps) && i < |states|
    ensures Invariant(states[i])
    ensures i > 0 ==> (steps[i - 1].Pop? ==> states[i - 1].queue[0] < |states[i - 1].offsets|)
                      && states[i] == Next(states[i - 1], steps[i - 1])
  {
    hide Invariant, Next;
    if i == 0 {
      InitialKeeps();
    } else {
      EveryState(states, steps, i - 1);
      StepKeeps(states[i - 1], steps[i - 1]);
    }
  }

  lemma {:induction false} InitialKeeps()
    ensures Invariant(INITIAL)
  {
  }

  /**
   In every state of every run: no waiter is counted by two notifies; a wait
   whose result is Ok was counted by exactly one; a finished wait is not in
   line; and a waiter that is neither finished nor woken still is.
   */
  lemma {:induction false} EveryWaiter(states: seq<State>, steps: seq<Step>, i: nat, w: Waiter)
    requires IsRun(states, steps) && i < |states| && w < |states[i].phases|
    ensures var s := states[i];
            && multiset(s.wakes)[w] <= 1
            && (!s.phases[w].Waiting? && s.phases[w].result == Woken ==> multiset(s.wakes)[w] == 1)
            && (s.phases[w].Finished? ==> w !in s.queue && w !in Line(s))
            && (!s.phases[w].Finished? && w !in s.wakes ==> w in Line(s))
  {
    hide Progress;
    EveryState(states, steps, i);
    CountOnce(states[i].wakes, w);
    assert Fits(Line(states[i]), states[i].wakes, states[i].phases[w], w);
    assert forall v :: v in states[i].queue ==> v in Line(states[i]);
  }

  lemma {:induction false} CountOnce(list: seq<Waiter>, w: Waiter)
    requires NoDuplicates(list)
    ensures multiset(list)[w] == if w in list then 1 else 0
  {
    if list != [] {
      var n := |list| - 1;
      CountOnce(list[..n], w);
      assert list == list[..n] + [list[n]];
      assert list[n] !in list[..n];
    }
  }

  /** The waits the finished notifies counted are all the wakes there were. */
  lemma {:induction false} ReportsAreWakes(states: seq<State>, steps: seq<Step>, i: nat)
    requires IsRun(states, steps) && i < |states| && states[i].notify.None?
    ensures states[i].reported == |states[i].wakes|
  {
    EveryState(states, steps, i);
  }

  /** While a notify runs nothing changes the queue or the offsets under it. */
  lemma {:induction false} Held(states: seq<State>, steps: seq<Step>, i: nat, j: nat)
    requires IsRun(states, steps) && i < j <= |steps| && steps[i].Begin?
    requires forall k :: i < k < j ==> !steps[k].End?
    ensures var s, n := states[i], states[j].notify;
            && n.Some? && n.value.start == s.queue && n.value.mark == |s.wakes|
            && n.value.offset == steps[i].offset && n.value.count == steps[i].count
            && states[j].offsets == s.offsets
            && |states[j].wakes| >= |s.wakes| && states[j].wakes[..|s.wakes|] == s.wakes
    decreases j
  {
    hide Invariant;
    EveryState(states, steps, j);
    if i + 1 < j {
      Held(states, steps, i, j - 1);
    }
  }

  /** What the steps registered so far: the offset each waiter named, waiter by waiter. */
  function Registrations(steps: seq<Step>): seq<nat> {
    if steps == [] then []
    else
      var last := steps[|steps| - 1];
      Registrations(steps[..|steps| - 1]) + if last.Register? then [last.offset] else []
  }

  /** Every waiter keeps the offset its own step named. */
  lemma {:induction false} OffsetsAreRegistered(states: seq<State>, steps: seq<Step>, n: nat)
    requires IsRun(states, steps) && n < |states|
    ensures states[n].offsets == Registrations(steps[..n]) && |states[n].phases| == |Registrations(steps[..n])|
  {
    hide Invariant, Chosen, Excluding;
    EveryState(states, steps, n);
    InvariantCounts(states[n]);
    if n > 0 {
      OffsetsAreRegistered(states, steps, n - 1);
      assert steps[..n][..n - 1] == steps[..n - 1];
    }
  }

  lemma {:induction false} InvariantCounts(s: State)
    requires Invariant(s)
    ensures |s.offsets| == |s.phases|
  {
  }

  /** The waiter a step registers is the next one, and has that step's offset in every later state. */
  lemma {:induction false} RegisteredOffset(states: seq<State>, steps: seq<Step>, i: nat, j: nat)
    requires IsRun(states, steps) && i < j < |states| && steps[i].Register?
    ensures var w := |states[i].phases|; w < |states[j].offsets| && states[j].offsets[w] == steps[i].offset
    decreases j
  {
    hide Invariant, Chosen, Excluding;
    EveryState(states, steps, i);
    InvariantCounts(states[i]);
    EveryState(states, steps, j);
    if i + 1 < j {
      RegisteredOffset(states, steps, i, j - 1);
    }
  }

  /** A waiter that a notify may wake: registered at its offset, not woken before and not gone. */
  predicate Eligible(s: State, registered: seq<nat>, offset: nat, w: Waiter) {
    w < |registered| && w < |s.phases| && registered[w] == offset && w !in s.wakes && !s.phases[w].Finished?
  }

  /**
   Between taking and releasing the lock a notify wakes the first of the waiters
   whose own registration named its offset and who are neither woken nor gone,
   in the order they registered: all of them, or as many as it may. It reports
   their number, and leaves everyone else in line, in that order.
   */
  lemma {:induction false} NotifyIsExact(states: seq<State>, steps: seq<Step>, i: nat, j: nat)
    requires IsRun(states, steps) && i < j < |steps| && steps[i].Begin? && steps[j].End?
    requires forall k :: i < k < j ==> !steps[k].End?
    ensures var s, s', registered := states[i], states[j + 1], Registrations(steps[..i]);
            && |s'.wakes| >= |s.wakes| && s'.wakes[..|s.wakes|] == s.wakes
            && var woken := s'.wakes[|s.wakes|..];
               && Ascending(woken) && |woken| <= steps[i].count
               && (forall w <- woken :: Eligible(s, registered, steps[i].offset, w))
               && (forall w: Waiter :: Eligible(s, registered, steps[i].offset, w) ==>
                     w in woken || (|woken| == steps[i].count && forall v <- woken :: v < w))
               && s'.reported == s.reported + |woken|
               && Ascending(s'.queue)
               && (forall w: Waiter :: w in s'.queue <==> w in s.queue && w !in woken)
               && |s.phases| == |registered|
               && (forall w: Waiter :: w in s.queue <==> w < |s.phases| && w !in s.wakes && !s.phases[w].Finished?)
  {
    hide Chosen, Excluding, Invariant, Ascending, Next;
    Held(states, steps, i, j);
    EveryState(states, steps, i);
    EveryState(states, steps, j);
    EveryState(states, steps, j + 1);
    EndExact(states[j]);
    var s, s', n := states[i], states[j + 1], states[j].notify.value;
    InOrderQueue(s);
    InOrderQueue(s');
    OffsetsAreRegistered(states, steps, i);
    InLine(s);
    ChosenFirst(n.start, s.offsets, n.offset, n.count);
    var chosen := Chosen(n.start, s.offsets, n.offset, n.count);
    assert s'.wakes[|s.wakes|..] == chosen && s'.wakes[..|s.wakes|] == s.wakes;
    ExcludingIn(s.queue, chosen);
  }

  /** While no notify runs, those in line are exactly the waiters neither woken nor gone. */
  lemma {:induction false} InLine(s: State)
    requires Invariant(s) && s.notify.None?
    ensures forall w: Waiter :: w in s.queue <==> w < |s.phases| && w !in s.wakes && !s.phases[w].Finished?
  {
    hide Progress;
    assert Line(s) == s.queue;
    forall w | w in s.queue ensures w < |s.phases| {
      var k :| 0 <= k < |s.queue| && s.queue[k] == w;
      assert Line(s)[k] == w;
    }
    forall w | 0 <= w < |s.phases| ensures w in s.queue <==> w !in s.wakes && !s.phases[w].Finished? {
      assert Fits(Line(s), s.wakes, s.phases[w], w);
    }
  }

  lemma {:induction false} InOrderQueue(s: State)
    requires Invariant(s) && s.notify.None?
    ensures Ascending(s.queue) && s.reported == |s.wakes|
  {
    assert Line(s) == s.queue;
  }

  lemma {:induction false} EndExact(s: State)
    requires Invariant(s) && Enabled(s, End)
    ensures var s', n := Next(s, End), s.notify.value;
            var chosen := Chosen(n.start, s.offsets, n.offset, n.count);
            && n.mark <= |s.wakes| && s'.wakes == s.wakes[..n.mark] + chosen
            && s'.reported == n.mark + |chosen|
            && s'.queue == Excluding(n.start, chosen)
            && s'.notify == None
  {
    hide InOrder, Accounted, Chosen, Excluding;
    var n := s.notify.value;
    ChosenEmpty(s.offsets, n.offset, n.count - n.woken);
    assert s.wakes[n.mark..] + [] == s.wakes[n.mark..] && n.remaining + [] == n.remaining;
    assert s.wakes == s.wakes[..n.mark] + s.wakes[n.mark..];
  }

  lemma {:induction false} ChosenFirst(queue: seq<Waiter>, offsets: seq<nat>, offset: nat, count: nat)
    requires Ascending(queue)
    ensures var chosen := Chosen(queue, offsets, offset, count);
            && Ascending(chosen) && |chosen| <= count
            && (forall w <- chosen :: w in queue && w < |offsets| && offsets[w] == offset)
            && (forall w <- queue :: w < |offsets| && offsets[w] == offset ==>
                  w in chosen || (|chosen| == count && forall v <- chosen :: v < w))
  {
    var all, chosen := Matching(queue, offsets, offset), Chosen(queue, offsets, offset, count);
    MatchingIn(queue, offsets, offset);
    forall w <- chosen ensures w in all {
      var k :| 0 <= k < |chosen| && chosen[k] == w;
      assert all[k] == w;
    }
    forall w <- queue | w < |offsets| && offsets[w] == offset
      ensures w in chosen || (|chosen| == count && forall v <- chosen :: v < w)
    {
      var k :| 0 <= k < |all| && all[k] == w;
      assert k < |chosen| ==> chosen[k] == w;
    }
  }

  /**
   Nobody is kept from going on: while no notify holds the queue anyone can
   register, notify or leave; a notify that holds it can always take its next
   step; and a waiter can always return once it is woken or its time is up.
   */
  lemma {:induction false} NeverStuck(states: seq<State>, steps: seq<Step>, n: nat, offset: nat, count: nat, w: Waiter)
    requires IsRun(states, steps) && n < |states|
    ensures var s := states[n];
            && (s.notify.None? ==> Enabled(s, Register(offset)) && Enabled(s, Begin(offset, count)))
            && (s.notify.Some? ==> Enabled(s, Pop) || Enabled(s, End))
            && (w < |s.phases| && s.phases[w].Waiting? ==> Enabled(s, Decide(w, true)))
            && (w < |s.phases| && s.phases[w].Waiting? && w in s.wakes ==> Enabled(s, Decide(w, false)))
            && (w < |s.phases| && s.phases[w].Decided? && s.notify.None? ==> Enabled(s, Leave(w)))
            && (w < |s.phases| && s.phases[w].Waiting? && w !in s.wakes ==> !Enabled(s, Decide(w, false)))
  {
  }

  // ---------------------------------------------------------------------
  // A counted waiter need not return Ok

  lemma {:induction false} ResultStays(states: seq<State>, steps: seq<Step>, i: nat, j: nat, w: Waiter)
    requires IsRun(states, steps) && i < j < |states| && steps[i].Decide? && steps[i].waiter == w
    ensures w < |states[j].phases| && !states[j].phases[w].Waiting?
    ensures states[j].phases[w].result == Woken <==> w in states[i].wakes
    decreases j
  {
    hide Invariant, Chosen, Excluding;
    EveryState(states, steps, j);
    if i + 1 < j {
      ResultStays(states, steps, i, j - 1, w);
    }
  }

  /** The wait that decides at step i returns Ok exactly when a notify had counted it by then. */
  lemma {:induction false} OkIffCountedInTime(states: seq<State>, steps: seq<Step>, i: nat, j: nat, w: Waiter)
    requires IsRun(states, steps) && i < j < |states| && steps[i].Decide? && steps[i].waiter == w
    requires w < |states[j].phases| && states[j].phases[w].Finished?
    ensures states[j].phases[w].result == Woken <==> multiset(states[i].wakes)[w] == 1
  {
    ResultStays(states, steps, i, j, w);
    EveryState(states, steps, i);
    CountOnce(states[i].wakes, w);
  }

  /** A run in which a notify counts a waiter that has already timed out. */
  lemma {:induction false} CountedYetTimedOut() returns (states: seq<State>, steps: seq<Step>)
    ensures IsRun(states, steps)
    ensures var s := states[|states| - 1]; s.reported == 1 && s.wakes == [0] && s.phases == [Finished(TimedOut)]
  {
    steps := [Register(0), Decide(0, true), Begin(0, 1), Pop, End, Leave(0)];
    var s1 := Next(INITIAL, steps[0]);
    assert s1 == State([0], [0], [Waiting], None, [], 0);
    var s2 := Next(s1, steps[1]);
    assert s2 == State([0], [0], [Decided(TimedOut)], None, [], 0);
    var s3 := Next(s2, steps[2]);
    var s4 := Next(s3, steps[3]);
    assert s4 == State([], [0], [Decided(TimedOut)], Some(Notify(0, 1, 1, [], [0], 0)), [0], 0);
    var s5 := Next(s4, steps[4]);
    assert s5 == State([], [0], [Decided(TimedOut)], None, [0], 1);
    var s6 := Next(s5, steps[5]);
    assert s6.phases == [Finished(TimedOut)];
    states := [INITIAL, s1, s2, s3, s4, s5, s6];
  }
}
