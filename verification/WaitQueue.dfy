/**
 Waiters of a shared buffer: registering, waiting, timing out and notifying
 across threads, one lock section at a time.
 */
module WaitQueue {
  import opened Options

  /** Waiters are named in the order in which they register. */
  type Waiter = nat

  datatype Result = Woken | TimedOut

  /** A waiter decides its result under its status lock, and only then takes the queue lock to leave. */
  datatype Phase = Waiting | Decided(result: Result) | Finished(result: Result)

  /** A notify in progress holds the queue lock; start and mark remember where it began. */
  datatype Notify = Notify(offset: nat, count: nat, woken: nat, remaining: seq<Waiter>, start: seq<Waiter>, mark: nat)

  /**
   offsets and phases are indexed by waiter; wakes is the history of every
   status set to Ok, and reported the total that finished notifies returned.
   */
  datatype State = State(
    queue: seq<Waiter>,
    offsets: seq<nat>,
    phases: seq<Phase>,
    notify: Option<Notify>,
    wakes: seq<Waiter>,
    reported: nat)

  const INITIAL: State := State([], [], [], None, [], 0)

  datatype Step =
    | Register(offset: nat)
    | Decide(waiter: Waiter, timeout: bool)
    | Leave(waiter: Waiter)
    | Begin(offset: nat, count: nat)
    | Pop
    | End

  predicate Enabled(s: State, step: Step) {
    match step
    case Register(_) => s.notify.None?
    case Decide(w, timeout) => w < |s.phases| && s.phases[w].Waiting? && (w in s.wakes || timeout)
    case Leave(w) => w < |s.phases| && s.phases[w].Decided? && s.notify.None?
    case Begin(_, _) => s.notify.None?
    case Pop => s.notify.Some? && s.queue != []
    case End => s.notify.Some? && s.queue == []
  }

  function Next(s: State, step: Step): State
    requires Enabled(s, step)
    requires step.Pop? ==> s.queue[0] < |s.offsets|
  {
    match step
    case Register(offset) =>
      s.(queue := s.queue + [|s.phases|], offsets := s.offsets + [offset], phases := s.phases + [Waiting])
    case Decide(w, _) => s.(phases := s.phases[w := Decided(if w in s.wakes then Woken else TimedOut)])
    case Leave(w) => s.(queue := Excluding(s.queue, [w]), phases := s.phases[w := Finished(s.phases[w].result)])
    case Begin(offset, count) => s.(notify := Some(Notify(offset, count, 0, [], s.queue, |s.wakes|)))
    case Pop =>
      var n := s.notify.value;
      var w := s.queue[0];
      if s.offsets[w] == n.offset && n.woken < n.count then
        s.(queue := s.queue[1..], wakes := s.wakes + [w], notify := Some(n.(woken := n.woken + 1)))
      else
        s.(queue := s.queue[1..], notify := Some(n.(remaining := n.remaining + [w])))
    case End =>
      s.(queue := s.notify.value.remaining, notify := None, reported := s.reported + s.notify.value.woken)
  }

  // ---------------------------------------------------------------------
  // What a notify should do to a queue

  /** The waiters of an offset, in queue order. */
  function Matching(queue: seq<Waiter>, offsets: seq<nat>, offset: nat): seq<Waiter> {
    if queue == [] then []
    else
      (if queue[0] < |offsets| && offsets[queue[0]] == offset then [queue[0]] else []) +
      Matching(queue[1..], offsets, offset)
  }

  function Take<T>(list: seq<T>, count: nat): seq<T> {
    if count < |list| then list[..count] else list
  }

  /** The waiters to wake: the first of the offset's waiters, at most count of them. */
  function Chosen(queue: seq<Waiter>, offsets: seq<nat>, offset: nat, count: nat): seq<Waiter> {
    Take(Matching(queue, offsets, offset), count)
  }

  /** The queue without some waiters, in its own order. */
  function Excluding(queue: seq<Waiter>, gone: seq<Waiter>): seq<Waiter> {
    if queue == [] then []
    else (if queue[0] in gone then [] else [queue[0]]) + Excluding(queue[1..], gone)
  }

  ghost predicate Ascending(list: seq<Waiter>) {
    forall i, j :: 0 <= i < j < |list| ==> list[i] < list[j]
  }

  ghost predicate Known(list: seq<Waiter>, bound: nat) {
    forall i :: 0 <= i < |list| ==> list[i] < bound
  }

  ghost predicate NoDuplicates(list: seq<Waiter>) {
    forall i, j :: 0 <= i < j < |list| ==> list[i] != list[j]
  }

  lemma {:induction false} AscendingTail(queue: seq<Waiter>)
    requires queue != [] && Ascending(queue)
    ensures Ascending(queue[1..]) && forall w <- queue[1..] :: queue[0] < w
  {
  }

  lemma {:induction false} AscendingCons(w: Waiter, rest: seq<Waiter>)
    requires Ascending(rest) && forall v <- rest :: w < v
    ensures Ascending([w] + rest)
  {
    var list := [w] + rest;
    forall i, j | 0 <= i < j < |list| ensures list[i] < list[j] {
      assert list[j] == rest[j - 1] && rest[j - 1] in rest;
      assert i > 0 ==> list[i] == rest[i - 1];
    }
  }

  lemma {:induction false} MatchingIn(queue: seq<Waiter>, offsets: seq<nat>, offset: nat)
    requires Ascending(queue)
    ensures forall w :: w in Matching(queue, offsets, offset) <==> w in queue && w < |offsets| && offsets[w] == offset
    ensures Ascending(Matching(queue, offsets, offset))
  {
    hide Ascending;
    if queue == [] {
      assert Ascending([]) by { AscendingEmpty(); }
    } else {
      AscendingTail(queue);
      MatchingIn(queue[1..], offsets, offset);
      AscendingCons(queue[0], Matching(queue[1..], offsets, offset));
      assert queue == [queue[0]] + queue[1..];
      assert [] + Matching(queue[1..], offsets, offset) == Matching(queue[1..], offsets, offset);
    }
  }

  lemma {:induction false} KnownTail(queue: seq<Waiter>, bound: nat)
    requires queue != [] && Known(queue, bound)
    ensures Known(queue[1..], bound) && queue[0] < bound
  {
    assert queue == [queue[0]] + queue[1..];
    assert forall w :: w in queue[1..] ==> w in queue;
  }

  lemma {:induction false} AscendingEmpty()
    ensures Ascending([])
  {
  }

  lemma {:induction false} ExcludingIn(queue: seq<Waiter>, gone: seq<Waiter>)
    requires Ascending(queue)
    ensures forall w :: w in Excluding(queue, gone) <==> w in queue && w !in gone
    ensures Ascending(Excluding(queue, gone))
  {
    hide Ascending;
    if queue == [] {
      AscendingEmpty();
    } else {
      AscendingTail(queue);
      ExcludingIn(queue[1..], gone);
      AscendingCons(queue[0], Excluding(queue[1..], gone));
      assert queue == [queue[0]] + queue[1..];
      assert [] + Excluding(queue[1..], gone) == Excluding(queue[1..], gone);
    }
  }

  /** Popping the front splits the choice exactly as the loop does. */
  lemma {:induction false} ChosenStep(queue: seq<Waiter>, offsets: seq<nat>, offset: nat, count: nat)
    requires queue != [] && Ascending(queue) && queue[0] < |offsets|
    ensures var w, rest := queue[0], queue[1..];
            var wake := offsets[w] == offset && count > 0;
            && (wake ==> Chosen(queue, offsets, offset, count) == [w] + Chosen(rest, offsets, offset, count - 1))
            && (!wake ==> Chosen(queue, offsets, offset, count) == Chosen(rest, offsets, offset, count))
            && (!wake ==> w !in Chosen(queue, offsets, offset, count))
  {
    hide Ascending;
    AscendingTail(queue);
    MatchingIn(queue[1..], offsets, offset);
    var rest := Matching(queue[1..], offsets, offset);
    assert [] + rest == rest;
    assert queue[0] !in rest;
    if offsets[queue[0]] == offset && count > 0 {
      TakeCons(queue[0], rest, count);
    }
  }

  lemma {:induction false} ChosenEmpty(offsets: seq<nat>, offset: nat, count: nat)
    ensures Chosen([], offsets, offset, count) == [] && Excluding([], []) == []
  {
  }

  lemma {:induction false} TakeCons(w: Waiter, rest: seq<Waiter>, count: nat)
    requires count > 0
    ensures Take([w] + rest, count) == [w] + Take(rest, count - 1)
  {
  }

  lemma {:induction false} ExcludingSame(queue: seq<Waiter>, gone: seq<Waiter>, other: seq<Waiter>)
    requires forall w :: w in queue ==> (w in gone <==> w in other)
    ensures Excluding(queue, gone) == Excluding(queue, other)
  {
    if queue != [] {
      assert queue[0] in queue;
      ExcludingSame(queue[1..], gone, other);
    }
  }

  /** The loop of notify over a queue it has to itself. */
  method NotifyLoop(waiters: seq<Waiter>, offsets: seq<nat>, offset: nat, count: nat)
    returns (woken: seq<Waiter>, remaining: seq<Waiter>)
    requires Ascending(waiters) && Known(waiters, |offsets|)
    ensures woken == Chosen(waiters, offsets, offset, count)
    ensures remaining == Excluding(waiters, woken)
  {
    hide Ascending, Known, Chosen, Excluding;
    var queue := waiters;
    woken, remaining := [], [];
    assert [] + Chosen(queue, offsets, offset, count) == Chosen(queue, offsets, offset, count);
    assert [] + Excluding(queue, Chosen(queue, offsets, offset, count)) == Excluding(queue, Chosen(queue, offsets, offset, count));
    while queue != []
      invariant Ascending(queue) && Known(queue, |offsets|)
      invariant |woken| <= count
      invariant woken + Chosen(queue, offsets, offset, count - |woken|) == Chosen(waiters, offsets, offset, count)
      invariant remaining + Excluding(queue, Chosen(queue, offsets, offset, count - |woken|))
                == Excluding(waiters, Chosen(waiters, offsets, offset, count))
      decreases |queue|
    {
      var w := queue[0];
      AscendingTail(queue);
      KnownTail(queue, |offsets|);
      ChosenStep(queue, offsets, offset, count - |woken|);
      ExcludingStep(queue, offsets, offset, count - |woken|);
      ghost var chosen := Chosen(queue, offsets, offset, count - |woken|);
      queue := queue[1..];
      if offsets[w] == offset && |woken| < count {
        assert woken + chosen == woken + [w] + Chosen(queue, offsets, offset, count - |woken| - 1);
        woken := woken + [w];
      } else {
        ghost var rest := Excluding(queue, chosen);
        assert remaining + ([w] + rest) == remaining + [w] + rest;
        remaining := remaining + [w];
      }
    }
    ChosenEmpty(offsets, offset, count - |woken|);
    assert woken + [] == woken && remaining + [] == remaining;
  }

  lemma {:induction false} ExcludingStep(queue: seq<Waiter>, offsets: seq<nat>, offset: nat, count: nat)
    requires queue != [] && Ascending(queue) && queue[0] < |offsets|
    ensures var w, rest := queue[0], queue[1..];
            var wake := offsets[w] == offset && count > 0;
            var all := Excluding(queue, Chosen(queue, offsets, offset, count));
            && (wake ==> all == Excluding(rest, Chosen(rest, offsets, offset, count - 1)))
            && (!wake ==> all == [w] + Excluding(rest, Chosen(rest, offsets, offset, count)))
  {
    hide Chosen;
    ChosenStep(queue, offsets, offset, count);
    var w, rest := queue[0], queue[1..];
    if offsets[w] == offset && count > 0 {
      ExcludingSame(rest, Chosen(queue, offsets, offset, count), Chosen(rest, offsets, offset, count - 1));
    }
  }
}
