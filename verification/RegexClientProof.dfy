/** Every run of the client and its helpers answers each call purely. */
module RegexClientProof {
  import opened Options
  import opened RegexMemo
  import opened RegexHelper
  import opened RegexClient

  // ---------------------------------------------------------------------
  // One request

  /**
   A helper that agrees with its worker never ends on the worker's request, and
   a reply the client accepts is right and leaves the two in agreement.
   */
  lemma {:induction false} AgreeAgain(e: Engine, w: Worker, h: Helper, call: Call)
    requires Agrees(e, w, h)
    ensures var r := ServeOne(e, h, RequestFor(w, call));
            && r.Replied?
            && var accepted := Accept(w, call, r.reply);
               accepted.Some? ==> Right(e, call, r.reply) && Agrees(e, accepted.value, r.helper)
  {
    match call
    case CompileCall(p) => CachePatternMeans(e, h, p);
    case ValidateCall(ps) => CacheAllMeans(e, h, ps);
    case FindCall(key) => FindAnswered(e, w, h, key);
  }

  lemma {:induction false} FindAnswered(e: Engine, w: Worker, h: Helper, key: FindKey)
    requires Agrees(e, w, h)
    ensures var r := ServeOne(e, h, RequestFor(w, FindCall(key)));
            && r.Replied?
            && (r.reply.Found? ==>
                  && Right(e, FindCall(key), r.reply)
                  && Agrees(e, w.(pattern := Some(key.pattern), input := Some(key.input)), r.helper))
  {
    hide Search;
    if w.pattern == Some(key.pattern) {
      var ready := WithInput(h, RequestFor(w, FindCall(key)).input);
      ServeFindMeans(e, ready, key.start);
    } else {
      CachePatternMeans(e, h, key.pattern);
      assert Pattern(key.pattern.source, key.pattern.flags) == key.pattern;
      var (cached, ok) := CachePattern(e, h.cached, key.pattern);
      if ok.Ok? {
        var ready := WithInput(h.(cached := cached), RequestFor(w, FindCall(key)).input);
        ServeFindMeans(e, ready, key.start);
      }
    }
  }

  // ---------------------------------------------------------------------
  // Other threads and idle workers are not affected

  ghost predicate SameElsewhere(ps: map<nat, Process>, ps': map<nat, Process>, h: nat) {
    forall k :: k != h ==> (k in ps <==> k in ps') && (k in ps ==> ps'[k] == ps[k])
  }

  ghost predicate OnlyHolder(s: System, t: nat, h: nat) {
    forall p :: OwnedAt(s, h, p) ==> p == InThread(t)
  }

  lemma {:induction false} QuietElsewhere(e: Engine, ps: map<nat, Process>, ps': map<nat, Process>, h: nat, w: Worker)
    requires SameElsewhere(ps, ps', h) && Quiet(e, ps, w) && w.helper != h
    ensures Quiet(e, ps', w)
  {
  }

  lemma {:induction false} ThreadElsewhere(e: Engine, ps: map<nat, Process>, ps': map<nat, Process>, h: nat, thread: Thread)
    requires SameElsewhere(ps, ps', h) && ThreadOk(e, ps, thread)
    requires (thread.Holding? || thread.Waiting? || thread.Returning?) ==> thread.worker.helper != h
    ensures ThreadOk(e, ps', thread)
  {
    hide Answers, Right, Agrees;
  }

  /** A step of thread `t` on its own worker's process keeps the invariant of everybody else. */
  lemma {:induction false} Assemble(e: Engine, s: System, s': System, t: nat, h: nat)
    requires Invariant(e, s) && Caches(e, s') && Ownership(s')
    requires s'.idle == s.idle && t in s'.threads && s'.threads == s.threads[t := s'.threads[t]]
    requires SameElsewhere(s.processes, s'.processes, h) && OnlyHolder(s, t, h)
    requires ThreadOk(e, s'.processes, s'.threads[t])
    ensures Invariant(e, s')
  {
    hide Caches, Ownership, Quiet, ThreadOk, SameElsewhere;
    forall i | 0 <= i < |s'.idle|
      ensures Quiet(e, s'.processes, s'.idle[i])
    {
      assert OwnedAt(s, s.idle[i].helper, InPool(i));
      QuietElsewhere(e, s.processes, s'.processes, h, s.idle[i]);
    }
    forall t' | t' in s'.threads
      ensures ThreadOk(e, s'.processes, s'.threads[t'])
    {
      if t' != t { OthersElsewhere(e, s, s', t, h, t'); }
    }
  }

  lemma {:induction false} OthersElsewhere(e: Engine, s: System, s': System, t: nat, h: nat, t': nat)
    requires t' in s.threads && t' != t && ThreadOk(e, s.processes, s.threads[t'])
    requires SameElsewhere(s.processes, s'.processes, h) && OnlyHolder(s, t, h)
    ensures ThreadOk(e, s'.processes, s.threads[t'])
  {
    hide ThreadOk;
    var thread := s.threads[t'];
    if thread.Holding? || thread.Waiting? || thread.Returning? {
      assert OwnedAt(s, thread.worker.helper, InThread(t'));
    }
    ThreadElsewhere(e, s.processes, s'.processes, h, thread);
  }

  // ---------------------------------------------------------------------
  // Ownership

  ghost predicate SamePlaces(s: System, s': System) {
    forall h, p :: OwnedAt(s', h, p) <==> OwnedAt(s, h, p)
  }

  lemma {:induction false} OwnershipSame(s: System, s': System)
    requires Ownership(s) && SamePlaces(s, s') && s'.processes.Keys == s.processes.Keys && s'.started == s.started
    ensures Ownership(s')
  {
    hide OwnedAt;
    forall h | h in s'.processes
      ensures h < s'.started && exists p :: OwnedAt(s', h, p)
    {
      assert h in s.processes;
      var p :| OwnedAt(s, h, p);
      assert OwnedAt(s', h, p);
    }
  }

  lemma {:induction false} ThreadPlaces(s: System, s': System, t: nat)
    requires s'.idle == s.idle && t in s'.threads && s'.threads == s.threads[t := s'.threads[t]]
    requires WorkerAt(s', InThread(t)).Some? == WorkerAt(s, InThread(t)).Some?
    requires WorkerAt(s, InThread(t)).Some? ==>
               WorkerAt(s', InThread(t)).value.helper == WorkerAt(s, InThread(t)).value.helper
    ensures SamePlaces(s, s')
  {
    forall h, p
      ensures OwnedAt(s', h, p) <==> OwnedAt(s, h, p)
    {
      if p != InThread(t) { assert WorkerAt(s', p) == WorkerAt(s, p); }
    }
  }

  lemma {:induction false} OwnershipRetire(s: System, s': System, t: nat, h: nat)
    requires Ownership(s) && OwnedAt(s, h, InThread(t))
    requires s'.idle == s.idle && t in s'.threads && s'.threads == s.threads[t := s'.threads[t]]
    requires WorkerAt(s', InThread(t)) == None
    requires s'.processes.Keys == s.processes.Keys - {h} && s'.started == s.started
    ensures Ownership(s')
  {
    assert forall p :: p != InThread(t) ==> WorkerAt(s', p) == WorkerAt(s, p);
    assert forall k, p :: OwnedAt(s', k, p) ==> OwnedAt(s, k, p) && p != InThread(t);
    forall k | k in s'.processes
      ensures k < s'.started && exists p :: OwnedAt(s', k, p)
    {
      assert k in s.processes;
      var p :| OwnedAt(s, k, p);
      assert p != InThread(t);
      assert OwnedAt(s', k, p);
    }
  }

  lemma {:induction false} OwnershipStart(s: System, s': System, t: nat)
    requires Ownership(s) && WorkerAt(s, InThread(t)) == None
    requires s'.idle == s.idle && t in s'.threads && s'.threads == s.threads[t := s'.threads[t]]
    requires OwnedAt(s', s.started, InThread(t))
    requires s'.processes.Keys == s.processes.Keys + {s.started} && s'.started == s.started + 1
    ensures Ownership(s')
  {
    assert forall p :: p != InThread(t) ==> WorkerAt(s', p) == WorkerAt(s, p);
    assert forall k, p :: OwnedAt(s', k, p) ==> if p == InThread(t) then k == s.started else OwnedAt(s, k, p);
    forall k | k in s'.processes
      ensures k < s'.started && exists p :: OwnedAt(s', k, p)
    {
      if k == s.started {
        assert OwnedAt(s', k, InThread(t));
      } else {
        var p :| OwnedAt(s, k, p);
        assert p != InThread(t);
        assert OwnedAt(s', k, p);
      }
    }
  }

  /** A worker moves between the pool's end and thread `t`. */
  lemma {:induction false} OwnershipMove(s: System, s': System, t: nat, from: Place, to: Place)
    requires Ownership(s) && from != to
    requires WorkerAt(s, to) == None && WorkerAt(s', from) == None
    requires WorkerAt(s, from).Some? && WorkerAt(s', to) == WorkerAt(s, from)
    requires forall p :: p != from && p != to ==> WorkerAt(s', p) == WorkerAt(s, p)
    requires s'.processes.Keys == s.processes.Keys && s'.started == s.started
    ensures Ownership(s')
  {
    hide WorkerAt;
    forall h, p, q | OwnedAt(s', h, p) && OwnedAt(s', h, q)
      ensures p == q
    {
      assert OwnedAt(s, h, if p == to then from else p);
      assert OwnedAt(s, h, if q == to then from else q);
    }
    forall h, p | OwnedAt(s', h, p)
      ensures h in s'.processes
    {
      assert OwnedAt(s, h, if p == to then from else p);
    }
    forall k | k in s'.processes
      ensures k < s'.started && exists p :: OwnedAt(s', k, p)
    {
      assert k in s.processes;
      var p :| OwnedAt(s, k, p);
      assert OwnedAt(s', k, if p == from then to else p);
    }
  }

  // ---------------------------------------------------------------------
  // Steps

  /** A step that only changes where thread `t` stands, without a worker. */
  lemma {:induction false} PlainStep(e: Engine, s: System, s': System, t: nat)
    requires Invariant(e, s) && Caches(e, s')
    requires s'.idle == s.idle && s'.processes == s.processes && s'.started == s.started
    requires t in s'.threads && s'.threads == s.threads[t := s'.threads[t]]
    requires WorkerAt(s, InThread(t)) == None && WorkerAt(s', InThread(t)) == None
    requires ThreadOk(e, s'.processes, s'.threads[t])
    ensures Invariant(e, s')
  {
    hide Caches, ThreadOk;
    ThreadPlaces(s, s', t);
    OwnershipSame(s, s');
    assert OnlyHolder(s, t, s.started);
    Assemble(e, s, s', t, s.started);
  }

  lemma {:induction false} BeginKeeps(e: Engine, s: System, t: nat, call: Call)
    requires Invariant(e, s) && Next(e, s, Begin(t, call)).Some?
    ensures Invariant(e, Next(e, s, Begin(t, call)).value)
  {
    PlainStep(e, s, Next(e, s, Begin(t, call)).value, t);
  }

  lemma {:induction false} LookUpKeeps(e: Engine, s: System, t: nat)
    requires Invariant(e, s) && Next(e, s, LookUp(t)).Some?
    ensures Invariant(e, Next(e, s, LookUp(t)).value)
  {
    hide Compile;
    PlainStep(e, s, Next(e, s, LookUp(t)).value, t);
  }

  lemma {:induction false} PublishedCaches(e: Engine, s: System, call: Call, reply: Reply)
    requires Caches(e, s) && Right(e, call, reply)
    ensures Caches(e, Published(s, call, reply))
  {
    hide Compile, PureMatch, Remembered;
    if call.FindCall? { RememberedValid(s.memo, call.key, reply.found); }
  }

  lemma {:induction false} PublishKeeps(e: Engine, s: System, t: nat)
    requires Invariant(e, s) && Next(e, s, Publish(t)).Some?
    ensures Invariant(e, Next(e, s, Publish(t)).value)
  {
    hide Right, Published, Ownership, Quiet, InFlight, Caches, Valid;
    var Publishing(call, reply) := s.threads[t];
    assert ThreadOk(e, s.processes, s.threads[t]);
    InvariantMemo(e, s);
    PublishedCaches(e, s, call, reply);
    PublishedFrame(s, call, reply);
    var s' := Next(e, s, Publish(t)).value;
    CachesOnly(e, Published(s, call, reply), s');
    PlainStep(e, s, s', t);
  }

  lemma PublishedFrame(s: System, call: Call, reply: Reply)
    requires Valid(s.memo)
    ensures var r := Published(s, call, reply);
            r.idle == s.idle && r.processes == s.processes && r.started == s.started && r.threads == s.threads
  {
    hide Remembered, Valid;
  }

  lemma CachesOnly(e: Engine, s: System, s': System)
    requires Caches(e, s) && s'.memo == s.memo && s'.accepted == s.accepted
    ensures Caches(e, s')
  {
    hide Valid, PureMatch, Compile;
  }

  lemma {:induction false} PopKeeps(e: Engine, s: System, t: nat)
    requires Invariant(e, s) && Next(e, s, Pop(t)).Some?
    ensures Invariant(e, Next(e, s, Pop(t)).value)
  {
    hide Quiet;
    var (s', n) := (Next(e, s, Pop(t)).value, |s.idle|);
    if n == 0 {
      PlainStep(e, s, s', t);
    } else {
      assert forall p :: p != InPool(n - 1) && p != InThread(t) ==> WorkerAt(s', p) == WorkerAt(s, p);
      OwnershipMove(s, s', t, InPool(n - 1), InThread(t));
    }
  }

  lemma {:induction false} StartKeeps(e: Engine, s: System, t: nat, ready: bool)
    requires Invariant(e, s) && Next(e, s, Start(t, ready)).Some?
    ensures Invariant(e, Next(e, s, Start(t, ready)).value)
  {
    var s' := Next(e, s, Start(t, ready)).value;
    if ready {
      OwnershipStart(s, s', t);
      assert OnlyHolder(s, t, s.started);
      Assemble(e, s, s', t, s.started);
    } else {
      PlainStep(e, s, s', t);
    }
  }

  /** Thread `t` ends with an error and its worker and process are gone. */
  lemma {:induction false} RetireStep(e: Engine, s: System, s': System, t: nat)
    requires Invariant(e, s) && Caches(e, s') && WorkerAt(s, InThread(t)).Some?
    requires s'.idle == s.idle && s'.started == s.started
    requires t in s'.threads && s'.threads == s.threads[t := s'.threads[t]]
    requires s'.processes == s.processes - {WorkerAt(s, InThread(t)).value.helper}
    requires WorkerAt(s', InThread(t)) == None && ThreadOk(e, s'.processes, s'.threads[t])
    ensures Invariant(e, s')
  {
    hide Caches, ThreadOk;
    var h := WorkerAt(s, InThread(t)).value.helper;
    assert OwnedAt(s, h, InThread(t));
    OwnershipRetire(s, s', t, h);
    Assemble(e, s, s', t, h);
  }

  /** Thread `t` keeps its worker's process, whose state alone may change. */
  lemma {:induction false} HolderStep(e: Engine, s: System, s': System, t: nat)
    requires Invariant(e, s) && Caches(e, s') && WorkerAt(s, InThread(t)).Some? && WorkerAt(s', InThread(t)).Some?
    requires s'.idle == s.idle && s'.started == s.started
    requires t in s'.threads && s'.threads == s.threads[t := s'.threads[t]]
    requires WorkerAt(s', InThread(t)).value.helper == WorkerAt(s, InThread(t)).value.helper
    requires SameElsewhere(s.processes, s'.processes, WorkerAt(s, InThread(t)).value.helper)
    requires s'.processes.Keys == s.processes.Keys
    requires ThreadOk(e, s'.processes, s'.threads[t])
    ensures Invariant(e, s')
  {
    hide Caches, ThreadOk;
    var h := WorkerAt(s, InThread(t)).value.helper;
    assert OwnedAt(s, h, InThread(t));
    ThreadPlaces(s, s', t);
    OwnershipSame(s, s');
    Assemble(e, s, s', t, h);
  }

  lemma {:induction false} SendKeeps(e: Engine, s: System, t: nat, fits: bool)
    requires Invariant(e, s) && Next(e, s, Send(t, fits)).Some?
    ensures Invariant(e, Next(e, s, Send(t, fits)).value)
  {
    hide Agrees, RequestFor;
    var s' := Next(e, s, Send(t, fits)).value;
    assert ThreadOk(e, s.processes, s.threads[t]);
    if fits {
      HolderStep(e, s, s', t);
    } else {
      RetireStep(e, s, s', t);
    }
  }

  lemma {:induction false} LoseKeeps(e: Engine, s: System, t: nat)
    requires Invariant(e, s) && Next(e, s, Lose(t)).Some?
    ensures Invariant(e, Next(e, s, Lose(t)).value)
  {
    RetireStep(e, s, Next(e, s, Lose(t)).value, t);
  }

  lemma {:induction false} ReceiveKeeps(e: Engine, s: System, t: nat)
    requires Invariant(e, s) && Next(e, s, Receive(t)).Some?
    ensures Invariant(e, Next(e, s, Receive(t)).value)
  {
    hide Agrees, Right, RequestFor, ServeOne;
    var s' := Next(e, s, Receive(t)).value;
    var Waiting(call, w) := s.threads[t];
    assert ThreadOk(e, s.processes, s.threads[t]);
    var p := s.processes[w.helper];
    var before: Helper :| Agrees(e, w, before) && |p.replies| == 1
                          && ServeOne(e, before, RequestFor(w, call)) == Replied(p.helper, p.replies[0]);
    AgreeAgain(e, w, before, call);
    if Accept(w, call, p.replies[0]).Some? {
      HolderStep(e, s, s', t);
    } else {
      RetireStep(e, s, s', t);
    }
  }

  lemma {:induction false} RecycleKeeps(e: Engine, s: System, t: nat)
    requires Invariant(e, s) && Next(e, s, Recycle(t)).Some?
    ensures Invariant(e, Next(e, s, Recycle(t)).value)
  {
    hide Quiet, Right;
    var s' := Next(e, s, Recycle(t)).value;
    var (w, n) := (s.threads[t].worker, |s.idle|);
    assert ThreadOk(e, s.processes, s.threads[t]);
    if n < MAX_IDLE_WORKERS {
      assert forall p :: p != InPool(n) && p != InThread(t) ==> WorkerAt(s', p) == WorkerAt(s, p);
      OwnershipMove(s, s', t, InThread(t), InPool(n));
    } else {
      RetireStep(e, s, s', t);
    }
  }

  /** The process that serves a request belongs to a waiting thread, and it does not end. */
  lemma {:induction false} ServeHolder(e: Engine, s: System, h: nat) returns (t: nat)
    requires Invariant(e, s) && Next(e, s, Serve(h)).Some?
    ensures t in s.threads && s.threads[t].Waiting? && s.threads[t].worker.helper == h
    ensures var p := s.processes[h];
            && p.requests == [RequestFor(s.threads[t].worker, s.threads[t].call)] && p.replies == []
            && Agrees(e, s.threads[t].worker, p.helper)
  {
    hide Agrees, RequestFor, Right, Answers;
    var place: Place :| OwnedAt(s, h, place);
    match place {
      case InPool(i) =>
        assert false;
      case InThread(t') =>
        t := t';
        assert ThreadOk(e, s.processes, s.threads[t]);
    }
  }

  lemma {:induction false} ServeKeeps(e: Engine, s: System, h: nat)
    requires Invariant(e, s) && Next(e, s, Serve(h)).Some?
    ensures Invariant(e, Next(e, s, Serve(h)).value)
  {
    hide Agrees, RequestFor, ServeOne;
    var t := ServeHolder(e, s, h);
    var s' := Next(e, s, Serve(h)).value;
    var Waiting(call, w) := s.threads[t];
    var p := s.processes[h];
    AgreeAgain(e, w, p.helper, call);
    var p' := s'.processes[h];
    assert Answers(e, w, call, p') by {
      assert p'.replies == [ServeOne(e, p.helper, RequestFor(w, call)).reply];
    }
    assert s'.threads == s.threads[t := s.threads[t]];
    HolderStep(e, s, s', t);
  }

  lemma {:induction false} StepKeeps(e: Engine, s: System, step: Step)
    requires Invariant(e, s) && Next(e, s, step).Some?
    ensures Invariant(e, Next(e, s, step).value)
  {
    hide Invariant, Next;
    match step
    case Begin(t, call) => BeginKeeps(e, s, t, call);
    case LookUp(t) => LookUpKeeps(e, s, t);
    case Pop(t) => PopKeeps(e, s, t);
    case Start(t, ready) => StartKeeps(e, s, t, ready);
    case Send(t, fits) => SendKeeps(e, s, t, fits);
    case Serve(h) => ServeKeeps(e, s, h);
    case Receive(t) => ReceiveKeeps(e, s, t);
    case Lose(t) => LoseKeeps(e, s, t);
    case Recycle(t) => RecycleKeeps(e, s, t);
    case Publish(t) => PublishKeeps(e, s, t);
  }

  // ---------------------------------------------------------------------
  // Runs

  /**
   The states a sequence of steps of any threads and helpers passes through, from the idle start; nothing is
   asked of a step taken on a memo that is out of order.
   */
  ghost predicate IsRun(e: Engine, states: seq<System>, steps: seq<Step>) {
    && |states| == |steps| + 1 && states[0] == INITIAL
    && forall i :: 0 <= i < |steps| ==>
         Valid(states[i].memo) ==> Next(e, states[i], steps[i]) == Some(states[i + 1])
  }

  lemma {:induction false} RunInvariant(e: Engine, states: seq<System>, steps: seq<Step>, n: nat)
    requires IsRun(e, states, steps) && n < |states|
    ensures Invariant(e, states[n])
  {
    hide Invariant, Next;
    if n == 0 {
      InitialInvariant(e);
    } else {
      RunInvariant(e, states, steps, n - 1);
      var i := n - 1;
      InvariantMemo(e, states[i]);
      assert Next(e, states[i], steps[i]) == Some(states[i + 1]);
      StepKeeps(e, states[i], steps[i]);
    }
  }

  lemma {:induction false} InvariantMemo(e: Engine, s: System)
    requires Invariant(e, s)
    ensures Valid(s.memo)
  {
  }

  lemma InitialInvariant(e: Engine)
    ensures Invariant(e, INITIAL)
  {
  }

  /** In every run, whatever a call was answered is what the pure functions give for it. */
  lemma {:induction false} EveryAnswerIsPure(e: Engine, states: seq<System>, steps: seq<Step>, n: nat, t: nat, call: Call, reply: Reply)
    requires IsRun(e, states, steps) && n < |states|
    requires t in states[n].threads && states[n].threads[t] == Finished(call, Answered(reply))
    ensures Right(e, call, reply)
  {
    hide Right, IsRun;
    RunInvariant(e, states, steps, n);
    assert ThreadOk(e, states[n].processes, states[n].threads[t]);
  }

  /** In every run, a pooled worker has nothing unread and its helper has what the client remembers. */
  lemma {:induction false} PooledWorkersAgree(e: Engine, states: seq<System>, steps: seq<Step>, n: nat, i: nat)
    requires IsRun(e, states, steps) && n < |states| && i < |states[n].idle|
    ensures var w := states[n].idle[i];
            && w.helper in states[n].processes
            && var p := states[n].processes[w.helper];
               && p.requests == [] && p.replies == []
               && (w.pattern.Some? ==> p.helper.cached.Some? && Ok(p.helper.cached.value) == Compile(e, w.pattern.value))
               && (w.input.Some? ==> p.helper.input == w.input)
               && (p.helper.canonicalInput.Some? ==>
                     p.helper.input.Some? && p.helper.canonicalInput.value == e.canon(p.helper.input.value))
  {
    hide IsRun, Compile;
    RunInvariant(e, states, steps, n);
    assert Quiet(e, states[n].processes, states[n].idle[i]);
  }

  /** In every run, no helper ever ends on a request, and there is one worker for every process. */
  lemma {:induction false} HelpersNeverEnd(e: Engine, states: seq<System>, steps: seq<Step>, n: nat, h: nat)
    requires IsRun(e, states, steps) && n < |states| && h in states[n].processes
    ensures exists p :: OwnedAt(states[n], h, p) && forall q :: OwnedAt(states[n], h, q) ==> q == p
    ensures states[n].processes[h].requests != [] ==>
              ServeOne(e, states[n].processes[h].helper, states[n].processes[h].requests[0]).Replied?
  {
    hide IsRun, ServeOne, RequestFor;
    RunInvariant(e, states, steps, n);
    var p :| OwnedAt(states[n], h, p);
    if states[n].processes[h].requests != [] {
      var t := ServeHolder(e, states[n], h);
      AgreeAgain(e, states[n].threads[t].worker, states[n].processes[h].helper, states[n].threads[t].call);
    }
  }
}
