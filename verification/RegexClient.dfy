/**
 The client side of the process-isolated matcher, for any number of threads: a
 pool of workers that remember what their helper has cached, a memo in front,
 and helpers that answer in order or are lost.
 */
module RegexClient {
  import opened Options
  import opened RegexMemo
  import opened RegexHelper

  const MAX_IDLE_WORKERS: nat := 8
  const ACCEPTED_ENTRIES: nat := 1024
  const ACCEPTED_KEY_UNITS: nat := 16 * 1024

  /** The client's end of a helper: its process and what the client believes it has cached. */
  datatype Worker = Worker(helper: nat, pattern: Option<Pattern>, input: Option<Units>)

  /** A helper process with the pipes to and from it. */
  datatype Process = Process(helper: Helper, requests: seq<Request>, replies: seq<Reply>)

  datatype Call = FindCall(key: FindKey) | CompileCall(pattern: Pattern) | ValidateCall(patterns: seq<Pattern>)

  datatype Outcome = Answered(reply: Reply) | Failed

  /** Where a thread stands between two atomic sections. */
  datatype Thread =
    | Called(call: Call)
    | Missed(call: Call)
    | Starting(call: Call)
    | Holding(call: Call, worker: Worker)
    | Waiting(call: Call, worker: Worker)
    | Returning(call: Call, worker: Worker, reply: Reply)
    | Publishing(call: Call, reply: Reply)
    | Finished(call: Call, outcome: Outcome)

  datatype System = System(
    idle: seq<Worker>,
    memo: Memo,
    accepted: set<Pattern>,
    processes: map<nat, Process>,
    started: nat,
    threads: map<nat, Thread>)

  const INITIAL: System := System([], EMPTY, {}, map[], 0, map[])

  // ---------------------------------------------------------------------
  // Requests and replies

  /** A field the worker remembers sending is left out. */
  function RequestFor(w: Worker, call: Call): Request {
    match call
    case CompileCall(p) => CompileRequest(p)
    case ValidateCall(ps) => ValidateRequest(ps)
    case FindCall(key) =>
      var includePattern := w.pattern != Some(key.pattern);
      var includeInput := w.input != Some(key.input);
      FindRequest(if includePattern then Some(key.pattern.source) else None,
                  if includePattern then Some(key.pattern.flags) else None,
                  if includeInput then Some(key.input) else None,
                  key.start)
  }

  predicate RangeWithin(range: Option<(nat, nat)>, length: nat) {
    range.Some? ==> range.value.0 <= range.value.1 <= length
  }

  predicate ValidMatch(m: Match, length: nat) {
    && m.captures != [] && m.captures[0].Some?
    && (forall i :: 0 <= i < |m.captures| ==> RangeWithin(m.captures[i], length))
    && (forall i :: 0 <= i < |m.names| ==> RangeWithin(m.names[i].1, length))
  }

  /** The worker after a usable reply; `None` makes the operation an error. */
  function Accept(w: Worker, call: Call, reply: Reply): Option<Worker> {
    match call
    case CompileCall(p) => Some(if reply == PatternCompiled then w.(pattern := Some(p)) else w)
    case ValidateCall(_) => if reply.Validated? then Some(w.(pattern := None, input := None)) else None
    case FindCall(key) =>
      if reply.Found? && (reply.found.Some? ==> ValidMatch(reply.found.value, |key.input|)) then
        Some(w.(pattern := Some(key.pattern), input := Some(key.input)))
      else None
  }

  // ---------------------------------------------------------------------
  // Atomic steps

  datatype Step =
    | Begin(thread: nat, call: Call)
    | LookUp(thread: nat)
    | Pop(thread: nat)
    | Start(thread: nat, ready: bool)
    | Send(thread: nat, fits: bool)
    | Serve(helper: nat)
    | Receive(thread: nat)
    | Lose(thread: nat)
    | Recycle(thread: nat)
    | Publish(thread: nat)

  function Set(s: System, t: nat, thread: Thread): System {
    s.(threads := s.threads[t := thread])
  }

  /** A failed or surplus worker is dropped with its process. */
  function Retire(s: System, h: nat): System {
    s.(processes := s.processes - {h})
  }

  function Cached(s: System, call: Call): Option<Reply> {
    match call
    case FindCall(key) => if key in s.memo.results then Some(Found(s.memo.results[key])) else None
    case CompileCall(p) => if p in s.accepted then Some(PatternCompiled) else None
    case ValidateCall(_) => None
  }

  function Published(s: System, call: Call, reply: Reply): System
    requires Valid(s.memo)
  {
    match call
    case FindCall(key) => if reply.Found? then s.(memo := Remembered(s.memo, key, reply.found)) else s
    case CompileCall(p) =>
      if reply == PatternCompiled && |p.source| <= ACCEPTED_KEY_UNITS then
        s.(accepted := (if |s.accepted| >= ACCEPTED_ENTRIES then {} else s.accepted) + {p})
      else s
    case ValidateCall(_) => s
  }

  predicate At(s: System, t: nat) {
    t in s.threads
  }

  /** The state after `step`, or `None` where the step is not possible. */
  function Next(e: Engine, s: System, step: Step): Option<System>
    requires Valid(s.memo)
  {
    match step
    case Begin(t, call) =>
      if At(s, t) && !s.threads[t].Finished? then None else Some(Set(s, t, Called(call)))
    case LookUp(t) =>
      if !At(s, t) || !s.threads[t].Called? then None
      else
        var call := s.threads[t].call;
        var known := Cached(s, call);
        Some(Set(s, t, if known.Some? then Finished(call, Answered(known.value)) else Missed(call)))
    case Pop(t) =>
      if !At(s, t) || !s.threads[t].Missed? then None
      else
        var (call, n) := (s.threads[t].call, |s.idle|);
        if n == 0 then Some(Set(s, t, Starting(call)))
        else Some(Set(s.(idle := s.idle[..n - 1]), t, Holding(call, s.idle[n - 1])))
    case Start(t, ready) =>
      if !At(s, t) || !s.threads[t].Starting? then None
      else
        var (call, h) := (s.threads[t].call, s.started);
        if !ready then Some(Set(s, t, Finished(call, Failed)))
        else Some(Set(s.(started := h + 1, processes := s.processes[h := Process(FRESH, [], [])]),
                      t, Holding(call, Worker(h, None, None))))
    case Send(t, fits) =>
      if !At(s, t) || !s.threads[t].Holding? then None
      else
        var Holding(call, w) := s.threads[t];
        if !fits || w.helper !in s.processes then Some(Set(Retire(s, w.helper), t, Finished(call, Failed)))
        else
          var p := s.processes[w.helper];
          var sent := p.(requests := p.requests + [RequestFor(w, call)]);
          Some(Set(s.(processes := s.processes[w.helper := sent]), t, Waiting(call, w)))
    case Serve(h) =>
      if h !in s.processes || s.processes[h].requests == [] then None
      else
        var p := s.processes[h];
        (match ServeOne(e, p.helper, p.requests[0])
         case Exited(_) => Some(Retire(s, h))
         case Replied(helper, reply) =>
           Some(s.(processes := s.processes[h := Process(helper, p.requests[1..], p.replies + [reply])])))
    case Receive(t) =>
      if !At(s, t) || !s.threads[t].Waiting? then None
      else
        var Waiting(call, w) := s.threads[t];
        if w.helper !in s.processes || s.processes[w.helper].replies == [] then None
        else
          var p := s.processes[w.helper];
          var read := s.(processes := s.processes[w.helper := p.(replies := p.replies[1..])]);
          (match Accept(w, call, p.replies[0])
           case None => Some(Set(Retire(read, w.helper), t, Finished(call, Failed)))
           case Some(w') => Some(Set(read, t, Returning(call, w', p.replies[0]))))
    case Lose(t) => // a timeout, a broken pipe or an unreadable reply
      if !At(s, t) || !s.threads[t].Waiting? then None
      else Some(Set(Retire(s, s.threads[t].worker.helper), t, Finished(s.threads[t].call, Failed)))
    case Recycle(t) =>
      if !At(s, t) || !s.threads[t].Returning? then None
      else
        var Returning(call, w, reply) := s.threads[t];
        if |s.idle| < MAX_IDLE_WORKERS then Some(Set(s.(idle := s.idle + [w]), t, Publishing(call, reply)))
        else Some(Set(Retire(s, w.helper), t, Publishing(call, reply)))
    case Publish(t) =>
      if !At(s, t) || !s.threads[t].Publishing? then None
      else
        var Publishing(call, reply) := s.threads[t];
        Some(Set(Published(s, call, reply), t, Finished(call, Answered(reply))))
  }

  // ---------------------------------------------------------------------
  // What every reachable state satisfies

  /** The reply is the one the pure functions give for this very call. */
  ghost predicate Right(e: Engine, call: Call, reply: Reply) {
    match call
    case FindCall(key) => reply.Found? && PureMatch(e, key) == Ok(reply.found)
    case CompileCall(p) =>
      (match Compile(e, p)
       case Ok(_) => reply == PatternCompiled
       case Err(message) => reply == SyntaxError(message))
    case ValidateCall(ps) =>
      && reply.Validated? && |reply.valid| == |ps|
      && forall i :: 0 <= i < |ps| ==> reply.valid[i] == Compile(e, ps[i]).Ok?
  }

  /** What the client remembers is what the helper has cached. */
  ghost predicate Agrees(e: Engine, w: Worker, h: Helper) {
    && Consistent(e, h)
    && (w.pattern.Some? ==> h.cached.Some? && h.cached.value.pattern == w.pattern.value)
    && (w.input.Some? ==> h.input == w.input)
  }

  ghost predicate Quiet(e: Engine, ps: map<nat, Process>, w: Worker) {
    && w.helper in ps
    && var p := ps[w.helper];
       p.requests == [] && p.replies == [] && Agrees(e, w, p.helper)
  }

  /** The reply on its way answers this worker's one request, from a helper that agreed with it. */
  ghost predicate Answers(e: Engine, w: Worker, call: Call, p: Process) {
    exists before: Helper :: Agrees(e, w, before) && |p.replies| == 1
                             && ServeOne(e, before, RequestFor(w, call)) == Replied(p.helper, p.replies[0])
  }

  ghost predicate InFlight(e: Engine, ps: map<nat, Process>, w: Worker, call: Call) {
    && w.helper in ps
    && var p := ps[w.helper];
       || (p.requests == [RequestFor(w, call)] && p.replies == [] && Agrees(e, w, p.helper))
       || (p.requests == [] && Answers(e, w, call, p))
  }

  ghost predicate ThreadOk(e: Engine, ps: map<nat, Process>, thread: Thread) {
    match thread
    case Holding(_, w) => Quiet(e, ps, w)
    case Waiting(call, w) => InFlight(e, ps, w, call)
    case Returning(call, w, reply) => Quiet(e, ps, w) && Right(e, call, reply)
    case Publishing(call, reply) => Right(e, call, reply)
    case Finished(call, Answered(reply)) => Right(e, call, reply)
    case _ => true
  }

  /** A worker is in the pool or held by a thread. */
  datatype Place = InPool(index: nat) | InThread(thread: nat)

  ghost function WorkerAt(s: System, place: Place): Option<Worker> {
    match place
    case InPool(i) => if i < |s.idle| then Some(s.idle[i]) else None
    case InThread(t) =>
      if t !in s.threads then None
      else
        match s.threads[t]
        case Holding(_, w) => Some(w)
        case Waiting(_, w) => Some(w)
        case Returning(_, w, _) => Some(w)
        case _ => None
  }

  ghost predicate OwnedAt(s: System, h: nat, place: Place) {
    WorkerAt(s, place).Some? && WorkerAt(s, place).value.helper == h
  }

  /** Every process has exactly one worker, and every worker a process of its own. */
  ghost predicate Ownership(s: System) {
    && (forall h, p, q :: OwnedAt(s, h, p) && OwnedAt(s, h, q) ==> p == q)
    && (forall h, p :: OwnedAt(s, h, p) ==> h in s.processes)
    && (forall h :: h in s.processes ==> h < s.started && exists p :: OwnedAt(s, h, p))
  }

  ghost predicate Caches(e: Engine, s: System) {
    && Valid(s.memo)
    && (forall key :: key in s.memo.results ==> PureMatch(e, key) == Ok(s.memo.results[key]))
    && (forall p :: p in s.accepted ==> Compile(e, p).Ok?)
    && |s.accepted| <= ACCEPTED_ENTRIES
  }

  ghost predicate Invariant(e: Engine, s: System) {
    && Caches(e, s)
    && Ownership(s)
    && |s.idle| <= MAX_IDLE_WORKERS
    && (forall i :: 0 <= i < |s.idle| ==> Quiet(e, s.processes, s.idle[i]))
    && (forall t :: t in s.threads ==> ThreadOk(e, s.processes, s.threads[t]))
  }
}
