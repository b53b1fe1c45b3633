/**
 When a call fails and when it does not, what a request leaves out, and what a
 finished call leaves behind for the next.
 */
module RegexClientLaws {
  import opened Options
  import opened RegexMemo
  import opened RegexHelper
  import opened RegexClient
  import opened RegexClientProof

  // ---------------------------------------------------------------------
  // When a reply is refused

  predicate BadRange(range: Option<(nat, nat)>, length: nat) {
    range.Some? && (range.value.0 > range.value.1 || range.value.1 > length)
  }

  /** A match without a range of its own, or with one that is reversed or ends past the subject. */
  ghost predicate Unusable(m: Match, length: nat) {
    || m.captures == [] || m.captures[0] == None
    || (exists i :: 0 <= i < |m.captures| && BadRange(m.captures[i], length))
    || (exists i :: 0 <= i < |m.names| && BadRange(m.names[i].1, length))
  }

  /** The calls whose reply makes them an error: a search whose pattern is rejected, or whose match is unusable. */
  ghost predicate Refused(e: Engine, call: Call) {
    call.FindCall? &&
    match PureMatch(e, call.key)
    case Err(_) => true
    case Ok(found) => found.Some? && Unusable(found.value, |call.key.input|)
  }

  /** The reply to a call: what the pure functions give, or their message. */
  ghost predicate Replies(e: Engine, call: Call, reply: Reply) {
    match call
    case FindCall(key) =>
      (match PureMatch(e, key)
       case Ok(found) => reply == Found(found)
       case Err(message) => reply == SyntaxError(message))
    case _ => Right(e, call, reply)
  }

  lemma {:induction false} FindReplies(e: Engine, w: Worker, h: Helper, key: FindKey)
    requires Agrees(e, w, h)
    ensures var r := ServeOne(e, h, RequestFor(w, FindCall(key)));
            r.Replied? && Replies(e, FindCall(key), r.reply)
  {
    hide Search;
    FindAnswered(e, w, h, key);
    if w.pattern == Some(key.pattern) {
      ServeFindMeans(e, WithInput(h, RequestFor(w, FindCall(key)).input), key.start);
    } else {
      assert Pattern(key.pattern.source, key.pattern.flags) == key.pattern;
      CachePatternMeans(e, h, key.pattern);
      var (cached, ok) := CachePattern(e, h.cached, key.pattern);
      if ok.Ok? {
        ServeFindMeans(e, WithInput(h.(cached := cached), RequestFor(w, FindCall(key)).input), key.start);
      }
    }
  }

  /**
   A helper that agrees with its worker answers every call as the pure functions
   do; the client refuses the answer only when it must, and otherwise the two
   agree again.
   */
  lemma {:induction false} RequestAnswered(e: Engine, w: Worker, h: Helper, call: Call)
    requires Agrees(e, w, h)
    ensures var r := ServeOne(e, h, RequestFor(w, call));
            && r.Replied? && Replies(e, call, r.reply)
            && (Accept(w, call, r.reply).None? <==> Refused(e, call))
            && (!Refused(e, call) ==>
                  Right(e, call, r.reply) && Agrees(e, Accept(w, call, r.reply).value, r.helper))
  {
    hide PureMatch, Compile;
    AgreeAgain(e, w, h, call);
    match call
    case CompileCall(p) => CachePatternMeans(e, h, p);
    case ValidateCall(ps) => CacheAllMeans(e, h, ps);
    case FindCall(key) =>
      FindReplies(e, w, h, key);
      assert forall m: Match :: ValidMatch(m, |key.input|) <==> !Unusable(m, |key.input|);
  }

  /** Receiving fails exactly the refused calls; every other call goes on with its right reply. */
  lemma {:induction false} ReceiveDecides(e: Engine, s: System, t: nat)
    requires Invariant(e, s) && Next(e, s, Receive(t)).Some?
    ensures t in s.threads && s.threads[t].Waiting? && t in Next(e, s, Receive(t)).value.threads
    ensures var call, after := s.threads[t].call, Next(e, s, Receive(t)).value.threads[t];
            if Refused(e, call) then after == Finished(call, Failed)
            else after.Returning? && after.call == call && Right(e, call, after.reply)
  {
    hide Agrees, RequestFor, ServeOne, Accept, Refused, Replies;
    var Waiting(call, w) := s.threads[t];
    assert ThreadOk(e, s.processes, s.threads[t]);
    var p := s.processes[w.helper];
    assert Answers(e, w, call, p);
    var before: Helper :| Agrees(e, w, before) && |p.replies| == 1
                          && ServeOne(e, before, RequestFor(w, call)) == Replied(p.helper, p.replies[0]);
    RequestAnswered(e, w, before, call);
  }

  // ---------------------------------------------------------------------
  // Failures over whole runs

  ghost predicate JustFailed(s: System, s': System, t: nat, call: Call) {
    && t in s'.threads && s'.threads[t] == Finished(call, Failed)
    && !(t in s.threads && s.threads[t] == s'.threads[t])
  }

  lemma {:induction false} FailsOnly(e: Engine, s: System, step: Step, t: nat, call: Call)
    requires Invariant(e, s) && Next(e, s, step).Some? && JustFailed(s, Next(e, s, step).value, t, call)
    ensures step == Start(t, false) || step == Send(t, false) || step == Lose(t) || (step == Receive(t) && Refused(e, call))
  {
    hide Accept, ServeOne, RequestFor, Refused, Caches;
    if step == Receive(t) {
      ReceiveDecides(e, s, t);
    }
    if step.Send? && step.thread == t {
      assert ThreadOk(e, s.processes, s.threads[t]);
    }
  }

  /**
   In every run a call fails only when a helper could not be started, its request
   could not be sent, its reply was lost or late, or it is a search whose pattern
   is rejected or whose match is unusable; compiling and validating never fail on
   a reply.
   */
  lemma {:induction false} EveryFailure(e: Engine, states: seq<System>, steps: seq<Step>, i: nat, t: nat, call: Call)
    requires IsRun(e, states, steps) && i < |steps| && JustFailed(states[i], states[i + 1], t, call)
    ensures || steps[i] == Start(t, false) || steps[i] == Send(t, false) || steps[i] == Lose(t)
            || (steps[i] == Receive(t) && Refused(e, call))
  {
    hide Invariant, Next, JustFailed, Refused;
    RunInvariant(e, states, steps, i);
    InvariantMemo(e, states[i]);
    FailsOnly(e, states[i], steps[i], t, call);
  }

  ghost predicate Carries(thread: Thread, call: Call, reply: Reply) {
    match thread
    case Returning(c, _, r) => c == call && r == reply
    case Publishing(c, r) => c == call && r == reply
    case Finished(c, Answered(r)) => c == call && r == reply
    case _ => false
  }

  /** The thread's next call has begun. */
  ghost predicate BeginsAgain(step: Step, t: nat) {
    step.Begin? && step.thread == t
  }

  lemma {:induction false} CarriesOn(e: Engine, s: System, step: Step, t: nat, call: Call, reply: Reply)
    requires Valid(s.memo) && Next(e, s, step).Some? && t in s.threads && Carries(s.threads[t], call, reply)
    requires !BeginsAgain(step, t)
    ensures t in Next(e, s, step).value.threads && Carries(Next(e, s, step).value.threads[t], call, reply)
  {
    hide Accept, ServeOne, RequestFor, Valid, Remembered;
  }

  /**
   A call that receives a reply it need not refuse keeps that reply, which is
   right, until it has returned it: nothing fails it any more.
   */
  lemma {:induction false} ReceivedIsAnswered(e: Engine, states: seq<System>, steps: seq<Step>, i: nat, j: nat, t: nat,
                                              call: Call)
    requires IsRun(e, states, steps) && i < j < |states| && steps[i] == Receive(t)
    requires t in states[i].threads && states[i].threads[t].Waiting? && states[i].threads[t].call == call
    requires !Refused(e, call) && forall k :: i < k < j ==> !BeginsAgain(steps[k], t)
    ensures t in states[i + 1].threads && states[i + 1].threads[t].Returning?
    ensures var reply := states[i + 1].threads[t].reply;
            Right(e, call, reply) && t in states[j].threads && Carries(states[j].threads[t], call, reply)
    decreases j
  {
    hide Invariant, Next, Refused, Right, Carries;
    var k := j - 1;
    RunInvariant(e, states, steps, k);
    InvariantMemo(e, states[k]);
    assert Next(e, states[k], steps[k]) == Some(states[k + 1]);
    if i + 1 == j {
      ReceiveDecides(e, states[i], t);
      CarriesFirst(states[j].threads[t]);
    } else {
      ReceivedIsAnswered(e, states, steps, i, j - 1, t, call);
      CarriesOn(e, states[j - 1], steps[j - 1], t, call, states[i + 1].threads[t].reply);
    }
  }

  lemma {:induction false} CarriesFirst(thread: Thread)
    requires thread.Returning?
    ensures Carries(thread, thread.call, thread.reply)
  {
  }

  // ---------------------------------------------------------------------
  // What one call leaves for the next

  /** A search leaves out exactly what its worker last sent, and names its own start. */
  lemma {:induction false} RequestOmits(w: Worker, key: FindKey)
    ensures var r := RequestFor(w, FindCall(key));
            && r.FindRequest? && r.start == key.start
            && r.source == (if w.pattern == Some(key.pattern) then None else Some(key.pattern.source))
            && r.flags == (if w.pattern == Some(key.pattern) then None else Some(key.pattern.flags))
            && r.input == (if w.input == Some(key.input) then None else Some(key.input))
  {
    assert Pattern(key.pattern.source, key.pattern.flags) == key.pattern;
  }

  /** A worker that served a call goes back to the pool while there are fewer than eight, and is the next to be used. */
  lemma {:induction false} RecyclePools(e: Engine, s: System, t: nat, t': nat)
    requires Invariant(e, s) && Next(e, s, Recycle(t)).Some?
    ensures var w, s' := s.threads[t].worker, Next(e, s, Recycle(t)).value;
            if |s.idle| < 8 then
              && s'.idle == s.idle + [w] && s'.processes == s.processes
              && (t' in s'.threads && s'.threads[t'].Missed? && Valid(s'.memo) ==>
                    var popped := Next(e, s', Pop(t'));
                    popped.Some? && popped.value.threads[t'] == Holding(s'.threads[t'].call, w) && popped.value.idle == s.idle)
            else s'.idle == s.idle && s'.processes == s.processes - {w.helper}
  {
    hide Accept, ServeOne, RequestFor, Caches, Ownership;
  }

  /** After a search of at most 16384 units has returned its match, the same search is answered from the memo. */
  lemma {:induction false} PublishRemembers(e: Engine, s: System, t: nat, t': nat)
    requires Invariant(e, s) && Next(e, s, Publish(t)).Some?
    ensures s.threads[t].Publishing?
    ensures var call, s' := s.threads[t].call, Next(e, s, Publish(t)).value;
            && s'.threads[t] == Finished(call, Answered(s.threads[t].reply))
            && (call.FindCall? && |call.key.pattern.source| + |call.key.input| <= 16384 && Valid(s'.memo)
                && t' != t && t' in s'.threads && s'.threads[t'] == Called(call) ==>
                  Next(e, s', LookUp(t')).Some? &&
                  Next(e, s', LookUp(t')).value.threads[t'] == Finished(call, Answered(s.threads[t].reply)))
            && (call.CompileCall? && Compile(e, call.pattern).Ok? && |call.pattern.source| <= 16384 && Valid(s'.memo)
                && t' != t && t' in s'.threads && s'.threads[t'] == Called(call) ==>
                  Next(e, s', LookUp(t')).Some? &&
                  Next(e, s', LookUp(t')).value.threads[t'] == Finished(call, Answered(PatternCompiled)))
  {
    hide ServeOne, RequestFor, Ownership, Accept;
    var Publishing(call, reply) := s.threads[t];
    assert ThreadOk(e, s.processes, s.threads[t]);
    if call.FindCall? {
      if |call.key.pattern.source| + |call.key.input| <= 16384 {
        RememberedKeeps(e, s, call.key, reply.found);
      }
    }
  }

  lemma {:induction false} RememberedKeeps(e: Engine, s: System, key: FindKey, found: Option<Match>)
    requires Caches(e, s) && PureMatch(e, key) == Ok(found) && |key.pattern.source| + |key.input| <= 16384
    ensures var r := Remembered(s.memo, key, found); key in r.results && r.results[key] == found
  {
    hide Valid, Evict, PureMatch;
    RememberedValid(s.memo, key, found);
  }

  /**
   The accepted patterns: at most 1024; a pattern of more than 16384 units or one
   that is rejected changes nothing, and any other is added, to the ones before or,
   when there are already 1024, to none.
   */
  lemma {:induction false} AcceptedPatterns(e: Engine, s: System, t: nat)
    requires Invariant(e, s) && Next(e, s, Publish(t)).Some? && s.threads[t].call.CompileCall?
    ensures |s.accepted| <= 1024
    ensures var p, s' := s.threads[t].call.pattern, Next(e, s, Publish(t)).value;
            forall q: Pattern :: q in s'.accepted <==>
              if Compile(e, p).Ok? && |p.source| <= 16384
              then q == p || (|s.accepted| < 1024 && q in s.accepted)
              else q in s.accepted
  {
    hide ServeOne, RequestFor, Ownership, Accept, Compile, PureMatch;
    assert ThreadOk(e, s.processes, s.threads[t]);
  }
}
