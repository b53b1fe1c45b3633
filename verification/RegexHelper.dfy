/**
 The helper process: one request at a time, with a pattern, a subject and a
 canonical-subject cache that later requests may rely on.
 */
module RegexHelper {
  import opened Options
  import opened RegexMemo

  datatype Result<+T> = Ok(value: T) | Err(message: string)

  /** A pattern the matching library accepted, which determines its compiled form. */
  datatype Program = Program(points: seq<nat>, flags: string)

  /**
   What the helper calls: the text handed to the matching library and whether
   it was canonicalized, the library's rejection message and its search, and
   the subject map.
   */
  datatype Engine = Engine(
    points: Pattern -> (seq<nat>, bool),
    rejects: Program -> Option<string>,
    search: (Program, bool, Units, nat) -> Option<Match>,
    canon: Units -> Units)

  datatype Compiled = Compiled(pattern: Pattern, program: Program, canonical: bool)

  function Without(flags: string, flag: char): string {
    if flags == "" then ""
    else (if flags[0] == flag then "" else [flags[0]]) + Without(flags[1..], flag)
  }

  function LibraryFlags(flags: string, canonical: bool): string {
    var kept := if canonical then Without(flags, 'i') else flags;
    if 'v' in kept && 'u' !in kept then kept + "u" else kept
  }

  /** Compiling depends on the pattern alone. */
  function Compile(e: Engine, p: Pattern): Result<Compiled> {
    var (points, canonical) := e.points(p);
    var program := Program(points, LibraryFlags(p.flags, canonical));
    match e.rejects(program)
    case Some(message) => Err(message)
    case None => Ok(Compiled(p, program, canonical))
  }

  function Search(e: Engine, c: Compiled, input: Units, subject: Units, start: nat): Option<Match> {
    if start > |input| then None
    else e.search(c.program, 'u' in c.pattern.flags || 'v' in c.pattern.flags, subject, start)
  }

  /** The match a request stands for, computed from nothing but the request. */
  function PureMatch(e: Engine, key: FindKey): Result<Option<Match>> {
    match Compile(e, key.pattern)
    case Err(message) => Err(message)
    case Ok(c) => Ok(Search(e, c, key.input, if c.canonical then e.canon(key.input) else key.input, key.start))
  }

  // ---------------------------------------------------------------------

  datatype Request =
    | CompileRequest(pattern: Pattern)
    | FindRequest(source: Option<Units>, flags: Option<string>, input: Option<Units>, start: nat)
    | ValidateRequest(patterns: seq<Pattern>)
    | Shutdown

  datatype Reply =
    | PatternCompiled
    | Found(found: Option<Match>)
    | Validated(valid: seq<bool>)
    | SyntaxError(message: string)

  datatype Helper = Helper(cached: Option<Compiled>, input: Option<Units>, canonicalInput: Option<Units>)

  const FRESH: Helper := Helper(None, None, None)

  /** A reply, or the end of the process: a shutdown or a request it cannot answer. */
  datatype Served = Replied(helper: Helper, reply: Reply) | Exited(clean: bool)

  function CachePattern(e: Engine, cached: Option<Compiled>, p: Pattern): (Option<Compiled>, Result<bool>) {
    if cached.Some? && cached.value.pattern == p then (cached, Ok(true))
    else
      match Compile(e, p)
      case Err(message) => (cached, Err(message))
      case Ok(c) => (Some(c), Ok(true))
  }

  function CacheAll(e: Engine, cached: Option<Compiled>, ps: seq<Pattern>): (Option<Compiled>, seq<bool>)
    decreases |ps|
  {
    if ps == [] then (cached, [])
    else
      var (next, ok) := CachePattern(e, cached, ps[0]);
      var (last, rest) := CacheAll(e, next, ps[1..]);
      (last, [ok.Ok?] + rest)
  }

  function ServeFind(e: Engine, h: Helper, start: nat): Served {
    if h.input.None? || h.cached.None? then Exited(false)
    else
      var (c, input) := (h.cached.value, h.input.value);
      if c.canonical then
        var subject := if h.canonicalInput.Some? then h.canonicalInput.value else e.canon(input);
        Replied(h.(canonicalInput := Some(subject)), Found(Search(e, c, input, subject, start)))
      else
        Replied(h, Found(Search(e, c, input, input, start)))
  }

  function WithInput(h: Helper, input: Option<Units>): Helper {
    if input.None? then h else h.(input := input, canonicalInput := None)
  }

  function ServeOne(e: Engine, h: Helper, request: Request): Served {
    match request
    case Shutdown => Exited(true)
    case CompileRequest(p) =>
      (match CachePattern(e, h.cached, p)
       case (cached, Ok(_)) => Replied(h.(cached := cached), PatternCompiled)
       case (cached, Err(message)) => Replied(h.(cached := cached), SyntaxError(message)))
    case ValidateRequest(ps) =>
      var (cached, valid) := CacheAll(e, h.cached, ps);
      Replied(h.(cached := cached), Validated(valid))
    case FindRequest(source, flags, input, start) =>
      if source.None? then
        if flags.Some? then Exited(false) else ServeFind(e, WithInput(h, input), start)
      else if flags.None? then Exited(false)
      else
        match CachePattern(e, h.cached, Pattern(source.value, flags.value))
        case (cached, Err(message)) => Replied(h.(cached := cached), SyntaxError(message))
        case (cached, Ok(_)) => ServeFind(e, WithInput(h.(cached := cached), input), start)
  }

  /** The replies to a sequence of requests, up to the one that ends the process. */
  function ServeAll(e: Engine, h: Helper, requests: seq<Request>): seq<Reply>
    decreases |requests|
  {
    if requests == [] then []
    else
      match ServeOne(e, h, requests[0])
      case Exited(_) => []
      case Replied(next, reply) => [reply] + ServeAll(e, next, requests[1..])
  }

  // ---------------------------------------------------------------------
  // What the caches mean

  /** The caches hold only what the pure functions give for their own keys. */
  ghost predicate Consistent(e: Engine, h: Helper) {
    && (h.cached.Some? ==> Compile(e, h.cached.value.pattern) == Ok(h.cached.value))
    && (h.canonicalInput.Some? ==> h.input.Some? && h.canonicalInput.value == e.canon(h.input.value))
  }

  lemma CachePatternMeans(e: Engine, h: Helper, p: Pattern)
    requires Consistent(e, h)
    ensures var (cached, ok) := CachePattern(e, h.cached, p);
            && Consistent(e, h.(cached := cached))
            && (ok.Ok? <==> Compile(e, p).Ok?)
            && (ok.Ok? ==> cached == Some(Compile(e, p).value))
            && (ok.Err? ==> cached == h.cached && Compile(e, p) == Err(ok.message))
  {
  }

  lemma {:induction false} CacheAllMeans(e: Engine, h: Helper, ps: seq<Pattern>)
    requires Consistent(e, h)
    ensures var (cached, valid) := CacheAll(e, h.cached, ps);
            && Consistent(e, h.(cached := cached))
            && |valid| == |ps|
            && forall i :: 0 <= i < |ps| ==> valid[i] == Compile(e, ps[i]).Ok?
    decreases |ps|
  {
    if ps != [] {
      CachePatternMeans(e, h, ps[0]);
      CacheAllMeans(e, h.(cached := CachePattern(e, h.cached, ps[0]).0), ps[1..]);
    }
  }

  /** From consistent caches a search answers for exactly the cached pattern and subject. */
  lemma ServeFindMeans(e: Engine, h: Helper, start: nat)
    requires Consistent(e, h) && h.input.Some? && h.cached.Some?
    ensures var r := ServeFind(e, h, start);
            && r.Replied? && Consistent(e, r.helper)
            && r.helper.cached == h.cached && r.helper.input == h.input
            && r.reply.Found?
            && PureMatch(e, FindKey(h.cached.value.pattern, h.input.value, start)) == Ok(r.reply.found)
  {
  }

  lemma {:induction false} WithoutDrops(flags: string, flag: char)
    ensures forall f: char :: f in Without(flags, flag) <==> f in flags && f != flag
  {
    if flags != "" {
      WithoutDrops(flags[1..], flag);
      assert flags == [flags[0]] + flags[1..];
    }
  }

  /** A rewritten pattern loses the flag `i`; `v` brings `u`; every other flag is handed on. */
  lemma {:induction false} FlagsHandedOn(flags: string, canonical: bool, f: char)
    ensures f in LibraryFlags(flags, canonical) <==> (f in flags && !(canonical && f == 'i')) || (f == 'u' && 'v' in flags)
  {
    WithoutDrops(flags, 'i');
  }

  /**
   The pure match, by what the library is asked: the text of the pattern, its
   flags as handed on, Unicode matching for `u` and `v`, the canonical subject
   for a rewritten pattern, and nothing for a start past the end.
   */
  lemma {:induction false} PureMatchAsks(e: Engine, key: FindKey) returns (flags: string)
    ensures var (points, canonical) := e.points(key.pattern);
            && (forall f: char :: f in flags <==>
                  (f in key.pattern.flags && !(canonical && f == 'i')) || (f == 'u' && 'v' in key.pattern.flags))
            && (e.rejects(Program(points, flags)).Some? ==>
                  PureMatch(e, key) == Err(e.rejects(Program(points, flags)).value))
            && (e.rejects(Program(points, flags)).None? && key.start > |key.input| ==> PureMatch(e, key) == Ok(None))
            && (e.rejects(Program(points, flags)).None? && key.start <= |key.input| ==>
                  var unicode := 'u' in key.pattern.flags || 'v' in key.pattern.flags;
                  var subject := if canonical then e.canon(key.input) else key.input;
                  PureMatch(e, key) == Ok(e.search(Program(points, flags), unicode, subject, key.start)))
  {
    var canonical := e.points(key.pattern).1;
    flags := LibraryFlags(key.pattern.flags, canonical);
    forall f: char ensures f in flags <==>
                           (f in key.pattern.flags && !(canonical && f == 'i')) || (f == 'u' && 'v' in key.pattern.flags)
    {
      FlagsHandedOn(key.pattern.flags, canonical, f);
    }
  }

  /** The process ends on a shutdown, and on a search that gives half a pattern or lacks a pattern or a subject. */
  lemma {:induction false} EndsIff(e: Engine, h: Helper, request: Request)
    ensures ServeOne(e, h, request).Exited? <==>
            || request.Shutdown?
            || (request.FindRequest? && request.source.Some? != request.flags.Some?)
            || (request.FindRequest? && request.source.None? && request.flags.None? && h.cached.None?)
            || (request.FindRequest? && request.input.None? && h.input.None?
                && (request.source.Some? && request.flags.Some? ==>
                      CachePattern(e, h.cached, Pattern(request.source.value, request.flags.value)).1.Ok?))
    ensures ServeOne(e, h, request) == Exited(true) <==> request.Shutdown?
  {
  }

  /** One turn of the loop, on its three variables; no reply means that the process ends. */
  method Serve(e: Engine, cached: Option<Compiled>, cachedInput: Option<Units>, canonicalInput: Option<Units>,
               request: Request)
    returns (pattern: Option<Compiled>, input: Option<Units>, canonical: Option<Units>, reply: Option<Reply>)
    ensures match ServeOne(e, Helper(cached, cachedInput, canonicalInput), request)
            case Exited(_) => reply.None?
            case Replied(next, answer) => reply == Some(answer) && next == Helper(pattern, input, canonical)
  {
    hide Compile, Search;
    pattern, input, canonical, reply := cached, cachedInput, canonicalInput, None;
    match request
    case Shutdown =>
    case CompileRequest(p) =>
      var (next, ok) := CachePattern(e, cached, p);
      pattern, reply := next, Some(if ok.Ok? then PatternCompiled else SyntaxError(ok.message));
    case ValidateRequest(ps) =>
      var (next, valid) := CacheAll(e, cached, ps);
      pattern, reply := next, Some(Validated(valid));
    case FindRequest(source, flags, newInput, start) =>
      if source.Some? {
        if flags.None? { return; }
        var (next, ok) := CachePattern(e, cached, Pattern(source.value, flags.value));
        pattern := next;
        if ok.Err? {
          reply := Some(SyntaxError(ok.message));
          return;
        }
      } else if flags.Some? {
        return;
      }
      if newInput.Some? { input, canonical := newInput, None; }
      if input.None? || pattern.None? { return; }
      var subject := input.value;
      if pattern.value.canonical {
        if canonical.None? { canonical := Some(e.canon(input.value)); }
        subject := canonical.value;
      }
      reply := Some(Found(Search(e, pattern.value, input.value, subject, start)));
  }

  /** The process: requests are answered in order from caches that outlive each request. */
  method ServeOn(e: Engine, requests: seq<Request>) returns (replies: seq<Reply>)
    ensures replies == ServeAll(e, FRESH, requests)
  {
    hide ServeOne;
    var cached: Option<Compiled> := None;
    var cachedInput: Option<Units> := None;
    var canonicalInput: Option<Units> := None;
    replies := [];
    var i := 0;
    assert requests[0..] == requests;
    while i < |requests|
      invariant i <= |requests|
      invariant replies + ServeAll(e, Helper(cached, cachedInput, canonicalInput), requests[i..])
             == ServeAll(e, FRESH, requests)
      decreases |requests| - i
    {
      assert requests[i..][1..] == requests[i + 1..];
      var reply;
      cached, cachedInput, canonicalInput, reply := Serve(e, cached, cachedInput, canonicalInput, requests[i]);
      if reply.None? { return; }
      replies := replies + [reply.value];
      i := i + 1;
    }
  }
}
