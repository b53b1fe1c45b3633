/**
 The two halves together: what a run answers to a case-insensitive search is
 the match the specification defines by comparing through Canonicalize.
 */
module RegexEndToEnd {
  import opened Options
  import opened CodeUnits
  import opened RegexMemo
  import opened RegexHelper
  import opened RegexClient
  import opened RegexClientProof
  import Matcher = RegexMatcher
  import Reader = RegexReader
  import Rewrite = RegexRewrite
  import Meaning = RegexMeaning

  /** The case-insensitive patterns the rewrite is for. */
  predicate Insensitive(flags: string) {
    'i' in flags && 'u' !in flags && 'v' !in flags
  }

  /** How the library sees a pattern: its group count, and the form its matches take. */
  datatype Library = Library(
    count: seq<nat> -> (nat, bool),
    decode: seq<nat> -> seq<nat>,
    form: (seq<nat>, Option<Matcher.Match>) -> Option<Match>)

  function ModeOf(lib: Library, flags: string): Reader.Mode {
    Reader.Mode('m' in flags, 's' in flags, lib.decode)
  }

  ghost function Specified(lib: Library, text: seq<nat>, flags: string, comparison: Matcher.Comparison,
                           subject: Units, start: nat): Reader.Verdict
  {
    var (groups, named) := lib.count(text);
    Reader.FindText(text, groups, named, ModeOf(lib, flags), comparison, subject, start)
  }

  /** The rewrite of a pattern, with the group count the library gives its text. */
  function RewriteOf(lib: Library, c: Unit -> Unit, p: Pattern): Option<seq<nat>> {
    var (groups, named) := lib.count(p.source);
    Rewrite.RewritePattern(c, p.source, groups, named)
  }

  /** The program the library is given for a pattern that was rewritten. */
  function ProgramOf(e: Engine, p: Pattern): Program {
    Program(e.points(p).0, LibraryFlags(p.flags, true))
  }

  /**
   What is asked of the engine for one pattern with a rewrite: it canonicalizes subjects as `c` does, it hands on
   the rewrite (in a form that may be adjusted further), and its library, where it accepts that one program, finds
   in every subject what the rewrite is specified to match there exactly.
   */
  ghost predicate Implements(e: Engine, lib: Library, c: Unit -> Unit, p: Pattern)
    requires RewriteOf(lib, c, p).Some?
  {
    && (forall s: Units :: e.canon(s) == Mapped(c, s))
    && e.points(p).1
    && (e.rejects(ProgramOf(e, p)).None? ==>
          forall subject: Units, start: nat | start <= |subject| ::
            var verdict := Specified(lib, RewriteOf(lib, c, p).value, p.flags, Matcher.Exact, subject, start);
            && verdict.Found?
            && e.search(ProgramOf(e, p), false, subject, start) == lib.form(e.points(p).0, verdict.found))
  }

  /** A pattern the rewrite serves: insensitive, rewritten with its groups kept, and without an escaped comma in braces. */
  predicate Served(lib: Library, c: Unit -> Unit, p: Pattern) {
    && Insensitive(p.flags)
    && RewriteOf(lib, c, p).Some?
    && var (groups, named) := lib.count(p.source);
       && lib.count(RewriteOf(lib, c, p).value) == (groups, named)
       && !Meaning.HasEscapedComma(p.source, groups, named)
  }

  /** The search behind a rewritten pattern finds the case-insensitive match of the original. */
  lemma {:induction false} PureMatchIsSpecified(e: Engine, lib: Library, c: Unit -> Unit, key: FindKey)
    requires Sound(c) && key.start <= |key.input|
    requires Served(lib, c, key.pattern) && Implements(e, lib, c, key.pattern)
    requires PureMatch(e, key).Ok?
    ensures var verdict := Specified(lib, key.pattern.source, key.pattern.flags, Matcher.Folded(c), key.input, key.start);
            verdict.Found? && PureMatch(e, key) == Ok(lib.form(e.points(key.pattern).0, verdict.found))
  {
    hide Reader.FindText, Rewrite.RewritePattern, Meaning.HasEscapedComma;
    var p := key.pattern;
    var (groups, named) := lib.count(p.source);
    var out := RewriteOf(lib, c, p).value;
    assert Compile(e, p) == Ok(Compiled(p, ProgramOf(e, p), true));
    Meaning.RewriteKeepsMeaning(c, p.source, groups, named, ModeOf(lib, p.flags), key.input, key.start);
    var verdict := Specified(lib, out, p.flags, Matcher.Exact, Mapped(c, key.input), key.start);
    assert verdict.Found? && e.search(ProgramOf(e, p), false, Mapped(c, key.input), key.start)
                             == lib.form(e.points(p).0, verdict.found);
  }

  /** In every run, an answered case-insensitive search is the specified match. */
  lemma {:induction false} EveryInsensitiveAnswer(e: Engine, lib: Library, c: Unit -> Unit, states: seq<System>,
                                                  steps: seq<Step>, n: nat, t: nat, key: FindKey, reply: Reply)
    requires IsRun(e, states, steps) && n < |states|
    requires t in states[n].threads && states[n].threads[t] == Finished(FindCall(key), Answered(reply))
    requires Sound(c) && key.start <= |key.input|
    requires Served(lib, c, key.pattern) && Implements(e, lib, c, key.pattern)
    ensures var verdict := Specified(lib, key.pattern.source, key.pattern.flags, Matcher.Folded(c), key.input, key.start);
            verdict.Found? && reply == Found(lib.form(e.points(key.pattern).0, verdict.found))
  {
    hide IsRun, Implements, Specified, PureMatch, Rewrite.RewritePattern, Meaning.HasEscapedComma;
    EveryAnswerIsPure(e, states, steps, n, t, FindCall(key), reply);
    PureMatchIsSpecified(e, lib, c, key);
  }

  /** For every such pattern that parses there is an engine that implements it, whatever it does with others. */
  lemma {:induction false} ImplementsIsMet(lib: Library, c: Unit -> Unit, p: Pattern, other: Engine) returns (e: Engine)
    requires RewriteOf(lib, c, p).Some?
    requires forall subject: Units, start: nat ::
               Specified(lib, RewriteOf(lib, c, p).value, p.flags, Matcher.Exact, subject, start).Found?
    ensures Implements(e, lib, c, p) && e.rejects == other.rejects
    ensures forall q: Pattern :: q != p ==> e.points(q) == other.points(q)
    ensures forall program: Program, unicode: bool, subject: Units, start: nat :: program != ProgramOf(e, p) ==>
              e.search(program, unicode, subject, start) == other.search(program, unicode, subject, start)
  {
    hide Reader.FindText, Rewrite.RewritePattern, LibraryFlags;
    var out := RewriteOf(lib, c, p).value;
    var program := Program(out, LibraryFlags(p.flags, true));
    e := Engine(
      q => if q == p then (out, true) else other.points(q),
      other.rejects,
      (given: Program, unicode: bool, subject: Units, start: nat) =>
        if given != program then other.search(given, unicode, subject, start)
        else lib.form(out, Specified(lib, out, p.flags, Matcher.Exact, subject, start).found),
      s => Mapped(c, s));
  }
}
