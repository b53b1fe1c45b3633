# BlueJS in Dafny

A model of the parts of the BlueJS JavaScript engine whose correctness rests on
an argument rather than on a table, with the argument carried out.

- **Case-insensitive regular expressions.** The pattern rewrite that replaces
  "compare through Canonicalize" (section 22.2.2.7.3 of ECMA-262) by an exact
  match on a mapped pattern and a mapped subject. A backtracking matcher over
  syntax trees gives patterns their meaning; the rewrite is a pass over their
  text. (`Options`, `CodeUnits`, `RegexMatcher`, `RegexMatcherLaws`, `RegexReader`,
  `RegexGrammar`, `RegexRewrite`, `RegexRewriteProof`, `RegexMeaning`,
  `RegexRewriter`, `RegexSpelling`)
- **The regex helper processes.** Threads, a pool of helpers, requests that
  leave out what a helper is believed to have cached, timeouts, and a bounded
  memo, as a transition system over whole runs. (`RegexMemo`, `RegexHelper`,
  `RegexClient`, `RegexClientProof`, `RegexClientLaws`, `RegexEndToEnd`)
- **Exact numbers.** Rounding of binary, octal and hexadecimal text of any
  length, and the tie test behind Number-to-string. (`Powers`, `RadixNumber`,
  `DecimalTie`)
- **The page runtime.** Realms, programs, generations, module graphs and
  debugger frames: ownership, accounting and identity over whole runs.
  (`PageState`, `PageProof`, `PageRuns`, `PageRuntime`)
- **Map and Set storage.** A hash index with tombstones against an
  insertion-ordered association list. (`SameValueZero`, `AssociationList`,
  `OrderedCollection`)
- **Atomics waiters.** Registering, waiting, timing out and notifying, one lock
  section at a time. (`WaitQueue`, `WaitProtocol`)
- **The calendar formula** of plain Temporal values. (`Calendar`)
- **URI and Annex B coders** over UTF-16, with strict UTF-8 and an output
  bound. (`Utf`, `UriCoding`, `UriProof`, `UriMethods`, `UriLaws`)
- **Bytecode.** Emission, patching, decoding and the safe points of a tree of
  code units. (`Bytecode`, `SafePoints`)
- **Annex B function hoisting.** (`AnnexB`, `AnnexBLaws`)

Where the source changes things in place the model has classes and methods with
loops; each is tied to a function of the old state, and the properties are
proved of that function. Libraries that are not part of the repository's own
text appear as parameters: the upper-case table, the matching library, the hash
function, the virtual machine's answers, and the compiler's output.

Three statements one would like to make are false of the code, and are recorded
with their exact conditions:

- The rewrite changes the syntax tree of a pattern exactly when an escaped comma
  stands in braces where a plain one would make them a quantifier, as in
  `a{0\,}`: the comma is emitted raw (`RewriteKeepsTreeIff`). Without such a comma
  the meaning is kept (`RewriteKeepsMeaning`). With one it may change, as it does
  for `a{0\,}` (`CommaChangesMeaning`), or happen to stay, as it does for
  `|a{0\,}`, whose first alternative always matches (`CommaMayStayHidden`); so no
  condition on the comma alone decides the meaning.
- The decrement after an exact decimal tie gives a number that reads back as the
  same double, except for `5960464477539063 * 10^-23`, the shortest form of
  2^-24. In terms of the double: it fails where the gap below is half the gap
  above and twice the decimal step does not fit it (`BadTie`, `LowerRoundTrips`,
  `DecrementRoundTripsIff`).
- A waiter that a notify counted may still return "timed-out", because it decides
  under its own lock and leaves the queue later; it returns "ok" exactly when it
  was counted before it decided (`CountedYetTimedOut`, `OkIffCountedInTime`).

In one place the code and its comment disagree: the registry is said to allocate
a generation only once a program's metadata is complete
(`backend/bluejs/src/program_debug.rs:387-394`), but it advances the counter
first (`backend/bluejs/src/program_debug.rs:453-460`). The model follows the code.

## Model

| member | source | states |
|---|---|---|
| `CodeUnits.CanonicalizeIsSound` | backend/bluejs/src/regex_canonicalize.rs:44-92 | For any upper-case table that is idempotent and keeps spaces and line terminators on non-ASCII units, Canonicalize is idempotent on all units, is the ASCII rule on ASCII, and never maps a non-ASCII unit into ASCII |
| `CodeUnits.CanonicalizeSubject` | backend/bluejs/src/regex_canonicalize.rs:94-106 | The loop maps the subject unit by unit and keeps its length |
| `CodeUnits.EscapeUnaffected` | backend/bluejs/src/regexp.rs:221-248 | No class escape tells a unit from its canonical unit |
| `CodeUnits.AsciiLetters` | backend/bluejs/src/regex_canonicalize.rs:44-50 | The 26 small letters become the 26 capital letters, and no other ASCII unit changes |
| `CodeUnits.BeyondAscii` | backend/bluejs/src/regex_canonicalize.rs:53-66 | A unit beyond ASCII becomes another exactly when it is no surrogate and its upper case is that single unit, beyond ASCII |
| `RegexMatcher.OutcomesAgree` | backend/bluejs/src/regex_canonicalize.rs:22-34 | For every tree, state and direction, matching through Canonicalize and matching exactly on mapped leaves and subject give the same ordered list of outcomes, captures included, lookarounds and backreferences too |
| `RegexMatcher.FindAgrees` | backend/bluejs/src/regex_canonicalize.rs:22-34 | Hence both searches find the same first match |
| `RegexMatcherLaws.FindIsFirst` | development/browser_core/phase-13-bluejs-engine/STRING_BUILTINS.md:42 | A search ends at the least start that has an outcome, with the first outcome there, and finds nothing only if no start has one |
| `RegexMatcherLaws.LookAsks` | development/browser_core/phase-13-bluejs-engine/STRING_BUILTINS.md:42 | Look-ahead holds where its text stands after the position, look-behind where it stands before it; neither moves |
| `RegexMatcherLaws.GroupRecords` | development/browser_core/phase-13-bluejs-engine/STRING_BUILTINS.md:42 | A group records where its text stands, low end first, whichever way it was matched |
| `RegexMatcherLaws.RepeatTakes` | development/browser_core/phase-13-bluejs-engine/STRING_BUILTINS.md:42 | A repeated character takes every number of units its bounds and the run allow, the most first when greedy, the fewest first when lazy |
| `RegexMatcherLaws.ReferenceRepeats` | backend/bluejs/src/regex_canonicalize.rs:29-34 | A backreference matches exactly where the canonical text of its group stands again |
| `RegexMatcherLaws.AnchorsHold` | backend/bluejs/src/regex_canonicalize.rs:29-34 | The anchors hold at the ends of the subject and, with `m`, beside the four line terminators |
| `RegexGrammar.ParseReads` | development/browser_core/phase-13-bluejs-engine/STRING_BUILTINS.md:42 | Every printed pattern is read back as its own tree: alternatives, terms, groups numbered from left to right, look-around, and quantifiers with their bounds and laziness |
| `RegexGrammar.BracesRead` | development/browser_core/phase-13-bluejs-engine/STRING_BUILTINS.md:42 | `{n}`, `{n,}` and `{n,m}` are read with the numbers written in them |
| `RegexGrammar.TokenAccepts` | backend/bluejs/src/regex_canonicalize.rs:26-34 | Which units each token accepts: itself, its class, its set or the others, and for a dot all but line terminators unless `s` |
| `RegexRewriteProof.RunsDenote` | backend/bluejs/src/regex_canonicalize.rs:148-163 | The runs printed for a set are sorted, disjoint and maximal, and denote exactly that set |
| `RegexRewriteProof.ClassReads` | backend/bluejs/src/regex_canonicalize.rs:442-493 | Re-reading a printed class, whatever text follows it, yields the same negation and the same set |
| `RegexRewriteProof.RewriteClassIdempotent` | backend/bluejs/src/regex_canonicalize.rs:450-493 | Rewriting a rewritten class gives the same text |
| `RegexRewriteProof.OneKeeps` | backend/bluejs/src/regex_canonicalize.rs:245-381 | Each piece the rewrite emits reads back as one token related to the token it was written for: a class of canonical members, a canonical literal, or the same syntax |
| `RegexRewriteProof.RewriteFollows` | backend/bluejs/src/regex_canonicalize.rs:245-381 | No emitted piece can extend the one before it: a piece starts with a digit only where the original did |
| `RegexRewriteProof.RewriteReads` | backend/bluejs/src/regex_canonicalize.rs:501-528 | The whole rewritten text reads as the same number of tokens, each related to its original |
| `RegexMeaning.ViewsAgree` | backend/bluejs/src/regex_canonicalize.rs:223-241 | The two token lists have the same grammatical roles if and only if there is no escaped comma in braces |
| `RegexMeaning.TreeKeptIff` | backend/bluejs/src/regex_canonicalize.rs:223-241 | Related token lists parse to the same tree if and only if there is no escaped comma in braces |
| `RegexMeaning.RewriteKeepsMeaning` | backend/bluejs/src/regex_canonicalize.rs:501-528 | Whenever the rewrite succeeds on a pattern with no escaped comma in braces, the exact search of the result on the mapped subject returns the match and captures of the original compared through Canonicalize |
| `RegexMeaning.RewriteKeepsTreeIff` | backend/bluejs/src/regex_canonicalize.rs:234-241 | For every pattern that parses, the rewritten text parses to the same tree if and only if the pattern has no escaped comma in braces |
| `RegexMeaning.CommaChangesMeaning` | backend/bluejs/src/regex_canonicalize.rs:234-241 | The pattern `a{0\,}` does not match the empty string; its rewrite `A{0,}` does |
| `RegexMeaning.CommaMayStayHidden` | backend/bluejs/src/regex_canonicalize.rs:234-241 | With an empty alternative put before `a{0\,}` the tree still changes, yet for every subject and start its rewrite finds what it finds: no condition on the comma decides the meaning |
| `RegexRewriter.MaximalRunsUnique` | backend/bluejs/src/regex_canonicalize.rs:148-163 | A set has only one list of sorted, disjoint, maximal runs |
| `RegexRewriter.UnitSet.Add` | backend/bluejs/src/regex_canonicalize.rs:116-119 | The set gains exactly the unit |
| `RegexRewriter.UnitSet.AddRange` | backend/bluejs/src/regex_canonicalize.rs:450-493 | The set gains exactly the units of the range, without passing the last unit |
| `RegexRewriter.UnitSet.AddAtom` | backend/bluejs/src/regex_canonicalize.rs:135-146 | The set gains exactly the members of a class atom |
| `RegexRewriter.UnitSet.CanonicalUnits` | backend/bluejs/src/regex_canonicalize.rs:148-163 | The new set is exactly the image under Canonicalize |
| `RegexRewriter.UnitSet.Ranges` | backend/bluejs/src/regex_canonicalize.rs:148-163 | The loop returns the maximal runs of the set |
| `RegexRewriter.ReadMembersAt` | backend/bluejs/src/regex_canonicalize.rs:396-493 | The loop collects the members the class syntax defines, which `RegexSpelling` pins by number, or fails where the syntax does |
| `RegexRewriter.RewriteClassAt` | backend/bluejs/src/regex_canonicalize.rs:450-493 | Reading, mapping and printing a class in place gives the specified rewrite |
| `RegexRewriter.Rewrite` | backend/bluejs/src/regex_canonicalize.rs:501-528 | The index loop over the pattern computes the specified rewrite, and fails exactly where it is undefined |
| `RegexSpelling.HexSpelled` | backend/bluejs/src/regex_canonicalize.rs:187-197 | Hexadecimal digits written for a number, in either case of letters, are read as that number, whatever follows |
| `RegexSpelling.OnlyDigitsRead` | backend/bluejs/src/regex_canonicalize.rs:187-197 | Nothing but the characters of 0123456789abcdef and 0123456789ABCDEF is a hexadecimal digit |
| `RegexSpelling.OctalSpelled` | backend/bluejs/src/regex_canonicalize.rs:200-215 | One to three octal digits up to 377 are read as their number, and no digit more |
| `RegexSpelling.AtomSpelled` | backend/bluejs/src/regex_canonicalize.rs:396-439 | In a class every unit is denoted by itself, by its two- and four-digit hexadecimal and its octal spelling and by its backslashed form; the letters b t n v f r denote 8 to 13, and `\cX` denotes X modulo 32 |
| `RegexSpelling.ClassEscapeReads` | backend/bluejs/src/regex_canonicalize.rs:384-406 | The six class escapes denote exactly the units listed by number |
| `RegexSpelling.ItemReads` | backend/bluejs/src/regex_canonicalize.rs:456-480 | A range denotes exactly the units between its ends and is an error when reversed; a class escape beside a hyphen makes the hyphen a member |
| `RegexSpelling.ClassSpelled` | backend/bluejs/src/regex_canonicalize.rs:450-493 | A class written from any list of such items denotes the union of their units, and its rewrite is the printed class of their canonical units; with a reversed range it is refused |
| `RegexSpelling.ControlEscapes` | backend/bluejs/src/regex_canonicalize.rs:245-270 | Outside a class `\t` to `\r` stand for 9 to 13 and are copied |
| `RegexSpelling.ClassEscapes` | backend/bluejs/src/regex_canonicalize.rs:245-270 | Outside a class the six class escapes accept the units listed by number and are copied |
| `RegexSpelling.HexEscapes` | backend/bluejs/src/regex_canonicalize.rs:245-352 | A unit spelled in hexadecimal stands for itself and is rewritten as its canonical unit |
| `RegexSpelling.OctalEscapes` | backend/bluejs/src/regex_canonicalize.rs:245-352 | Beyond the groups an octal escape stands for its number and is rewritten as its canonical unit |
| `RegexSpelling.ReferencesSpelled` | backend/bluejs/src/regex_canonicalize.rs:245-352 | A decimal escape that names one of the groups is read as that number and copied |
| `RegexSpelling.LiteralsSpelled` | backend/bluejs/src/regex_canonicalize.rs:501-528 | Syntax characters and digits are copied, and every other unit becomes its canonical unit |
| `RegexSpelling.OpeningsSpelled` | backend/bluejs/src/regex_canonicalize.rs:355-381 | Each of the seven ways to open a group is read as such and copied |
| `RegexSpelling.RewriteSucceedsIff` | backend/bluejs/src/regex_canonicalize.rs:501-528 | The rewrite succeeds exactly on texts that read as tokens: it refuses no pattern the modelled syntax allows |
| `RegexMemo.FullHasOldest` | backend/bluejs/src/regex_worker.rs:604-627 | A memo without room for an admissible key has an oldest key, that key has a result, and its size can be taken off: neither `expect` and no subtraction fails |
| `RegexMemo.RememberedValid` | backend/bluejs/src/regex_worker.rs:604-627 | Remembering keeps the queue a duplicate-free order of the map's keys, the unit count their sum and both bounds; it adds at most the new result and changes no other |
| `RegexMemo.MemoBounds` | backend/bluejs/src/regex_worker.rs:589-601 | At most 1024 results are held, and the sources and subjects of their keys, written out, have at most 2097152 units |
| `RegexMemo.RememberLaw` | backend/bluejs/src/regex_worker.rs:604-627 | A key of more than 16384 units or already known changes nothing; any other becomes the newest entry, and the older ones all stay if there is room |
| `RegexMemo.EvictKeepsSuffix` | backend/bluejs/src/regex_worker.rs:609-622 | Eviction is oldest-first: what stays is a suffix of the queue |
| `RegexMemo.EvictKeepsResult` | backend/bluejs/src/regex_worker.rs:609-622 | What stays keeps its result |
| `RegexMemo.EvictsNoMore` | backend/bluejs/src/regex_worker.rs:609-622 | With one entry more a bound would be passed: nothing is dropped needlessly |
| `RegexMemo.FindMemo.MakeRoom` | backend/bluejs/src/regex_worker.rs:609-622 | The eviction loop ends, and leaves exactly the specified memo |
| `RegexMemo.FindMemo.Remember` | backend/bluejs/src/regex_worker.rs:604-627 | The three fields end as the specified memo, which is valid |
| `RegexHelper.CachePatternMeans` | backend/bluejs/src/regex_worker.rs:444-478 | Caching a pattern answers as compiling it afresh would, and keeps the cache consistent |
| `RegexHelper.CacheAllMeans` | backend/bluejs/src/regex_worker.rs:444-478 | A validation answers for each pattern as compiling it afresh would |
| `RegexHelper.ServeFindMeans` | backend/bluejs/src/regex_worker.rs:747-780 | On a consistent helper a find answers the pure match of the cached pattern and subject, and keeps the canonical subject that of the subject |
| `RegexHelper.FlagsHandedOn` | backend/bluejs/src/regex_worker.rs:456-465 | The library is given exactly the pattern's flags, without `i` for a rewritten pattern and with `u` wherever there is `v` |
| `RegexHelper.PureMatchAsks` | backend/bluejs/src/regex_worker.rs:747-768 | The pure match is what the library finds for the handed-on text and flags, with Unicode matching for `u` or `v`, in the canonical subject of a rewritten pattern, and nothing for a start past the end |
| `RegexHelper.EndsIff` | backend/bluejs/src/regex_worker.rs:713-746 | The process ends exactly on a shutdown and on a search with half a pattern, no pattern or no subject |
| `RegexHelper.Serve` | backend/bluejs/src/regex_worker.rs:681-780 | Serving one request updates the three caches as specified and gives the specified reply |
| `RegexHelper.ServeOn` | backend/bluejs/src/regex_worker.rs:679-780 | The request loop replies, in order, what the specification gives, and stops where it does |
| `RegexClientProof.StepKeeps` | backend/bluejs/src/regex_worker.rs:495-530 | Every step of every thread and helper keeps ownership, agreement and the caches |
| `RegexClientProof.EveryAnswerIsPure` | backend/bluejs/src/regex_worker.rs:541-671 | In every interleaving, whatever a compile, find or validate was answered is what the pure functions give for its own arguments |
| `RegexClientProof.PooledWorkersAgree` | backend/bluejs/src/regex_worker.rs:483-530 | In every reachable state a pooled worker has no unread reply and no unserved request, and its helper has cached what the client remembers |
| `RegexClientProof.HelpersNeverEnd` | backend/bluejs/src/regex_worker.rs:679-780 | In every reachable state each live helper has exactly one owner, and no request it holds makes it end |
| `RegexClientLaws.RequestAnswered` | backend/bluejs/src/regex_worker.rs:300-386 | If the helper has what the client remembers, the request built for a call, with whatever it leaves out, is answered with the pure result of the whole call or its message; the client refuses the answer exactly for a search whose pattern is rejected or whose match has no range of its own or one that is reversed or ends past the subject; otherwise client and helper agree again |
| `RegexClientLaws.ReceiveDecides` | backend/bluejs/src/regex_worker.rs:300-385 | Receiving fails exactly the refused calls; every other call goes on with its right reply |
| `RegexClientLaws.EveryFailure` | backend/bluejs/src/regex_worker.rs:284-520 | In every run a call fails only when a helper could not start, a request could not be sent, a reply was lost or late, or the call is refused; compiling and validating never fail on a reply |
| `RegexClientLaws.ReceivedIsAnswered` | backend/bluejs/src/regex_worker.rs:495-520 | In every run a call that receives a reply it need not refuse keeps it, and it is right, until it is returned |
| `RegexClientLaws.RequestOmits` | backend/bluejs/src/regex_worker.rs:341-363 | A search leaves out its pattern or subject exactly when its worker last sent that one |
| `RegexClientLaws.RecyclePools` | backend/bluejs/src/regex_worker.rs:522-530 | A worker goes back to the pool while it has fewer than eight and is the next to be used; otherwise its process ends |
| `RegexClientLaws.PublishRemembers` | backend/bluejs/src/regex_worker.rs:541-664 | What a call of at most 16384 units returned is what the next same call is answered without a helper |
| `RegexClientLaws.AcceptedPatterns` | backend/bluejs/src/regex_worker.rs:541-570 | At most 1024 accepted patterns are kept; one that compiles and has at most 16384 units is added, to none when there are already 1024 |
| `RegexEndToEnd.PureMatchIsSpecified` | backend/bluejs/src/regex_worker.rs:444-478 | If, for this one pattern, the engine hands on the rewrite in some form and its library, where it accepts that program, finds what the rewrite is specified to match, then the search finds the case-insensitive match of the original |
| `RegexEndToEnd.EveryInsensitiveAnswer` | backend/bluejs/src/regex_worker.rs:631-664 | Under the same condition on the pattern asked for, and none on any other, an answered case-insensitive search of any run is the match defined by comparing through Canonicalize |
| `RegexEndToEnd.ImplementsIsMet` | backend/bluejs/src/regex_group_names.rs:206-222 | The condition can be met for every pattern whose rewrite parses, whatever the engine does with all other patterns and programs |
| `RadixNumber.PushDescribes` | backend/bluejs/src/primitive.rs:364-377 | One more bit keeps the accumulator an exact account: leading 53 bits, guard, and whether any later bit is set |
| `RadixNumber.RoundCorrect` | backend/bluejs/src/primitive.rs:379-388 | From such an account the result is the exact value rounded once, ties to even, with the carry to 2^53 and overflow to infinity |
| `RadixNumber.PushDigit` | backend/bluejs/src/primitive.rs:364-377 | The inner loop pushes a digit's bits from the top |
| `RadixNumber.ParseRadix` | backend/bluejs/src/primitive.rs:349-389 | For text of any length in radix 2, 8 or 16, in either case of letters: NaN exactly for empty text or a character that is no digit; otherwise the number the digits spell, rounded once to nearest, ties to even |
| `RadixNumber.DigitOfIff` | backend/bluejs/src/primitive.rs:361 | A character has value v exactly when it is the v-th of 0123456789abcdef or 0123456789ABCDEF and v is below the radix |
| `RadixNumber.PrintedSpells` | backend/bluejs/src/primitive.rs:349-389 | The digits printed for a number spell that number |
| `DecimalTie.TieIsExact` | backend/bluejs/src/primitive.rs:161-187 | For every double and every round-tripping s of at most 17 digits, the test is true if and only if s is odd and the double is exactly (2s-1)*10^k/2 |
| `DecimalTie.NoIntegralTie` | backend/bluejs/src/primitive.rs:161-187 | There is no tie at a non-negative decimal exponent: the early return loses none |
| `DecimalTie.NoDeepTie` | backend/bluejs/src/primitive.rs:161-187 | There is no tie below 10^-24: the early return loses none |
| `DecimalTie.RoundTripIsNormal` | backend/bluejs/src/primitive.rs:161-187 | A double whose shortest form has an exponent in the tested range is normal |
| `DecimalTie.FactorFits` | backend/bluejs/src/primitive.rs:161-187 | The midpoint and every power of five the test computes fit unsigned 64-bit integers, and beyond 24 decimals the power exceeds every midpoint of 17 digits |
| `DecimalTie.DecrementKeepsLength` | backend/bluejs/src/primitive.rs:117-158 | The decrement keeps the number of digits |
| `DecimalTie.DecrementLeavesNoZero` | backend/bluejs/src/primitive.rs:117-158 | After the decrement of a shortest form there is no trailing zero |
| `DecimalTie.LowerRoundTrips` | backend/bluejs/src/primitive.rs:117-158 | At a midpoint the decremented number reads back as the double if and only if the gap below is as wide as the gap above, or twice the decimal step fits the gap |
| `DecimalTie.DecrementRoundTripsIff` | backend/bluejs/src/primitive.rs:117-158 | Among all ties the test accepts, that fails for exactly one number, the shortest form of 2^-24 |
| `DecimalTie.BadTie` | backend/bluejs/src/primitive.rs:117-187 | 2^-24 has the shortest form 5960464477539063 * 10^-23, the test fires on it, and the decremented number reads back as another double |
| `PageProof.SoundIsCoherent` | backend/bluejs/src/page_runtime.rs:529-572 | In a sound state every owned handle is live and its charge can be released: no `expect` and no checked subtraction fails |
| `PageProof.OpenSound` | backend/bluejs/src/page_runtime.rs:360-388 | Opening keeps soundness: programs partitioned among realms, exact bounded charges, exact module tables |
| `PageProof.NavigateSound` | backend/bluejs/src/page_runtime.rs:393-423 | Navigating keeps soundness |
| `PageProof.CloseSound` | backend/bluejs/src/page_runtime.rs:426-434 | Closing keeps soundness |
| `PageProof.InstallSound` | backend/bluejs/src/page_runtime.rs:456-523 | Installing keeps soundness, through every refusal and a refused admission after registration |
| `PageProof.DiscardSound` | backend/bluejs/src/page_runtime.rs:529-572 | Discarding keeps soundness |
| `PageProof.AnnotateSound` | backend/bluejs/src/page_runtime.rs:1570-1658 | Reserving identities and keeping debugger frames keep soundness |
| `PageProof.GraphIff` | backend/bluejs/src/page_runtime.rs:1051-1095 | A graph is admitted exactly when its handles are modules of the realm with distinct identities and include the entry; its table has each under its own identity and nothing else |
| `PageRuns.EveryStateSound` | backend/bluejs/src/page_runtime.rs:360-572 | In every state of every run the live programs are the disjoint union of the realms' program sets, each charge is the sum of its programs' bytes and within its limit, each module table maps exactly the live modules, and nothing an operation relies on can fail |
| `PageRuns.DeadIsRefused` | backend/bluejs/src/page_runtime.rs:752-815 | An operation that names a dead generation by handle, safe point or frame is refused and changes nothing |
| `PageRuns.RetiredStaysRefused` | backend/bluejs/src/page_runtime.rs:393-434 | Once a program is discarded, or its tab navigated or closed, every later operation of the run that names it is refused, whatever frames and serials have come since |
| `PageRuns.GenerationsNeverReissued` | backend/bluejs/src/program_debug.rs:446-458 | Two installs of a run never get the same generation, and the last generation is never given out |
| `PageRuns.InstalledUnderOrigin` | backend/bluejs/src/page_runtime.rs:467-469 | In every run each program of a realm was installed there by an operation that named the realm's own origin |
| `PageRuns.EvaluationBinds` | backend/bluejs/src/page_runtime.rs:1101-1124 | An evaluation reserves each identity of its graph for the program that carried it |
| `PageRuns.OneProgramPerIdentity` | backend/bluejs/src/page_runtime.rs:1051-1124 | Until its tab is navigated or closed, an identity evaluated once can only be evaluated as the same program again, whatever was discarded and installed in between |
| `PageRuntime.ProgramRegistry.Install` | backend/bluejs/src/program_debug.rs:412-520 | The counter and the table end as specified, on success and in each failure: compilation, exhaustion, a code unit, offset or syntax node that cannot be named, and statements that do not match the bytecode; a refused program leaves only its generation spent |
| `PageRuntime.ProgramRegistry.Replace` | backend/bluejs/src/program_debug.rs:528-542 | A failed replacement leaves every program as it was; a successful one retires the old generation and registers a fresh one |
| `PageRuntime.ProgramRegistry.Invalidate` | backend/bluejs/src/program_debug.rs:546-548 | The program is gone, no other is, and the result says whether it was there |
| `PageRuntime.BlueJsPageRuntime.OpenRealm` | backend/bluejs/src/page_runtime.rs:360-388 | A realm opens if and only if the tab is free, there is room and the machine starts, each refusal with its own error; it has nothing but its origin; no other realm changes |
| `PageRuntime.BlueJsPageRuntime.Navigate` | backend/bluejs/src/page_runtime.rs:393-423 | If the tab is open, its realm has nothing but the new origin, none of its programs is live, and every program of every other realm is |
| `PageRuntime.BlueJsPageRuntime.CloseRealm` | backend/bluejs/src/page_runtime.rs:426-434 | The realm is gone, none of its programs is live, every program of every other realm is, and the state stays sound |
| `PageRuntime.BlueJsPageRuntime.InstallProgram` | backend/bluejs/src/page_runtime.rs:456-523 | An install succeeds if and only if the tab is open with that origin, has room for a program, a module's identity is in neither table, the code compiles and is accepted, a generation is left and the bytes fit; a refusal changes no realm and no program; a success adds one fresh generation to the registry, the realm, its charge and for a module its table, and nothing else |
| `PageRuntime.BlueJsPageRuntime.DiscardProgram` | backend/bluejs/src/page_runtime.rs:529-572 | If and only if the realm owns the program it leaves the registry, the realm and its charge, and nothing else changes; both debug assertions hold |
| `PageRuntime.BlueJsPageRuntime.ModuleGraph` | backend/bluejs/src/page_runtime.rs:1051-1094 | The loop accepts exactly handles that are modules of the realm with distinct identities and include the entry, and returns each under its identity |
| `PageRuntime.BlueJsPageRuntime.ExecuteModuleGraph` | backend/bluejs/src/page_runtime.rs:1101-1124 | If and only if the graph is admitted, exactly the identities of its handles are added to the reserved ones; nothing else changes |
| `PageRuntime.BlueJsPageRuntime.ValidateSafePoint` | backend/bluejs/src/page_runtime.rs:1407-1421 | Accepts exactly points of a handle the realm owns, of its generation, at an instruction boundary of the code unit they name |
| `PageRuntime.BlueJsPageRuntime.PauseNested` | backend/bluejs/src/page_runtime.rs:701-731 | Succeeds exactly for a valid point in a child unit of a script the machine runs; then a frame with the machine's ordinal and serial is kept if it paused, and none otherwise; nothing else changes |
| `PageRuntime.BlueJsPageRuntime.PauseModule` | backend/bluejs/src/page_runtime.rs:1129-1158 | Succeeds exactly for the first root instruction at or after the evaluation entry of a module that is the entry of an admitted graph; identities are reserved, nothing else changes |
| `PageRuntime.BlueJsPageRuntime.PauseModuleNested` | backend/bluejs/src/page_runtime.rs:1162-1189 | Succeeds exactly for a valid point in a child unit of the entry of an admitted graph the machine runs; then the entry's frame is kept as reported |
| `PageRuntime.BlueJsPageRuntime.PauseLinked` | backend/bluejs/src/page_runtime.rs:1193-1238 | Succeeds exactly for a valid point in a child unit of another program whose identity is in an admitted graph the machine runs; then the frame of both is kept as reported |
| `PageRuntime.BlueJsPageRuntime.ContinueNested` | backend/bluejs/src/page_runtime.rs:752-783 | Acts only on the realm's own live frame; then the frame is replaced by what the machine reports, and dropped when it fails or returns; nothing else changes |
| `PageRuntime.BlueJsPageRuntime.ResumeLinked` | backend/bluejs/src/page_runtime.rs:787-815 | Acts only on the realm's own live linked frame with both programs owned; then the frame is replaced by what the machine reports, and dropped when it fails or returns; nothing else changes |
| `SameValueZero.SameIffCanonical` | backend/bluejs/src/heap.rs:1458-1501 | Two keys are the same under SameValueZero if and only if the same data is hashed for them |
| `SameValueZero.SameIsEquivalence` | backend/bluejs/src/heap.rs:1458-1461 | SameValueZero is an equivalence |
| `SameValueZero.SameKeyIff` | backend/bluejs/src/heap.rs:1458-1481 | Two values are one key exactly when they are equal, or both among the bits 0 and 2^63 of the two zeros, or both among the bits of NaN |
| `AssociationList.PutAgainGoesLast` | backend/bluejs/src/heap.rs:743-777 | A key that was deleted and is set again goes to the end |
| `AssociationList.PutLaw` | backend/bluejs/src/heap.rs:743-755 | Setting a key changes what is found under that key, and under no other |
| `AssociationList.RemoveLaw` | backend/bluejs/src/heap.rs:757-777 | Deleting a key leaves nothing under it, and every other key as it was |
| `AssociationList.DistinctIsUnique` | backend/bluejs/src/heap.rs:704-714 | Slots without a repeated live key hold a list without a repeated key |
| `AssociationList.ActsAt` | backend/bluejs/src/heap.rs:743-777 | Changing the one slot that holds a key is the list operation, as seen from every position at or before it |
| `OrderedCollection.SwapRemovedElements` | backend/bluejs/src/heap.rs:757-777 | Removing by moving the last element into the gap loses only the element, and repeats none |
| `OrderedCollection.Collection.FindIndex` | backend/bluejs/src/heap.rs:720-730 | The index finds exactly what a scan of all slots would find |
| `OrderedCollection.Collection.Get` | backend/bluejs/src/heap.rs:732-735 | The value is that of the association list |
| `OrderedCollection.Collection.Has` | backend/bluejs/src/heap.rs:737-739 | Membership is that of the association list |
| `OrderedCollection.Collection.Set` | backend/bluejs/src/heap.rs:743-755 | The list changes as the reference does, and has no key twice; positions never move, a new entry is last from every position; the index stays exact, `len` counts the live entries |
| `OrderedCollection.Collection.Delete` | backend/bluejs/src/heap.rs:757-777 | From every position the list loses just the key, and has no key twice; only its slot becomes a tombstone, which no bucket lists; neither `expect` fails |
| `OrderedCollection.Collection.Clear` | backend/bluejs/src/heap/collection_iteration.rs:139-160 | Nothing is left from any position, and no position becomes invalid |
| `OrderedCollection.CollectionIterator.Next` | backend/bluejs/src/heap/collection_iteration.rs:76-133 | An iterator yields exactly the first entry still ahead of it and moves behind it; once it has found none it is exhausted for good, whatever the collection gains later |
| `WaitQueue.NotifyLoop` | backend/bluejs/src/heap.rs:1136-1158 | The loop wakes the first waiters of the offset, at most count, and keeps the rest in order |
| `WaitProtocol.EveryState` | backend/bluejs/src/heap.rs:1082-1158 | Every interleaving keeps the invariant: the line in registration order, wakes without repetition, and each waiter in line until woken or finished |
| `WaitProtocol.EveryWaiter` | backend/bluejs/src/heap.rs:1098-1158 | No waiter is counted twice; a wait that returns ok was counted exactly once; a finished wait is not in line; one neither woken nor finished is |
| `WaitProtocol.NotifyIsExact` | backend/bluejs/src/heap.rs:1136-1158 | Between taking and releasing the lock a notify wakes the first of the waiters whose own registration named its offset and who are neither woken nor gone, in registration order, all or as many as it may; it reports their number, and exactly the others stay in line in order |
| `WaitProtocol.OffsetsAreRegistered` | backend/bluejs/src/heap.rs:1082-1093 | In every run each waiter has the offset its own registration named |
| `WaitProtocol.RegisteredOffset` | backend/bluejs/src/heap.rs:1082-1093 | A registration's waiter is the next one and keeps its offset in every later state |
| `WaitProtocol.InLine` | backend/bluejs/src/heap.rs:1082-1158 | While no notify runs, those in line are exactly the waiters neither woken nor gone |
| `WaitProtocol.NeverStuck` | backend/bluejs/src/heap.rs:1082-1158 | In every reachable state a notify can take its next step, and without one anyone can register, notify or leave; a waiter returns without its time being up only when woken |
| `WaitProtocol.ReportsAreWakes` | backend/bluejs/src/heap.rs:1136-1158 | The numbers notifies returned add up to the wakes there were |
| `WaitProtocol.OkIffCountedInTime` | backend/bluejs/src/heap.rs:1098-1126 | A wait returns ok if and only if a notify had counted it when it decided |
| `WaitProtocol.CountedYetTimedOut` | backend/bluejs/src/heap.rs:1098-1126 | There is a run in which a counted waiter returns timed-out |
| `Calendar.TomorrowAddsOne` | backend/bluejs/src/heap.rs:683-702 | Consecutive dates, across months, leap years and eras, differ by exactly one |
| `Calendar.DaysOfDateAt` | backend/bluejs/src/heap.rs:683-702 | The date reached by counting n days from 1970-01-01, forward or back, has day number n |
| `Calendar.DaysCount` | backend/bluejs/src/heap.rs:683-702 | Every date is reached by counting as many days as its day number says |
| `Calendar.DaysKeepOrder` | backend/bluejs/src/heap.rs:683-702 | Dates are ordered as their day numbers |
| `Calendar.MillisecondsKeepOrder` | backend/bluejs/src/heap.rs:683-702 | Date-times, to the millisecond, are ordered as their numbers, and plain times among themselves |
| `Calendar.MillisecondsCount` | backend/bluejs/src/heap.rs:683-702 | A plain time is its milliseconds since midnight, and a dated value adds whole days counted one by one from 1970-01-01 |
| `Calendar.YearLengths` | backend/bluejs/src/heap.rs:683-702 | A year is 366 days long exactly when divisible by 400, or by 4 and not by 100 |
| `Calendar.FourCenturies` | backend/bluejs/src/heap.rs:683-702 | After 400 years day numbers repeat, 146097 further on |
| `Calendar.FitsInt64` | backend/bluejs/src/heap.rs:683-702 | For every date of the years -271821 to 275760, the era, the day within it, the day number and every sum up to the result fit a signed 64-bit integer |
| `Utf.Utf8IsUtf8` | backend/bluejs/src/native.rs:1330-1348 | The UTF-8 of every scalar value satisfies the grammar of section 4 of RFC 3629 and stands for that value |
| `Utf.FromUtf8IsInverse` | backend/bluejs/src/native.rs:1392-1408 | Every sequence of that grammar is the UTF-8 of its value: no overlong form, surrogate or excess |
| `Utf.Utf8Layout` | backend/bluejs/src/native.rs:1330-1348 | The payload bits lie in the bytes as section 3 of RFC 3629 lays them out |
| `Utf.Utf16Layout` | backend/bluejs/src/native.rs:1312-1327 | A surrogate pair carries ten bits each, the high one first, above 0x10000 |
| `UriProof.EncodeSucceedsIff` | backend/bluejs/src/native.rs:1305-1351 | In both modes encoding, given room, succeeds if and only if no surrogate stands alone |
| `UriProof.DecodeUndoesEncode` | backend/bluejs/src/native.rs:1305-1411 | In the same mode, decoding what was encoded gives back the string |
| `UriProof.DecodeAcceptsIff` | backend/bluejs/src/native.rs:1356-1411 | For every string and both modes, decoding succeeds if and only if the string splits into units other than the percent sign and percent runs whose bytes are UTF-8; the result is those units with each run decoded, reserved ASCII staying as written outside a component |
| `UriProof.ComponentText` | backend/bluejs/src/native.rs:1356-1411 | In a component a run becomes exactly the UTF-16 of its text |
| `UriProof.UnescapeUndoesEscape` | backend/bluejs/src/native.rs:1415-1483 | For every sequence of units, lone surrogates and literal percent signs included, unescape undoes escape |
| `UriProof.UnescapeIsTotal` | backend/bluejs/src/native.rs:1448-1483 | unescape accepts everything |
| `UriMethods.EncodeUri` | backend/bluejs/src/native.rs:1305-1351 | The loop returns the whole encoding if it fits, else a limit error, else the malformed error: the limit never changes a result |
| `UriMethods.DecodeUri` | backend/bluejs/src/native.rs:1356-1411 | The same for decoding |
| `UriMethods.EscapeString` | backend/bluejs/src/native.rs:1415-1444 | The same for escape |
| `UriMethods.UnescapeString` | backend/bluejs/src/native.rs:1448-1483 | The same for unescape |
| `UriMethods.AppendPercents` | backend/bluejs/src/native.rs:1254-1261 | Appending byte by byte fails exactly when appending all at once would |
| `UriLaws.EncodeWrites` | backend/bluejs/src/native.rs:1287-1351 | Encoding a text keeps letters, digits, the marks -_.!~*'() and outside a component ;/?:@&=+$,# and writes every other scalar value as a percent sign and two upper-case digits for each byte of its UTF-8 |
| `UriLaws.WellFormedIsText` | backend/bluejs/src/native.rs:1305-1351 | Every string that encoding accepts is the UTF-16 of some text |
| `UriLaws.EscapeWrites` | backend/bluejs/src/native.rs:1415-1444 | escape keeps letters, digits and @*_+-./ and writes every other unit with two or four upper-case digits |
| `UriLaws.UnescapeReads` | backend/bluejs/src/native.rs:1448-1483 | unescape reads four digits after `%u` as their unit, else two digits after `%`, else takes one unit as it is |
| `UriLaws.ReservedAmong` | backend/bluejs/src/native.rs:1300-1302 | The reserved characters are exactly ;/?:@&=+$,# |
| `UriLaws.LimitCounts` | backend/bluejs/src/native.rs:1254-1261 | A result is refused for the limit exactly when its units, at two bytes each, exceed it |
| `Bytecode.DecodesLog` | backend/bluejs/src/bytecode.rs:772-804 | For every list of emitted instructions, decoding their bytes gives those instructions at the offsets they were emitted at, and consumes every byte |
| `Bytecode.EmittedBytes` | backend/bluejs/src/compiler.rs:744-754 | An instruction's bytes are its opcode and then its operand, lowest byte first |
| `Bytecode.PatchesLog` | backend/bluejs/src/compiler.rs:756-758 | Patching an operand-carrying instruction rewrites that operand and nothing else, and moves no offset |
| `Bytecode.Instructions` | backend/bluejs/src/bytecode.rs:772-779 | The iterator yields the decoded instructions in order |
| `Bytecode.Emitter.Emit` | backend/bluejs/src/compiler.rs:744-754 | An instruction is appended at the returned offset if and only if it fits the byte limit |
| `Bytecode.Emitter.Patch` | backend/bluejs/src/compiler.rs:756-758 | The last operand given to an instruction is the one it has |
| `Bytecode.Emitter.Decode` | backend/bluejs/src/bytecode.rs:772-804 | After any sequence of emits and patches, decoding gives the emitted opcodes with their last operands |
| `SafePoints.CollectsTree` | backend/bluejs/src/program_debug.rs:632-666 | Collecting succeeds if and only if every ordinal and offset can be named, and then lists the whole tree in pre-order; otherwise it reports the first in pre-order that cannot, a code unit before an offset |
| `SafePoints.EnumeratesValid` | backend/bluejs/src/program_debug.rs:249-297 | A point is enumerated for a live program if and only if validation accepts it for its handle |
| `SafePoints.TreePointsOrdered` | backend/bluejs/src/program_debug.rs:249-259 | The enumeration is strictly increasing by code unit and offset |
| `SafePoints.EmittedBoundaries` | backend/bluejs/src/program_debug.rs:643-652 | The boundaries of a code unit are the offsets its instructions were emitted at |
| `SafePoints.RecordPoints` | backend/bluejs/src/program_debug.rs:479-512 | The loop records the offset of each top-level statement, and refuses exactly when one is no boundary of the root |
| `SafePoints.ArtifactIsExact` | backend/bluejs/src/program_debug.rs:446-522 | An accepted program has the pre-order of its tree as units, and every syntax node it records has a boundary of the root |
| `SafePoints.ArtifactIff` | backend/bluejs/src/program_debug.rs:446-522 | Compiled code is refused for the first code unit or offset that cannot be named, then for too many syntax nodes, then for offsets that do not match, and for nothing else; an accepted program records exactly the offset of each top-level statement that has one |
| `SafePoints.ChildOrdinal` | backend/bluejs/src/program_debug.rs:632-666 | The root has ordinal 0, and each child comes after the whole trees of the children before it |
| `SafePoints.InstalledPoints` | backend/bluejs/src/program_debug.rs:563-600 | Once a tree of emitted and patched code units is installed, validation accepts a point if and only if the unit of that ordinal in pre-order emitted an instruction at that offset; and a syntax node of this generation and no other has the point recorded for it, which is always accepted |
| `SafePoints.Enumerate` | backend/bluejs/src/page_runtime.rs:1339-1367 | The loop returns all safe points, or a limit error exactly when there are more than asked for |
| `AnnexB.HoistsByRegion` | backend/bluejs/src/compiler.rs:1906-2034 | The path-wise definition unfolds one statement at a time |
| `AnnexB.InsertFunctions` | backend/bluejs/src/compiler.rs:1886-1900 | Exactly the plain functions of the list that are not blocked are added |
| `AnnexB.ExtendBlocked` | backend/bluejs/src/compiler.rs:2048-2070 | Exactly the names the list lexically declares are added |
| `AnnexB.CollectSwitch` | backend/bluejs/src/compiler.rs:1916-1931 | All cases of a switch are one block |
| `AnnexB.CollectTry` | backend/bluejs/src/compiler.rs:1994-2015 | Block, handler and finalizer are blocks; a catch pattern forbids its names, a simple parameter does not |
| `AnnexB.CollectBlock` | backend/bluejs/src/compiler.rs:2021-2034 | A block's own functions are held against the scopes outside it, everything deeper also against the block's names |
| `AnnexB.Collect` | backend/bluejs/src/compiler.rs:1906-2019 | The traversal adds exactly the names the property asks for |
| `AnnexB.FunctionNames` | backend/bluejs/src/compiler.rs:1872-1880 | A name is returned if and only if some path leads to a block with a plain function of that name and no scope strictly outside that block, the root included, declares it |
| `AnnexB.NamesNeverClash` | backend/bluejs/src/compiler.rs:234-237 | Adding the names to the vars makes no declaration clash that did not before |
| `AnnexB.FindDuplicate` | backend/bluejs/src/compiler.rs:767-801 | A name is reported if and only if some declaration repeats an earlier one or a var |
| `AnnexB.EnterRoot` | backend/bluejs/src/compiler.rs:234-237 | Entering the root scope with the collected names reports a duplicate if and only if it would without them |
| `AnnexBLaws.PatternsMention` | backend/bluejs/src/compiler.rs:1579-1597 | The names patterns declare are exactly the identifiers that stand in them |
| `AnnexBLaws.ListRule` | backend/bluejs/src/compiler.rs:1906-1912 | A list hoists a name exactly when one of its statements does |
| `AnnexBLaws.BlockRule` | backend/bluejs/src/compiler.rs:2021-2034 | A block hoists a name exactly when nothing outside forbids it and it has a function of that name that is neither generator nor async, or does not declare the name and hoists it from deeper |
| `AnnexBLaws.IfRule` | backend/bluejs/src/compiler.rs:1931-1956 | A branch of an if that is such a function hoists it; any other branch hoists what it hoists |
| `AnnexBLaws.LoopRule` | backend/bluejs/src/compiler.rs:1957-1993 | A loop hoists what its body does, unless a lexical declaration of its head mentions the name; other wrappers hoist what they wrap |
| `AnnexBLaws.SwitchRule` | backend/bluejs/src/compiler.rs:1916-1930 | A switch hoists as the block of all its cases |
| `AnnexBLaws.TryRule` | backend/bluejs/src/compiler.rs:1994-2015 | The parts of a try hoist as blocks, the handler's only names its parameter, if a pattern, does not mention |
| `AnnexBLaws.OtherRule` | backend/bluejs/src/compiler.rs:2016 | No other statement hoists anything |

## Left out

- The matching library, Unicode tables, big integers and the float formatter: parameters, or not modelled.
- Process spawning, pipes and JSON framing: a reply arrives in order, or the worker is lost and never pooled again. The older request format, one object per request, is not modelled.
- The client is modelled on values: `RegexClient` holds workers, pool and memos as values of a transition system: an exclusive owner stands for each worker, and a step for each lock section.
- RegexEndToEnd.EveryInsensitiveAnswer: assumes that the group count and the presence of names are the same for the rewritten text, since counting is another file's; what happens to the text after the rewrite (adjusted escapes, joined pairs in group names, and a `\k` to a name that several groups share becoming references by number) is not modelled, and enters as the assumption that the library still finds what the rewrite is specified to match.
- RegexRewriter.UnitSet.Add: the bits are an array of booleans, not packed into 64-bit words.
- Number-to-string layout (placing the point, exponents, signs) and the comparison of a big integer with a number: single-branch logic.
- The virtual machine, the interpreter and the garbage collector: the page runtime takes their answers as inputs. Reading stack snapshots and value previews changes no state and is left out.
- OrderedCollection.Collection.Set: the byte accounting of the heap around the collection is not modelled.
- Bytecode.Emitter.Emit: the opcode table is a parameter of widths; names, flags and metadata tables are not modelled.
- AnnexB.FindDuplicate: only duplicates are modelled, not reserved words in strict code (where nothing is hoisted) or the limit on metadata entries.
- AnnexB.Collect: a function declaration directly under a label is not looked at, as in the code.
- The parser, the expression and statement compilers, and the remaining built-ins: they would only add easy members.
