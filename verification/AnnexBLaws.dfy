/**
 What hoists from each form of statement, by the identifiers its declarations
 mention: the rules the path-wise property comes down to.
 */
module AnnexBLaws {
  import opened Options
  import opened AnnexB

  // ---------------------------------------------------------------------
  // Identifiers

  /** The identifier stands somewhere in the pattern. */
  ghost predicate Mentions(p: Pattern, name: string) {
    match p
    case Identifier(n) => n == name
    case Array(elements) => exists i :: 0 <= i < |elements| && ElementMentions(elements[i], name)
    case Object(values) => exists i :: 0 <= i < |values| && Mentions(values[i], name)
  }

  ghost predicate ElementMentions(e: Element, name: string) {
    e.Part? && Mentions(e.pattern, name)
  }

  ghost predicate AnyMentions(patterns: seq<Pattern>, name: string) {
    exists i :: 0 <= i < |patterns| && Mentions(patterns[i], name)
  }

  lemma {:induction false} NamesAreMentioned(p: Pattern, name: string)
    ensures name in PatternNames(p) <==> Mentions(p, name)
    decreases p, 1
  {
    match p
    case Identifier(n) =>
    case Array(elements) => ElementsMention(elements, name);
    case Object(values) => PatternsMention(values, name);
  }

  lemma {:induction false} ElementMentioned(e: Element, name: string)
    ensures name in NamesOfElement(e) <==> ElementMentions(e, name)
    decreases e, 2
  {
    if e.Part? {
      NamesAreMentioned(e.pattern, name);
    }
  }

  lemma {:induction false} ElementsMention(elements: seq<Element>, name: string)
    ensures name in ElementNames(elements) <==> exists i :: 0 <= i < |elements| && ElementMentions(elements[i], name)
    decreases elements, 0
  {
    hide ElementMentions, NamesOfElement;
    if elements != [] {
      ElementMentioned(elements[0], name);
      ElementsMention(elements[1..], name);
      var rest := elements[1..];
      if exists i :: 0 <= i < |rest| && ElementMentions(rest[i], name) {
        var i :| 0 <= i < |rest| && ElementMentions(rest[i], name);
        assert ElementMentions(elements[i + 1], name);
      }
      if exists i :: 0 <= i < |elements| && ElementMentions(elements[i], name) {
        var i :| 0 <= i < |elements| && ElementMentions(elements[i], name);
        assert i > 0 ==> ElementMentions(rest[i - 1], name);
      }
    }
  }

  /** The names a list of patterns declares are the identifiers it mentions. */
  lemma {:induction false} PatternsMention(patterns: seq<Pattern>, name: string)
    ensures name in PatternsNames(patterns) <==> AnyMentions(patterns, name)
    decreases patterns, 0
  {
    hide Mentions, PatternNames;
    if patterns != [] {
      NamesAreMentioned(patterns[0], name);
      PatternsMention(patterns[1..], name);
      var rest := patterns[1..];
      if AnyMentions(rest, name) {
        var i :| 0 <= i < |rest| && Mentions(rest[i], name);
        assert Mentions(patterns[i + 1], name);
      }
      if AnyMentions(patterns, name) {
        var i :| 0 <= i < |patterns| && Mentions(patterns[i], name);
        assert i > 0 ==> Mentions(rest[i - 1], name);
      }
    }
  }

  // ---------------------------------------------------------------------
  // Declarations

  /** A loop head that declares lexically mentions the name. */
  ghost predicate HeadDeclares(head: Option<Head>, name: string) {
    head.Some? && !head.value.isVar && AnyMentions(head.value.patterns, name)
  }

  /** A catch parameter other than one plain identifier mentions the name. */
  ghost predicate CatchDeclares(param: Option<Pattern>, name: string) {
    param.Some? && !param.value.Identifier? && Mentions(param.value, name)
  }

  ghost predicate DeclaresLexically(s: Stmt, name: string) {
    || (s.VarDecl? && !s.isVar && AnyMentions(s.patterns, name))
    || s == ClassDecl(name)
    || (s.FunctionDecl? && s.name == name)
  }

  ghost predicate Lexical(list: seq<Stmt>, name: string) {
    exists i :: 0 <= i < |list| && DeclaresLexically(list[i], name)
  }

  /** Neither a generator nor async. */
  predicate HasPlain(list: seq<Stmt>, name: string) {
    FunctionDecl(name, false, false) in list
  }

  /** A list that is a block of its own: its plain functions, or what hoists through its declarations. */
  ghost predicate BlockHoists(list: seq<Stmt>, blocked: set<string>, name: string) {
    name !in blocked && (HasPlain(list, name) || (!Lexical(list, name) && Hoists(list, blocked, name)))
  }

  lemma {:induction false} PlainIff(list: seq<Stmt>, name: string)
    ensures Declares(list, name) <==> HasPlain(list, name)
  {
    if HasPlain(list, name) {
      var i :| 0 <= i < |list| && list[i] == FunctionDecl(name, false, false);
      assert IsPlainFunction(list[i], name);
    }
  }

  lemma {:induction false} LexicalIff(list: seq<Stmt>, name: string)
    ensures name in BlockNames(list) <==> Lexical(list, name)
  {
    hide AnyMentions, PatternsNames;
    forall i | 0 <= i < |list| ensures name in DeclaredBy(list[i]) <==> DeclaresLexically(list[i], name) {
      if list[i].VarDecl? {
        PatternsMention(list[i].patterns, name);
      }
    }
  }

  /** Blocking more names only takes those names away. */
  lemma {:induction false} HoistsPast(list: seq<Stmt>, blocked: set<string>, more: set<string>, name: string)
    ensures Hoists(list, blocked + more, name) <==> name !in more && Hoists(list, blocked, name)
  {
    hide Reachable;
  }

  lemma {:induction false} BlockRegion(head: set<string>, list: seq<Stmt>, blocked: set<string>, name: string)
    ensures RegionHoists(Region(head, list, true), blocked, name) <==> name !in head && BlockHoists(list, blocked, name)
  {
    hide Hoists, Declares, HasPlain, BlockNames, Lexical;
    PlainIff(list, name);
    LexicalIff(list, name);
    HoistsPast(list, blocked, head + BlockNames(list), name);
    assert Hoists(list, blocked, name) ==> name !in blocked by { HoistsUnblocked(list, blocked, name); }
  }

  lemma {:induction false} HoistsUnblocked(list: seq<Stmt>, blocked: set<string>, name: string)
    ensures Hoists(list, blocked, name) ==> name !in blocked
  {
  }

  lemma {:induction false} PlainRegion(head: set<string>, body: Stmt, blocked: set<string>, name: string)
    ensures RegionHoists(Region(head, [body], false), blocked, name) <==> name !in head && Hoists([body], blocked, name)
  {
    hide Hoists, Declares, BlockNames;
    HoistsPast([body], blocked, head + {}, name);
  }

  lemma {:induction false} HeadIff(head: Option<Head>, name: string)
    ensures name in HeadNames(head) <==> HeadDeclares(head, name)
  {
    hide AnyMentions, PatternsNames;
    if head.Some? {
      PatternsMention(head.value.patterns, name);
    }
  }

  lemma {:induction false} CatchIff(param: Option<Pattern>, name: string)
    ensures name in CatchNames(param) <==> CatchDeclares(param, name)
  {
    hide Mentions, PatternNames;
    if param.Some? {
      NamesAreMentioned(param.value, name);
    }
  }

  // ---------------------------------------------------------------------
  // The rules

  /** A list hoists what its statements hoist. */
  lemma {:induction false} ListRule(list: seq<Stmt>, blocked: set<string>, name: string)
    ensures Hoists(list, blocked, name) <==> exists i :: 0 <= i < |list| && Hoists([list[i]], blocked, name)
  {
    hide Hoists, StmtHoists;
    HoistsByStmt(list, blocked, name);
    forall i | 0 <= i < |list| ensures Hoists([list[i]], blocked, name) <==> StmtHoists(list[i], blocked, name) {
      HoistsOne(list[i], blocked, name);
    }
  }

  lemma {:induction false} BlockRule(body: seq<Stmt>, blocked: set<string>, name: string)
    ensures Hoists([Block(body)], blocked, name) <==> BlockHoists(body, blocked, name)
  {
    hide Hoists, RegionHoists, SomeHoists, BlockHoists;
    HoistsOne(Block(body), blocked, name);
    WantedByRegions([], Region({}, body, true), blocked);
    BlockRegion({}, body, blocked, name);
  }

  /** A branch of an if counts as a block of its own. */
  ghost predicate BranchHoists(branch: Stmt, blocked: set<string>, name: string) {
    name !in blocked && (branch == FunctionDecl(name, false, false) || Hoists([branch], blocked, name))
  }

  lemma {:induction false} BranchRegion(branch: Stmt, blocked: set<string>, name: string)
    ensures RegionHoists(Region({}, [branch], true), blocked, name) <==> BranchHoists(branch, blocked, name)
  {
    hide Hoists, ScopeNames;
    BranchScope(branch, blocked);
    PlainIff([branch], name);
    assert FunctionDecl(name, false, false) in [branch] <==> branch == FunctionDecl(name, false, false);
    HoistsUnblocked([branch], blocked, name);
    assert blocked + {} == blocked;
  }

  lemma {:induction false} IfRule(consequent: Stmt, alternate: Option<Stmt>, blocked: set<string>, name: string)
    ensures Hoists([If(consequent, alternate)], blocked, name) <==>
            BranchHoists(consequent, blocked, name) || (alternate.Some? && BranchHoists(alternate.value, blocked, name))
  {
    hide Hoists, RegionHoists, SomeHoists, BranchHoists;
    HoistsOne(If(consequent, alternate), blocked, name);
    var first := Region({}, [consequent], true);
    WantedByRegions([], first, blocked);
    BranchRegion(consequent, blocked, name);
    assert [first] + [] == [first];
    if alternate.Some? {
      WantedByRegions([first], Region({}, [alternate.value], true), blocked);
      BranchRegion(alternate.value, blocked, name);
    }
  }

  /** A loop hoists what its body hoists, unless its head declares the name; other wrappers hoist what they wrap. */
  lemma {:induction false} LoopRule(head: Option<Head>, body: Stmt, blocked: set<string>, name: string)
    ensures Hoists([For(head, body)], blocked, name) <==> !HeadDeclares(head, name) && Hoists([body], blocked, name)
    ensures Hoists([ForEach(head, body)], blocked, name) <==> !HeadDeclares(head, name) && Hoists([body], blocked, name)
    ensures Hoists([Wrapped(body)], blocked, name) <==> Hoists([body], blocked, name)
  {
    hide Hoists, RegionHoists, SomeHoists, HeadNames, HeadDeclares;
    HeadIff(head, name);
    HoistsOne(For(head, body), blocked, name);
    HoistsOne(ForEach(head, body), blocked, name);
    HoistsOne(Wrapped(body), blocked, name);
    WantedByRegions([], Region(HeadNames(head), [body], false), blocked);
    WantedByRegions([], Region({}, [body], false), blocked);
    PlainRegion(HeadNames(head), body, blocked, name);
    PlainRegion({}, body, blocked, name);
  }

  /** The cases of a switch are one block. */
  lemma {:induction false} SwitchRule(cases: seq<Case>, blocked: set<string>, name: string)
    ensures Hoists([Switch(cases)], blocked, name) <==> BlockHoists(Flatten(cases), blocked, name)
    ensures forall s :: s in Flatten(cases) <==> exists i :: 0 <= i < |cases| && s in cases[i].consequent
  {
    hide Hoists, RegionHoists, SomeHoists, BlockHoists;
    HoistsOne(Switch(cases), blocked, name);
    WantedByRegions([], Region({}, Flatten(cases), true), blocked);
    BlockRegion({}, Flatten(cases), blocked, name);
    forall s ensures s in Flatten(cases) <==> exists i :: 0 <= i < |cases| && s in cases[i].consequent {
      FlattenHas(cases, s);
    }
  }

  lemma {:induction false} FlattenHas(cases: seq<Case>, s: Stmt)
    ensures s in Flatten(cases) <==> exists i :: 0 <= i < |cases| && s in cases[i].consequent
  {
    if cases != [] {
      FlattenHas(cases[1..], s);
      if exists i :: 0 <= i < |cases| && s in cases[i].consequent {
        var i :| 0 <= i < |cases| && s in cases[i].consequent;
        assert i > 0 ==> s in cases[1..][i - 1].consequent;
      }
      if exists i :: 0 <= i < |cases[1..]| && s in cases[1..][i].consequent {
        var i :| 0 <= i < |cases[1..]| && s in cases[1..][i].consequent;
        assert s in cases[i + 1].consequent;
      }
    }
  }

  /** The parts of a try are blocks; the handler also stands behind its parameter, if that is a pattern. */
  lemma {:induction false} TryRule(block: seq<Stmt>, handler: Option<Handler>, finalizer: Option<Finalizer>,
                                   blocked: set<string>, name: string)
    ensures Hoists([Try(block, handler, finalizer)], blocked, name) <==>
            || BlockHoists(block, blocked, name)
            || (handler.Some? && !CatchDeclares(handler.value.param, name) && BlockHoists(handler.value.body, blocked, name))
            || (finalizer.Some? && BlockHoists(finalizer.value.body, blocked, name))
  {
    hide Hoists, RegionHoists, SomeHoists, BlockHoists, CatchNames, CatchDeclares;
    var s := Try(block, handler, finalizer);
    HoistsOne(s, blocked, name);
    var regions := [Region({}, block, true)];
    WantedByRegions([], regions[0], blocked);
    BlockRegion({}, block, blocked, name);
    if handler.Some? {
      var next := Region(CatchNames(handler.value.param), handler.value.body, true);
      WantedByRegions(regions, next, blocked);
      CatchIff(handler.value.param, name);
      BlockRegion(next.head, next.body, blocked, name);
      regions := regions + [next];
    }
    if finalizer.Some? {
      var next := Region({}, finalizer.value.body, true);
      WantedByRegions(regions, next, blocked);
      BlockRegion({}, next.body, blocked, name);
      regions := regions + [next];
    }
    assert Regions(s) == regions;
  }

  /** No other statement hoists anything: a function outside every block does not. */
  lemma {:induction false} OtherRule(s: Stmt, blocked: set<string>, name: string)
    requires s.VarDecl? || s.FunctionDecl? || s.ClassDecl? || s.Other?
    ensures !Hoists([s], blocked, name)
  {
    LeafHoistsNothing(s, blocked, name);
  }
}
