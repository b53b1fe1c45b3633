/**
 Which block-level functions also become var bindings of their script or
 function (ECMA-262, section B.3.2), and why adding them is always allowed.
 */
module AnnexB {
  import opened Options

  datatype Pattern =
    | Identifier(name: string)
    | Array(elements: seq<Element>)
    | Object(values: seq<Pattern>)

  datatype Element = Hole | Part(pattern: Pattern)

  /** Statements, as far as they hold other statements or declare names. */
  datatype Stmt =
    | Block(body: seq<Stmt>)
    | VarDecl(isVar: bool, patterns: seq<Pattern>)
    | If(consequent: Stmt, alternate: Option<Stmt>)
    | For(init: Option<Head>, loopBody: Stmt)
    | ForEach(left: Option<Head>, eachBody: Stmt)
    | Wrapped(item: Stmt)
    | Switch(cases: seq<Case>)
    | Try(block: seq<Stmt>, handler: Option<Handler>, finalizer: Option<Finalizer>)
    | FunctionDecl(name: string, generator: bool, isAsync: bool)
    | ClassDecl(name: string)
    | Other

  /** The declarations of a loop head. */
  datatype Head = Head(isVar: bool, patterns: seq<Pattern>)

  datatype Case = Case(consequent: seq<Stmt>)

  datatype Handler = Handler(param: Option<Pattern>, body: seq<Stmt>)

  datatype Finalizer = Finalizer(body: seq<Stmt>)

  // ---------------------------------------------------------------------
  // Names

  function PatternNames(p: Pattern): set<string> {
    match p
    case Identifier(name) => {name}
    case Array(elements) => ElementNames(elements)
    case Object(values) => PatternsNames(values)
  }

  function ElementNames(elements: seq<Element>): set<string> {
    if elements == [] then {} else NamesOfElement(elements[0]) + ElementNames(elements[1..])
  }

  function NamesOfElement(e: Element): set<string> {
    if e.Part? then PatternNames(e.pattern) else {}
  }

  function PatternsNames(patterns: seq<Pattern>): set<string> {
    if patterns == [] then {} else PatternNames(patterns[0]) + PatternsNames(patterns[1..])
  }

  /** What a statement declares in the block it stands in. */
  function DeclaredBy(s: Stmt): set<string> {
    match s
    case VarDecl(isVar, patterns) => if isVar then {} else PatternsNames(patterns)
    case ClassDecl(name) => {name}
    case FunctionDecl(name, _, _) => {name}
    case _ => {}
  }

  ghost function BlockNames(list: seq<Stmt>): set<string> {
    set i, name | 0 <= i < |list| && name in DeclaredBy(list[i]) :: name
  }

  function HeadNames(head: Option<Head>): set<string> {
    if head.Some? && !head.value.isVar then PatternsNames(head.value.patterns) else {}
  }

  /** A catch parameter that is one plain identifier lets a var of that name pass through. */
  function CatchNames(param: Option<Pattern>): set<string> {
    if param.Some? && !param.value.Identifier? then PatternNames(param.value) else {}
  }

  // ---------------------------------------------------------------------
  // Places in a program

  /**
   A statement list inside a statement, the names declared by the head in front
   of it, and whether it is a block, so that functions in it are block-level and
   it is a scope of its own.
   */
  datatype Region = Region(head: set<string>, body: seq<Stmt>, isBlock: bool)

  function Flatten(cases: seq<Case>): seq<Stmt> {
    if cases == [] then [] else cases[0].consequent + Flatten(cases[1..])
  }

  function Regions(s: Stmt): seq<Region> {
    match s
    case Block(body) => [Region({}, body, true)]
    case If(consequent, alternate) =>
      [Region({}, [consequent], true)] + (if alternate.Some? then [Region({}, [alternate.value], true)] else [])
    case For(init, body) => [Region(HeadNames(init), [body], false)]
    case ForEach(left, body) => [Region(HeadNames(left), [body], false)]
    case Wrapped(item) => [Region({}, [item], false)]
    case Switch(cases) => [Region({}, Flatten(cases), true)]
    case Try(block, handler, finalizer) =>
      [Region({}, block, true)] +
      (if handler.Some? then [Region(CatchNames(handler.value.param), handler.value.body, true)] else []) +
      (if finalizer.Some? then [Region({}, finalizer.value.body, true)] else [])
    case _ => []
  }

  /** One step down: into a region of a statement of a list. */
  datatype Step = Step(statement: nat, region: nat)

  predicate CanStep(list: seq<Stmt>, step: Step) {
    step.statement < |list| && step.region < |Regions(list[step.statement])|
  }

  function Into(list: seq<Stmt>, step: Step): Region
    requires CanStep(list, step)
  {
    Regions(list[step.statement])[step.region]
  }

  /** The names declared by a region as a scope: its head, and its own declarations if it is a block. */
  ghost function ScopeNames(r: Region): set<string> {
    r.head + if r.isBlock then BlockNames(r.body) else {}
  }

  predicate IsPlainFunction(s: Stmt, name: string) {
    s.FunctionDecl? && s.name == name && !s.generator && !s.isAsync
  }

  predicate Declares(list: seq<Stmt>, name: string) {
    exists i :: 0 <= i < |list| && IsPlainFunction(list[i], name)
  }

  /**
   Following the path leads to a block with a plain function of the name, and
   no scope strictly outside that block declares the name: neither the scopes
   passed on the way nor the head in front of the block.
   */
  ghost predicate LeadsTo(list: seq<Stmt>, path: seq<Step>, name: string)
    decreases |path|
  {
    path != [] && CanStep(list, path[0]) &&
    var r := Into(list, path[0]);
    if |path| == 1 then r.isBlock && Declares(r.body, name) && name !in r.head
    else name !in ScopeNames(r) && LeadsTo(r.body, path[1..], name)
  }

  ghost predicate Reachable(list: seq<Stmt>, name: string) {
    exists path :: LeadsTo(list, path, name)
  }

  ghost predicate Hoists(list: seq<Stmt>, blocked: set<string>, name: string) {
    name !in blocked && Reachable(list, name)
  }

  ghost predicate RegionHoists(r: Region, blocked: set<string>, name: string) {
    || (r.isBlock && Declares(r.body, name) && name !in blocked + r.head)
    || Hoists(r.body, blocked + ScopeNames(r), name)
  }

  /** Hoisting from a list is hoisting from some region of some statement. */
  lemma {:induction false} HoistsByRegion(list: seq<Stmt>, blocked: set<string>, name: string)
    ensures Hoists(list, blocked, name) <==>
            exists step :: CanStep(list, step) && RegionHoists(Into(list, step), blocked, name)
  {
    hide ScopeNames, Declares;
    if Hoists(list, blocked, name) {
      var path :| LeadsTo(list, path, name);
      var r := Into(list, path[0]);
      if |path| > 1 {
        assert LeadsTo(r.body, path[1..], name);
      }
      assert RegionHoists(r, blocked, name);
    }
    forall step | CanStep(list, step) && RegionHoists(Into(list, step), blocked, name)
      ensures Hoists(list, blocked, name)
    {
      var r := Into(list, step);
      if r.isBlock && Declares(r.body, name) && name !in blocked + r.head {
        assert LeadsTo(list, [step], name);
      } else {
        var path :| LeadsTo(r.body, path, name);
        assert ([step] + path)[1..] == path;
        assert LeadsTo(list, [step] + path, name);
      }
    }
  }

  /** Hoisting from one statement is hoisting from the list that holds only it. */
  ghost predicate StmtHoists(s: Stmt, blocked: set<string>, name: string) {
    SomeHoists(Regions(s), blocked, name)
  }

  ghost predicate SomeHoists(regions: seq<Region>, blocked: set<string>, name: string) {
    exists k :: 0 <= k < |regions| && RegionHoists(regions[k], blocked, name)
  }

  lemma {:induction false} SomeHoistsConcat(a: seq<Region>, b: seq<Region>, blocked: set<string>, name: string)
    ensures SomeHoists(a + b, blocked, name) <==> SomeHoists(a, blocked, name) || SomeHoists(b, blocked, name)
  {
    hide RegionHoists;
    var ab := a + b;
    if SomeHoists(ab, blocked, name) {
      var k :| 0 <= k < |ab| && RegionHoists(ab[k], blocked, name);
      assert if k < |a| then RegionHoists(a[k], blocked, name) else RegionHoists(b[k - |a|], blocked, name);
    }
    if SomeHoists(a, blocked, name) {
      var k :| 0 <= k < |a| && RegionHoists(a[k], blocked, name);
      assert ab[k] == a[k];
    }
    if SomeHoists(b, blocked, name) {
      var k :| 0 <= k < |b| && RegionHoists(b[k], blocked, name);
      assert ab[|a| + k] == b[k];
    }
  }

  lemma {:induction false} SomeHoistsOne(r: Region, blocked: set<string>, name: string)
    ensures SomeHoists([r], blocked, name) <==> RegionHoists(r, blocked, name)
    ensures !SomeHoists([], blocked, name)
  {
    hide RegionHoists;
    assert [r][0] == r;
  }

  lemma {:induction false} HoistsByStmt(list: seq<Stmt>, blocked: set<string>, name: string)
    ensures Hoists(list, blocked, name) <==> exists i :: 0 <= i < |list| && StmtHoists(list[i], blocked, name)
  {
    hide RegionHoists, Hoists, Regions;
    HoistsByRegion(list, blocked, name);
    if Hoists(list, blocked, name) {
      var step :| CanStep(list, step) && RegionHoists(Into(list, step), blocked, name);
      assert RegionHoists(Regions(list[step.statement])[step.region], blocked, name);
      assert StmtHoists(list[step.statement], blocked, name);
    }
    forall i | 0 <= i < |list| && StmtHoists(list[i], blocked, name) ensures Hoists(list, blocked, name) {
      var k :| 0 <= k < |Regions(list[i])| && RegionHoists(Regions(list[i])[k], blocked, name);
      assert Into(list, Step(i, k)) == Regions(list[i])[k];
    }
  }

  /** A statement list with no statements inside statements hoists nothing. */
  lemma {:induction false} LeafHoistsNothing(s: Stmt, blocked: set<string>, name: string)
    requires Regions(s) == []
    ensures !Hoists([s], blocked, name)
  {
    HoistsByStmt([s], blocked, name);
  }

  // ---------------------------------------------------------------------
  // Size, for termination

  function Size(s: Stmt): (n: nat)
    ensures n > 0
  {
    match s
    case Block(body) => 1 + SizeAll(body)
    case If(c, a) => 1 + Size(c) + (if a.Some? then Size(a.value) else 0)
    case For(_, b) => 1 + Size(b)
    case ForEach(_, b) => 1 + Size(b)
    case Wrapped(b) => 1 + Size(b)
    case Switch(cases) => 1 + SizeCases(cases)
    case Try(b, h, f) =>
      1 + SizeAll(b) + (if h.Some? then SizeAll(h.value.body) else 0) + (if f.Some? then SizeAll(f.value.body) else 0)
    case _ => 1
  }

  function SizeAll(list: seq<Stmt>): nat {
    if list == [] then 0 else Size(list[0]) + SizeAll(list[1..])
  }

  function SizeCases(cases: seq<Case>): nat {
    if cases == [] then 0 else SizeAll(cases[0].consequent) + SizeCases(cases[1..])
  }

  // ---------------------------------------------------------------------
  // The collector

  /** What a collector adds: exactly the names the property asks for. */
  ghost predicate Adds(names: set<string>, r: set<string>, wanted: iset<string>) {
    forall name :: name in r <==> name in names || name in wanted
  }

  ghost function Wanted(list: seq<Stmt>, blocked: set<string>): iset<string> {
    iset name | Hoists(list, blocked, name)
  }

  ghost function WantedByRegion(r: Region, blocked: set<string>): iset<string> {
    iset name | RegionHoists(r, blocked, name)
  }

  ghost function WantedByStmt(s: Stmt, blocked: set<string>): iset<string> {
    iset name | StmtHoists(s, blocked, name)
  }

  /** Block-level functions of a list that nothing outside forbids. */
  ghost function WantedHere(list: seq<Stmt>, blocked: set<string>): iset<string> {
    iset name | Declares(list, name) && name !in blocked
  }

  method InsertFunctions(list: seq<Stmt>, blocked: set<string>, names: set<string>) returns (r: set<string>)
    ensures Adds(names, r, WantedHere(list, blocked))
  {
    r := names;
    var i := 0;
    while i < |list|
      invariant 0 <= i <= |list|
      invariant Adds(names, r, WantedHere(list[..i], blocked))
    {
      var s := list[i];
      DeclaresSnoc(list, i);
      if s.FunctionDecl? && !s.generator && !s.isAsync {
        if s.name !in blocked {
          r := r + {s.name};
        }
      }
      i := i + 1;
    }
    assert list[..i] == list;
  }

  lemma {:induction false} DeclaresSnoc(list: seq<Stmt>, i: nat)
    requires i < |list|
    ensures forall name :: Declares(list[..i + 1], name) <==> Declares(list[..i], name) || IsPlainFunction(list[i], name)
  {
    forall name ensures Declares(list[..i + 1], name) <==> Declares(list[..i], name) || IsPlainFunction(list[i], name) {
      if Declares(list[..i], name) {
        var k :| 0 <= k < i && IsPlainFunction(list[..i][k], name);
        assert IsPlainFunction(list[..i + 1][k], name);
      }
      if IsPlainFunction(list[i], name) {
        assert IsPlainFunction(list[..i + 1][i], name);
      }
      if Declares(list[..i + 1], name) {
        var k :| 0 <= k <= i && IsPlainFunction(list[..i + 1][k], name);
        assert k < i ==> IsPlainFunction(list[..i][k], name);
      }
    }
  }

  method ExtendBlocked(blocked: set<string>, list: seq<Stmt>) returns (r: set<string>)
    ensures r == blocked + BlockNames(list)
  {
    r := blocked;
    var i := 0;
    assert BlockNames(list[..0]) == {};
    while i < |list|
      invariant 0 <= i <= |list|
      invariant r == blocked + BlockNames(list[..i])
    {
      BlockNamesSnoc(list, i);
      match list[i] {
        case VarDecl(isVar, patterns) =>
          if !isVar {
            r := r + PatternsNames(patterns);
          }
        case ClassDecl(name) => r := r + {name};
        case FunctionDecl(name, _, _) => r := r + {name};
        case _ =>
      }
      i := i + 1;
    }
    assert list[..i] == list;
  }

  lemma {:induction false} BlockNamesSnoc(list: seq<Stmt>, i: nat)
    requires i < |list|
    ensures BlockNames(list[..i + 1]) == BlockNames(list[..i]) + DeclaredBy(list[i])
  {
    var more, fewer := list[..i + 1], list[..i];
    forall name | name in BlockNames(fewer) + DeclaredBy(list[i]) ensures name in BlockNames(more) {
      if name in BlockNames(fewer) {
        var k :| 0 <= k < i && name in DeclaredBy(fewer[k]);
        assert name in DeclaredBy(more[k]);
      } else {
        assert name in DeclaredBy(more[i]);
      }
    }
    forall name | name in BlockNames(more) ensures name in BlockNames(fewer) + DeclaredBy(list[i]) {
      var k :| 0 <= k <= i && name in DeclaredBy(more[k]);
      assert k < i ==> name in DeclaredBy(fewer[k]);
    }
  }

  lemma {:induction false} DeclaresConcat(a: seq<Stmt>, b: seq<Stmt>, name: string)
    ensures Declares(a + b, name) <==> Declares(a, name) || Declares(b, name)
  {
    var ab := a + b;
    if Declares(a, name) {
      var k :| 0 <= k < |a| && IsPlainFunction(a[k], name);
      assert IsPlainFunction(ab[k], name);
    }
    if Declares(b, name) {
      var k :| 0 <= k < |b| && IsPlainFunction(b[k], name);
      assert IsPlainFunction(ab[|a| + k], name);
    }
  }

  lemma {:induction false} HoistsConcat(a: seq<Stmt>, b: seq<Stmt>, blocked: set<string>, name: string)
    ensures Hoists(a + b, blocked, name) <==> Hoists(a, blocked, name) || Hoists(b, blocked, name)
  {
    hide Hoists, StmtHoists;
    var ab := a + b;
    HoistsByStmt(a, blocked, name);
    HoistsByStmt(b, blocked, name);
    HoistsByStmt(ab, blocked, name);
    assert forall i :: 0 <= i < |a| ==> ab[i] == a[i];
    assert forall i :: 0 <= i < |b| ==> ab[|a| + i] == b[i];
    if exists i :: 0 <= i < |ab| && StmtHoists(ab[i], blocked, name) {
      var i :| 0 <= i < |ab| && StmtHoists(ab[i], blocked, name);
      assert if i < |a| then StmtHoists(a[i], blocked, name) else StmtHoists(b[i - |a|], blocked, name);
    }
  }

  lemma {:induction false} BlockNamesConcat(a: seq<Stmt>, b: seq<Stmt>)
    ensures BlockNames(a + b) == BlockNames(a) + BlockNames(b)
    decreases |b|
  {
    hide BlockNames, DeclaredBy;
    NothingInEmpty({});
    if b == [] {
      assert a + b == a;
    } else {
      var n, ab := |b| - 1, a + b;
      BlockNamesConcat(a, b[..n]);
      BlockNamesSnoc(b, n);
      BlockNamesSnoc(ab, |a| + n);
      assert b[..n + 1] == b && ab[..|a| + n] == a + b[..n] && ab[..|a| + n + 1] == ab;
    }
  }

  lemma {:induction false} FlattenSnoc(cases: seq<Case>, i: nat)
    requires i < |cases|
    ensures Flatten(cases[..i + 1]) == Flatten(cases[..i]) + cases[i].consequent
  {
    if i == 0 {
      assert cases[..1] == [cases[0]];
    } else {
      FlattenSnoc(cases[1..], i - 1);
      assert cases[..i + 1][1..] == cases[1..][..i] && cases[..i][1..] == cases[1..][..i - 1];
    }
  }

  lemma {:induction false} SizeIn(list: seq<Stmt>, i: nat)
    requires i < |list|
    ensures Size(list[i]) <= SizeAll(list)
  {
    if i > 0 {
      SizeIn(list[1..], i - 1);
    }
  }

  lemma {:induction false} SizeCaseIn(cases: seq<Case>, i: nat)
    requires i < |cases|
    ensures SizeAll(cases[i].consequent) <= SizeCases(cases)
  {
    if i > 0 {
      SizeCaseIn(cases[1..], i - 1);
    }
  }

  method CollectBlock(list: seq<Stmt>, head: set<string>, blocked: set<string>, names: set<string>) returns (r: set<string>)
    ensures Adds(names, r, WantedByRegion(Region(head, list, true), blocked))
    decreases SizeAll(list), 3
  {
    hide Declares, Hoists, BlockNames;
    r := InsertFunctions(list, blocked + head, names);
    var nested := ExtendBlocked(blocked + head, list);
    r := Collect(list, nested, r);
    assert blocked + head + BlockNames(list) == blocked + (head + BlockNames(list));
  }

  method Collect(list: seq<Stmt>, blocked: set<string>, names: set<string>) returns (r: set<string>)
    ensures Adds(names, r, Wanted(list, blocked))
    decreases SizeAll(list), 2
  {
    hide Hoists, StmtHoists;
    r := names;
    var i := 0;
    NothingInEmpty(blocked);
    assert list[..0] == [];
    while i < |list|
      invariant 0 <= i <= |list|
      invariant Adds(names, r, Wanted(list[..i], blocked))
    {
      SizeIn(list, i);
      r := CollectOne(list[i], blocked, r);
      assert list[..i + 1] == list[..i] + [list[i]];
      forall name ensures Hoists(list[..i + 1], blocked, name) <==> Hoists(list[..i], blocked, name) || StmtHoists(list[i], blocked, name) {
        HoistsConcat(list[..i], [list[i]], blocked, name);
        HoistsOne(list[i], blocked, name);
      }
      i := i + 1;
    }
    assert list[..i] == list;
  }

  lemma {:induction false} HoistsOne(s: Stmt, blocked: set<string>, name: string)
    ensures Hoists([s], blocked, name) <==> StmtHoists(s, blocked, name)
  {
    hide Hoists, StmtHoists;
    HoistsByStmt([s], blocked, name);
    assert [s][0] == s;
  }

  /** A region that is no block hoists what its list hoists behind its head. */
  method CollectBody(body: Stmt, head: set<string>, blocked: set<string>, names: set<string>) returns (r: set<string>)
    ensures Adds(names, r, WantedByRegion(Region(head, [body], false), blocked))
    decreases Size(body), 4
  {
    hide Hoists, Declares;
    assert SizeAll([body]) == Size(body);
    r := Collect([body], blocked + head, names);
    assert blocked + (head + {}) == blocked + head;
  }

  method CollectBranch(branch: Stmt, blocked: set<string>, names: set<string>) returns (r: set<string>)
    ensures Adds(names, r, WantedByRegion(Region({}, [branch], true), blocked))
    decreases Size(branch), 4
  {
    hide Hoists;
    assert [branch][0] == branch;
    assert blocked + {} == blocked;
    if branch.FunctionDecl? {
      forall name ensures !Hoists([branch], blocked + ScopeNames(Region({}, [branch], true)), name) {
        LeafHoistsNothing(branch, blocked + ScopeNames(Region({}, [branch], true)), name);
      }
      r := names;
      if !branch.generator && !branch.isAsync && branch.name !in blocked {
        r := r + {branch.name};
      }
    } else {
      assert SizeAll([branch]) == Size(branch);
      r := Collect([branch], blocked, names);
      BranchScope(branch, blocked);
    }
  }

  /** A branch that is no function either declares nothing or holds nothing. */
  lemma {:induction false} BranchScope(branch: Stmt, blocked: set<string>)
    ensures forall name :: Hoists([branch], blocked + ScopeNames(Region({}, [branch], true)), name) <==> Hoists([branch], blocked, name)
  {
    hide Hoists;
    var inner := blocked + ScopeNames(Region({}, [branch], true));
    if Regions(branch) == [] {
      forall name ensures !Hoists([branch], inner, name) && !Hoists([branch], blocked, name) {
        LeafHoistsNothing(branch, inner, name);
        LeafHoistsNothing(branch, blocked, name);
      }
    } else {
      assert [branch][0] == branch && DeclaredBy(branch) == {};
      assert inner == blocked;
    }
  }

  lemma {:induction false} NothingInEmpty(blocked: set<string>)
    ensures BlockNames([]) == {}
    ensures forall name :: !Declares([], name) && !Hoists([], blocked, name)
  {
    forall name ensures !Hoists([], blocked, name) {
      HoistsByStmt([], blocked, name);
    }
  }

  method CollectSwitch(cases: seq<Case>, blocked: set<string>, names: set<string>) returns (r: set<string>)
    ensures Adds(names, r, WantedByRegion(Region({}, Flatten(cases), true), blocked))
    decreases SizeCases(cases), 4
  {
    hide Hoists, BlockNames, Declares;
    r := names;
    var i := 0;
    NothingInEmpty(blocked);
    assert Flatten(cases[..0]) == [];
    while i < |cases|
      invariant 0 <= i <= |cases|
      invariant Adds(names, r, WantedHere(Flatten(cases[..i]), blocked))
    {
      r := InsertFunctions(cases[i].consequent, blocked, r);
      FlattenSnoc(cases, i);
      forall name ensures Declares(Flatten(cases[..i + 1]), name) <==>
                          Declares(Flatten(cases[..i]), name) || Declares(cases[i].consequent, name) {
        DeclaresConcat(Flatten(cases[..i]), cases[i].consequent, name);
      }
      i := i + 1;
    }
    var nested := blocked;
    i := 0;
    while i < |cases|
      invariant 0 <= i <= |cases|
      invariant nested == blocked + BlockNames(Flatten(cases[..i]))
    {
      nested := ExtendBlocked(nested, cases[i].consequent);
      FlattenSnoc(cases, i);
      BlockNamesConcat(Flatten(cases[..i]), cases[i].consequent);
      i := i + 1;
    }
    ghost var inserted := r;
    i := 0;
    NothingInEmpty(nested);
    while i < |cases|
      invariant 0 <= i <= |cases|
      invariant Adds(inserted, r, Wanted(Flatten(cases[..i]), nested))
    {
      SizeCaseIn(cases, i);
      r := Collect(cases[i].consequent, nested, r);
      FlattenSnoc(cases, i);
      forall name ensures Hoists(Flatten(cases[..i + 1]), nested, name) <==>
                          Hoists(Flatten(cases[..i]), nested, name) || Hoists(cases[i].consequent, nested, name) {
        HoistsConcat(Flatten(cases[..i]), cases[i].consequent, nested, name);
      }
      i := i + 1;
    }
    assert cases[..i] == cases;
    assert blocked + {} == blocked && {} + BlockNames(Flatten(cases)) == BlockNames(Flatten(cases));
  }

  /** A statement hoists what its regions hoist, one after another. */
  lemma {:induction false} WantedByRegions(a: seq<Region>, r: Region, blocked: set<string>)
    ensures forall name :: SomeHoists(a + [r], blocked, name) <==> SomeHoists(a, blocked, name) || RegionHoists(r, blocked, name)
    ensures forall name :: SomeHoists([r], blocked, name) <==> RegionHoists(r, blocked, name)
    ensures forall name :: !SomeHoists([], blocked, name)
  {
    hide RegionHoists, SomeHoists;
    forall name
      ensures SomeHoists(a + [r], blocked, name) <==> SomeHoists(a, blocked, name) || RegionHoists(r, blocked, name)
      ensures SomeHoists([r], blocked, name) <==> RegionHoists(r, blocked, name)
      ensures !SomeHoists([], blocked, name)
    {
      SomeHoistsConcat(a, [r], blocked, name);
      SomeHoistsOne(r, blocked, name);
    }
  }

  method CollectTry(block: seq<Stmt>, handler: Option<Handler>, finalizer: Option<Finalizer>,
                    blocked: set<string>, names: set<string>) returns (r: set<string>)
    ensures Adds(names, r, WantedByStmt(Try(block, handler, finalizer), blocked))
    decreases Size(Try(block, handler, finalizer)), 0
  {
    hide RegionHoists, SomeHoists;
    var regions := [Region({}, block, true)];
    WantedByRegions([], regions[0], blocked);
    r := CollectBlock(block, {}, blocked, names);
    if handler.Some? {
      var next := Region(CatchNames(handler.value.param), handler.value.body, true);
      WantedByRegions(regions, next, blocked);
      r := CollectBlock(handler.value.body, CatchNames(handler.value.param), blocked, r);
      regions := regions + [next];
    }
    if finalizer.Some? {
      var next := Region({}, finalizer.value.body, true);
      WantedByRegions(regions, next, blocked);
      r := CollectBlock(finalizer.value.body, {}, blocked, r);
      regions := regions + [next];
    }
    assert Regions(Try(block, handler, finalizer)) == regions;
  }

  method CollectOne(s: Stmt, blocked: set<string>, names: set<string>) returns (r: set<string>)
    ensures Adds(names, r, WantedByStmt(s, blocked))
    decreases Size(s), 1
  {
    hide RegionHoists, SomeHoists, HeadNames;
    match s {
      case Block(body) =>
        WantedByRegions([], Region({}, body, true), blocked);
        r := CollectBlock(body, {}, blocked, names);
      case If(consequent, alternate) =>
        var first := Region({}, [consequent], true);
        WantedByRegions([], first, blocked);
        assert [first] + [] == [first];
        r := CollectBranch(consequent, blocked, names);
        if alternate.Some? {
          WantedByRegions([first], Region({}, [alternate.value], true), blocked);
          r := CollectBranch(alternate.value, blocked, r);
        }
      case For(init, body) =>
        WantedByRegions([], Region(HeadNames(init), [body], false), blocked);
        r := CollectBody(body, HeadNames(init), blocked, names);
      case ForEach(left, body) =>
        WantedByRegions([], Region(HeadNames(left), [body], false), blocked);
        r := CollectBody(body, HeadNames(left), blocked, names);
      case Wrapped(item) =>
        WantedByRegions([], Region({}, [item], false), blocked);
        r := CollectBody(item, {}, blocked, names);
      case Switch(cases) =>
        WantedByRegions([], Region({}, Flatten(cases), true), blocked);
        r := CollectSwitch(cases, blocked, names);
      case Try(block, handler, finalizer) =>
        r := CollectTry(block, handler, finalizer, blocked, names);
      case _ =>
        WantedByRegions([], Region({}, [], true), blocked);
        r := names;
    }
  }

  // ---------------------------------------------------------------------
  // The result at the root

  /**
   The names a program's block-level functions also declare as vars: exactly
   those with a plain function in some block, reached through no scope that
   declares the name.
   */
  method FunctionNames(program: seq<Stmt>, rootLexical: set<string>) returns (names: set<string>)
    ensures forall name :: name in names <==> name !in rootLexical && Reachable(program, name)
    ensures names !! rootLexical
  {
    hide Reachable;
    names := Collect(program, rootLexical, {});
    assert forall name :: name in names <==> Hoists(program, rootLexical, name);
  }

  // ---------------------------------------------------------------------
  // Entering the root scope

  /** A declaration list of a scope whose vars are declared first. */
  ghost predicate Clashes(lexical: seq<string>, vars: set<string>, i: nat)
    requires i < |lexical|
  {
    lexical[i] in vars || lexical[i] in lexical[..i]
  }

  /** The first name that is bound twice, as entering a scope reports it. */
  method FindDuplicate(lexical: seq<string>, vars: set<string>) returns (r: Option<string>)
    ensures r.None? <==> forall i :: 0 <= i < |lexical| ==> !Clashes(lexical, vars, i)
    ensures r.Some? ==> exists i :: 0 <= i < |lexical| && Clashes(lexical, vars, i) && lexical[i] == r.value
  {
    var bound := vars;
    var i := 0;
    while i < |lexical|
      invariant 0 <= i <= |lexical|
      invariant forall name :: name in bound <==> name in vars || name in lexical[..i]
      invariant forall k :: 0 <= k < i ==> !Clashes(lexical, vars, k)
    {
      if lexical[i] in bound {
        assert Clashes(lexical, vars, i);
        return Some(lexical[i]);
      }
      assert lexical[..i + 1] == lexical[..i] + [lexical[i]];
      bound := bound + {lexical[i]};
      i := i + 1;
    }
    r := None;
  }

  /** Adding the collected names to the vars of a scope never makes a declaration clash that did not before. */
  lemma {:induction false} NamesNeverClash(lexical: seq<string>, vars: set<string>, names: set<string>, i: nat)
    requires i < |lexical|
    requires forall name <- names :: name !in lexical
    ensures Clashes(lexical, vars + names, i) <==> Clashes(lexical, vars, i)
  {
    assert lexical[i] in lexical;
  }

  /** Compiling the root: the collected names join the vars, and duplicates are looked for only then. */
  method EnterRoot(program: seq<Stmt>, lexical: seq<string>, vars: set<string>) returns (r: Option<string>, all: set<string>)
    ensures r.None? <==> forall i :: 0 <= i < |lexical| ==> !Clashes(lexical, vars, i)
    ensures forall name :: name in all <==>
              name in vars || (name !in lexical && Reachable(program, name))
  {
    hide Reachable;
    var root := set name | name in lexical;
    var names := FunctionNames(program, root);
    all := vars + names;
    r := FindDuplicate(lexical, all);
    forall i | 0 <= i < |lexical| ensures Clashes(lexical, all, i) <==> Clashes(lexical, vars, i) {
      NamesNeverClash(lexical, vars, names, i);
    }
  }
}
