/**
 The code units of a program, root first in pre-order, and the safe points that
 enumerating them yields.
 */
module SafePoints {
  import opened Options
  import Bytecode
  import opened PageState

  datatype CodeUnit = CodeUnit(code: seq<Bytecode.Byte>, children: seq<CodeUnit>)

  /** How many code units and syntax nodes, and which offsets, an identity can name. */
  datatype Limits = Limits(codeUnits: nat, astNodes: nat, offset: nat)

  function OffsetsOf(instructions: seq<Bytecode.Instruction>): (r: seq<nat>)
    ensures |r| == |instructions| && forall i :: 0 <= i < |r| ==> r[i] == instructions[i].offset
  {
    if instructions == [] then [] else [instructions[0].offset] + OffsetsOf(instructions[1..])
  }

  function Offsets(t: Bytecode.Table, unit: CodeUnit): seq<nat> {
    OffsetsOf(Bytecode.InstructionsFrom(t, unit.code, 0))
  }

  // ---------------------------------------------------------------------
  // Pre-order

  function PreOrder(t: Bytecode.Table, unit: CodeUnit): seq<seq<nat>>
    decreases unit, 1
  {
    [Offsets(t, unit)] + PreOrderAll(t, unit.children)
  }

  function PreOrderAll(t: Bytecode.Table, units: seq<CodeUnit>): seq<seq<nat>>
    decreases units, 0
  {
    if units == [] then [] else PreOrder(t, units[0]) + PreOrderAll(t, units[1..])
  }

  lemma {:induction false} PreOrderNonEmpty(t: Bytecode.Table, unit: CodeUnit)
    ensures PreOrder(t, unit) != []
  {
  }

  predicate Within(limits: Limits, offsets: seq<nat>) {
    forall i :: 0 <= i < |offsets| ==> offsets[i] <= limits.offset
  }

  /** Pushes the code units one after another onto the list, giving up where an identity does not fit. */
  function Collect(t: Bytecode.Table, limits: Limits, unit: CodeUnit, list: seq<seq<nat>>): Result<seq<seq<nat>>>
    decreases unit, 1
  {
    if |list| > limits.codeUnits then Err(CodeUnitLimit)
    else if !Within(limits, Offsets(t, unit)) then Err(InvalidBoundary)
    else CollectAll(t, limits, unit.children, list + [Offsets(t, unit)])
  }

  function CollectAll(t: Bytecode.Table, limits: Limits, units: seq<CodeUnit>, list: seq<seq<nat>>): Result<seq<seq<nat>>>
    decreases units, 0
  {
    if units == [] then Ok(list)
    else
      match Collect(t, limits, units[0], list)
      case Err(error) => Err(error)
      case Ok(more) => CollectAll(t, limits, units[1..], more)
  }

  /** The first identity of a list of code units that does not fit, counting from an ordinal. */
  function Refusal(limits: Limits, from: nat, more: seq<seq<nat>>): Option<Error>
    decreases |more|
  {
    if more == [] then None
    else if from > limits.codeUnits then Some(CodeUnitLimit)
    else if !Within(limits, more[0]) then Some(InvalidBoundary)
    else Refusal(limits, from + 1, more[1..])
  }

  lemma {:induction false} RefusalConcat(limits: Limits, from: nat, a: seq<seq<nat>>, b: seq<seq<nat>>)
    ensures Refusal(limits, from, a + b) ==
            if Refusal(limits, from, a).Some? then Refusal(limits, from, a) else Refusal(limits, from + |a|, b)
    decreases |a|
  {
    hide Within;
    if a == [] {
      assert a + b == b;
    } else {
      assert (a + b)[0] == a[0] && (a + b)[1..] == a[1..] + b;
      RefusalConcat(limits, from + 1, a[1..], b);
    }
  }

  /** Nothing is refused exactly when every ordinal and every offset can be named. */
  lemma {:induction false} RefusalIff(limits: Limits, from: nat, more: seq<seq<nat>>)
    ensures Refusal(limits, from, more).None? <==>
            (more == [] || from + |more| - 1 <= limits.codeUnits) && forall i :: 0 <= i < |more| ==> Within(limits, more[i])
    decreases |more|
  {
    hide Within;
    if more != [] {
      RefusalIff(limits, from + 1, more[1..]);
      assert forall i :: 0 < i < |more| ==> more[i] == more[1..][i - 1];
      assert forall i :: 0 <= i < |more[1..]| ==> more[1..][i] == more[i + 1];
    }
  }

  /** Collecting adds the tree in pre-order, or reports the first identity that does not fit. */
  ghost predicate Collects(limits: Limits, list: seq<seq<nat>>, more: seq<seq<nat>>, r: Result<seq<seq<nat>>>) {
    var refusal := Refusal(limits, |list|, more);
    r == if refusal.Some? then Err(refusal.value) else Ok(list + more)
  }

  lemma {:induction false} CollectIsPreOrder(t: Bytecode.Table, limits: Limits, unit: CodeUnit, list: seq<seq<nat>>)
    ensures Collects(limits, list, PreOrder(t, unit), Collect(t, limits, unit, list))
    decreases unit, 1
  {
    hide Offsets, Within;
    var own, rest := [Offsets(t, unit)], PreOrderAll(t, unit.children);
    CollectAllIsPreOrder(t, limits, unit.children, list + own);
    RefusalConcat(limits, |list|, own, rest);
    assert own[1..] == [];
    assert list + own + rest == list + (own + rest);
  }

  lemma {:induction false} CollectAllIsPreOrder(t: Bytecode.Table, limits: Limits, units: seq<CodeUnit>, list: seq<seq<nat>>)
    ensures Collects(limits, list, PreOrderAll(t, units), CollectAll(t, limits, units, list))
    decreases units, 0
  {
    hide Refusal;
    if units == [] {
      assert list + [] == list;
      assert Refusal(limits, |list|, []).None? by { RefusalIff(limits, |list|, []); }
    } else {
      var first, rest := PreOrder(t, units[0]), PreOrderAll(t, units[1..]);
      CollectIsPreOrder(t, limits, units[0], list);
      CollectAllIsPreOrder(t, limits, units[1..], list + first);
      RefusalConcat(limits, |list|, first, rest);
      assert list + first + rest == list + (first + rest);
    }
  }

  /**
   Collecting from the root succeeds exactly when every ordinal and offset can
   be named, and then lists the whole tree in pre-order; otherwise it reports
   the first in pre-order that cannot.
   */
  lemma {:induction false} CollectsTree(t: Bytecode.Table, limits: Limits, root: CodeUnit)
    ensures var units, r := PreOrder(t, root), Collect(t, limits, root, []);
            && (r.Ok? <==> |units| - 1 <= limits.codeUnits && forall i :: 0 <= i < |units| ==> Within(limits, units[i]))
            && (r.Ok? ==> r.value == units)
            && (r.Err? ==> Some(r.error) == Refusal(limits, 0, units))
  {
    CollectIsPreOrder(t, limits, root, []);
    RefusalIff(limits, 0, PreOrder(t, root));
    assert [] + PreOrder(t, root) == PreOrder(t, root);
  }

  // ---------------------------------------------------------------------
  // The metadata of a compiled program

  /**
   What the compiler hands over: a tree of code units, where a module's
   evaluation starts, which syntax nodes are statements of the top level, and
   the root offset of each such statement that has one.
   */
  datatype Code = Code(root: CodeUnit, evaluateEntry: nat, topLevel: seq<bool>, statements: seq<Option<nat>>)

  /** The ordinals of the top-level statements among the first nodes. */
  function Statements(topLevel: seq<bool>): seq<nat> {
    if topLevel == [] then []
    else
      var last := |topLevel| - 1;
      Statements(topLevel[..last]) + if topLevel[last] then [last] else []
  }

  /** Node by node the recorded offset; nothing where an offset is no boundary of the root. */
  function NodePoints(nodes: seq<nat>, statements: seq<Option<nat>>, root: seq<nat>): Option<map<nat, nat>>
    requires |nodes| == |statements|
  {
    if nodes == [] then Some(map[])
    else
      var last := |nodes| - 1;
      match NodePoints(nodes[..last], statements[..last], root)
      case None => None
      case Some(points) =>
        if statements[last].None? then Some(points)
        else if statements[last].value !in root then None
        else Some(points[nodes[last] := statements[last].value])
  }

  lemma {:induction false} NodePointsStop(nodes: seq<nat>, statements: seq<Option<nat>>, root: seq<nat>, i: nat)
    requires |nodes| == |statements| && i <= |nodes| && NodePoints(nodes[..i], statements[..i], root).None?
    ensures NodePoints(nodes, statements, root).None?
    decreases |nodes| - i
  {
    if i == |nodes| {
      assert nodes[..i] == nodes && statements[..i] == statements;
    } else {
      assert nodes[..i + 1][..i] == nodes[..i] && statements[..i + 1][..i] == statements[..i];
      NodePointsStop(nodes, statements, root, i + 1);
    }
  }

  /** The loop over top-level statements and their recorded offsets. */
  method RecordPoints(nodes: seq<nat>, statements: seq<Option<nat>>, root: seq<nat>) returns (r: Option<map<nat, nat>>)
    requires |nodes| == |statements|
    ensures r == NodePoints(nodes, statements, root)
  {
    var points: map<nat, nat> := map[];
    var i := 0;
    while i < |nodes|
      invariant 0 <= i <= |nodes|
      invariant NodePoints(nodes[..i], statements[..i], root) == Some(points)
    {
      assert nodes[..i + 1][..i] == nodes[..i] && statements[..i + 1][..i] == statements[..i];
      if statements[i].Some? {
        if statements[i].value !in root {
          NodePointsStop(nodes, statements, root, i + 1);
          return None;
        }
        points := points[nodes[i] := statements[i].value];
      }
      i := i + 1;
    }
    assert nodes[..i] == nodes && statements[..i] == statements;
    r := Some(points);
  }

  function ArtifactOf(t: Bytecode.Table, limits: Limits, moduleId: string, isModule: bool, code: Option<Code>): (a: Artifact)
    ensures a.Compiled? ==> a.program.moduleId == moduleId && a.program.isModule == isModule
  {
    if code.None? then NotCompiled
    else
      var c := code.value;
      var collected := Collect(t, limits, c.root, []);
      if collected.Err? then NotNamed(collected.error)
      else if |c.topLevel| > limits.astNodes + 1 then NotNamed(AstNodeLimit)
      else
        var units, nodes := collected.value, Statements(c.topLevel);
        assert units != [] by { CollectsTree(t, limits, c.root); }
        var points :=
          if c.topLevel == [] then Some(map[])
          else if |nodes| != |c.statements| then None
          else NodePoints(nodes, c.statements, units[0]);
        if points.None? then NotNamed(AstShapeMismatch)
        else Compiled(Program(moduleId, isModule, |c.root.code|, c.evaluateEntry, units, |c.topLevel|, points.value))
  }

  lemma {:induction false} StatementsBelow(topLevel: seq<bool>)
    ensures forall i :: 0 <= i < |Statements(topLevel)| ==> Statements(topLevel)[i] < |topLevel|
  {
    if topLevel != [] {
      StatementsBelow(topLevel[..|topLevel| - 1]);
    }
  }

  lemma {:induction false} NodePointsAreBoundaries(nodes: seq<nat>, statements: seq<Option<nat>>, root: seq<nat>, bound: nat)
    requires |nodes| == |statements| && NodePoints(nodes, statements, root).Some?
    requires forall i :: 0 <= i < |nodes| ==> nodes[i] < bound
    ensures forall n <- NodePoints(nodes, statements, root).value ::
              n < bound && NodePoints(nodes, statements, root).value[n] in root
  {
    if nodes != [] {
      NodePointsAreBoundaries(nodes[..|nodes| - 1], statements[..|nodes| - 1], root, bound);
    }
  }

  /** The listed ordinals are exactly those of top-level statements, in order. */
  lemma {:induction false} StatementsListed(topLevel: seq<bool>)
    ensures Increasing(Statements(topLevel))
    ensures forall k :: k in Statements(topLevel) <==> 0 <= k < |topLevel| && topLevel[k]
  {
    StatementsBelow(topLevel);
    if topLevel != [] {
      StatementsListed(topLevel[..|topLevel| - 1]);
      StatementsBelow(topLevel[..|topLevel| - 1]);
    }
  }

  /** Points are refused exactly for an offset that is no boundary; else just the statements with an offset are recorded. */
  lemma {:induction false} NodePointsExact(nodes: seq<nat>, statements: seq<Option<nat>>, root: seq<nat>)
    requires |nodes| == |statements| && Increasing(nodes)
    ensures NodePoints(nodes, statements, root).None? <==>
            exists i :: 0 <= i < |statements| && statements[i].Some? && statements[i].value !in root
    ensures NodePoints(nodes, statements, root).Some? ==>
              var points := NodePoints(nodes, statements, root).value;
              && (forall i :: 0 <= i < |nodes| ==>
                    (nodes[i] in points <==> statements[i].Some?) &&
                    (statements[i].Some? ==> points[nodes[i]] == statements[i].value))
              && (forall n <- points :: n in nodes)
  {
    if nodes != [] {
      var last := |nodes| - 1;
      NodePointsExact(nodes[..last], statements[..last], root);
      assert forall i :: 0 <= i < last ==> nodes[..last][i] == nodes[i] && statements[..last][i] == statements[i];
      var front := NodePoints(nodes[..last], statements[..last], root);
      if front.Some? {
        assert nodes[last] !in front.value;
      }
    }
  }

  lemma {:induction false} RefusalKinds(limits: Limits, from: nat, more: seq<seq<nat>>)
    ensures var r := Refusal(limits, from, more); r.Some? ==> r.value == CodeUnitLimit || r.value == InvalidBoundary
    decreases |more|
  {
    if more != [] {
      RefusalKinds(limits, from + 1, more[1..]);
    }
  }

  /** Some recorded offset is no boundary of the root, or there are not as many as top-level statements. */
  ghost predicate Mismatched(t: Bytecode.Table, code: Code) {
    && code.topLevel != []
    && (|Statements(code.topLevel)| != |code.statements|
        || exists i :: 0 <= i < |code.statements| && code.statements[i].Some?
                       && code.statements[i].value !in Offsets(t, code.root))
  }

  /**
   What becomes of compiled code: an error for the first code unit or offset that
   cannot be named, then for too many syntax nodes, then for offsets that do not
   match; and otherwise a program that records each statement's offset.
   */
  lemma {:induction false} ArtifactIff(t: Bytecode.Table, limits: Limits, moduleId: string, isModule: bool, code: Code)
    ensures var a, refusal := ArtifactOf(t, limits, moduleId, isModule, Some(code)), Refusal(limits, 0, PreOrder(t, code.root));
            && (refusal.Some? ==> a == NotNamed(refusal.value))
            && (refusal.None? && |code.topLevel| > limits.astNodes + 1 ==> a == NotNamed(AstNodeLimit))
            && (refusal.None? && |code.topLevel| <= limits.astNodes + 1 && Mismatched(t, code) ==>
                  a == NotNamed(AstShapeMismatch))
            && (refusal.None? && |code.topLevel| <= limits.astNodes + 1 && !Mismatched(t, code) ==> a.Compiled?)
            && (a.NotNamed? ==> a.error in {CodeUnitLimit, InvalidBoundary, AstNodeLimit, AstShapeMismatch})
            && (a.Compiled? && code.topLevel != [] ==>
                  var nodes := Statements(code.topLevel);
                  && |nodes| == |code.statements| && a.program.nodes == |code.topLevel|
                  && (forall i :: 0 <= i < |nodes| ==>
                        (nodes[i] in a.program.nodePoints <==> code.statements[i].Some?) &&
                        (code.statements[i].Some? ==> a.program.nodePoints[nodes[i]] == code.statements[i].value))
                  && (forall n <- a.program.nodePoints :: n in nodes))
  {
    hide Collect, PreOrder, NodePoints, Statements, Offsets, Refusal;
    CollectsTree(t, limits, code.root);
    RefusalKinds(limits, 0, PreOrder(t, code.root));
    RefusalIff(limits, 0, PreOrder(t, code.root));
    RootFirst(t, code.root);
    StatementsListed(code.topLevel);
    if code.topLevel != [] && |Statements(code.topLevel)| == |code.statements| {
      NodePointsExact(Statements(code.topLevel), code.statements, Offsets(t, code.root));
    }
  }

  lemma {:induction false} RootFirst(t: Bytecode.Table, root: CodeUnit)
    ensures PreOrder(t, root) != [] && PreOrder(t, root)[0] == Offsets(t, root)
  {
    hide Offsets;
  }

  /** A program's units are the pre-order of its tree, and every recorded node has a boundary of the root. */
  lemma {:induction false} ArtifactIsExact(t: Bytecode.Table, limits: Limits, moduleId: string, isModule: bool, code: Code)
    requires ArtifactOf(t, limits, moduleId, isModule, Some(code)).Compiled?
    ensures var p := ArtifactOf(t, limits, moduleId, isModule, Some(code)).program;
            && p.units == PreOrder(t, code.root) && p.units != [] && p.bytes == |code.root.code|
            && forall n <- p.nodePoints :: n < p.nodes && p.nodePoints[n] in p.units[0]
  {
    CollectsTree(t, limits, code.root);
    var units, nodes := PreOrder(t, code.root), Statements(code.topLevel);
    if code.topLevel != [] {
      StatementsBelow(code.topLevel);
      NodePointsAreBoundaries(nodes, code.statements, units[0], |code.topLevel|);
    }
  }

  // ---------------------------------------------------------------------
  // Safe points

  function PointsOfUnit(generation: nat, ordinal: nat, offsets: seq<nat>): seq<SafePoint> {
    seq(|offsets|, i requires 0 <= i < |offsets| => SafePoint(generation, ordinal, offsets[i]))
  }

  /** Every point of the first code units, in order. */
  function Points(generation: nat, units: seq<seq<nat>>): seq<SafePoint> {
    if units == [] then []
    else
      var last := |units| - 1;
      Points(generation, units[..last]) + PointsOfUnit(generation, last, units[last])
  }

  lemma {:induction false} PointsIn(generation: nat, units: seq<seq<nat>>, point: SafePoint)
    ensures point in Points(generation, units) <==>
            point.generation == generation && point.ordinal < |units| && point.offset in units[point.ordinal]
  {
    if units != [] {
      var last := |units| - 1;
      PointsIn(generation, units[..last], point);
      var own := PointsOfUnit(generation, last, units[last]);
      assert point in Points(generation, units) <==> point in Points(generation, units[..last]) || point in own;
      if point.generation == generation && point.ordinal == last && point.offset in units[last] {
        var i :| 0 <= i < |units[last]| && units[last][i] == point.offset;
        assert own[i] == point;
      }
    }
  }

  /** The enumeration of a live program's safe points holds exactly what validation accepts for its handle. */
  lemma {:induction false} EnumeratesValid(s: Runtime, h: Handle, point: SafePoint)
    requires h in s.programs
    ensures point in Points(h, s.programs[h].units) <==> CheckSafePoint(s, h, point).Ok?
  {
    PointsIn(h, s.programs[h].units, point);
  }

  predicate Before(a: SafePoint, b: SafePoint) {
    a.ordinal < b.ordinal || (a.ordinal == b.ordinal && a.offset < b.offset)
  }

  ghost predicate Increasing(offsets: seq<nat>) {
    forall i, j :: 0 <= i < j < |offsets| ==> offsets[i] < offsets[j]
  }

  lemma {:induction false} PointsOrdered(generation: nat, units: seq<seq<nat>>)
    requires forall k :: 0 <= k < |units| ==> Increasing(units[k])
    ensures forall i, j :: 0 <= i < j < |Points(generation, units)| ==>
              Before(Points(generation, units)[i], Points(generation, units)[j])
  {
    if units != [] {
      var last := |units| - 1;
      var front := Points(generation, units[..last]);
      PointsOrdered(generation, units[..last]);
      forall i | 0 <= i < |front| ensures front[i].ordinal < last {
        PointsIn(generation, units[..last], front[i]);
      }
      assert Increasing(units[last]);
    }
  }

  lemma {:induction false} DecodedIncrease(t: Bytecode.Table, code: seq<Bytecode.Byte>, offset: nat)
    ensures var r := OffsetsOf(Bytecode.InstructionsFrom(t, code, offset));
            Increasing(r) && forall i :: 0 <= i < |r| ==> r[i] >= offset
    decreases |code| - offset
  {
    var instruction := Bytecode.InstructionAt(t, code, offset);
    if instruction.Some? {
      var next := offset + t[instruction.value.opcode];
      DecodedIncrease(t, code, next);
      var all, rest := Bytecode.InstructionsFrom(t, code, offset), Bytecode.InstructionsFrom(t, code, next);
      assert all == [instruction.value] + rest && all[1..] == rest;
    }
  }

  lemma {:induction false} PreOrderIncreases(t: Bytecode.Table, unit: CodeUnit)
    ensures forall k :: 0 <= k < |PreOrder(t, unit)| ==> Increasing(PreOrder(t, unit)[k])
    decreases unit, 1
  {
    hide Increasing;
    DecodedIncrease(t, unit.code, 0);
    PreOrderAllIncreases(t, unit.children);
  }

  lemma {:induction false} PreOrderAllIncreases(t: Bytecode.Table, units: seq<CodeUnit>)
    ensures forall k :: 0 <= k < |PreOrderAll(t, units)| ==> Increasing(PreOrderAll(t, units)[k])
    decreases units, 0
  {
    hide Increasing;
    if units != [] {
      PreOrderIncreases(t, units[0]);
      PreOrderAllIncreases(t, units[1..]);
    }
  }

  /** An installed tree enumerates each of its instruction boundaries once, unit by unit, in increasing order. */
  lemma {:induction false} TreePointsOrdered(t: Bytecode.Table, root: CodeUnit, generation: nat)
    ensures var points := Points(generation, PreOrder(t, root));
            forall i, j :: 0 <= i < j < |points| ==> Before(points[i], points[j])
  {
    PreOrderIncreases(t, root);
    PointsOrdered(generation, PreOrder(t, root));
  }

  /** The boundaries of emitted and patched code are where its instructions were emitted. */
  lemma {:induction false} EmittedBoundaries(t: Bytecode.Table, unit: CodeUnit, log: seq<Bytecode.Emitted>)
    requires Bytecode.InTable(t, log) && unit.code == Bytecode.Encoded(t, log)
    ensures |Offsets(t, unit)| == |log|
    ensures forall i :: 0 <= i < |log| ==> Offsets(t, unit)[i] == Bytecode.OffsetOf(t, log, i)
  {
    Bytecode.DecodesLog(t, log);
  }

  function Flat(unit: CodeUnit): seq<CodeUnit>
    decreases unit, 1
  {
    [unit] + FlatAll(unit.children)
  }

  function FlatAll(units: seq<CodeUnit>): seq<CodeUnit>
    decreases units, 0
  {
    if units == [] then [] else Flat(units[0]) + FlatAll(units[1..])
  }

  lemma {:induction false} PreOrderFlat(t: Bytecode.Table, unit: CodeUnit)
    ensures |PreOrder(t, unit)| == |Flat(unit)|
    ensures forall k :: 0 <= k < |Flat(unit)| ==> PreOrder(t, unit)[k] == Offsets(t, Flat(unit)[k])
    decreases unit, 1
  {
    hide Offsets;
    PreOrderAllFlat(t, unit.children);
  }

  lemma {:induction false} PreOrderAllFlat(t: Bytecode.Table, units: seq<CodeUnit>)
    ensures |PreOrderAll(t, units)| == |FlatAll(units)|
    ensures forall k :: 0 <= k < |FlatAll(units)| ==> PreOrderAll(t, units)[k] == Offsets(t, FlatAll(units)[k])
    decreases units, 0
  {
    hide Offsets;
    if units != [] {
      PreOrderFlat(t, units[0]);
      PreOrderAllFlat(t, units[1..]);
    }
  }

  /** How many code units a list of trees has. */
  function UnitCount(units: seq<CodeUnit>): nat {
    |FlatAll(units)|
  }

  /** Ordinals: the root is 0, and each child comes after the whole trees of the children before it. */
  lemma {:induction false} ChildOrdinal(unit: CodeUnit, k: nat)
    requires k < |unit.children|
    ensures Flat(unit)[0] == unit
    ensures var start := 1 + UnitCount(unit.children[..k]);
            start < |Flat(unit)| && Flat(unit)[start] == unit.children[k]
  {
    FlatAllAt(unit.children, k);
  }

  lemma {:induction false} FlatAllAt(units: seq<CodeUnit>, k: nat)
    requires k < |units|
    ensures UnitCount(units[..k]) < |FlatAll(units)| && FlatAll(units)[UnitCount(units[..k])] == units[k]
    decreases |units|
  {
    if k == 0 {
      assert units[..0] == [];
      assert Flat(units[0])[0] == units[0];
    } else {
      FlatAllAt(units[1..], k - 1);
      assert units[..k][1..] == units[1..][..k - 1] && units[..k][0] == units[0];
    }
  }

  /** The logs, in pre-order, are what the code units of the tree were emitted from. */
  ghost predicate EmittedFrom(t: Bytecode.Table, root: CodeUnit, logs: seq<seq<Bytecode.Emitted>>) {
    && |logs| == |Flat(root)|
    && forall k :: 0 <= k < |logs| ==> EmitsUnit(t, Flat(root)[k], logs[k])
  }

  ghost predicate EmitsUnit(t: Bytecode.Table, unit: CodeUnit, log: seq<Bytecode.Emitted>) {
    Bytecode.InTable(t, log) && unit.code == Bytecode.Encoded(t, log)
  }

  /** The log has an instruction at the offset. */
  ghost predicate EmittedAt(t: Bytecode.Table, log: seq<Bytecode.Emitted>, offset: nat)
    requires Bytecode.InTable(t, log)
  {
    exists i :: 0 <= i < |log| && Bytecode.OffsetOf(t, log, i) == offset
  }

  lemma {:induction false} BoundaryIffEmitted(t: Bytecode.Table, unit: CodeUnit, log: seq<Bytecode.Emitted>, offset: nat)
    requires EmitsUnit(t, unit, log)
    ensures offset in Offsets(t, unit) <==> EmittedAt(t, log, offset)
  {
    hide Offsets, Bytecode.OffsetOf;
    EmittedBoundaries(t, unit, log);
    if offset in Offsets(t, unit) {
      var i :| 0 <= i < |Offsets(t, unit)| && Offsets(t, unit)[i] == offset;
      assert Bytecode.OffsetOf(t, log, i) == offset;
    }
    if EmittedAt(t, log, offset) {
      var i :| 0 <= i < |log| && Bytecode.OffsetOf(t, log, i) == offset;
      assert Offsets(t, unit)[i] == offset;
    }
  }

  /**
   From emission to validation: once a tree of emitted and patched code units is
   installed, validation accepts a point of the new handle exactly when the code
   unit of that ordinal, in pre-order, emitted an instruction at that offset;
   and the point recorded for a syntax node is always such a point.
   */
  lemma {:induction false} InstalledPoints(c: Config, s: Runtime, tab: nat, origin: string, moduleId: string, isModule: bool,
                                           t: Bytecode.Table, limits: Limits, code: Code,
                                           logs: seq<seq<Bytecode.Emitted>>, point: SafePoint,
                                           generation: nat, node: nat)
    requires EmittedFrom(t, code.root, logs)
    ensures var artifact := ArtifactOf(t, limits, moduleId, isModule, Some(code));
            var (s', r) := InstallProgram(c, s, tab, origin, moduleId, isModule, artifact);
            r.Ok? ==>
              && (CheckSafePoint(s', r.value, point).Ok? <==>
                    && point.generation == r.value && point.ordinal < |logs|
                    && EmittedAt(t, logs[point.ordinal], point.offset))
              && (var recorded, points := NodeSafePoint(s', r.value, generation, node), artifact.program.nodePoints;
                  && (recorded.Ok? <==> generation == r.value && node in points)
                  && (recorded.Ok? ==>
                        recorded.value == SafePoint(r.value, 0, points[node]) && CheckSafePoint(s', r.value, recorded.value).Ok?))
  {
    hide Offsets, Collect, PreOrder, Flat, EmittedAt;
    var artifact := ArtifactOf(t, limits, moduleId, isModule, Some(code));
    var (s', r) := InstallProgram(c, s, tab, origin, moduleId, isModule, artifact);
    if r.Ok? {
      ArtifactIsExact(t, limits, moduleId, isModule, code);
      PreOrderFlat(t, code.root);
      if point.ordinal < |logs| {
        assert EmitsUnit(t, Flat(code.root)[point.ordinal], logs[point.ordinal]);
        BoundaryIffEmitted(t, Flat(code.root)[point.ordinal], logs[point.ordinal], point.offset);
      }
    }
  }

  /** Enumerates one program's safe points, or refuses when there are more than asked for. */
  method Enumerate(s: Runtime, tab: nat, h: Handle, most: nat) returns (r: Result<seq<SafePoint>>)
    requires Coherent(s)
    ensures tab !in s.realms ==> r == Err(UnknownRealm)
    ensures tab in s.realms && !Owns(s, tab, h) ==> r == Err(ProgramNotOwned)
    ensures Owns(s, tab, h) ==>
              var points := Points(h, s.programs[h].units);
              r == if |points| <= most then Ok(points) else Err(SafePointLimit)
  {
    if tab !in s.realms {
      return Err(UnknownRealm);
    }
    if h !in s.realms[tab].programs {
      return Err(ProgramNotOwned);
    }
    assert Owns(s, tab, h);
    var points := Points(h, s.programs[h].units);
    var list: seq<SafePoint> := [];
    var i := 0;
    while i < |points|
      invariant 0 <= i <= |points| && list == points[..i] && i <= most
    {
      if |list| == most {
        return Err(SafePointLimit);
      }
      list := list + [points[i]];
      i := i + 1;
    }
    assert points[..|points|] == points;
    r := Ok(list);
  }
}
