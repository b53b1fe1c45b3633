/**
 Runs of the page runtime: what holds in every reachable state, and what no
 later state accepts again.
 */
module PageRuns {
  import opened PageState
  import opened PageProof

  datatype Op =
    | Open(tab: nat, origin: string, vmOk: bool)
    | Go(tab: nat, origin: string)
    | Close(tab: nat)
    | Install(tab: nat, origin: string, moduleId: string, isModule: bool, artifact: Artifact)
    | Discard(tab: nat, handle: Handle)
    | Execute(tab: nat, entry: Handle, handles: seq<Handle>)
    | ExecuteUntilEntry(tab: nat, entry: Handle, handles: seq<Handle>, point: SafePoint)
    | ExecuteUntilNested(tab: nat, entry: Handle, handles: seq<Handle>, point: SafePoint, vm: VmState)
    | ExecuteUntilLinked(tab: nat, entry: Handle, dependency: Handle, handles: seq<Handle>, point: SafePoint, vm: VmState)
    | RunUntilNested(tab: nat, handle: Handle, point: SafePoint, vm: VmState)
    | Run(tab: nat, handle: Handle)
    | RunUntilRoot(tab: nat, handle: Handle, point: SafePoint)
    | Validate(tab: nat, handle: Handle, point: SafePoint)
    | Continue(frame: NestedFrame, vm: VmState)
    | Resume(linkedFrame: LinkedFrame, vm: VmState)

  /** Compiling keeps the source identity and the root kind. */
  predicate WellFormed(op: Op) {
    op.Install? && op.artifact.Compiled? ==>
      op.artifact.program.moduleId == op.moduleId && op.artifact.program.isModule == op.isModule
  }

  /** The state after an operation, and whether it was accepted: running a program changes nothing kept here. */
  function Apply(c: Config, s: Runtime, op: Op): (Runtime, bool)
    requires Coherent(s) && WellFormed(op)
  {
    match op
    case Open(tab, origin, vmOk) => var (s', r) := OpenRealm(c, s, tab, origin, vmOk); (s', r.Ok?)
    case Go(tab, origin) => var (s', r) := Navigate(s, tab, origin); (s', r.Ok?)
    case Close(tab) => CloseRealm(s, tab)
    case Install(tab, origin, moduleId, isModule, artifact) =>
      var (s', r) := InstallProgram(c, s, tab, origin, moduleId, isModule, artifact); (s', r.Ok?)
    case Discard(tab, h) => var (s', r) := DiscardProgram(s, tab, h); (s', r.Ok?)
    case Execute(tab, entry, handles) => var (s', r) := ExecuteModuleGraph(s, tab, entry, handles); (s', r.Ok?)
    case ExecuteUntilEntry(tab, entry, handles, point) =>
      var (s', r) := PauseModule(s, tab, entry, handles, point); (s', r.Ok?)
    case ExecuteUntilNested(tab, entry, handles, point, vm) =>
      var (s', r) := PauseModuleNested(s, tab, entry, handles, point, vm); (s', r.Ok?)
    case ExecuteUntilLinked(tab, entry, dependency, handles, point, vm) =>
      var (s', r) := PauseLinked(s, tab, entry, dependency, handles, point, vm); (s', r.Ok?)
    case RunUntilNested(tab, h, point, vm) => var (s', r) := PauseNested(s, tab, h, point, vm); (s', r.Ok?)
    case Run(tab, h) => (s, Owns(s, tab, h))
    case RunUntilRoot(tab, h, point) =>
      (s, ValidateSafePoint(s, tab, h, point).Ok? && !s.programs[h].isModule && point.ordinal == 0)
    case Validate(tab, h, point) => (s, ValidateSafePoint(s, tab, h, point).Ok?)
    case Continue(frame, vm) => var (s', r) := ContinueNested(s, frame, vm); (s', r.Ok?)
    case Resume(frame, vm) => var (s', r) := ResumeLinked(s, frame, vm); (s', r.Ok?)
  }

  /** A run; nothing is asked of a step taken where an `expect` would fail. */
  ghost predicate IsRun(c: Config, states: seq<Runtime>, ops: seq<Op>) {
    && |states| == |ops| + 1
    && states[0] == EMPTY
    && (forall i :: 0 <= i < |ops| ==> WellFormed(ops[i]))
    && (forall i :: 0 <= i < |ops| && Coherent(states[i]) ==> states[i + 1] == Apply(c, states[i], ops[i]).0)
  }

  // ---------------------------------------------------------------------
  // Operations that only reserve identities and keep frames

  ghost predicate Annotates(s: Runtime, s': Runtime, tab: nat) {
    s' == s || (
      && tab in s.realms && tab in s'.realms
      && s' == SetRealm(s, tab, s'.realms[tab])
      && s'.realms[tab].origin == s.realms[tab].origin
      && s'.realms[tab].programs == s.realms[tab].programs
      && s'.realms[tab].modules == s.realms[tab].modules
      && s'.realms[tab].bytes == s.realms[tab].bytes
      && s.realms[tab].linked <= s'.realms[tab].linked)
  }

  function TabOf(op: Op): nat {
    match op
    case Continue(frame, _) => frame.tab
    case Resume(frame, _) => frame.tab
    case _ => op.tab
  }

  predicate IsAnnotation(op: Op) {
    !(op.Open? || op.Go? || op.Close? || op.Install? || op.Discard?)
  }

  lemma {:induction false} SetTwice(s: Runtime, tab: nat, first: Realm, second: Realm)
    ensures SetRealm(SetRealm(s, tab, first), tab, second) == SetRealm(s, tab, second)
  {
  }

  lemma {:induction false} AnnotationOnly(c: Config, s: Runtime, op: Op)
    requires Coherent(s) && WellFormed(op) && IsAnnotation(op)
    ensures Annotates(s, Apply(c, s, op).0, TabOf(op))
  {
    hide GraphModules, Coherent, CheckSafePoint;
    var s' := Apply(c, s, op).0;
    var tab := TabOf(op);
    if s' != s && (op.ExecuteUntilNested? || op.ExecuteUntilLinked?) {
      var modules := Graph(s, tab, op.entry, op.handles).value;
      var reserved := Reserve(s, tab, modules);
      SetTwice(s, tab, reserved.realms[tab], s'.realms[tab]);
    }
  }

  // ---------------------------------------------------------------------
  // The invariant along a run

  lemma {:induction false} StepSound(c: Config, s: Runtime, op: Op)
    requires Sound(c, s) && Coherent(s) && WellFormed(op)
    ensures Sound(c, Apply(c, s, op).0)
  {
    hide Sound, Coherent;
    match op
    case Open(tab, origin, vmOk) => OpenSound(c, s, tab, origin, vmOk);
    case Go(tab, origin) => NavigateSound(c, s, tab, origin);
    case Close(tab) => CloseSound(c, s, tab);
    case Install(tab, origin, moduleId, isModule, artifact) =>
      InstallSound(c, s, tab, origin, moduleId, isModule, artifact);
    case Discard(tab, h) => DiscardSound(c, s, tab, h);
    case _ => AnnotationSound(c, s, op);
  }

  lemma {:induction false} AnnotationSound(c: Config, s: Runtime, op: Op)
    requires Sound(c, s) && Coherent(s) && WellFormed(op) && IsAnnotation(op)
    ensures Sound(c, Apply(c, s, op).0)
  {
    hide Sound, Coherent, Apply;
    AnnotationOnly(c, s, op);
    var s' := Apply(c, s, op).0;
    if s' != s {
      AnnotateSound(c, s, TabOf(op), s'.realms[TabOf(op)]);
    }
  }

  lemma {:induction false} EmptySound(c: Config)
    ensures Sound(c, EMPTY)
  {
  }

  /**
   In every state of every run the live programs are the disjoint union of the
   realms' program sets, charges are exact and bounded, the module tables are
   exact, and no look-up or release an operation relies on can fail.
   */
  lemma {:induction false} EveryStateSound(c: Config, states: seq<Runtime>, ops: seq<Op>, i: nat)
    requires IsRun(c, states, ops) && i < |states|
    ensures Sound(c, states[i]) && Coherent(states[i])
  {
    hide Sound, Coherent, Apply;
    if i == 0 {
      EmptySound(c);
    } else {
      EveryStateSound(c, states, ops, i - 1);
      StepSound(c, states[i - 1], ops[i - 1]);
    }
    SoundIsCoherent(c, states[i]);
  }

  // ---------------------------------------------------------------------
  // A dead generation stays dead

  /** Allocated once, and no longer registered. */
  ghost predicate Dead(s: Runtime, h: Handle) {
    h < s.next && h !in s.programs
  }

  lemma {:induction false} StepKeepsDead(c: Config, s: Runtime, op: Op, h: Handle)
    requires Coherent(s) && WellFormed(op)
    ensures s.next <= Apply(c, s, op).0.next
    ensures Dead(s, h) ==> Dead(Apply(c, s, op).0, h)
  {
    hide Coherent, Graph;
    if IsAnnotation(op) {
      AnnotationOnly(c, s, op);
    }
  }

  /** The handles an operation names, in any of its arguments. */
  ghost predicate Names(op: Op, h: Handle) {
    match op
    case Discard(_, handle) => h == handle
    case Execute(_, entry, handles) => h == entry || h in handles
    case ExecuteUntilEntry(_, entry, handles, point) => h == entry || h in handles || h == point.generation
    case ExecuteUntilNested(_, entry, handles, point, _) => h == entry || h in handles || h == point.generation
    case ExecuteUntilLinked(_, entry, dependency, handles, point, _) =>
      h == entry || h == dependency || h in handles || h == point.generation
    case RunUntilNested(_, handle, point, _) => h == handle || h == point.generation
    case Run(_, handle) => h == handle
    case RunUntilRoot(_, handle, point) => h == handle || h == point.generation
    case Validate(_, handle, point) => h == handle || h == point.generation
    case Continue(frame, _) => h == frame.program
    case Resume(frame, _) => h == frame.entry || h == frame.dependency
    case _ => false
  }

  lemma {:induction false} GraphNamesLive(s: Runtime, tab: nat, handles: seq<Handle>, h: Handle)
    requires Coherent(s) && h in handles && GraphModules(s, tab, handles).Ok?
    ensures Owns(s, tab, h)
  {
    if h != handles[|handles| - 1] {
      GraphNamesLive(s, tab, handles[..|handles| - 1], h);
    }
  }

  lemma {:induction false} DeadIsRefused(c: Config, s: Runtime, op: Op, h: Handle)
    requires Coherent(s) && WellFormed(op) && Dead(s, h) && Names(op, h)
    ensures Apply(c, s, op) == (s, false)
  {
    hide GraphModules;
    assert forall tab :: !Owns(s, tab, h);
    if op.Execute? || op.ExecuteUntilEntry? || op.ExecuteUntilNested? || op.ExecuteUntilLinked? {
      if GraphModules(s, op.tab, op.handles).Ok? && h in op.handles {
        GraphNamesLive(s, op.tab, op.handles, h);
        assert false;
      }
    }
  }

  lemma {:induction false} DeadFrom(c: Config, states: seq<Runtime>, ops: seq<Op>, i: nat, j: nat, h: Handle)
    requires IsRun(c, states, ops) && i <= j < |states| && Dead(states[i], h)
    ensures Dead(states[j], h)
    decreases j
  {
    hide Dead, Apply, Coherent;
    if i < j {
      DeadFrom(c, states, ops, i, j - 1, h);
      EveryStateSound(c, states, ops, j - 1);
      StepKeepsDead(c, states[j - 1], ops[j - 1], h);
    }
  }

  /** What an operation takes out of the runtime. */
  ghost predicate Retires(s: Runtime, op: Op, h: Handle) {
    match op
    case Discard(tab, handle) => h == handle && Owns(s, tab, h)
    case Go(tab, _) => Owns(s, tab, h)
    case Close(tab) => Owns(s, tab, h)
    case _ => false
  }

  lemma {:induction false} RetiredIsDead(c: Config, s: Runtime, op: Op, h: Handle)
    requires Sound(c, s) && Coherent(s) && WellFormed(op) && Retires(s, op, h)
    ensures Dead(Apply(c, s, op).0, h)
  {
    hide RealmsSound;
    assert h in s.programs;
  }

  /**
   Once a program is discarded, or its tab navigated or closed, every later
   operation of any run that names it by handle, safe point or debugger frame
   is refused and changes nothing; no later install is given its generation.
   */
  lemma {:induction false} RetiredStaysRefused(c: Config, states: seq<Runtime>, ops: seq<Op>, i: nat, j: nat, h: Handle)
    requires IsRun(c, states, ops) && i < j < |ops|
    requires Retires(states[i], ops[i], h)
    ensures Coherent(states[j]) && h !in states[j].programs && h < states[j].next
    ensures Names(ops[j], h) ==> Apply(c, states[j], ops[j]) == (states[j], false)
    ensures ops[j].Install? ==>
              InstallProgram(c, states[j], ops[j].tab, ops[j].origin, ops[j].moduleId, ops[j].isModule, ops[j].artifact).1
              != Ok(h)
  {
    hide Apply, Coherent, Sound, Names, Retires;
    EveryStateSound(c, states, ops, i);
    RetiredIsDead(c, states[i], ops[i], h);
    DeadFrom(c, states, ops, i + 1, j, h);
    EveryStateSound(c, states, ops, j);
    if Names(ops[j], h) {
      DeadIsRefused(c, states[j], ops[j], h);
    }
  }

  /** The generation an operation of a run hands out, if any. */
  ghost predicate Issues(c: Config, s: Runtime, op: Op, h: Handle) {
    && op.Install? && WellFormed(op)
    && InstallProgram(c, s, op.tab, op.origin, op.moduleId, op.isModule, op.artifact).1 == Ok(h)
  }

  lemma {:induction false} NextFrom(c: Config, states: seq<Runtime>, ops: seq<Op>, i: nat, j: nat)
    requires IsRun(c, states, ops) && i <= j < |states|
    ensures states[i].next <= states[j].next
    decreases j
  {
    hide Apply, Coherent, Sound;
    if i < j {
      NextFrom(c, states, ops, i, j - 1);
      EveryStateSound(c, states, ops, j - 1);
      StepKeepsDead(c, states[j - 1], ops[j - 1], 0);
    }
  }

  /** No two installs of a run are given the same generation, whatever happened in between. */
  lemma {:induction false} GenerationsNeverReissued(c: Config, states: seq<Runtime>, ops: seq<Op>, i: nat, j: nat,
                                                    h: Handle, later: Handle)
    requires IsRun(c, states, ops) && i < j < |ops|
    requires Issues(c, states[i], ops[i], h) && Issues(c, states[j], ops[j], later)
    ensures h < later < LAST_GENERATION
  {
    EveryStateSound(c, states, ops, i);
    NextFrom(c, states, ops, i + 1, j);
  }

  /** The operation installed the program in this realm, naming this origin. */
  ghost predicate InstallsUnder(c: Config, s: Runtime, op: Op, tab: nat, origin: string, h: Handle) {
    Issues(c, s, op, h) && op.tab == tab && op.origin == origin
  }

  /** Whatever a realm owns after a step it owned before under the same origin, or was just given under it. */
  lemma {:induction false} StepOwns(c: Config, s: Runtime, op: Op, tab: nat, h: Handle)
    requires Coherent(s) && WellFormed(op) && Owns(Apply(c, s, op).0, tab, h)
    ensures var origin := Apply(c, s, op).0.realms[tab].origin;
            || (Owns(s, tab, h) && s.realms[tab].origin == origin)
            || InstallsUnder(c, s, op, tab, origin, h)
  {
    hide Coherent, Graph;
    if IsAnnotation(op) {
      AnnotationOnly(c, s, op);
    }
  }

  /** In every run each program of a realm was installed there under the realm's own origin. */
  lemma {:induction false} InstalledUnderOrigin(c: Config, states: seq<Runtime>, ops: seq<Op>, n: nat, tab: nat, h: Handle)
    returns (i: nat)
    requires IsRun(c, states, ops) && n < |states| && Owns(states[n], tab, h)
    ensures i < n && InstallsUnder(c, states[i], ops[i], tab, states[n].realms[tab].origin, h)
  {
    hide Apply, Coherent, Sound, InstallsUnder;
    if n == 0 {
      assert false;
    }
    EveryStateSound(c, states, ops, n - 1);
    StepOwns(c, states[n - 1], ops[n - 1], tab, h);
    if InstallsUnder(c, states[n - 1], ops[n - 1], tab, states[n].realms[tab].origin, h) {
      i := n - 1;
    } else {
      i := InstalledUnderOrigin(c, states, ops, n - 1, tab, h);
    }
  }

  // ---------------------------------------------------------------------
  // A linked identity denotes one program for the life of its realm

  predicate IsEvaluation(op: Op) {
    op.Execute? || op.ExecuteUntilEntry? || op.ExecuteUntilNested? || op.ExecuteUntilLinked?
  }

  /** The operation passes every check before the virtual machine is handed its graph. */
  ghost predicate Admitted(s: Runtime, op: Op)
    requires Coherent(s)
  {
    match op
    case Execute(_, _, _) => true
    case ExecuteUntilEntry(tab, entry, _, point) =>
      ValidateSafePoint(s, tab, entry, point).Ok? && s.programs[entry].isModule && IsEvaluateEntry(s.programs[entry], point)
    case ExecuteUntilNested(tab, entry, _, point, _) =>
      ValidateSafePoint(s, tab, entry, point).Ok? && point.ordinal != 0
    case ExecuteUntilLinked(tab, entry, dependency, handles, point, _) =>
      && entry != dependency && point.ordinal != 0 && ValidateSafePoint(s, tab, dependency, point).Ok?
      && var graph := Graph(s, tab, entry, handles);
         graph.Ok? && s.programs[dependency].moduleId in graph.value
    case _ => false
  }

  /** The virtual machine is handed, in tab's realm, a graph in which the identity denotes h. */
  ghost predicate Evaluates(s: Runtime, op: Op, tab: nat, id: string, h: Handle)
    requires Coherent(s)
  {
    && IsEvaluation(op) && op.tab == tab && Admitted(s, op)
    && var graph := Graph(s, tab, op.entry, op.handles);
       graph.Ok? && id in graph.value && graph.value[id] == h
  }

  /** The identity is reserved, and only h may carry it. */
  ghost predicate Bound(s: Runtime, tab: nat, id: string, h: Handle) {
    && tab in s.realms && id in s.realms[tab].linked
    && (id in s.realms[tab].modules ==> s.realms[tab].modules[id] == h)
  }

  lemma {:induction false} GraphEntry(s: Runtime, tab: nat, handles: seq<Handle>, id: string)
    requires Coherent(s) && GraphModules(s, tab, handles).Ok? && id in GraphModules(s, tab, handles).value
    ensures var h := GraphModules(s, tab, handles).value[id];
            Owns(s, tab, h) && s.programs[h].isModule && s.programs[h].moduleId == id
  {
    var last := handles[|handles| - 1];
    if s.programs[last].moduleId != id {
      GraphEntry(s, tab, handles[..|handles| - 1], id);
    }
  }

  /** Whatever a graph calls by an identity is what the module table calls by it. */
  lemma {:induction false} EvaluatesTable(c: Config, s: Runtime, op: Op, tab: nat, id: string, h: Handle)
    requires Sound(c, s) && Coherent(s) && Evaluates(s, op, tab, id, h)
    ensures tab in s.realms && id in s.realms[tab].modules && s.realms[tab].modules[id] == h
  {
    hide Admitted, GraphModules, Total;
    GraphEntry(s, tab, op.handles, id);
    assert RealmSound(c, s.programs, s.realms[tab]);
  }

  lemma {:induction false} EvaluationReserves(c: Config, s: Runtime, op: Op, tab: nat, id: string, h: Handle)
    requires Coherent(s) && WellFormed(op) && Evaluates(s, op, tab, id, h)
    ensures var s' := Apply(c, s, op).0; tab in s'.realms && id in s'.realms[tab].linked
    ensures IsAnnotation(op) && TabOf(op) == tab
  {
    hide Graph, Coherent, CheckSafePoint;
    var modules := Graph(s, tab, op.entry, op.handles).value;
    assert id in Reserve(s, tab, modules).realms[tab].linked;
  }

  lemma {:induction false} EvaluationBinds(c: Config, s: Runtime, op: Op, tab: nat, id: string, h: Handle)
    requires Sound(c, s) && Coherent(s) && WellFormed(op) && Evaluates(s, op, tab, id, h)
    ensures Bound(Apply(c, s, op).0, tab, id, h)
  {
    hide Apply, Sound, Coherent, Evaluates;
    EvaluatesTable(c, s, op, tab, id, h);
    EvaluationReserves(c, s, op, tab, id, h);
    AnnotationOnly(c, s, op);
  }

  predicate Renews(op: Op, tab: nat) {
    (op.Go? || op.Close?) && op.tab == tab
  }

  lemma {:induction false} StepKeepsBound(c: Config, s: Runtime, op: Op, tab: nat, id: string, h: Handle)
    requires Sound(c, s) && Coherent(s) && WellFormed(op) && !Renews(op, tab) && Bound(s, tab, id, h)
    ensures Bound(Apply(c, s, op).0, tab, id, h)
  {
    hide Sound, Coherent, Graph;
    if IsAnnotation(op) {
      AnnotationOnly(c, s, op);
    }
  }

  lemma {:induction false} BoundFrom(c: Config, states: seq<Runtime>, ops: seq<Op>, i: nat, j: nat,
                                     tab: nat, id: string, h: Handle)
    requires IsRun(c, states, ops) && i <= j < |states| && Bound(states[i], tab, id, h)
    requires forall k :: i <= k < j ==> !Renews(ops[k], tab)
    ensures Bound(states[j], tab, id, h)
    decreases j
  {
    hide Bound, Apply, Coherent, Sound;
    if i < j {
      BoundFrom(c, states, ops, i, j - 1, tab, id, h);
      EveryStateSound(c, states, ops, j - 1);
      StepKeepsBound(c, states[j - 1], ops[j - 1], tab, id, h);
    }
  }

  /**
   Until its tab is navigated or closed, an identity that took part in one
   evaluation can only ever be evaluated as the same program again.
   */
  lemma {:induction false} OneProgramPerIdentity(c: Config, states: seq<Runtime>, ops: seq<Op>, i: nat, j: nat,
                                                 tab: nat, id: string, h: Handle, later: Handle)
    requires IsRun(c, states, ops) && i < j < |ops|
    requires Coherent(states[i]) && Evaluates(states[i], ops[i], tab, id, h)
    requires Coherent(states[j]) && Evaluates(states[j], ops[j], tab, id, later)
    requires forall k :: i < k < j ==> !Renews(ops[k], tab)
    ensures later == h
  {
    hide Apply, Coherent, Sound, Evaluates;
    EveryStateSound(c, states, ops, i);
    EvaluationBinds(c, states[i], ops[i], tab, id, h);
    BoundFrom(c, states, ops, i + 1, j, tab, id, h);
    EveryStateSound(c, states, ops, j);
    EvaluatesTable(c, states[j], ops[j], tab, id, later);
  }
}
