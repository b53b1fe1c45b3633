/**
 The page runtime as the object the host holds: a registry of programs, and one
 realm per tab. Every method is tied to the step it takes on the whole state,
 and keeps that state sound.
 */
module PageRuntime {
  import opened Options
  import opened PageState
  import opened PageProof
  import opened SafePoints
  import Bytecode

  class ProgramRegistry {
    const table: Bytecode.Table
    const limits: Limits
    var nextGeneration: nat
    var programs: map<Handle, Program>

    constructor (table: Bytecode.Table, limits: Limits)
      ensures this.table == table && this.limits == limits && nextGeneration == 1 && programs == map[]
    {
      this.table := table;
      this.limits := limits;
      nextGeneration := 1;
      programs := map[];
    }

    /** The registry's part of a state whose realms are given. */
    ghost function View(realms: map<nat, Realm>): Runtime
      reads this
    {
      Runtime(nextGeneration, programs, realms)
    }

    ghost function Artifact(moduleId: string, isModule: bool, code: Option<Code>): PageState.Artifact {
      ArtifactOf(table, limits, moduleId, isModule, code)
    }

    /** A generation is spent before the metadata is looked at, and stays spent when that is refused. */
    method Install(moduleId: string, isModule: bool, code: Option<Code>, ghost realms: map<nat, Realm>)
      returns (r: Result<Handle>)
      modifies this
      ensures (View(realms), r) == Register(old(View(realms)), Artifact(moduleId, isModule, code))
      ensures r.Err? ==> programs == old(programs)
      ensures nextGeneration >= old(nextGeneration)
      ensures r.Ok? ==> r.value == old(nextGeneration) < nextGeneration && r.value in programs
      ensures r.Ok? ==> code.Some? && programs[r.value].units == PreOrder(table, code.value.root)
    {
      hide Collect, PreOrder, NodePoints, Statements;
      if code.None? {
        return Err(Compilation);
      }
      var generation := nextGeneration;
      if nextGeneration >= LAST_GENERATION {
        return Err(GenerationExhausted);
      }
      nextGeneration := nextGeneration + 1;
      var collected := Collect(table, limits, code.value.root, []);
      if collected.Err? {
        return Err(collected.error);
      }
      CollectsTree(table, limits, code.value.root);
      var units, topLevel := collected.value, code.value.topLevel;
      assert units != [] by { PreOrderNonEmpty(table, code.value.root); }
      if |topLevel| > limits.astNodes + 1 {
        return Err(AstNodeLimit);
      }
      var points: map<nat, nat> := map[];
      if topLevel != [] {
        var nodes := Statements(topLevel);
        if |nodes| != |code.value.statements| {
          return Err(AstShapeMismatch);
        }
        var recorded := RecordPoints(nodes, code.value.statements, units[0]);
        if recorded.None? {
          return Err(AstShapeMismatch);
        }
        points := recorded.value;
      }
      programs := programs[generation := Program(moduleId, isModule, |code.value.root.code|, code.value.evaluateEntry,
                                                 units, |topLevel|, points)];
      r := Ok(generation);
    }

    /** A failed replacement exposes nothing; a successful one retires the old generation for a fresh one. */
    method Replace(previous: Handle, moduleId: string, isModule: bool, code: Option<Code>) returns (r: Result<Handle>)
      requires forall h <- programs :: h < nextGeneration
      modifies this
      ensures r.Err? ==> programs == old(programs)
      ensures r.Ok? ==> previous in old(programs) && Artifact(moduleId, isModule, code).Compiled?
      ensures r.Ok? ==> r.value == old(nextGeneration) && r.value !in old(programs)
      ensures r.Ok? ==> programs == old(programs)[r.value := Artifact(moduleId, isModule, code).program] - {previous}
      ensures r.Ok? ==> previous !in programs && r.value in programs
      ensures nextGeneration >= old(nextGeneration) && forall h <- programs :: h < nextGeneration
    {
      hide ArtifactOf;
      if previous !in programs {
        return Err(UnknownProgram);
      }
      r := Install(moduleId, isModule, code, map[]);
      if r.Ok? {
        programs := programs - {previous};
      }
    }

    method Invalidate(h: Handle) returns (live: bool)
      modifies this`programs
      ensures live == (h in old(programs))
      ensures programs == old(programs) - {h}
    {
      live := h in programs;
      programs := programs - {h};
    }

    method InvalidateAll(handles: set<Handle>)
      modifies this`programs
      ensures programs == old(programs) - handles
    {
      var rest := handles;
      while rest != {}
        invariant rest <= handles
        invariant programs == old(programs) - (handles - rest)
        decreases |rest|
      {
        var h :| h in rest;
        var live := Invalidate(h);
        rest := rest - {h};
      }
      assert handles - rest == handles;
    }
  }

  /** A realm that has nothing yet but its origin. */
  ghost predicate IsFresh(realm: Realm, origin: string) {
    && realm.origin == origin && realm.programs == {} && realm.modules == map[] && realm.linked == {}
    && realm.bytes == 0 && realm.nested == None && realm.linkedFrame == None
  }

  /** What is kept of the machine's report on a child invocation: a frame exactly when it is paused. */
  ghost predicate KeepsNested(realm: Realm, tab: nat, program: Handle, vm: VmState) {
    realm.nested == if vm.VmPaused? then Some(NestedFrame(tab, program, vm.ordinal, vm.serial)) else None
  }

  ghost predicate KeepsLinked(realm: Realm, tab: nat, entry: Handle, dependency: Handle, vm: VmState) {
    realm.linkedFrame == if vm.VmPaused? then Some(LinkedFrame(tab, entry, dependency, vm.ordinal, vm.serial)) else None
  }

  /** The root instructions before `offset` all belong to declaration instantiation; the one at `offset` does not. */
  ghost predicate FirstFrom(p: Program, offset: nat) {
    && |p.units| > 0 && offset >= p.evaluateEntry
    && forall o: nat :: o in p.units[0] && o < offset ==> o < p.evaluateEntry
  }

  /** All realms but one are as they were. */
  ghost predicate OnlyRealm(before: map<nat, Realm>, after: map<nat, Realm>, tab: nat) {
    forall t :: t != tab ==> (t in before <==> t in after) && (t in before ==> after[t] == before[t])
  }

  /** At most the reserved identities and the debugger frames of one realm differ; no identity is given up. */
  ghost predicate OnlyAnnotates(before: map<nat, Realm>, after: map<nat, Realm>, tab: nat) {
    && OnlyRealm(before, after, tab)
    && (tab in before <==> tab in after)
    && (tab in before ==>
          && after[tab].origin == before[tab].origin
          && after[tab].programs == before[tab].programs
          && after[tab].modules == before[tab].modules
          && after[tab].bytes == before[tab].bytes
          && before[tab].linked <= after[tab].linked)
  }

  /** The identity belongs to one of the handles. */
  ghost predicate Names(s: Runtime, handles: seq<Handle>, id: string) {
    exists i :: 0 <= i < |handles| && handles[i] in s.programs && s.programs[handles[i]].moduleId == id
  }

  lemma {:induction false} NamesIff(s: Runtime, tab: nat, handles: seq<Handle>, table: map<string, Handle>)
    requires AreModules(s, tab, handles) && Tabulates(s, tab, handles, table)
    ensures forall id :: id in table <==> Names(s, handles, id)
  {
    forall id ensures id in table <==> Names(s, handles, id) {
      if id in table {
        var i :| 0 <= i < |handles| && handles[i] == table[id];
      }
      if Names(s, handles, id) {
        var i :| 0 <= i < |handles| && handles[i] in s.programs && s.programs[handles[i]].moduleId == id;
        assert IsOwnedModule(s, tab, handles[i]);
      }
    }
  }

  /** The programs of the other realms stay live, and none of the given ones is. */
  ghost predicate Dropped(before: Runtime, after: Runtime, tab: nat, gone: set<Handle>) {
    && (forall h <- gone :: h !in after.programs)
    && (forall t, h :: t != tab && Owns(before, t, h) ==>
          h in after.programs && h in before.programs && after.programs[h] == before.programs[h])
  }

  class BlueJsPageRuntime {
    const config: Config
    const registry: ProgramRegistry
    var realms: map<nat, Realm>

    ghost function State(): Runtime
      reads this, registry
    {
      registry.View(realms)
    }

    ghost predicate Valid()
      reads this, registry
    {
      Sound(config, State())
    }

    constructor (config: Config, table: Bytecode.Table, limits: Limits)
      ensures Valid() && fresh(registry) && this.config == config && State() == EMPTY
      ensures registry.table == table && registry.limits == limits
    {
      this.config := config;
      registry := new ProgramRegistry(table, limits);
      realms := map[];
    }

    method OpenRealm(tab: nat, origin: string, vmOk: bool) returns (r: Result<bool>)
      requires Valid()
      modifies this
      ensures Valid() && (State(), r) == PageState.OpenRealm(config, old(State()), tab, origin, vmOk)
      ensures r.Ok? <==> tab !in old(realms) && |old(realms)| < config.maxRealms && vmOk
      ensures OnlyRealm(old(realms), realms, tab) && (r.Err? ==> realms == old(realms))
      ensures r == Err(RealmAlreadyExists) <==> tab in old(realms)
      ensures r == Err(RealmLimit) <==> tab !in old(realms) && |old(realms)| >= config.maxRealms
      ensures r.Ok? ==> tab in realms && IsFresh(realms[tab], origin)
    {
      OpenSound(config, State(), tab, origin, vmOk);
      if tab in realms {
        return Err(RealmAlreadyExists);
      }
      if |realms| >= config.maxRealms {
        return Err(RealmLimit);
      }
      if !vmOk {
        return Err(VmInitialization);
      }
      realms := realms[tab := NewRealm(origin)];
      r := Ok(true);
    }

    method Navigate(tab: nat, origin: string) returns (r: Result<bool>)
      requires Valid()
      modifies this, registry
      ensures Valid() && (State(), r) == PageState.Navigate(old(State()), tab, origin)
      ensures OnlyRealm(old(realms), realms, tab) && (r.Ok? <==> tab in old(realms))
      ensures r.Err? ==> r == Err(UnknownRealm) && realms == old(realms)
      ensures r.Ok? ==> tab in realms && IsFresh(realms[tab], origin)
      ensures r.Ok? ==> Dropped(old(State()), State(), tab, old(realms)[tab].programs)
    {
      OthersStay(config, State(), tab);
      NavigateSound(config, State(), tab, origin);
      if tab !in realms {
        return Err(UnknownRealm);
      }
      var previous := realms[tab];
      realms := realms[tab := NewRealm(origin)];
      registry.InvalidateAll(previous.programs);
      r := Ok(true);
    }

    method CloseRealm(tab: nat) returns (r: bool)
      requires Valid()
      modifies this, registry
      ensures Valid() && (State(), r) == PageState.CloseRealm(old(State()), tab)
      ensures OnlyRealm(old(realms), realms, tab) && tab !in realms && r == (tab in old(realms))
      ensures r ==> Dropped(old(State()), State(), tab, old(realms)[tab].programs)
    {
      OthersStay(config, State(), tab);
      CloseSound(config, State(), tab);
      if tab !in realms {
        return false;
      }
      var realm := realms[tab];
      realms := realms - {tab};
      registry.InvalidateAll(realm.programs);
      r := true;
    }

    method InstallProgram(tab: nat, origin: string, moduleId: string, isModule: bool, code: Option<Code>)
      returns (r: Result<Handle>)
      requires Valid()
      modifies this, registry
      ensures Valid()
      ensures var artifact := registry.Artifact(moduleId, isModule, code);
              (State(), r) == PageState.InstallProgram(config, old(State()), tab, origin, moduleId, isModule, artifact)
      ensures r.Ok? <==>
                && tab in old(realms) && old(realms)[tab].origin == origin
                && |old(realms)[tab].programs| < config.maxPrograms
                && (isModule ==> moduleId !in old(realms)[tab].modules && moduleId !in old(realms)[tab].linked)
                && code.Some? && registry.Artifact(moduleId, isModule, code).Compiled?
                && old(registry.nextGeneration) < 0xffff_ffff_ffff_ffff
                && old(realms)[tab].bytes + |code.value.root.code| <= config.maxBytes
      ensures r == Err(UnknownRealm) <==> tab !in old(realms)
      ensures r == Err(OriginMismatch) <==> tab in old(realms) && old(realms)[tab].origin != origin
      ensures OnlyRealm(old(realms), realms, tab)
      ensures r.Err? ==> realms == old(realms) && registry.programs == old(registry.programs)
      ensures r.Ok? ==>
                && realms[tab].origin == origin && realms[tab].linked == old(realms)[tab].linked
                && registry.programs[r.value].moduleId == moduleId && registry.programs[r.value].isModule == isModule
                && registry.programs[r.value].bytes == |code.value.root.code|
                && realms[tab].modules ==
                   (if isModule then old(realms)[tab].modules[moduleId := r.value] else old(realms)[tab].modules)
      ensures r.Ok? ==>
                && r.value !in old(registry.programs) && r.value in registry.programs
                && registry.programs == old(registry.programs)[r.value := registry.programs[r.value]]
                && tab in old(realms) && tab in realms
                && realms[tab].programs == old(realms)[tab].programs + {r.value}
                && realms[tab].bytes == old(realms)[tab].bytes + registry.programs[r.value].bytes
    {
      hide Sound, ArtifactOf;
      ArtifactKeeps(registry.table, registry.limits, moduleId, isModule, code);
      ghost var artifact := registry.Artifact(moduleId, isModule, code);
      InstallSound(config, State(), tab, origin, moduleId, isModule, artifact);
      NextIsUnused(config, State());
      if tab !in realms {
        return Err(UnknownRealm);
      }
      var realm := realms[tab];
      if realm.origin != origin {
        return Err(OriginMismatch);
      }
      if |realm.programs| >= config.maxPrograms {
        return Err(ProgramLimit);
      }
      if isModule && (moduleId in realm.modules || moduleId in realm.linked) {
        return Err(DuplicateModuleIdentity);
      }
      r := registry.Install(moduleId, isModule, code, realms);
      if r.Err? {
        return;
      }
      var handle := r.value;
      var bytes := registry.programs[handle].bytes;
      if realm.bytes + bytes > config.maxBytes {
        var live := registry.Invalidate(handle);
        return Err(BytecodeLimit);
      }
      realm := realm.(programs := realm.programs + {handle});
      if isModule {
        realm := realm.(modules := realm.modules[moduleId := handle]);
      }
      realm := realm.(bytes := realm.bytes + bytes);
      realms := realms[tab := realm];
    }

    method DiscardProgram(tab: nat, handle: Handle) returns (r: Result<bool>)
      requires Valid()
      modifies this, registry
      ensures Valid() && Coherent(old(State())) && (State(), r) == PageState.DiscardProgram(old(State()), tab, handle)
      ensures r.Ok? <==> tab in old(realms) && handle in old(realms)[tab].programs
      ensures r == Err(UnknownRealm) <==> tab !in old(realms)
      ensures OnlyRealm(old(realms), realms, tab)
      ensures r.Err? ==> realms == old(realms) && registry.programs == old(registry.programs)
      ensures r.Ok? ==> realms[tab].origin == old(realms)[tab].origin && realms[tab].linked == old(realms)[tab].linked
      ensures r.Ok? ==>
                && handle in old(registry.programs) && registry.programs == old(registry.programs) - {handle}
                && tab in old(realms) && tab in realms
                && realms[tab].programs == old(realms)[tab].programs - {handle}
                && realms[tab].bytes + old(registry.programs)[handle].bytes == old(realms)[tab].bytes
    {
      hide Sound, Coherent;
      SoundIsCoherent(config, State());
      DiscardSound(config, State(), tab, handle);
      DiscardExpectations(config, State(), tab, handle);
      if tab !in realms {
        return Err(UnknownRealm);
      }
      if handle !in realms[tab].programs {
        return Err(ProgramNotOwned);
      }
      var compiled := registry.programs[handle];
      var realm := realms[tab];
      realm := realm.(programs := realm.programs - {handle});
      if compiled.isModule {
        assert compiled.moduleId in realm.modules && realm.modules[compiled.moduleId] == handle;
        realm := realm.(modules := realm.modules - {compiled.moduleId});
      }
      realm := realm.(bytes := realm.bytes - compiled.bytes);
      realms := realms[tab := realm];
      var invalidated := registry.Invalidate(handle);
      assert invalidated;
      r := Ok(true);
    }

    method ModuleGraph(tab: nat, entry: Handle, handles: seq<Handle>) returns (r: Result<map<string, Handle>>)
      requires Valid() && Coherent(State())
      ensures r == Graph(State(), tab, entry, handles)
      ensures r.Ok? <==> AreModules(State(), tab, handles) && entry in handles
      ensures r.Ok? ==> Tabulates(State(), tab, handles, r.value)
    {
      hide Sound, Coherent;
      GraphIff(State(), tab, entry, handles);
      var modules: map<string, Handle> := map[];
      var seen := false;
      var i := 0;
      while i < |handles|
        invariant 0 <= i <= |handles|
        invariant GraphModules(State(), tab, handles[..i]) == Ok(modules)
        invariant seen == (entry in handles[..i])
      {
        var handle := handles[i];
        assert handles[..i + 1][..i] == handles[..i] && handles[..i + 1][i] == handle;
        GraphStops(State(), tab, handles, i + 1);
        if tab !in realms {
          return Err(UnknownRealm);
        }
        if handle !in realms[tab].programs {
          return Err(ProgramNotOwned);
        }
        OwnedLive(State(), tab, handle);
        var compiled := registry.programs[handle];
        if !compiled.isModule {
          return Err(ProgramShape);
        }
        if compiled.moduleId in modules {
          return Err(DuplicateModuleIdentity);
        }
        modules := modules[compiled.moduleId := handle];
        if handle == entry {
          seen := true;
        }
        i := i + 1;
      }
      assert handles[..i] == handles;
      r := if seen then Ok(modules) else Err(ProgramNotOwned);
    }

    method ExecuteModuleGraph(tab: nat, entry: Handle, handles: seq<Handle>) returns (r: Result<bool>)
      requires Valid()
      modifies this
      ensures Valid() && Coherent(old(State()))
      ensures (State(), r) == PageState.ExecuteModuleGraph(old(State()), tab, entry, handles)
      ensures OnlyAnnotates(old(realms), realms, tab) && (r.Err? ==> realms == old(realms))
      ensures r.Ok? <==> AreModules(old(State()), tab, handles) && entry in handles
      ensures r.Ok? ==>
                && tab in old(realms) && tab in realms
                && (forall id :: id in realms[tab].linked <==> id in old(realms)[tab].linked || Names(old(State()), handles, id))
                && realms[tab].nested == old(realms)[tab].nested && realms[tab].linkedFrame == old(realms)[tab].linkedFrame
    {
      hide Sound, Coherent;
      SoundIsCoherent(config, State());
      var graph := ModuleGraph(tab, entry, handles);
      if graph.Err? {
        return Err(graph.error);
      }
      NamesIff(State(), tab, handles, graph.value);
      var realm := realms[tab];
      realm := realm.(linked := realm.linked + graph.value.Keys);
      AnnotateSound(config, State(), tab, realm);
      realms := realms[tab := realm];
      r := Ok(true);
    }

    method ValidateSafePoint(tab: nat, handle: Handle, point: SafePoint) returns (r: Result<bool>)
      requires Valid()
      ensures r == PageState.ValidateSafePoint(State(), tab, handle, point)
      ensures r.Ok? <==>
                && tab in realms && handle in realms[tab].programs && handle in registry.programs
                && point.generation == handle && point.ordinal < |registry.programs[handle].units|
                && point.offset in registry.programs[handle].units[point.ordinal]
    {
      hide Sound;
      if tab !in realms {
        return Err(UnknownRealm);
      }
      if handle !in realms[tab].programs {
        return Err(ProgramNotOwned);
      }
      if point.generation != handle {
        return Err(StaleSafePoint);
      }
      if handle !in registry.programs {
        return Err(UnknownProgram);
      }
      var units := registry.programs[handle].units;
      if point.ordinal >= |units| {
        return Err(UnknownCodeUnit);
      }
      r := if point.offset in units[point.ordinal] then Ok(true) else Err(InvalidBoundary);
    }

    method PauseNested(tab: nat, handle: Handle, point: SafePoint, vm: VmState) returns (r: Result<bool>)
      requires Valid()
      modifies this
      ensures Valid() && (State(), r) == PageState.PauseNested(old(State()), tab, handle, point, vm)
      ensures OnlyAnnotates(old(realms), realms, tab) && (r.Err? ==> realms == old(realms))
      ensures r.Ok? <==>
                && PageState.ValidateSafePoint(old(State()), tab, handle, point).Ok?
                && point.ordinal > 0 && !registry.programs[handle].isModule && !vm.VmFailed?
      ensures r.Ok? ==> tab in realms && KeepsNested(realms[tab], tab, handle, vm)
      ensures r.Ok? ==> realms[tab].linkedFrame == old(realms)[tab].linkedFrame && realms[tab].linked == old(realms)[tab].linked
    {
      hide Sound;
      r := ValidateSafePoint(tab, handle, point);
      if r.Err? {
        return;
      }
      if point.ordinal == 0 {
        return Err(NestedCodeUnitOnly);
      }
      if registry.programs[handle].isModule {
        return Err(RootScriptOnly);
      }
      if vm.VmFailed? {
        return Err(Failed);
      }
      var realm := AfterNested(realms[tab], tab, handle, vm);
      AnnotateSound(config, State(), tab, realm);
      realms := realms[tab := realm];
    }

    method PauseModule(tab: nat, entry: Handle, handles: seq<Handle>, point: SafePoint) returns (r: Result<bool>)
      requires Valid()
      modifies this
      ensures Valid() && Coherent(old(State()))
      ensures (State(), r) == PageState.PauseModule(old(State()), tab, entry, handles, point)
      ensures OnlyAnnotates(old(realms), realms, tab) && (r.Err? ==> realms == old(realms))
      ensures r.Ok? <==>
                && PageState.ValidateSafePoint(old(State()), tab, entry, point).Ok? && registry.programs[entry].isModule
                && FirstFrom(registry.programs[entry], point.offset) && point.ordinal == 0
                && AreModules(old(State()), tab, handles) && entry in handles
    {
      hide Sound, Coherent;
      SoundIsCoherent(config, State());
      r := ValidateSafePoint(tab, entry, point);
      if r.Err? {
        return;
      }
      var compiled := registry.programs[entry];
      if !compiled.isModule {
        return Err(ProgramShape);
      }
      if !IsEvaluateEntry(compiled, point) {
        return Err(ModuleEntryOnly);
      }
      r := ExecuteModuleGraph(tab, entry, handles);
    }

    method PauseModuleNested(tab: nat, entry: Handle, handles: seq<Handle>, point: SafePoint, vm: VmState)
      returns (r: Result<bool>)
      requires Valid()
      modifies this
      ensures Valid() && Coherent(old(State()))
      ensures (State(), r) == PageState.PauseModuleNested(old(State()), tab, entry, handles, point, vm)
      ensures OnlyAnnotates(old(realms), realms, tab)
      ensures r.Ok? <==>
                && PageState.ValidateSafePoint(old(State()), tab, entry, point).Ok? && point.ordinal > 0
                && AreModules(old(State()), tab, handles) && entry in handles && !vm.VmFailed?
      ensures r.Ok? ==> tab in realms && KeepsNested(realms[tab], tab, entry, vm)
    {
      hide Sound, Coherent, Graph, OnlyAnnotates;
      AnnotatesNothing(realms, tab);
      SoundIsCoherent(config, State());
      r := ValidateSafePoint(tab, entry, point);
      if r.Err? {
        return;
      }
      if point.ordinal == 0 {
        return Err(NestedCodeUnitOnly);
      }
      r := ExecuteModuleGraph(tab, entry, handles);
      if r.Err? {
        return;
      }
      if vm.VmFailed? {
        return Err(Failed);
      }
      var realm := AfterNested(realms[tab], tab, entry, vm);
      AnnotateSound(config, State(), tab, realm);
      AnnotatesAgain(old(realms), realms, tab, realm);
      realms := realms[tab := realm];
    }

    method PauseLinked(tab: nat, entry: Handle, dependency: Handle, handles: seq<Handle>, point: SafePoint, vm: VmState)
      returns (r: Result<bool>)
      requires Valid()
      modifies this
      ensures Valid() && Coherent(old(State()))
      ensures (State(), r) == PageState.PauseLinked(old(State()), tab, entry, dependency, handles, point, vm)
      ensures OnlyAnnotates(old(realms), realms, tab)
      ensures r.Ok? <==>
                && entry != dependency && point.ordinal > 0
                && PageState.ValidateSafePoint(old(State()), tab, dependency, point).Ok?
                && AreModules(old(State()), tab, handles) && entry in handles
                && Names(old(State()), handles, registry.programs[dependency].moduleId) && !vm.VmFailed?
      ensures r.Ok? ==> tab in realms && KeepsLinked(realms[tab], tab, entry, dependency, vm)
    {
      hide Sound, Coherent, Graph, OnlyAnnotates;
      AnnotatesNothing(realms, tab);
      SoundIsCoherent(config, State());
      if entry == dependency || point.ordinal == 0 {
        return Err(NestedCodeUnitOnly);
      }
      r := ValidateSafePoint(tab, dependency, point);
      if r.Err? {
        return;
      }
      var dependencyModule := registry.programs[dependency].moduleId;
      var graph := ModuleGraph(tab, entry, handles);
      if graph.Err? {
        return Err(graph.error);
      }
      if dependencyModule !in graph.value {
        return Err(FrameUnavailable);
      }
      r := ExecuteModuleGraph(tab, entry, handles);
      if vm.VmFailed? {
        return Err(Failed);
      }
      var realm := AfterLinked(realms[tab], tab, entry, dependency, vm);
      AnnotateSound(config, State(), tab, realm);
      AnnotatesAgain(old(realms), realms, tab, realm);
      realms := realms[tab := realm];
    }

    method ContinueNested(frame: NestedFrame, vm: VmState) returns (r: Result<bool>)
      requires Valid()
      modifies this
      ensures Valid() && (State(), r) == PageState.ContinueNested(old(State()), frame, vm)
      ensures OnlyAnnotates(old(realms), realms, frame.tab)
      ensures realms != old(realms) || r.Ok? ==>
                && frame.tab in old(realms) && old(realms)[frame.tab].nested == Some(frame)
                && frame.program in old(realms)[frame.tab].programs
      ensures frame.tab in old(realms) && old(realms)[frame.tab].nested == Some(frame)
              && frame.program in old(realms)[frame.tab].programs ==>
                && (r.Ok? <==> !vm.VmFailed?) && KeepsNested(realms[frame.tab], frame.tab, frame.program, vm)
                && realms[frame.tab].linkedFrame == old(realms)[frame.tab].linkedFrame
    {
      hide Sound;
      if frame.tab !in realms {
        return Err(UnknownRealm);
      }
      var realm := realms[frame.tab];
      if frame.program !in realm.programs || realm.nested != Some(frame) {
        return Err(FrameUnavailable);
      }
      AnnotateSound(config, State(), frame.tab, realm.(nested := None));
      AnnotateSound(config, State(), frame.tab, AfterNested(realm, frame.tab, frame.program, vm));
      if vm.VmFailed? {
        realms := realms[frame.tab := realm.(nested := None)];
        return Err(Failed);
      }
      realms := realms[frame.tab := AfterNested(realm, frame.tab, frame.program, vm)];
      r := Ok(true);
    }

    method ResumeLinked(frame: LinkedFrame, vm: VmState) returns (r: Result<bool>)
      requires Valid()
      modifies this
      ensures Valid() && (State(), r) == PageState.ResumeLinked(old(State()), frame, vm)
      ensures OnlyAnnotates(old(realms), realms, frame.tab)
      ensures realms != old(realms) || r.Ok? ==>
                && frame.tab in old(realms) && old(realms)[frame.tab].linkedFrame == Some(frame)
                && {frame.entry, frame.dependency} <= old(realms)[frame.tab].programs
      ensures frame.tab in old(realms) && old(realms)[frame.tab].linkedFrame == Some(frame)
              && {frame.entry, frame.dependency} <= old(realms)[frame.tab].programs ==>
                && (r.Ok? <==> !vm.VmFailed?)
                && KeepsLinked(realms[frame.tab], frame.tab, frame.entry, frame.dependency, vm)
                && realms[frame.tab].nested == old(realms)[frame.tab].nested
    {
      hide Sound;
      if frame.tab !in realms {
        return Err(UnknownRealm);
      }
      var realm := realms[frame.tab];
      if realm.linkedFrame != Some(frame) || frame.entry !in realm.programs || frame.dependency !in realm.programs {
        return Err(FrameUnavailable);
      }
      AnnotateSound(config, State(), frame.tab, realm.(linkedFrame := None));
      AnnotateSound(config, State(), frame.tab, AfterLinked(realm, frame.tab, frame.entry, frame.dependency, vm));
      if vm.VmFailed? {
        realms := realms[frame.tab := realm.(linkedFrame := None)];
        return Err(Failed);
      }
      realms := realms[frame.tab := AfterLinked(realm, frame.tab, frame.entry, frame.dependency, vm)];
      r := Ok(true);
    }
  }

  lemma {:induction false} AnnotatesAgain(before: map<nat, Realm>, middle: map<nat, Realm>, tab: nat, realm: Realm)
    requires OnlyAnnotates(before, middle, tab) && tab in middle
    requires realm.origin == middle[tab].origin && realm.programs == middle[tab].programs
    requires realm.modules == middle[tab].modules && realm.bytes == middle[tab].bytes && realm.linked == middle[tab].linked
    ensures OnlyAnnotates(before, middle[tab := realm], tab)
  {
  }

  lemma {:induction false} AnnotatesNothing(realms: map<nat, Realm>, tab: nat)
    ensures OnlyAnnotates(realms, realms, tab)
  {
  }

  lemma {:induction false} ArtifactKeeps(t: Bytecode.Table, limits: Limits, moduleId: string, isModule: bool, code: Option<Code>)
    ensures var a := ArtifactOf(t, limits, moduleId, isModule, code);
            a.Compiled? ==>
              && code.Some? && a.program.bytes == |code.value.root.code|
              && a.program.moduleId == moduleId && a.program.isModule == isModule
    ensures var a := ArtifactOf(t, limits, moduleId, isModule, code);
            a.NotNamed? ==> a.error in {CodeUnitLimit, InvalidBoundary, AstNodeLimit, AstShapeMismatch}
  {
    hide Collect, NodePoints, Statements;
    if code.Some? {
      ArtifactIff(t, limits, moduleId, isModule, code.value);
    }
  }

  /** The next generation names no program yet. */
  lemma {:induction false} NextIsUnused(c: Config, s: Runtime)
    requires Sound(c, s)
    ensures s.next !in s.programs
  {
  }

  /** What the other realms own is live, and is not what this realm owns. */
  lemma {:induction false} OthersStay(c: Config, s: Runtime, tab: nat)
    requires Sound(c, s)
    ensures forall t, h :: t != tab && Owns(s, t, h) ==> h in s.programs && !Owns(s, tab, h)
  {
    OwnedIsLive(c, s);
  }

  /** A module program that is owned is the one its realm's table names. */
  lemma {:induction false} DiscardExpectations(c: Config, s: Runtime, tab: nat, h: Handle)
    requires Sound(c, s)
    ensures Owns(s, tab, h) ==>
              && h in s.programs && s.programs[h].bytes <= s.realms[tab].bytes
              && (s.programs[h].isModule ==>
                    && s.programs[h].moduleId in s.realms[tab].modules
                    && s.realms[tab].modules[s.programs[h].moduleId] == h)
  {
    hide Total;
    SoundIsCoherent(c, s);
    if Owns(s, tab, h) {
      assert RealmSound(c, s.programs, s.realms[tab]);
    }
  }

  lemma {:induction false} OwnedLive(s: Runtime, tab: nat, h: Handle)
    requires Coherent(s) && Owns(s, tab, h)
    ensures h in s.programs
  {
  }

  /** The first handle that is refused decides the whole graph. */
  lemma {:induction false} GraphStops(s: Runtime, tab: nat, handles: seq<Handle>, i: nat)
    requires Coherent(s) && i <= |handles|
    ensures GraphModules(s, tab, handles[..i]).Err? ==> GraphModules(s, tab, handles) == GraphModules(s, tab, handles[..i])
    decreases |handles| - i
  {
    if i == |handles| {
      assert handles[..i] == handles;
    } else {
      assert handles[..i + 1][..i] == handles[..i];
      GraphStops(s, tab, handles, i + 1);
    }
  }
}
