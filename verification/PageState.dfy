/**
 The generation-bound registry of compiled programs and the page runtime above
 it, as values: what each operation does to the whole state.
 */
module PageState {
  import opened Options

  const LAST_GENERATION: nat := 0xffff_ffff_ffff_ffff

  /** A program's only identity is its generation. */
  type Handle = nat

  datatype SafePoint = SafePoint(generation: nat, ordinal: nat, offset: nat)

  /**
   A compiled program: its source identity, its root kind, the size of its root bytecode, the offset at which a
   module's evaluation body starts, the instruction offsets of its code units, root first, the number of its syntax
   nodes, and the root offset recorded for some of them.
   */
  datatype Program = Program(
    moduleId: string,
    isModule: bool,
    bytes: nat,
    evaluateEntry: nat,
    units: seq<seq<nat>>,
    nodes: nat,
    nodePoints: map<nat, nat>)

  /** What compiling a structured program gives: nothing, code whose metadata is refused, or a program. */
  datatype Artifact = NotCompiled | NotNamed(error: Error) | Compiled(program: Program)

  datatype Config = Config(maxRealms: nat, maxPrograms: nat, maxBytes: nat)

  datatype NestedFrame = NestedFrame(tab: nat, program: Handle, ordinal: nat, serial: nat)

  datatype LinkedFrame = LinkedFrame(tab: nat, entry: Handle, dependency: Handle, ordinal: nat, serial: nat)

  datatype Realm = Realm(
    origin: string,
    programs: set<Handle>,
    modules: map<string, Handle>,
    linked: set<string>,
    bytes: nat,
    nested: Option<NestedFrame>,
    linkedFrame: Option<LinkedFrame>)

  function NewRealm(origin: string): Realm {
    Realm(origin, {}, map[], {}, 0, None, None)
  }

  datatype Runtime = Runtime(next: nat, programs: map<Handle, Program>, realms: map<nat, Realm>)

  const EMPTY: Runtime := Runtime(1, map[], map[])

  datatype Error =
    | UnknownRealm | RealmAlreadyExists | RealmLimit | VmInitialization
    | OriginMismatch | ProgramLimit | BytecodeLimit | DuplicateModuleIdentity
    | ProgramNotOwned | ProgramShape | FrameUnavailable | NestedCodeUnitOnly | RootScriptOnly | ModuleEntryOnly
    | Compilation | CodeUnitLimit | AstNodeLimit | AstShapeMismatch | GenerationExhausted
    | UnknownProgram | StaleSafePoint | SafePointLimit | UnknownCodeUnit | InvalidBoundary
    | StaleAstNode | UnknownAstNode | AstNodeUnbound | Failed

  datatype Result<+T> = Ok(value: T) | Err(error: Error)

  /** What the virtual machine reports after running part of a program. */
  datatype VmState = VmFailed | VmPaused(serial: nat, ordinal: nat, offset: nat) | VmReturned | VmCompleted

  // ---------------------------------------------------------------------
  // The registry

  /** Allocates a generation; one whose metadata does not fit stays spent. */
  function Register(s: Runtime, artifact: Artifact): (Runtime, Result<Handle>) {
    if artifact.NotCompiled? then (s, Err(Compilation))
    else if s.next >= LAST_GENERATION then (s, Err(GenerationExhausted))
    else
      var spent := s.(next := s.next + 1);
      if artifact.NotNamed? then (spent, Err(artifact.error))
      else (spent.(programs := s.programs[s.next := artifact.program]), Ok(s.next))
  }

  function Invalidate(s: Runtime, handles: set<Handle>): Runtime {
    s.(programs := s.programs - handles)
  }

  function CheckSafePoint(s: Runtime, h: Handle, point: SafePoint): Result<bool> {
    if point.generation != h then Err(StaleSafePoint)
    else if h !in s.programs then Err(UnknownProgram)
    else
      var units := s.programs[h].units;
      if point.ordinal >= |units| then Err(UnknownCodeUnit)
      else if point.offset !in units[point.ordinal] then Err(InvalidBoundary)
      else Ok(true)
  }

  /** The root instruction recorded for a syntax node of a live program. */
  function NodeSafePoint(s: Runtime, h: Handle, generation: nat, ordinal: nat): Result<SafePoint> {
    if generation != h then Err(StaleAstNode)
    else if h !in s.programs then Err(UnknownProgram)
    else
      var p := s.programs[h];
      if ordinal >= p.nodes then Err(UnknownAstNode)
      else if ordinal !in p.nodePoints then Err(AstNodeUnbound)
      else Ok(SafePoint(h, 0, p.nodePoints[ordinal]))
  }

  // ---------------------------------------------------------------------
  // Realms

  function SetRealm(s: Runtime, tab: nat, realm: Realm): Runtime {
    s.(realms := s.realms[tab := realm])
  }

  function OpenRealm(c: Config, s: Runtime, tab: nat, origin: string, vmOk: bool): (Runtime, Result<bool>) {
    if tab in s.realms then (s, Err(RealmAlreadyExists))
    else if |s.realms| >= c.maxRealms then (s, Err(RealmLimit))
    else if !vmOk then (s, Err(VmInitialization))
    else (SetRealm(s, tab, NewRealm(origin)), Ok(true))
  }

  function Navigate(s: Runtime, tab: nat, origin: string): (Runtime, Result<bool>) {
    if tab !in s.realms then (s, Err(UnknownRealm))
    else (Invalidate(SetRealm(s, tab, NewRealm(origin)), s.realms[tab].programs), Ok(true))
  }

  function CloseRealm(s: Runtime, tab: nat): (Runtime, bool) {
    if tab !in s.realms then (s, false)
    else (Invalidate(s.(realms := s.realms - {tab}), s.realms[tab].programs), true)
  }

  function Admit(realm: Realm, h: Handle, p: Program): Realm {
    realm.(programs := realm.programs + {h},
           modules := if p.isModule then realm.modules[p.moduleId := h] else realm.modules,
           bytes := realm.bytes + p.bytes)
  }

  function InstallProgram(c: Config, s: Runtime, tab: nat, origin: string, moduleId: string, isModule: bool,
                          artifact: Artifact): (Runtime, Result<Handle>)
    requires artifact.Compiled? ==> artifact.program.moduleId == moduleId && artifact.program.isModule == isModule
  {
    if tab !in s.realms then (s, Err(UnknownRealm))
    else
      var realm := s.realms[tab];
      if realm.origin != origin then (s, Err(OriginMismatch))
      else if |realm.programs| >= c.maxPrograms then (s, Err(ProgramLimit))
      else if isModule && (moduleId in realm.modules || moduleId in realm.linked) then (s, Err(DuplicateModuleIdentity))
      else
        var (s', r) := Register(s, artifact);
        if r.Err? then (s', r)
        else
          var h := r.value;
          var p := artifact.program;
          if realm.bytes + p.bytes > c.maxBytes then (Invalidate(s', {h}), Err(BytecodeLimit))
          else (SetRealm(s', tab, Admit(realm, h, p)), Ok(h))
  }

  function Dismiss(realm: Realm, h: Handle, p: Program): Realm
    requires p.bytes <= realm.bytes
  {
    realm.(programs := realm.programs - {h},
           modules := if p.isModule then realm.modules - {p.moduleId} else realm.modules,
           bytes := realm.bytes - p.bytes)
  }

  predicate Owns(s: Runtime, tab: nat, h: Handle) {
    tab in s.realms && h in s.realms[tab].programs
  }

  /** What every look-up of an owned handle, and every release of its charge, relies on. */
  ghost predicate Coherent(s: Runtime) {
    forall tab, h :: Owns(s, tab, h) ==> h in s.programs && s.programs[h].bytes <= s.realms[tab].bytes
  }

  function DiscardProgram(s: Runtime, tab: nat, h: Handle): (Runtime, Result<bool>)
    requires Coherent(s)
  {
    if tab !in s.realms then (s, Err(UnknownRealm))
    else if !Owns(s, tab, h) then (s, Err(ProgramNotOwned))
    else (Invalidate(SetRealm(s, tab, Dismiss(s.realms[tab], h, s.programs[h])), {h}), Ok(true))
  }

  // ---------------------------------------------------------------------
  // Module graphs

  /** The modules of a graph by identity; every handle must be an owned module, each identity once. */
  function GraphModules(s: Runtime, tab: nat, handles: seq<Handle>): Result<map<string, Handle>>
    requires Coherent(s)
  {
    if handles == [] then Ok(map[])
    else
      var last := handles[|handles| - 1];
      match GraphModules(s, tab, handles[..|handles| - 1])
      case Err(error) => Err(error)
      case Ok(modules) =>
        if tab !in s.realms then Err(UnknownRealm)
        else if !Owns(s, tab, last) then Err(ProgramNotOwned)
        else if !s.programs[last].isModule then Err(ProgramShape)
        else if s.programs[last].moduleId in modules then Err(DuplicateModuleIdentity)
        else Ok(modules[s.programs[last].moduleId := last])
  }

  /** The graph an execution would evaluate; one that is admitted names a live realm. */
  function Graph(s: Runtime, tab: nat, entry: Handle, handles: seq<Handle>): (r: Result<map<string, Handle>>)
    requires Coherent(s)
    ensures r.Ok? ==> tab in s.realms
  {
    var modules := GraphModules(s, tab, handles);
    if modules.Ok? && entry !in handles then Err(ProgramNotOwned) else modules
  }

  /** An attempted evaluation reserves every identity of its graph. */
  function Reserve(s: Runtime, tab: nat, modules: map<string, Handle>): Runtime
    requires tab in s.realms
  {
    var realm := s.realms[tab];
    SetRealm(s, tab, realm.(linked := realm.linked + modules.Keys))
  }

  function ExecuteModuleGraph(s: Runtime, tab: nat, entry: Handle, handles: seq<Handle>): (Runtime, Result<bool>)
    requires Coherent(s)
  {
    match Graph(s, tab, entry, handles)
    case Err(error) => (s, Err(error))
    case Ok(modules) => (Reserve(s, tab, modules), Ok(true))
  }

  // ---------------------------------------------------------------------
  // Debugger frames

  function AfterNested(realm: Realm, tab: nat, program: Handle, vm: VmState): Realm {
    match vm
    case VmPaused(serial, ordinal, _) => realm.(nested := Some(NestedFrame(tab, program, ordinal, serial)))
    case _ => realm.(nested := None)
  }

  function AfterLinked(realm: Realm, tab: nat, entry: Handle, dependency: Handle, vm: VmState): Realm {
    match vm
    case VmPaused(serial, ordinal, _) =>
      realm.(linkedFrame := Some(LinkedFrame(tab, entry, dependency, ordinal, serial)))
    case _ => realm.(linkedFrame := None)
  }

  function ValidateSafePoint(s: Runtime, tab: nat, h: Handle, point: SafePoint): Result<bool> {
    if tab !in s.realms then Err(UnknownRealm)
    else if h !in s.realms[tab].programs then Err(ProgramNotOwned)
    else CheckSafePoint(s, h, point)
  }

  function PauseNested(s: Runtime, tab: nat, h: Handle, point: SafePoint, vm: VmState): (Runtime, Result<bool>) {
    var valid := ValidateSafePoint(s, tab, h, point);
    if valid.Err? then (s, valid)
    else if point.ordinal == 0 then (s, Err(NestedCodeUnitOnly))
    else if s.programs[h].isModule then (s, Err(RootScriptOnly))
    else if vm.VmFailed? then (s, Err(Failed))
    else (SetRealm(s, tab, AfterNested(s.realms[tab], tab, h, vm)), Ok(true))
  }

  function ContinueNested(s: Runtime, frame: NestedFrame, vm: VmState): (Runtime, Result<bool>) {
    if frame.tab !in s.realms then (s, Err(UnknownRealm))
    else
      var realm := s.realms[frame.tab];
      if frame.program !in realm.programs || realm.nested != Some(frame) then (s, Err(FrameUnavailable))
      else if vm.VmFailed? then (SetRealm(s, frame.tab, realm.(nested := None)), Err(Failed))
      else (SetRealm(s, frame.tab, AfterNested(realm, frame.tab, frame.program, vm)), Ok(true))
  }

  /** The first root instruction of a module's evaluation body. */
  predicate IsEvaluateEntry(p: Program, point: SafePoint) {
    && point.ordinal == 0 && |p.units| > 0
    && p.evaluateEntry <= point.offset
    && forall offset <- p.units[0] :: p.evaluateEntry <= offset ==> point.offset <= offset
  }

  function PauseModule(s: Runtime, tab: nat, entry: Handle, handles: seq<Handle>, point: SafePoint):
    (Runtime, Result<bool>)
    requires Coherent(s)
  {
    var valid := ValidateSafePoint(s, tab, entry, point);
    if valid.Err? then (s, valid)
    else if !s.programs[entry].isModule then (s, Err(ProgramShape))
    else if !IsEvaluateEntry(s.programs[entry], point) then (s, Err(ModuleEntryOnly))
    else ExecuteModuleGraph(s, tab, entry, handles)
  }

  function PauseModuleNested(s: Runtime, tab: nat, entry: Handle, handles: seq<Handle>, point: SafePoint, vm: VmState):
    (Runtime, Result<bool>)
    requires Coherent(s)
  {
    var valid := ValidateSafePoint(s, tab, entry, point);
    if valid.Err? then (s, valid)
    else if point.ordinal == 0 then (s, Err(NestedCodeUnitOnly))
    else
      match Graph(s, tab, entry, handles)
      case Err(error) => (s, Err(error))
      case Ok(modules) =>
        var s' := Reserve(s, tab, modules);
        if vm.VmFailed? then (s', Err(Failed))
        else (SetRealm(s', tab, AfterNested(s'.realms[tab], tab, entry, vm)), Ok(true))
  }

  function PauseLinked(s: Runtime, tab: nat, entry: Handle, dependency: Handle, handles: seq<Handle>,
                       point: SafePoint, vm: VmState): (Runtime, Result<bool>)
    requires Coherent(s)
  {
    if entry == dependency || point.ordinal == 0 then (s, Err(NestedCodeUnitOnly))
    else
      var valid := ValidateSafePoint(s, tab, dependency, point);
      if valid.Err? then (s, valid)
      else
        match Graph(s, tab, entry, handles)
        case Err(error) => (s, Err(error))
        case Ok(modules) =>
          if s.programs[dependency].moduleId !in modules then (s, Err(FrameUnavailable))
          else
            var s' := Reserve(s, tab, modules);
            if vm.VmFailed? then (s', Err(Failed))
            else (SetRealm(s', tab, AfterLinked(s'.realms[tab], tab, entry, dependency, vm)), Ok(true))
  }

  function ResumeLinked(s: Runtime, frame: LinkedFrame, vm: VmState): (Runtime, Result<bool>) {
    if frame.tab !in s.realms then (s, Err(UnknownRealm))
    else
      var realm := s.realms[frame.tab];
      if realm.linkedFrame != Some(frame) || frame.entry !in realm.programs || frame.dependency !in realm.programs then
        (s, Err(FrameUnavailable))
      else if vm.VmFailed? then (SetRealm(s, frame.tab, realm.(linkedFrame := None)), Err(Failed))
      else (SetRealm(s, frame.tab, AfterLinked(realm, frame.tab, frame.entry, frame.dependency, vm)), Ok(true))
  }
}
