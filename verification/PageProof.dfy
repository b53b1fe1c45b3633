/**
 What every run of the page runtime keeps: ownership, accounting, identity.
 */
module PageProof {
  import opened PageState

  // ---------------------------------------------------------------------
  // The invariant

  ghost function Weight(programs: map<Handle, Program>, h: Handle): nat {
    if h in programs then programs[h].bytes else 0
  }

  /** The bytecode bytes of a set of programs. */
  ghost function Total(programs: map<Handle, Program>, handles: set<Handle>): nat
    decreases |handles|
  {
    if handles == {} then 0
    else
      var h :| h in handles;
      Weight(programs, h) + Total(programs, handles - {h})
  }

  /** The module table maps exactly the module programs among the handles. */
  ghost predicate ModulesExact(programs: map<Handle, Program>, handles: set<Handle>, modules: map<string, Handle>)
    requires handles <= programs.Keys
  {
    && (forall id <- modules ::
          var h := modules[id];
          h in handles && programs[h].isModule && programs[h].moduleId == id)
    && (forall h <- handles :: programs[h].isModule ==>
          programs[h].moduleId in modules && modules[programs[h].moduleId] == h)
  }

  ghost predicate RealmSound(c: Config, programs: map<Handle, Program>, realm: Realm) {
    && realm.programs <= programs.Keys
    && |realm.programs| <= c.maxPrograms
    && realm.bytes == Total(programs, realm.programs)
    && realm.bytes <= c.maxBytes
    && ModulesExact(programs, realm.programs, realm.modules)
  }

  ghost predicate Disjoint(s: Runtime) {
    forall tab, other, h :: Owns(s, tab, h) && Owns(s, other, h) ==> tab == other
  }

  ghost predicate Owned(s: Runtime, h: Handle) {
    exists tab :: Owns(s, tab, h)
  }

  /** The live programs are the disjoint union of the realms' program sets. */
  ghost predicate Partitioned(s: Runtime) {
    && (forall h <- s.programs :: Owned(s, h))
    && Disjoint(s)
  }

  ghost predicate RealmsSound(c: Config, s: Runtime) {
    forall tab <- s.realms :: RealmSound(c, s.programs, s.realms[tab])
  }

  ghost predicate Sound(c: Config, s: Runtime) {
    && 1 <= s.next <= LAST_GENERATION
    && |s.realms| <= c.maxRealms
    && (forall h <- s.programs :: h < s.next)
    && Partitioned(s)
    && RealmsSound(c, s)
  }

  lemma {:induction false} OwnsAfter(s: Runtime, s': Runtime, tab: nat, realm: Realm)
    requires s'.realms == s.realms[tab := realm]
    ensures forall t, h :: Owns(s', t, h) <==> if t == tab then h in realm.programs else Owns(s, t, h)
  {
  }

  lemma {:induction false} OwnsSame(s: Runtime, s': Runtime, tab: nat, realm: Realm)
    requires tab in s.realms && s'.realms == s.realms[tab := realm] && realm.programs == s.realms[tab].programs
    ensures forall t, h :: Owns(s', t, h) <==> Owns(s, t, h)
  {
  }

  lemma {:induction false} SetCount(s: Runtime, s': Runtime, tab: nat, realm: Realm)
    requires tab in s.realms && s'.realms == s.realms[tab := realm]
    ensures |s'.realms| == |s.realms|
  {
    assert s'.realms.Keys == s.realms.Keys;
    assert |s'.realms| == |s'.realms.Keys| && |s.realms| == |s.realms.Keys|;
  }

  /** Changing one realm asks only that realm, and the others' programs, to be looked at again. */
  lemma {:induction false} SetRealmsSound(c: Config, s: Runtime, s': Runtime, tab: nat, realm: Realm)
    requires RealmsSound(c, s) && s'.realms == s.realms[tab := realm]
    requires RealmSound(c, s'.programs, realm)
    requires forall t, h :: t != tab && Owns(s, t, h) ==> h in s.programs && h in s'.programs && s'.programs[h] == s.programs[h]
    ensures RealmsSound(c, s')
  {
    hide Total, ModulesExact;
    forall t <- s'.realms ensures RealmSound(c, s'.programs, s'.realms[t]) {
      if t != tab {
        assert RealmSound(c, s.programs, s.realms[t]);
        assert forall h <- s.realms[t].programs :: Owns(s, t, h);
        RealmSoundSame(c, s.programs, s'.programs, s.realms[t]);
      }
    }
  }

  lemma {:induction false} OwnedIsLive(c: Config, s: Runtime)
    requires RealmsSound(c, s)
    ensures forall t, h :: Owns(s, t, h) ==> h in s.programs
  {
    hide Total, ModulesExact;
    forall t, h | Owns(s, t, h) ensures h in s.programs {
      assert RealmSound(c, s.programs, s.realms[t]);
    }
  }

  lemma {:induction false} SamePartition(s: Runtime, s': Runtime)
    requires Partitioned(s) && s'.programs.Keys == s.programs.Keys
    requires forall t, h :: Owns(s', t, h) <==> Owns(s, t, h)
    ensures Partitioned(s')
  {
    forall h <- s'.programs ensures Owned(s', h) {
      assert Owned(s, h);
      var t :| Owns(s, t, h);
      assert Owns(s', t, h);
    }
  }

  // ---------------------------------------------------------------------
  // Sums over program sets

  lemma {:induction false} TotalRemove(programs: map<Handle, Program>, handles: set<Handle>, h: Handle)
    requires h in handles
    ensures Total(programs, handles) == Weight(programs, h) + Total(programs, handles - {h})
    decreases |handles|
  {
    var first :| first in handles && Total(programs, handles) == Weight(programs, first) + Total(programs, handles - {first});
    if first != h {
      TotalRemove(programs, handles - {first}, h);
      TotalRemove(programs, handles - {h}, first);
      assert handles - {first} - {h} == handles - {h} - {first};
    }
  }

  lemma {:induction false} TotalSame(programs: map<Handle, Program>, other: map<Handle, Program>, handles: set<Handle>)
    requires forall h <- handles :: Weight(programs, h) == Weight(other, h)
    ensures Total(programs, handles) == Total(other, handles)
    decreases |handles|
  {
    if handles != {} {
      var h :| h in handles;
      TotalRemove(programs, handles, h);
      TotalRemove(other, handles, h);
      TotalSame(programs, other, handles - {h});
    }
  }

  /** No release of a charge can go below zero and no owned handle is missing. */
  lemma {:induction false} SoundIsCoherent(c: Config, s: Runtime)
    requires Sound(c, s)
    ensures Coherent(s)
  {
    forall tab, h | Owns(s, tab, h)
      ensures h in s.programs && s.programs[h].bytes <= s.realms[tab].bytes
    {
      assert RealmSound(c, s.programs, s.realms[tab]);
      TotalRemove(s.programs, s.realms[tab].programs, h);
    }
  }

  /** A realm is indifferent to programs it does not own. */
  lemma {:induction false} RealmSoundSame(c: Config, programs: map<Handle, Program>, other: map<Handle, Program>, realm: Realm)
    requires RealmSound(c, programs, realm)
    requires forall h <- realm.programs :: h in other && other[h] == programs[h]
    ensures RealmSound(c, other, realm)
  {
    TotalSame(programs, other, realm.programs);
  }

  // ---------------------------------------------------------------------
  // Each operation

  /** Reserving identities and keeping debugger frames touch no program. */
  lemma {:induction false} AnnotateSound(c: Config, s: Runtime, tab: nat, realm: Realm)
    requires Sound(c, s) && tab in s.realms
    requires realm.programs == s.realms[tab].programs && realm.modules == s.realms[tab].modules
    requires realm.bytes == s.realms[tab].bytes
    ensures Sound(c, SetRealm(s, tab, realm))
  {
    hide Total, ModulesExact, Owns, Partitioned;
    var s' := SetRealm(s, tab, realm);
    SetCount(s, s', tab, realm);
    OwnsSame(s, s', tab, realm);
    SamePartition(s, s');
    OwnedIsLive(c, s);
    assert RealmSound(c, s.programs, s.realms[tab]);
    SetRealmsSound(c, s, s', tab, realm);
  }

  lemma {:induction false} OpenSound(c: Config, s: Runtime, tab: nat, origin: string, vmOk: bool)
    requires Sound(c, s)
    ensures Sound(c, OpenRealm(c, s, tab, origin, vmOk).0)
  {
    hide ModulesExact, RealmSound;
    var s' := OpenRealm(c, s, tab, origin, vmOk).0;
    if s' != s {
      var realm := NewRealm(origin);
      assert s' == SetRealm(s, tab, realm);
      assert s'.realms.Keys == s.realms.Keys + {tab};
      assert |s'.realms| == |s'.realms.Keys| && |s.realms| == |s.realms.Keys|;
      SamePartition(s, s') by {
        assert forall t, h :: Owns(s', t, h) <==> Owns(s, t, h);
      }
      NewRealmSound(c, s.programs, origin);
      assert RealmsSound(c, s');
    }
  }

  lemma {:induction false} NewRealmSound(c: Config, programs: map<Handle, Program>, origin: string)
    ensures RealmSound(c, programs, NewRealm(origin))
  {
  }

  /** Dropping a realm's programs from the registry leaves the other realms alone. */
  lemma {:induction false} DropSound(c: Config, s: Runtime, tab: nat, realms: map<nat, Realm>)
    requires Sound(c, s) && tab in s.realms
    requires |realms| <= c.maxRealms
    requires forall t <- realms :: (t == tab && realms[t].programs == {} && realms[t] == NewRealm(realms[t].origin))
                                   || (t != tab && t in s.realms && realms[t] == s.realms[t])
    requires forall t <- s.realms :: t != tab ==> t in realms
    ensures Sound(c, Runtime(s.next, s.programs - s.realms[tab].programs, realms))
  {
    var s' := Runtime(s.next, s.programs - s.realms[tab].programs, realms);
    assert forall t, h :: Owns(s', t, h) <==> t != tab && Owns(s, t, h);
    forall h <- s'.programs ensures Owned(s', h) {
      assert Owned(s, h);
      var t :| Owns(s, t, h);
      assert Owns(s', t, h);
    }
    forall t <- realms ensures RealmSound(c, s'.programs, realms[t]) {
      if t != tab {
        forall h <- realms[t].programs ensures h in s'.programs && s'.programs[h] == s.programs[h] {
          assert Owns(s, t, h);
          assert !Owns(s, tab, h);
        }
        RealmSoundSame(c, s.programs, s'.programs, realms[t]);
      }
    }
  }

  lemma {:induction false} NavigateSound(c: Config, s: Runtime, tab: nat, origin: string)
    requires Sound(c, s)
    ensures Sound(c, Navigate(s, tab, origin).0)
  {
    if tab in s.realms {
      var realms := s.realms[tab := NewRealm(origin)];
      assert realms.Keys == s.realms.Keys;
      assert |realms| == |realms.Keys| && |s.realms| == |s.realms.Keys|;
      DropSound(c, s, tab, realms);
    }
  }

  lemma {:induction false} CloseSound(c: Config, s: Runtime, tab: nat)
    requires Sound(c, s)
    ensures Sound(c, CloseRealm(s, tab).0)
  {
    if tab in s.realms {
      var realms := s.realms - {tab};
      assert realms.Keys == s.realms.Keys - {tab};
      assert |realms| == |realms.Keys| && |s.realms| == |s.realms.Keys|;
      DropSound(c, s, tab, realms);
    }
  }

  /** A generation that was allocated and dropped again leaves only the counter changed. */
  lemma {:induction false} SpentSound(c: Config, s: Runtime)
    requires Sound(c, s) && s.next < LAST_GENERATION
    ensures Sound(c, s.(next := s.next + 1))
  {
    hide RealmSound;
    var s' := s.(next := s.next + 1);
    SamePartition(s, s') by {
      assert forall t, h :: Owns(s', t, h) <==> Owns(s, t, h);
    }
    assert RealmsSound(c, s');
  }

  lemma {:induction false} AdmitRealm(c: Config, programs: map<Handle, Program>, realm: Realm, h: Handle, p: Program)
    requires RealmSound(c, programs, realm)
    requires h !in programs && |realm.programs| < c.maxPrograms && realm.bytes + p.bytes <= c.maxBytes
    requires p.isModule ==> p.moduleId !in realm.modules
    ensures RealmSound(c, programs[h := p], Admit(realm, h, p))
  {
    var programs' := programs[h := p];
    var realm' := Admit(realm, h, p);
    TotalRemove(programs', realm'.programs, h);
    assert realm'.programs - {h} == realm.programs;
    TotalSame(programs, programs', realm.programs);
    assert ModulesExact(programs', realm'.programs, realm'.modules);
  }

  lemma {:induction false} AdmitSound(c: Config, s: Runtime, tab: nat, p: Program)
    requires Sound(c, s) && tab in s.realms && s.next < LAST_GENERATION
    requires |s.realms[tab].programs| < c.maxPrograms && s.realms[tab].bytes + p.bytes <= c.maxBytes
    requires p.isModule ==> p.moduleId !in s.realms[tab].modules
    ensures Sound(c, Runtime(s.next + 1, s.programs[s.next := p], s.realms[tab := Admit(s.realms[tab], s.next, p)]))
  {
    hide Total, ModulesExact, Owns, Partitioned;
    var h := s.next;
    var realm := Admit(s.realms[tab], h, p);
    var s' := Runtime(s.next + 1, s.programs[h := p], s.realms[tab := realm]);
    SetCount(s, s', tab, realm);
    OwnsAdmitted(s, s', tab, h, p);
    OwnedIsLive(c, s);
    AdmitRealm(c, s.programs, s.realms[tab], h, p);
    SetRealmsSound(c, s, s', tab, realm);
    AdmitPartition(s, s', tab, h);
  }

  lemma {:induction false} OwnsAdmitted(s: Runtime, s': Runtime, tab: nat, h: Handle, p: Program)
    requires tab in s.realms && s'.realms == s.realms[tab := Admit(s.realms[tab], h, p)]
    ensures forall t, g :: Owns(s', t, g) <==> Owns(s, t, g) || (t == tab && g == h)
  {
  }

  lemma {:induction false} AdmitPartition(s: Runtime, s': Runtime, tab: nat, h: Handle)
    requires Partitioned(s) && s'.programs.Keys == s.programs.Keys + {h}
    requires forall t :: !Owns(s, t, h)
    requires forall t, g :: Owns(s', t, g) <==> Owns(s, t, g) || (t == tab && g == h)
    ensures Partitioned(s')
  {
    forall g <- s'.programs ensures Owned(s', g) {
      if g == h {
        assert Owns(s', tab, h);
      } else {
        assert Owned(s, g);
        var t :| Owns(s, t, g);
        assert Owns(s', t, g);
      }
    }
  }

  lemma {:induction false} InstallSound(c: Config, s: Runtime, tab: nat, origin: string, moduleId: string, isModule: bool,
                                        artifact: Artifact)
    requires Sound(c, s)
    requires artifact.Compiled? ==> artifact.program.moduleId == moduleId && artifact.program.isModule == isModule
    ensures Sound(c, InstallProgram(c, s, tab, origin, moduleId, isModule, artifact).0)
  {
    hide RealmSound, Partitioned;
    var (s', r) := InstallProgram(c, s, tab, origin, moduleId, isModule, artifact);
    if r.Ok? {
      AdmitSound(c, s, tab, artifact.program);
    } else if s' != s {
      SpentSound(c, s);
      if artifact.Compiled? {
        assert s.next !in s.programs;
        assert s.programs[s.next := artifact.program] - {s.next} == s.programs;
      }
    }
  }

  lemma {:induction false} DismissRealm(c: Config, programs: map<Handle, Program>, realm: Realm, h: Handle)
    requires RealmSound(c, programs, realm) && h in realm.programs
    ensures programs[h].bytes <= realm.bytes
    ensures RealmSound(c, programs - {h}, Dismiss(realm, h, programs[h]))
  {
    TotalRemove(programs, realm.programs, h);
    var rest := realm.programs - {h};
    TotalSame(programs, programs - {h}, rest);
    assert |rest| < |realm.programs|;
    var realm' := Dismiss(realm, h, programs[h]);
    assert ModulesExact(programs - {h}, realm'.programs, realm'.modules);
  }

  lemma {:induction false} DiscardSound(c: Config, s: Runtime, tab: nat, h: Handle)
    requires Sound(c, s) && Coherent(s)
    ensures Sound(c, DiscardProgram(s, tab, h).0)
  {
    hide Total, ModulesExact;
    if Owns(s, tab, h) {
      var s' := DiscardProgram(s, tab, h).0;
      var realm := Dismiss(s.realms[tab], h, s.programs[h]);
      assert RealmSound(c, s.programs, s.realms[tab]);
      DismissRealm(c, s.programs, s.realms[tab], h);
      SetCount(s, s', tab, realm);
      OwnsAfter(s, s', tab, realm);
      OwnedIsLive(c, s);
      SetRealmsSound(c, s, s', tab, realm) by {
        assert forall t :: Owns(s, t, h) ==> t == tab;
      }
      DismissPartition(s, s', tab, h);
    }
  }

  lemma {:induction false} DismissPartition(s: Runtime, s': Runtime, tab: nat, h: Handle)
    requires Partitioned(s) && Owns(s, tab, h)
    requires s'.programs.Keys == s.programs.Keys - {h}
    requires forall t, g :: Owns(s', t, g) <==> Owns(s, t, g) && !(t == tab && g == h)
    ensures Partitioned(s')
  {
    forall g <- s'.programs ensures Owned(s', g) {
      assert Owned(s, g);
      var t :| Owns(s, t, g);
      assert Owns(s', t, g);
    }
  }

  // ---------------------------------------------------------------------
  // Which graphs are admitted

  ghost predicate IsOwnedModule(s: Runtime, tab: nat, h: Handle) {
    Owns(s, tab, h) && h in s.programs && s.programs[h].isModule
  }

  /** Every handle is a module of the realm, and no two have the same identity. */
  ghost predicate AreModules(s: Runtime, tab: nat, handles: seq<Handle>) {
    && (forall i :: 0 <= i < |handles| ==> IsOwnedModule(s, tab, handles[i]))
    && (forall i, j :: 0 <= i < j < |handles| ==> s.programs[handles[i]].moduleId != s.programs[handles[j]].moduleId)
  }

  /** The table has each module under its identity, and nothing else. */
  ghost predicate Tabulates(s: Runtime, tab: nat, handles: seq<Handle>, table: map<string, Handle>)
    requires AreModules(s, tab, handles)
  {
    && (forall i :: 0 <= i < |handles| ==>
          s.programs[handles[i]].moduleId in table && table[s.programs[handles[i]].moduleId] == handles[i])
    && (forall id <- table :: table[id] in handles && table[id] in s.programs && s.programs[table[id]].moduleId == id)
  }

  lemma {:induction false} AreModulesLast(s: Runtime, tab: nat, handles: seq<Handle>)
    requires handles != []
    ensures var front, h := handles[..|handles| - 1], handles[|handles| - 1];
            AreModules(s, tab, handles) <==>
            && AreModules(s, tab, front) && IsOwnedModule(s, tab, h)
            && forall i :: 0 <= i < |front| ==> s.programs[front[i]].moduleId != s.programs[h].moduleId
  {
    hide IsOwnedModule;
    var last := |handles| - 1;
    var front := handles[..last];
    assert forall i :: 0 <= i < last ==> front[i] == handles[i];
    if AreModules(s, tab, handles) {
      assert IsOwnedModule(s, tab, handles[last]);
    }
  }

  lemma {:induction false} TabulatesLast(s: Runtime, tab: nat, handles: seq<Handle>, table: map<string, Handle>)
    requires handles != [] && AreModules(s, tab, handles[..|handles| - 1])
    requires Tabulates(s, tab, handles[..|handles| - 1], table) && handles[|handles| - 1] in s.programs
    ensures var front, h := handles[..|handles| - 1], handles[|handles| - 1];
            var id := s.programs[h].moduleId;
            && (id in table <==> exists i :: 0 <= i < |front| && s.programs[front[i]].moduleId == id)
            && (id !in table && AreModules(s, tab, handles) ==> Tabulates(s, tab, handles, table[id := h]))
  {
    var last := |handles| - 1;
    var front, h := handles[..last], handles[last];
    var id := s.programs[h].moduleId;
    if id in table {
      var i :| 0 <= i < |front| && front[i] == table[id];
      assert s.programs[front[i]].moduleId == id;
    }
    if id !in table && AreModules(s, tab, handles) {
      var more := table[id := h];
      forall i | 0 <= i < |handles|
        ensures s.programs[handles[i]].moduleId in more && more[s.programs[handles[i]].moduleId] == handles[i]
      {
        assert i < last ==> handles[i] == front[i];
      }
      assert forall k <- more :: more[k] in handles;
    }
  }

  lemma {:induction false} GraphModulesIff(s: Runtime, tab: nat, handles: seq<Handle>)
    requires Coherent(s)
    ensures GraphModules(s, tab, handles).Ok? <==> AreModules(s, tab, handles)
    ensures AreModules(s, tab, handles) ==> Tabulates(s, tab, handles, GraphModules(s, tab, handles).value)
  {
    hide Coherent, Tabulates, AreModules;
    if handles == [] {
      NoModules(s, tab);
    } else {
      var last := |handles| - 1;
      var front, h := handles[..last], handles[last];
      GraphModulesIff(s, tab, front);
      OwnedPresent(s, tab, h);
      AreModulesLast(s, tab, handles);
      if AreModules(s, tab, front) && IsOwnedModule(s, tab, h) {
        TabulatesLast(s, tab, handles, GraphModules(s, tab, front).value);
      }
    }
  }

  lemma {:induction false} NoModules(s: Runtime, tab: nat)
    ensures AreModules(s, tab, []) && Tabulates(s, tab, [], map[])
  {
  }

  lemma {:induction false} OwnedPresent(s: Runtime, tab: nat, h: Handle)
    requires Coherent(s)
    ensures Owns(s, tab, h) ==> h in s.programs
  {
  }

  /** A graph is admitted exactly when its handles are distinct modules of the realm and include the entry. */
  lemma {:induction false} GraphIff(s: Runtime, tab: nat, entry: Handle, handles: seq<Handle>)
    requires Coherent(s)
    ensures Graph(s, tab, entry, handles).Ok? <==> AreModules(s, tab, handles) && entry in handles
    ensures Graph(s, tab, entry, handles).Ok? ==> Tabulates(s, tab, handles, Graph(s, tab, entry, handles).value)
  {
    hide GraphModules;
    GraphModulesIff(s, tab, handles);
  }
}
