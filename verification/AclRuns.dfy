/** Sequential runs of ConsulACL resources with explicit names in many namespaces: created,
    edited, applied, deleted, with applies and deletions that may fail half-way. */
module AclRuns {
  import opened Wrappers
  import opened Owners
  import opened AclEntities

  datatype CrId = CrId(namespace: string, name: string)

  datatype Config = Config(policies: seq<Spec>, roles: seq<Spec>)

  /** A resource; an unparsable configuration is None. `policies` and `roles` are the names in use:
      written by the resource and declared by it ever since. */
  datatype Cr = Cr(config: Option<Config>, deleting: bool, manager: string, policies: set<string>, roles: set<string>)

  datatype World = World(policies: Table, roles: Table, crs: map<CrId, Cr>)

  // ---------------------------------------------------------------- siblings

  /** The other live resources of the namespace managed by the same operator. */
  predicate IsSibling(crs: map<CrId, Cr>, id: CrId, s: CrId)
    requires id in crs
  {
    && s in crs && s.namespace == id.namespace && s.name != id.name
    && !crs[s].deleting && crs[s].manager == crs[id].manager
  }

  function PolicyNames(cr: Cr): set<string> {
    if cr.config.Some? then Names(cr.config.value.policies) else {}
  }

  function RoleNames(cr: Cr): set<string> {
    if cr.config.Some? then Names(cr.config.value.roles) else {}
  }

  function SomeUnparsable(crs: map<CrId, Cr>, id: CrId): bool
    requires id in crs
  {
    exists s | s in crs :: IsSibling(crs, id, s) && crs[s].config.None?
  }

  function SiblingPolicies(crs: map<CrId, Cr>, id: CrId): Declared
    requires id in crs
  {
    Declared(set s, n | s in crs && IsSibling(crs, id, s) && n in PolicyNames(crs[s]) :: n, SomeUnparsable(crs, id))
  }

  function SiblingRoles(crs: map<CrId, Cr>, id: CrId): Declared
    requires id in crs
  {
    Declared(set s, n | s in crs && IsSibling(crs, id, s) && n in RoleNames(crs[s]) :: n, SomeUnparsable(crs, id))
  }

  /** The configuration has an entry of that name, or can not be read and so may have any. */
  ghost predicate MayDeclare(config: Option<Config>, n: string, role: bool) {
    || config.None?
    || (n != "" && exists spec :: spec in (if role then config.value.roles else config.value.policies) && spec.name == n)
  }

  /** Another resource of the namespace, under the same operator and not being deleted, declares the name. */
  ghost predicate DeclaredBeside(crs: map<CrId, Cr>, id: CrId, n: string, role: bool)
    requires id in crs
  {
    exists s | s in crs ::
      && s != id && s.namespace == id.namespace && crs[s].manager == crs[id].manager && !crs[s].deleting
      && MayDeclare(crs[s].config, n, role)
  }

  lemma NamesAre(specs: seq<Spec>, n: string)
    ensures n in Names(specs) <==> n != "" && exists spec :: spec in specs && spec.name == n
  {
    if n in Names(specs) {
      var i :| 0 <= i < |specs| && specs[i].name != "" && specs[i].name == n;
      assert specs[i] in specs;
    }
  }

  /** What the siblings protect is exactly what a live resource beside this one declares. */
  lemma SiblingsAre(crs: map<CrId, Cr>, id: CrId, n: string)
    requires id in crs
    ensures SiblingPolicies(crs, id).Has(n) <==> DeclaredBeside(crs, id, n, false)
    ensures SiblingRoles(crs, id).Has(n) <==> DeclaredBeside(crs, id, n, true)
  {
    forall s | s in crs
      ensures IsSibling(crs, id, s) && (crs[s].config.None? || n in PolicyNames(crs[s])) ==> DeclaredBeside(crs, id, n, false)
      ensures IsSibling(crs, id, s) && (crs[s].config.None? || n in RoleNames(crs[s])) ==> DeclaredBeside(crs, id, n, true)
      ensures MayDeclare(crs[s].config, n, false) <==> crs[s].config.None? || n in PolicyNames(crs[s])
      ensures MayDeclare(crs[s].config, n, true) <==> crs[s].config.None? || n in RoleNames(crs[s])
    {
      if crs[s].config.Some? {
        NamesAre(crs[s].config.value.policies, n);
        NamesAre(crs[s].config.value.roles, n);
      }
    }
    hide MayDeclare, PolicyNames, RoleNames;
    if DeclaredBeside(crs, id, n, false) {
      var s :| s in crs && s != id && s.namespace == id.namespace && crs[s].manager == crs[id].manager && !crs[s].deleting
               && MayDeclare(crs[s].config, n, false);
      assert IsSibling(crs, id, s);
    }
    if DeclaredBeside(crs, id, n, true) {
      var s :| s in crs && s != id && s.namespace == id.namespace && crs[s].manager == crs[id].manager && !crs[s].deleting
               && MayDeclare(crs[s].config, n, true);
      assert IsSibling(crs, id, s);
    }
  }

  /** Collects what the siblings declare from the listed resources of the namespace. */
  method SiblingEntities(crs: map<CrId, Cr>, list: seq<CrId>, id: CrId) returns (policies: Declared, roles: Declared)
    requires id in crs
    requires forall s :: s in list <==> s in crs && s.namespace == id.namespace
    ensures policies == SiblingPolicies(crs, id) && roles == SiblingRoles(crs, id)
    ensures forall n :: policies.Has(n) <==> DeclaredBeside(crs, id, n, false)
    ensures forall n :: roles.Has(n) <==> DeclaredBeside(crs, id, n, true)
  {
    hide MayDeclare, DeclaredBeside;
    policies, roles := Declared({}, false), Declared({}, false);
    for i := 0 to |list|
      invariant forall n :: n in policies.names <==> exists s | s in list[..i] :: IsSibling(crs, id, s) && n in PolicyNames(crs[s])
      invariant forall n :: n in roles.names <==> exists s | s in list[..i] :: IsSibling(crs, id, s) && n in RoleNames(crs[s])
      invariant policies.all == roles.all == exists s | s in list[..i] :: IsSibling(crs, id, s) && crs[s].config.None?
    {
      var s := list[i];
      assert s in list && list[..i + 1] == list[..i] + [s];
      if s.name == id.name || crs[s].deleting || crs[s].manager != crs[id].manager {
        assert !IsSibling(crs, id, s);
      } else {
        assert IsSibling(crs, id, s);
        if crs[s].config.None? {
          policies, roles := policies.(all := true), roles.(all := true);
        } else {
          policies := policies.(names := policies.names + Names(crs[s].config.value.policies));
          roles := roles.(names := roles.names + Names(crs[s].config.value.roles));
        }
      }
    }
    assert list[..|list|] == list;
    forall n ensures SiblingPolicies(crs, id).Has(n) <==> DeclaredBeside(crs, id, n, false)
             ensures SiblingRoles(crs, id).Has(n) <==> DeclaredBeside(crs, id, n, true) {
      SiblingsAre(crs, id, n);
    }
  }

  // ---------------------------------------------------------------- events

  datatype Event =
    | Create(id: CrId, config: Option<Config>, manager: string)
    | Edit(id: CrId, newConfig: Option<Config>)
    | MarkDeleted(id: CrId)
    | Apply(id: CrId, midPolicies: Table, midRoles: Table, failedPolicies: set<string>, failedRoles: set<string>)
    | Release(id: CrId, complete: bool)

  function CrAfterEdit(cr: Cr, config: Option<Config>): Cr {
    if config.None? then cr.(config := None)
    else cr.(config := config,
             policies := cr.policies * Names(config.value.policies),
             roles := cr.roles * Names(config.value.roles))
  }

  /** A clean-up that may have stopped at an error: some stale entities were left. */
  ghost predicate CleanedSome(before: Table, after: Table, specs: seq<Spec>, namespace: string, siblings: Declared) {
    forall k :: Untouched(before, after, k)
                || (Stale(before, k, specs, namespace, siblings) && Left(before, after, k, namespace))
  }

  /** The steps of a run of resources whose specs carry no IDs. An apply writes what it can, then cleans up what it can; a
      release may be partial, and a complete one lets the resource go. */
  ghost predicate Next(w: World, e: Event, w': World) {
    match e
    case Create(id, config, manager) =>
      && id !in w.crs && WellFormed(id.namespace)
      && w' == w.(crs := w.crs[id := Cr(config, false, manager, {}, {})])
    case Edit(id, config) =>
      id in w.crs && w' == w.(crs := w.crs[id := CrAfterEdit(w.crs[id], config)])
    case MarkDeleted(id) =>
      id in w.crs && w' == w.(crs := w.crs[id := w.crs[id].(deleting := true, policies := {}, roles := {})])
    case Apply(id, midPolicies, midRoles, failedPolicies, failedRoles) =>
      && id in w.crs && !w.crs[id].deleting && w.crs[id].config.Some?
      && var cr, ns := w.crs[id], id.namespace;
         var cfg := cr.config.value;
         && NoIds(cfg.policies) && NoIds(cfg.roles)
         && Progress(w.policies, midPolicies, cfg.policies, failedPolicies, ns)
         && Progress(w.roles, midRoles, cfg.roles, failedRoles, ns)
         && CleanedSome(midPolicies, w'.policies, cfg.policies, ns, SiblingPolicies(w.crs, id))
         && CleanedSome(midRoles, w'.roles, cfg.roles, ns, SiblingRoles(w.crs, id))
         && w'.crs == w.crs[id := cr.(policies := cr.policies + (Names(cfg.policies) - failedPolicies),
                                      roles := cr.roles + (Names(cfg.roles) - failedRoles))]
    case Release(id, complete) =>
      && id in w.crs && w.crs[id].deleting && w.crs[id].config.Some?
      && var cfg := w.crs[id].config.value;
         && LeftSome(w.policies, w'.policies, Names(cfg.policies), id.namespace, SiblingPolicies(w.crs, id))
         && LeftSome(w.roles, w'.roles, Names(cfg.roles), id.namespace, SiblingRoles(w.crs, id))
         && w'.crs == if complete then w.crs - {id} else w.crs
  }

  // ---------------------------------------------------------------- invariants

  ghost predicate OneManager(crs: map<CrId, Cr>) {
    forall a, b | a in crs && b in crs && a.namespace == b.namespace :: crs[a].manager == crs[b].manager
  }

  ghost predicate CrInv(id: CrId, cr: Cr) {
    && WellFormed(id.namespace)
    && (cr.deleting ==> cr.policies == {} && cr.roles == {})
    && (cr.config.Some? ==> cr.policies <= Names(cr.config.value.policies) && cr.roles <= Names(cr.config.value.roles))
  }

  ghost predicate Inv(w: World) {
    forall id | id in w.crs :: CrInv(id, w.crs[id])
  }

  /** Every name in use by a live resource exists and has its namespace among the owners. */
  ghost predicate InUse(w: World) {
    forall id | id in w.crs ::
      && (forall n | n in w.crs[id].policies :: Owned(w.policies, n, id.namespace))
      && (forall n | n in w.crs[id].roles :: Owned(w.roles, n, id.namespace))
  }

  // ---------------------------------------------------------------- one table

  lemma JoinKeepsOwned(before: Table, after: Table, specs: seq<Spec>, failed: set<string>, namespace: string, n: string, other: string)
    requires Progress(before, after, specs, failed, namespace) && Owned(before, n, other)
    ensures Owned(after, n, other)
  {
    if n in Names(specs) && Joined(before, after, n, namespace) {
      assert HasOwner(after[n].description, other);
    }
  }

  lemma LeaveKeepsOwned(before: Table, after: Table, n: string, namespace: string, other: string)
    requires Owned(before, n, other)
    requires Untouched(before, after, n) || (Left(before, after, n, namespace) && other != namespace)
    ensures Owned(after, n, other)
  {}

  /** An apply keeps what others, or the resource itself, have in use and adds what it wrote. */
  lemma ApplyKeepsTable(before: Table, mid: Table, after: Table, specs: seq<Spec>, failed: set<string>, namespace: string, siblings: Declared)
    requires Progress(before, mid, specs, failed, namespace) && CleanedSome(mid, after, specs, namespace, siblings)
    ensures forall n, other | Owned(before, n, other) && (other != namespace || n in Names(specs) || siblings.Has(n)) :: Owned(after, n, other)
    ensures forall n | n in Names(specs) - failed :: Owned(after, n, namespace)
  {
    forall n, other | Owned(before, n, other) && (other != namespace || n in Names(specs) || siblings.Has(n))
      ensures Owned(after, n, other)
    {
      JoinKeepsOwned(before, mid, specs, failed, namespace, n, other);
      LeaveKeepsOwned(mid, after, n, namespace, other);
    }
    forall n | n in Names(specs) - failed ensures Owned(after, n, namespace) {
      assert Joined(before, mid, n, namespace);
      assert Untouched(mid, after, n);
    }
  }

  lemma ReleaseKeepsTable(before: Table, after: Table, names: set<string>, namespace: string, siblings: Declared)
    requires LeftSome(before, after, names, namespace, siblings)
    ensures forall n, other | Owned(before, n, other) && (other != namespace || n !in names || siblings.Has(n)) :: Owned(after, n, other)
  {
    forall n, other | Owned(before, n, other) && (other != namespace || n !in names || siblings.Has(n)) ensures Owned(after, n, other) {
      LeaveKeepsOwned(before, after, n, namespace, other);
    }
  }

  /** What a live resource of the same namespace has in use, its siblings must not release. */
  lemma SiblingsProtect(crs: map<CrId, Cr>, id: CrId, s: CrId)
    requires id in crs && s in crs && s != id && s.namespace == id.namespace && !crs[s].deleting
    requires OneManager(crs) && CrInv(s, crs[s])
    ensures forall n | n in crs[s].policies :: SiblingPolicies(crs, id).Has(n)
    ensures forall n | n in crs[s].roles :: SiblingRoles(crs, id).Has(n)
  {
    assert s.name != id.name;
    assert IsSibling(crs, id, s);
    if crs[s].config.None? {
      assert SomeUnparsable(crs, id);
    } else {
      forall n | n in crs[s].policies ensures SiblingPolicies(crs, id).Has(n) {
        assert n in PolicyNames(crs[s]);
      }
      forall n | n in crs[s].roles ensures SiblingRoles(crs, id).Has(n) {
        assert n in RoleNames(crs[s]);
      }
    }
  }

  // ---------------------------------------------------------------- one event

  /** Whatever another live resource of the namespace has in use, the resource declares it too or
      sees it declared by a sibling. */
  ghost predicate Protects(crs: map<CrId, Cr>, id: CrId)
    requires id in crs && crs[id].config.Some?
  {
    forall s | s in crs && s != id && s.namespace == id.namespace ::
      && (forall n | n in crs[s].policies :: n in PolicyNames(crs[id]) || SiblingPolicies(crs, id).Has(n))
      && (forall n | n in crs[s].roles :: n in RoleNames(crs[id]) || SiblingRoles(crs, id).Has(n))
  }

  /** Whatever another live resource of the namespace has in use and the resource declares is seen
      declared by a sibling. */
  ghost predicate Spares(crs: map<CrId, Cr>, id: CrId)
    requires id in crs && crs[id].config.Some?
  {
    forall s | s in crs && s != id && s.namespace == id.namespace ::
      && (forall n | n in crs[s].policies && n in PolicyNames(crs[id]) :: SiblingPolicies(crs, id).Has(n))
      && (forall n | n in crs[s].roles && n in RoleNames(crs[id]) :: SiblingRoles(crs, id).Has(n))
  }

  /** The condition under which an event keeps what is in use. */
  ghost predicate Considerate(w: World, e: Event) {
    match e
    case Apply(id, _, _, _, _) => id in w.crs && w.crs[id].config.Some? ==> Protects(w.crs, id)
    case Release(id, _) => id in w.crs && w.crs[id].config.Some? ==> Spares(w.crs, id)
    case _ => true
  }

  /** One operator for all the resources of a namespace is enough. */
  lemma OneManagerProtects(crs: map<CrId, Cr>, id: CrId)
    requires OneManager(crs) && id in crs && crs[id].config.Some? && forall s | s in crs :: CrInv(s, crs[s])
    ensures Protects(crs, id) && Spares(crs, id)
  {
    hide SiblingPolicies, SiblingRoles, PolicyNames, RoleNames, WellFormed, Names;
    forall s | s in crs && s != id && s.namespace == id.namespace
      ensures forall n | n in crs[s].policies :: SiblingPolicies(crs, id).Has(n)
      ensures forall n | n in crs[s].roles :: SiblingRoles(crs, id).Has(n)
    {
      assert CrInv(s, crs[s]);
      if !crs[s].deleting {
        SiblingsProtect(crs, id, s);
      }
    }
  }

  lemma EventKeepsInv(w: World, e: Event, w': World)
    requires Inv(w) && Next(w, e, w')
    ensures Inv(w')
  {
    hide Progress, CleanedSome, LeftSome, SiblingPolicies, SiblingRoles, WellFormed, Names;
    forall id | id in w'.crs ensures CrInv(id, w'.crs[id]) {
      if id in w.crs {
        assert CrInv(id, w.crs[id]);
      }
    }
  }

  /** In use of resource `s`, across an event that concerns resource `e.id`. */
  lemma EventKeepsInUse(w: World, e: Event, w': World, s: CrId)
    requires Inv(w) && InUse(w) && Next(w, e, w') && Considerate(w, e) && s in w'.crs
    ensures forall n | n in w'.crs[s].policies :: Owned(w'.policies, n, s.namespace)
    ensures forall n | n in w'.crs[s].roles :: Owned(w'.roles, n, s.namespace)
  {
    hide SiblingPolicies, SiblingRoles, WellFormed, Names, Owned, Progress, CleanedSome, LeftSome, NoIds;
    if s in w.crs {
      assert CrInv(s, w.crs[s]);
    }
    match e
    case Apply(id, mp, mr, fp, fr) =>
      var cfg := w.crs[id].config.value;
      ApplyKeepsTable(w.policies, mp, w'.policies, cfg.policies, fp, id.namespace, SiblingPolicies(w.crs, id));
      ApplyKeepsTable(w.roles, mr, w'.roles, cfg.roles, fr, id.namespace, SiblingRoles(w.crs, id));
    case Release(id, complete) =>
      var cfg := w.crs[id].config.value;
      ReleaseKeepsTable(w.policies, w'.policies, Names(cfg.policies), id.namespace, SiblingPolicies(w.crs, id));
      ReleaseKeepsTable(w.roles, w'.roles, Names(cfg.roles), id.namespace, SiblingRoles(w.crs, id));
    case _ =>
  }

  lemma EventPreservesInUse(w: World, e: Event, w': World)
    requires Inv(w) && InUse(w) && Next(w, e, w') && Considerate(w, e)
    ensures Inv(w') && InUse(w')
  {
    EventKeepsInv(w, e, w');
    hide Inv, Next, Considerate, Owned;
    forall s | s in w'.crs
      ensures forall k | k in w'.crs[s].policies :: Owned(w'.policies, k, s.namespace)
      ensures forall k | k in w'.crs[s].roles :: Owned(w'.roles, k, s.namespace)
    {
      EventKeepsInUse(w, e, w', s);
    }
  }

  // ---------------------------------------------------------------- whole runs

  ghost predicate Runs(worlds: seq<World>, events: seq<Event>) {
    && |worlds| == |events| + 1
    && forall i | 0 <= i < |events| :: Next(worlds[i], events[i], worlds[i + 1])
  }

  /** In-use invariant over every run in which each apply and each release is considerate. */
  lemma {:induction false} InUseOverConsiderateRuns(worlds: seq<World>, events: seq<Event>)
    requires Runs(worlds, events) && worlds[0].crs == map[]
    requires forall i | 0 <= i < |events| :: Considerate(worlds[i], events[i])
    ensures Inv(worlds[|events|]) && InUse(worlds[|events|])
    decreases |events|
  {
    if events != [] {
      hide Next, Considerate, Inv, InUse;
      var n := |events| - 1;
      var init := worlds[..|worlds| - 1];
      forall i | 0 <= i < n ensures Next(init[i], events[..n][i], init[i + 1]) && Considerate(init[i], events[..n][i]) {
        assert Next(worlds[i], events[i], worlds[i + 1]);
      }
      InUseOverConsiderateRuns(init, events[..n]);
      assert init[n] == worlds[n];
      assert Next(worlds[n], events[n], worlds[n + 1]);
      EventPreservesInUse(worlds[n], events[n], worlds[n + 1]);
    } else {
      NothingInUse(worlds[0]);
    }
  }

  lemma NothingInUse(w: World)
    requires w.crs == map[]
    ensures Inv(w) && InUse(w)
  {}

  /** Every resource of a namespace is created under one operator. */
  ghost predicate SameManager(w: World, e: Event) {
    e.Create? ==> forall s | s in w.crs && s.namespace == e.id.namespace :: w.crs[s].manager == e.manager
  }

  lemma EventKeepsOneManager(w: World, e: Event, w': World)
    requires OneManager(w.crs) && Next(w, e, w') && SameManager(w, e)
    ensures OneManager(w'.crs)
  {
    hide Progress, CleanedSome, LeftSome, SiblingPolicies, SiblingRoles, WellFormed, Names, NoIds;
  }

  lemma OneManagerIsConsiderate(w: World, e: Event)
    requires Inv(w) && OneManager(w.crs)
    ensures Considerate(w, e)
  {
    hide Protects, Spares, CrInv, OneManager;
    if (e.Apply? || e.Release?) && e.id in w.crs && w.crs[e.id].config.Some? {
      OneManagerProtects(w.crs, e.id);
    }
  }

  /** In-use invariant over every run: whatever resources come and go in whatever
      namespaces, each namespace under one operator, and wherever applies and deletions fail, each
      role or policy in use by a live resource exists with its namespace among the owners. */
  lemma {:induction false} InUseOverEveryRun(worlds: seq<World>, events: seq<Event>)
    requires Runs(worlds, events) && worlds[0].crs == map[]
    requires forall i | 0 <= i < |events| :: SameManager(worlds[i], events[i])
    ensures Inv(worlds[|events|]) && InUse(worlds[|events|]) && OneManager(worlds[|events|].crs)
    decreases |events|
  {
    if events != [] {
      hide Next, SameManager, Inv, InUse, OneManager, Considerate;
      var n := |events| - 1;
      var init := worlds[..|worlds| - 1];
      forall i | 0 <= i < n ensures Next(init[i], events[..n][i], init[i + 1]) && SameManager(init[i], events[..n][i]) {
        assert Next(worlds[i], events[i], worlds[i + 1]);
      }
      InUseOverEveryRun(init, events[..n]);
      assert init[n] == worlds[n];
      assert Next(worlds[n], events[n], worlds[n + 1]);
      OneManagerIsConsiderate(worlds[n], events[n]);
      EventPreservesInUse(worlds[n], events[n], worlds[n + 1]);
      EventKeepsOneManager(worlds[n], events[n], worlds[n + 1]);
    } else {
      NothingInUse(worlds[0]);
    }
  }

  /** Right after an apply without failed writes, everything the resource declares is in use. */
  lemma AppliedIsInUse(w: World, e: Event, w': World)
    requires Inv(w) && InUse(w) && Next(w, e, w') && Considerate(w, e)
    requires e.Apply? && e.failedPolicies == {} && e.failedRoles == {}
    ensures forall n | n in PolicyNames(w.crs[e.id]) :: Owned(w'.policies, n, e.id.namespace)
    ensures forall n | n in RoleNames(w.crs[e.id]) :: Owned(w'.roles, n, e.id.namespace)
  {
    EventKeepsInUse(w, e, w', e.id);
  }

  ghost predicate Uses(w: World, id: CrId, n: string, role: bool) {
    id in w.crs && n in if role then w.crs[id].roles else w.crs[id].policies
  }

  /** The event does not take the declaration of the name from the resource. */
  ghost predicate StillDeclares(e: Event, id: CrId, n: string, role: bool) {
    match e
    case Edit(c, config) => c == id ==> MayDeclare(config, n, role)
    case MarkDeleted(c) => c != id
    case Release(c, _) => c != id
    case _ => true
  }

  lemma EventKeepsUse(w: World, e: Event, w': World, id: CrId, n: string, role: bool)
    requires Next(w, e, w') && Uses(w, id, n, role) && StillDeclares(e, id, n, role)
    ensures Uses(w', id, n, role)
  {
    hide Progress, CleanedSome, LeftSome, SiblingPolicies, SiblingRoles, WellFormed, Names, NoIds;
    if e.Edit? && e.id == id && e.newConfig.Some? {
      NamesAre(if role then e.newConfig.value.roles else e.newConfig.value.policies, n);
    }
  }

  lemma ApplyUses(w: World, e: Event, w': World, n: string, role: bool)
    requires Next(w, e, w') && e.Apply? && MayDeclare(w.crs[e.id].config, n, role)
    requires n !in if role then e.failedRoles else e.failedPolicies
    ensures Uses(w', e.id, n, role)
  {
    hide Progress, CleanedSome, LeftSome, SiblingPolicies, SiblingRoles, WellFormed, Names, NoIds;
    var cfg := w.crs[e.id].config.value;
    NamesAre(if role then cfg.roles else cfg.policies, n);
  }

  lemma {:induction false} StaysUsed(worlds: seq<World>, events: seq<Event>, i: nat, n: string, role: bool, k: nat)
    requires Runs(worlds, events) && i < k <= |events| && events[i].Apply? && events[i].id in worlds[i].crs
    requires MayDeclare(worlds[i].crs[events[i].id].config, n, role) && n !in if role then events[i].failedRoles else events[i].failedPolicies
    requires forall j | i < j < |events| :: StillDeclares(events[j], events[i].id, n, role)
    ensures Uses(worlds[k], events[i].id, n, role)
  {
    hide Next, Uses, StillDeclares, MayDeclare;
    assert Next(worlds[k - 1], events[k - 1], worlds[k]);
    if k == i + 1 {
      ApplyUses(worlds[i], events[i], worlds[k], n, role);
    } else {
      StaysUsed(worlds, events, i, n, role, k - 1);
      EventKeepsUse(worlds[k - 1], events[k - 1], worlds[k], events[i].id, n, role);
    }
  }

  /** Over every run, each namespace under one operator: what an apply has written exists and belongs to
      the namespace for as long as its resource is not deleted and goes on declaring it, whatever else is
      applied, released, created, edited and deleted in between. */
  lemma WrittenStaysOwned(worlds: seq<World>, events: seq<Event>, i: nat, n: string, role: bool)
    requires Runs(worlds, events) && worlds[0].crs == map[] && forall j | 0 <= j < |events| :: SameManager(worlds[j], events[j])
    requires i < |events| && events[i].Apply? && events[i].id in worlds[i].crs
    requires MayDeclare(worlds[i].crs[events[i].id].config, n, role) && n !in if role then events[i].failedRoles else events[i].failedPolicies
    requires forall j | i < j < |events| :: StillDeclares(events[j], events[i].id, n, role)
    ensures Owned(if role then worlds[|events|].roles else worlds[|events|].policies, n, events[i].id.namespace)
  {
    hide Runs, SameManager, StillDeclares, MayDeclare, OneManager, Owned;
    InUseOverEveryRun(worlds, events);
    StaysUsed(worlds, events, i, n, role, |events|);
  }

  /** A clean-up that succeeds leaves in the hands of the namespace only what the resource
      or a sibling declares, and does not touch anything the namespace did not own. */
  lemma CleanedLeavesOnlyDeclared(before: Table, after: Table, specs: seq<Spec>, namespace: string, siblings: Declared)
    requires AllCleaned(before, after, specs, namespace, siblings)
    ensures forall k | Owned(after, k, namespace) :: k in Names(specs) || siblings.Has(k)
    ensures forall k | !Owned(before, k, namespace) :: Untouched(before, after, k)
    ensures forall k | k in before && k !in after :: forall o | HasOwner(before[k].description, o) :: o == namespace
    ensures forall k, o | o != namespace :: Owned(before, k, o) <==> Owned(after, k, o)
  {
    forall k ensures Owned(after, k, namespace) ==> k in Names(specs) || siblings.Has(k) {
      if Stale(before, k, specs, namespace, siblings) {
        assert Left(before, after, k, namespace);
      } else {
        assert Untouched(before, after, k);
      }
    }
    forall k | k in before && k !in after ensures forall o | HasOwner(before[k].description, o) :: o == namespace {
      assert Stale(before, k, specs, namespace, siblings) || Untouched(before, after, k);
    }
    forall k, o | o != namespace ensures Owned(before, k, o) <==> Owned(after, k, o) {
      assert Stale(before, k, specs, namespace, siblings) || Untouched(before, after, k);
    }
  }

  /** An unparsable sibling only makes releases rarer: nothing at all is released. */
  lemma UnparsableSiblingReleasesNothing(w: World, id: CrId, s: CrId, before: Table, after: Table, specs: seq<Spec>)
    requires id in w.crs && IsSibling(w.crs, id, s) && w.crs[s].config.None?
    ensures AllCleaned(before, after, specs, id.namespace, SiblingRoles(w.crs, id)) ==> after == before
    ensures AllLeft(before, after, specs, id.namespace, SiblingRoles(w.crs, id)) ==> after == before
    ensures AllCleaned(before, after, specs, id.namespace, SiblingPolicies(w.crs, id)) ==> after == before
    ensures AllLeft(before, after, specs, id.namespace, SiblingPolicies(w.crs, id)) ==> after == before
  {
    assert SomeUnparsable(w.crs, id);
    if forall k :: Untouched(before, after, k) {
      assert after == before by {
        forall k ensures (k in after <==> k in before) && (k in after ==> after[k] == before[k]) {
          assert Untouched(before, after, k);
        }
      }
    }
  }

  // ---------------------------------------------------------------- the reconciler does these steps

  /** Nothing processed: every declared name counts as failed. */
  lemma NothingProcessed(t: Table, specs: seq<Spec>, namespace: string, siblings: Declared)
    ensures Progress(t, t, specs, Names(specs), namespace) && CleanedSome(t, t, specs, namespace, siblings)
  {}

  /** The names declared by the siblings, policies and roles. */
  datatype Siblings = Siblings(policies: Declared, roles: Declared)

  /** Applies a configuration: policies, roles, binding rules, then the clean-up of roles and of
      policies. A transient error, a failure of the binding rules or of the sibling list ends it
      early. Whatever fails, the effect is that of one apply step. */
  method ApplyAcl(policies: Api, roles: Api, cfg: Config, namespace: string, rulesApplied: bool, siblings: Option<Siblings>,
                  ghost seen: Siblings)
    returns (ok: bool, ghost midPolicies: Table, ghost midRoles: Table, ghost failedPolicies: set<string>, ghost failedRoles: set<string>,
             ghost how: seq<Outcome>, ghost howRoles: seq<Outcome>)
    requires policies != roles && WellFormed(namespace) && NoIds(cfg.policies) && NoIds(cfg.roles)
    requires siblings.Some? ==> siblings.value == seen
    modifies policies, roles
    ensures Progress(old(policies.table), midPolicies, cfg.policies, failedPolicies, namespace)
    ensures Progress(old(roles.table), midRoles, cfg.roles, failedRoles, namespace)
    ensures CleanedSome(midPolicies, policies.table, cfg.policies, namespace, seen.policies)
    ensures CleanedSome(midRoles, roles.table, cfg.roles, namespace, seen.roles)
    ensures ok ==> AllCleaned(midPolicies, policies.table, cfg.policies, namespace, seen.policies)
    ensures ok ==> AllCleaned(midRoles, roles.table, cfg.roles, namespace, seen.roles)
    ensures |how| == |cfg.policies| && (Transient in how ==> roles.table == old(roles.table))
    ensures Transient in how + howRoles || !rulesApplied || siblings.None? ==> !ok && policies.table == midPolicies && roles.table == midRoles
    ensures policies.table == midPolicies || AllCleaned(midRoles, roles.table, cfg.roles, namespace, seen.roles)
    ensures AllFine(old(policies.outcomes)) && AllFine(old(roles.outcomes)) ==>
              failedPolicies == {} && failedRoles == {} && (rulesApplied && siblings.Some? ==> ok)
  {
    hide Progress, AllWritten, AllCleaned, AllFine, Processed, FailedNames, WellFormed, NoIds, Names;
    ghost var tables, fine;
    var failed, retry;
    howRoles := [];
    failed, retry, tables, fine, how := policies.ProcessEntities(cfg.policies, namespace, Policy);
    midPolicies, failedPolicies := policies.table, failed;
    midRoles, failedRoles := roles.table, Names(cfg.roles);
    NothingProcessed(roles.table, cfg.roles, namespace, seen.roles);
    NothingProcessed(policies.table, cfg.policies, namespace, seen.policies);
    if retry {
      return false, midPolicies, midRoles, failedPolicies, failedRoles, how, howRoles;
    }
    failed, retry, tables, fine, howRoles := roles.ProcessEntities(cfg.roles, namespace, Role);
    midRoles, failedRoles := roles.table, failed;
    NothingProcessed(roles.table, cfg.roles, namespace, seen.roles);
    if retry || !rulesApplied || siblings.None? {
      return false, midPolicies, midRoles, failedPolicies, failedRoles, how, howRoles;
    }
    ok := roles.RemoveStaleExplicit(cfg.roles, namespace, siblings.value.roles, false);
    if ok {
      ok := policies.RemoveStaleExplicit(cfg.policies, namespace, siblings.value.policies, true);
    }
  }

  /** Releases everything a deleted resource declares: roles first, then policies. */
  method DeleteAcl(policies: Api, roles: Api, cfg: Config, namespace: string, siblings: Siblings)
    returns (ok: bool)
    requires policies != roles
    modifies policies, roles
    ensures LeftSome(old(policies.table), policies.table, Names(cfg.policies), namespace, siblings.policies)
    ensures LeftSome(old(roles.table), roles.table, Names(cfg.roles), namespace, siblings.roles)
    ensures ok ==> AllLeft(old(policies.table), policies.table, cfg.policies, namespace, siblings.policies)
    ensures ok ==> AllLeft(old(roles.table), roles.table, cfg.roles, namespace, siblings.roles)
    ensures policies.table == old(policies.table) || AllLeft(old(roles.table), roles.table, cfg.roles, namespace, siblings.roles)
    ensures AllFine(old(policies.outcomes)) && AllFine(old(roles.outcomes)) ==> ok
  {
    ok := roles.DeleteEntities(cfg.roles, namespace, siblings.roles);
    if ok {
      ok := policies.DeleteEntities(cfg.policies, namespace, siblings.policies);
    }
  }

  ghost predicate Lists(list: seq<CrId>, crs: map<CrId, Cr>, namespace: string) {
    forall s :: s in list <==> s in crs && s.namespace == namespace
  }

  /** A reconcile of a live resource: lists its siblings, applies its configuration, and is one apply
      step of a run. `list` is None when the resources of the namespace can not be listed. */
  method ReconcileApply(policies: Api, roles: Api, crs: map<CrId, Cr>, id: CrId, rulesApplied: bool, list: Option<seq<CrId>>)
    returns (ok: bool, ghost e: Event, ghost w': World)
    requires policies != roles && id in crs && !crs[id].deleting && WellFormed(id.namespace)
    requires crs[id].config.Some? && NoIds(crs[id].config.value.policies) && NoIds(crs[id].config.value.roles)
    requires list.Some? ==> Lists(list.value, crs, id.namespace)
    modifies policies, roles
    ensures e.Apply? && e.id == id && Next(World(old(policies.table), old(roles.table), crs), e, w')
    ensures w'.policies == policies.table && w'.roles == roles.table
    ensures ok ==> forall n | Owned(policies.table, n, id.namespace) :: MayDeclare(crs[id].config, n, false) || DeclaredBeside(crs, id, n, false)
    ensures ok ==> forall n | Owned(roles.table, n, id.namespace) :: MayDeclare(crs[id].config, n, true) || DeclaredBeside(crs, id, n, true)
    ensures AllFine(old(policies.outcomes)) && AllFine(old(roles.outcomes)) && rulesApplied && list.Some? ==>
              ok && e.failedPolicies == {} && e.failedRoles == {}
  {
    hide MayDeclare, DeclaredBeside, AllFine, Owned;
    hide Progress, CleanedSome, AllCleaned, SiblingPolicies, SiblingRoles, NoIds, WellFormed, Names;
    var cr, cfg, siblings := crs[id], crs[id].config.value, None;
    if list.Some? {
      var ps, rs := SiblingEntities(crs, list.value, id);
      siblings := Some(Siblings(ps, rs));
    }
    ghost var mp, mr, fp, fr, hp, hr;
    ok, mp, mr, fp, fr, hp, hr := ApplyAcl(policies, roles, cfg, id.namespace, rulesApplied, siblings,
                                           Siblings(SiblingPolicies(crs, id), SiblingRoles(crs, id)));
    e := Apply(id, mp, mr, fp, fr);
    w' := World(policies.table, roles.table,
                crs[id := cr.(policies := cr.policies + (Names(cfg.policies) - fp), roles := cr.roles + (Names(cfg.roles) - fr))]);
    if ok {
      OnlyDeclaredOwned(mp, policies.table, crs, id, false);
      OnlyDeclaredOwned(mr, roles.table, crs, id, true);
    }
  }

  /** After a clean-up the namespace owns only what this resource or a live one beside it declares. */
  lemma OnlyDeclaredOwned(mid: Table, after: Table, crs: map<CrId, Cr>, id: CrId, role: bool)
    requires id in crs && crs[id].config.Some?
    requires AllCleaned(mid, after, if role then crs[id].config.value.roles else crs[id].config.value.policies, id.namespace,
                        if role then SiblingRoles(crs, id) else SiblingPolicies(crs, id))
    ensures forall n | Owned(after, n, id.namespace) :: MayDeclare(crs[id].config, n, role) || DeclaredBeside(crs, id, n, role)
  {
    var specs := if role then crs[id].config.value.roles else crs[id].config.value.policies;
    hide SiblingRoles, SiblingPolicies, DeclaredBeside, AllCleaned, Owned;
    CleanedLeavesOnlyDeclared(mid, after, specs, id.namespace, if role then SiblingRoles(crs, id) else SiblingPolicies(crs, id));
    forall n | Owned(after, n, id.namespace) ensures MayDeclare(crs[id].config, n, role) || DeclaredBeside(crs, id, n, role) {
      NamesAre(specs, n);
      SiblingsAre(crs, id, n);
    }
  }

  /** A declared entity that was left is no longer owned; one that was not is declared beside. */
  lemma OnlySharedOwned(before: Table, after: Table, crs: map<CrId, Cr>, id: CrId, role: bool)
    requires id in crs && crs[id].config.Some?
    requires AllLeft(before, after, if role then crs[id].config.value.roles else crs[id].config.value.policies, id.namespace,
                     if role then SiblingRoles(crs, id) else SiblingPolicies(crs, id))
    ensures forall n | MayDeclare(crs[id].config, n, role) && Owned(after, n, id.namespace) :: DeclaredBeside(crs, id, n, role)
  {
    var specs := if role then crs[id].config.value.roles else crs[id].config.value.policies;
    hide SiblingRoles, SiblingPolicies, DeclaredBeside, HasOwner, Names;
    forall n | MayDeclare(crs[id].config, n, role) && Owned(after, n, id.namespace) ensures DeclaredBeside(crs, id, n, role) {
      NamesAre(specs, n);
      SiblingsAre(crs, id, n);
      assert n in Names(specs);
    }
  }

  /** A reconcile of a deleted resource: lists its siblings, releases what it declares, removes the
      finalizer if all is released, and is one release step of a run. */
  method ReconcileDelete(policies: Api, roles: Api, crs: map<CrId, Cr>, id: CrId, list: Option<seq<CrId>>, finalizerWritten: bool)
    returns (gone: bool, ghost e: Event, ghost w': World)
    requires policies != roles && id in crs && crs[id].deleting && crs[id].config.Some?
    requires list.Some? ==> Lists(list.value, crs, id.namespace)
    modifies policies, roles
    ensures e.Release? && e.id == id && e.complete == gone && Next(World(old(policies.table), old(roles.table), crs), e, w')
    ensures w'.policies == policies.table && w'.roles == roles.table
    ensures gone ==> forall n | MayDeclare(crs[id].config, n, false) && Owned(policies.table, n, id.namespace) :: DeclaredBeside(crs, id, n, false)
    ensures gone ==> forall n | MayDeclare(crs[id].config, n, true) && Owned(roles.table, n, id.namespace) :: DeclaredBeside(crs, id, n, true)
    ensures AllFine(old(policies.outcomes)) && AllFine(old(roles.outcomes)) && list.Some? && finalizerWritten ==> gone
  {
    hide MayDeclare, DeclaredBeside, AllFine, Owned;
    hide LeftSome, AllLeft, SiblingPolicies, SiblingRoles, Names;
    gone := false;
    NothingLeft(policies.table, Names(crs[id].config.value.policies), id.namespace, SiblingPolicies(crs, id));
    NothingLeft(roles.table, Names(crs[id].config.value.roles), id.namespace, SiblingRoles(crs, id));
    if list.Some? {
      var ps, rs := SiblingEntities(crs, list.value, id);
      var ok := DeleteAcl(policies, roles, crs[id].config.value, id.namespace, Siblings(ps, rs));
      gone := ok && finalizerWritten;
      if ok {
        OnlySharedOwned(old(policies.table), policies.table, crs, id, false);
        OnlySharedOwned(old(roles.table), roles.table, crs, id, true);
      }
    }
    e := Release(id, gone);
    w' := World(policies.table, roles.table, if gone then crs - {id} else crs);
  }

  lemma NothingLeft(t: Table, names: set<string>, namespace: string, siblings: Declared)
    ensures LeftSome(t, t, names, namespace, siblings)
  {}

  // ---------------------------------------------------------------- the condition is exact

  /** The table after the namespace has left one entity. */
  function Leaving(t: Table, n: string, namespace: string): Table
    requires n in t
  {
    var r := WithOwnerRemoved(t[n].description, namespace);
    if r.last then t - {n} else t[n := t[n].(description := r.description)]
  }

  lemma LeavingLosesOwner(t: Table, n: string, namespace: string)
    requires n in t
    ensures Left(t, Leaving(t, n, namespace), n, namespace) && !Owned(Leaving(t, n, namespace), n, namespace)
    ensures forall k | k != n :: Untouched(t, Leaving(t, n, namespace), k)
  {
    ReleaseMeans(t, n, namespace);
    hide WithOwnerRemoved, HasOwner, ParseOwners;
  }

  lemma LeavingIsAllowed(t: Table, n: string, specs: seq<Spec>, namespace: string, siblings: Declared)
    requires n in t && !siblings.Has(n)
    ensures Owned(t, n, namespace) && n !in Names(specs) ==> CleanedSome(t, Leaving(t, n, namespace), specs, namespace, siblings)
    ensures n in Names(specs) ==> LeftSome(t, Leaving(t, n, namespace), Names(specs), namespace, siblings)
  {
    LeavingLosesOwner(t, n, namespace);
    hide Leaving, Left, Names, Owned;
  }

  lemma NotInUse(w: World, s: CrId, n: string)
    requires s in w.crs
    requires (n in w.crs[s].policies && !Owned(w.policies, n, s.namespace)) || (n in w.crs[s].roles && !Owned(w.roles, n, s.namespace))
    ensures !InUse(w)
  {
    hide Owned;
  }

  /** An apply that writes nothing and takes one unprotected name from the namespace. */
  lemma InconsiderateApply(w: World, id: CrId, s: CrId, n: string, role: bool) returns (e: Event, w': World)
    requires Inv(w) && InUse(w) && id in w.crs && !w.crs[id].deleting && w.crs[id].config.Some?
    requires NoIds(w.crs[id].config.value.policies) && NoIds(w.crs[id].config.value.roles)
    requires s in w.crs && s != id && s.namespace == id.namespace
    requires if role then n in w.crs[s].roles && n !in RoleNames(w.crs[id]) && !SiblingRoles(w.crs, id).Has(n)
             else n in w.crs[s].policies && n !in PolicyNames(w.crs[id]) && !SiblingPolicies(w.crs, id).Has(n)
    ensures e.Apply? && e.id == id && Next(w, e, w') && !InUse(w')
  {
    hide Progress, CleanedSome, SiblingPolicies, SiblingRoles, NoIds, Names, Leaving, WellFormed;
    var cr, cfg := w.crs[id], w.crs[id].config.value;
    var ps, rs := SiblingPolicies(w.crs, id), SiblingRoles(w.crs, id);
    NothingProcessed(w.policies, cfg.policies, id.namespace, ps);
    NothingProcessed(w.roles, cfg.roles, id.namespace, rs);
    e := Apply(id, w.policies, w.roles, Names(cfg.policies), Names(cfg.roles));
    assert cr.policies + (Names(cfg.policies) - Names(cfg.policies)) == cr.policies;
    assert cr.roles + (Names(cfg.roles) - Names(cfg.roles)) == cr.roles;
    assert w.crs[id := cr.(policies := cr.policies, roles := cr.roles)] == w.crs;
    if role {
      assert Owned(w.roles, n, s.namespace);
      LeavingIsAllowed(w.roles, n, cfg.roles, id.namespace, rs);
      LeavingLosesOwner(w.roles, n, id.namespace);
      w' := World(w.policies, Leaving(w.roles, n, id.namespace), w.crs);
    } else {
      assert Owned(w.policies, n, s.namespace);
      LeavingIsAllowed(w.policies, n, cfg.policies, id.namespace, ps);
      LeavingLosesOwner(w.policies, n, id.namespace);
      w' := World(Leaving(w.policies, n, id.namespace), w.roles, w.crs);
    }
    NotInUse(w', s, n);
  }

  /** The applies of a resource keep everything in use if and only if it protects what the other
      live resources of its namespace have in use. */
  lemma ApplyKeepsInUseIff(w: World, id: CrId)
    requires Inv(w) && InUse(w) && id in w.crs && !w.crs[id].deleting && w.crs[id].config.Some?
    requires NoIds(w.crs[id].config.value.policies) && NoIds(w.crs[id].config.value.roles)
    ensures (forall e: Event, w': World | e.Apply? && e.id == id && Next(w, e, w') :: InUse(w')) <==> Protects(w.crs, id)
  {
    hide Next, Inv, InUse, SiblingPolicies, SiblingRoles, NoIds, PolicyNames, RoleNames;
    if Protects(w.crs, id) {
      forall e: Event, w': World | e.Apply? && e.id == id && Next(w, e, w') ensures InUse(w') {
        EventPreservesInUse(w, e, w');
      }
    } else {
      var s :| s in w.crs && s != id && s.namespace == id.namespace && !(
        && (forall n | n in w.crs[s].policies :: n in PolicyNames(w.crs[id]) || SiblingPolicies(w.crs, id).Has(n))
        && (forall n | n in w.crs[s].roles :: n in RoleNames(w.crs[id]) || SiblingRoles(w.crs, id).Has(n)));
      var e, w';
      if n :| n in w.crs[s].policies && !(n in PolicyNames(w.crs[id]) || SiblingPolicies(w.crs, id).Has(n)) {
        e, w' := InconsiderateApply(w, id, s, n, false);
      } else {
        var n :| n in w.crs[s].roles && !(n in RoleNames(w.crs[id]) || SiblingRoles(w.crs, id).Has(n));
        e, w' := InconsiderateApply(w, id, s, n, true);
      }
    }
  }

  /** A release that takes one unprotected name from the namespace. */
  lemma InconsiderateRelease(w: World, id: CrId, s: CrId, n: string, role: bool) returns (e: Event, w': World)
    requires Inv(w) && InUse(w) && id in w.crs && w.crs[id].deleting && w.crs[id].config.Some?
    requires s in w.crs && s != id && s.namespace == id.namespace
    requires if role then n in w.crs[s].roles && n in RoleNames(w.crs[id]) && !SiblingRoles(w.crs, id).Has(n)
             else n in w.crs[s].policies && n in PolicyNames(w.crs[id]) && !SiblingPolicies(w.crs, id).Has(n)
    ensures e.Release? && e.id == id && Next(w, e, w') && !InUse(w')
  {
    hide LeftSome, SiblingPolicies, SiblingRoles, Names, Leaving, WellFormed;
    var cfg := w.crs[id].config.value;
    var ps, rs := SiblingPolicies(w.crs, id), SiblingRoles(w.crs, id);
    NothingLeft(w.policies, Names(cfg.policies), id.namespace, ps);
    NothingLeft(w.roles, Names(cfg.roles), id.namespace, rs);
    e := Release(id, false);
    if role {
      assert Owned(w.roles, n, s.namespace);
      LeavingIsAllowed(w.roles, n, cfg.roles, id.namespace, rs);
      LeavingLosesOwner(w.roles, n, id.namespace);
      w' := World(w.policies, Leaving(w.roles, n, id.namespace), w.crs);
    } else {
      assert Owned(w.policies, n, s.namespace);
      LeavingIsAllowed(w.policies, n, cfg.policies, id.namespace, ps);
      LeavingLosesOwner(w.policies, n, id.namespace);
      w' := World(Leaving(w.policies, n, id.namespace), w.roles, w.crs);
    }
    NotInUse(w', s, n);
  }

  /** The releases of a deleted resource keep everything in use if and only if it spares what the
      other live resources of its namespace have in use. */
  lemma ReleaseKeepsInUseIff(w: World, id: CrId)
    requires Inv(w) && InUse(w) && id in w.crs && w.crs[id].deleting && w.crs[id].config.Some?
    ensures (forall e: Event, w': World | e.Release? && e.id == id && Next(w, e, w') :: InUse(w')) <==> Spares(w.crs, id)
  {
    hide Next, Inv, InUse, SiblingPolicies, SiblingRoles, PolicyNames, RoleNames;
    if Spares(w.crs, id) {
      forall e: Event, w': World | e.Release? && e.id == id && Next(w, e, w') ensures InUse(w') {
        EventPreservesInUse(w, e, w');
      }
    } else {
      var s :| s in w.crs && s != id && s.namespace == id.namespace && !(
        && (forall n | n in w.crs[s].policies && n in PolicyNames(w.crs[id]) :: SiblingPolicies(w.crs, id).Has(n))
        && (forall n | n in w.crs[s].roles && n in RoleNames(w.crs[id]) :: SiblingRoles(w.crs, id).Has(n)));
      var e, w';
      if n :| n in w.crs[s].policies && n in PolicyNames(w.crs[id]) && !SiblingPolicies(w.crs, id).Has(n) {
        e, w' := InconsiderateRelease(w, id, s, n, false);
      } else {
        var n :| n in w.crs[s].roles && n in RoleNames(w.crs[id]) && !SiblingRoles(w.crs, id).Has(n);
        e, w' := InconsiderateRelease(w, id, s, n, true);
      }
    }
  }

  /** Two resources of namespace "n" under two operators; the second has role "r" in use. */
  function TwoManagers(): map<CrId, Cr> {
    map[CrId("n", "a") := Cr(Some(Config([], [])), false, "x", {}, {}),
        CrId("n", "b") := Cr(Some(Config([], [Spec("r", "", "", None)])), false, "y", {}, {"r"})]
  }

  lemma TwoManagersInUse()
    ensures var w := World(map[], map["r" := Entity(0, Listing("n"), "")], TwoManagers()); Inv(w) && InUse(w)
  {
    FirstOwner("n");
    hide HasOwner, WellFormed, Listing;
    var spec := [Spec("r", "", "", None)];
    assert spec[0].name == "r";
    assert "r" in Names(spec);
  }

  lemma TwoManagersUnprotected()
    ensures CrId("n", "a") in TwoManagers() && !Protects(TwoManagers(), CrId("n", "a"))
  {
    var a, b := CrId("n", "a"), CrId("n", "b");
    assert SiblingRoles(TwoManagers(), a) == Declared({}, false);
    assert b in TwoManagers() && b != a && "r" in TwoManagers()[b].roles;
    assert RoleNames(TwoManagers()[a]) == {};
  }

  /** Siblings under another operator are not seen, so with two operators in one namespace an apply
      can delete a role that is in use. */
  lemma SecondManagerBreaksInUse() returns (w: World, e: Event, w': World)
    ensures w == World(map[], map["r" := Entity(0, Listing("n"), "")], TwoManagers())
    ensures Inv(w) && InUse(w) && e.Apply? && Next(w, e, w') && !InUse(w')
  {
    w := World(map[], map["r" := Entity(0, Listing("n"), "")], TwoManagers());
    TwoManagersInUse();
    TwoManagersUnprotected();
    assert w.crs[CrId("n", "a")].config == Some(Config([], []));
    hide Next, Inv, InUse, Protects, TwoManagers, Listing;
    ApplyKeepsInUseIff(w, CrId("n", "a"));
    e, w' :| e.Apply? && e.id == CrId("n", "a") && Next(w, e, w') && !InUse(w');
  }
}
