/** Explicitly named roles and policies shared by ConsulACL resources of several namespaces:
    applying a spec adds the namespace to the owners in the description, releasing an entity
    removes it, and the last release deletes the entity.

    Roles and policies go through the same sequence of calls but for one: a policy whose spec
    carries an ID is not read first. One table stands for either. */
module AclEntities {
  import opened Owners
  import opened Wrappers

  /** A role or a policy; `body` is everything but its name and description. */
  datatype Entity = Entity(id: nat, description: string, body: string)

  type Table = map<string, Entity>

  datatype Kind = Policy | Role

  /** A declared role or policy, which may name the ID of the entity to write. */
  datatype Spec = Spec(name: string, description: string, body: string, id: Option<nat>)

  predicate NoIds(specs: seq<Spec>) {
    forall s | s in specs :: s.id.None?
  }

  function Names(specs: seq<Spec>): set<string> {
    set i | 0 <= i < |specs| && specs[i].name != "" :: specs[i].name
  }

  /** Names that must not be released; `all` stands for an unparsable sibling. */
  datatype Declared = Declared(names: set<string>, all: bool) {
    predicate Has(name: string) {
      all || name in names
    }
  }

  function DescriptionOf(t: Table, name: string): string {
    if name in t then t[name].description else ""
  }

  predicate Owned(t: Table, name: string, namespace: string) {
    name in t && HasOwner(t[name].description, namespace)
  }

  // ---------------------------------------------------------------- what the operations mean

  /** The entity exists and its owners are those it had plus the namespace. */
  ghost predicate Joined(before: Table, after: Table, name: string, namespace: string) {
    && name in after
    && (name in before ==> after[name].id == before[name].id)
    && forall o :: HasOwner(after[name].description, o) <==> HasOwner(DescriptionOf(before, name), o) || o == namespace
  }

  /** Besides, its text is that of the spec. */
  ghost predicate Written(before: Table, after: Table, spec: Spec, namespace: string) {
    && Joined(before, after, spec.name, namespace)
    && after[spec.name].body == spec.body
    && SameText(after[spec.name].description, spec.description)
  }

  /** The first call that fails does so for a transient reason: the write or, if there is one, the read. */
  ghost predicate Interrupts(script: seq<Outcome>, reading: bool) {
    First(script).Transient? || (reading && First(script).Fine? && First(Rest(script)).Transient?)
  }

  predicate ReadsFirst(kind: Kind, spec: Spec) {
    kind.Role? || spec.id.None?
  }

  /** The description a spec is written with. */
  function Described(t: Table, spec: Spec, namespace: string, kind: Kind): string {
    WithOwnerAdded(spec.description, if ReadsFirst(kind, spec) then DescriptionOf(t, spec.name) else "", namespace)
  }

  /** The entity with the ID gets a new name, description and body; the name must be its own or free. */
  ghost predicate Renamed(before: Table, after: Table, id: nat, name: string, description: string, body: string) {
    exists n | n in before ::
      && before[n].id == id && (n == name || name !in before)
      && after == (before - {n})[name := Entity(id, description, body)]
  }

  /** What the store does with a spec, with or without an ID. */
  ghost predicate Stored(before: Table, after: Table, spec: Spec, namespace: string, kind: Kind) {
    var description := Described(before, spec, namespace, kind);
    if spec.id.Some? then Renamed(before, after, spec.id.value, spec.name, description, spec.body)
    else
      && spec.name in after && (spec.name in before ==> after[spec.name].id == before[spec.name].id)
      && after == before[spec.name := Entity(after[spec.name].id, description, spec.body)]
  }

  ghost predicate Untouched(before: Table, after: Table, name: string) {
    (name in after <==> name in before) && (name in after ==> after[name] == before[name])
  }

  /** The namespace, and only it, was taken from the owners; the entity is gone exactly if no
      other owner was left. */
  ghost predicate Left(before: Table, after: Table, name: string, namespace: string) {
    if name !in before || (forall o | HasOwner(before[name].description, o) :: o == namespace) then name !in after
    else
      && name in after && after[name].id == before[name].id && after[name].body == before[name].body
      && SameText(after[name].description, before[name].description)
      && forall o :: HasOwner(after[name].description, o) <==> HasOwner(before[name].description, o) && o != namespace
  }

  /** The last spec with this name. */
  function LastSpec(specs: seq<Spec>, name: string): Spec
    requires name in Names(specs)
  {
    var n := |specs| - 1;
    if specs[n].name == name then specs[n]
    else
      assert name in Names(specs[..n]) by {
        var i :| 0 <= i < |specs| && specs[i].name != "" && specs[i].name == name;
        assert specs[..n][i].name == name;
      }
      LastSpec(specs[..n], name)
  }

  /** Every declared entity is written as its last spec says, the others are untouched. */
  ghost predicate AllWritten(before: Table, after: Table, specs: seq<Spec>, namespace: string) {
    && (forall k | k in Names(specs) :: Written(before, after, LastSpec(specs, k), namespace))
    && (forall k | k !in Names(specs) :: Untouched(before, after, k))
  }

  /** The declared entities that no sibling declares are left by the namespace. */
  ghost predicate AllLeft(before: Table, after: Table, specs: seq<Spec>, namespace: string, siblings: Declared) {
    && (forall k | k in Names(specs) && !siblings.Has(k) :: Left(before, after, k, namespace))
    && (forall k | k !in Names(specs) || siblings.Has(k) :: Untouched(before, after, k))
  }

  predicate Stale(t: Table, name: string, specs: seq<Spec>, namespace: string, siblings: Declared) {
    Owned(t, name, namespace) && name !in Names(specs) && !siblings.Has(name)
  }

  /** The stale entities are left by the namespace, the others are untouched. */
  ghost predicate AllCleaned(before: Table, after: Table, specs: seq<Spec>, namespace: string, siblings: Declared) {
    forall k :: if Stale(before, k, specs, namespace, siblings) then Left(before, after, k, namespace)
                else Untouched(before, after, k)
  }

  // ---------------------------------------------------------------- the API

  datatype Outcome = Fine | Transient | Permanent

  /** How the next call ends, and the calls after it. */
  function First(script: seq<Outcome>): Outcome {
    if script == [] then Fine else script[0]
  }

  function Rest(script: seq<Outcome>): seq<Outcome> {
    if script == [] then [] else script[1..]
  }

  class Api {
    var table: Table
    var nextId: nat
    var outcomes: seq<Outcome>

    method Next() returns (o: Outcome)
      modifies this`outcomes
      ensures o == First(old(outcomes)) && outcomes == Rest(old(outcomes))
    {
      o := First(outcomes);
      outcomes := Rest(outcomes);
    }

    method Read(name: string) returns (o: Outcome, found: Option<Entity>)
      modifies this`outcomes
      ensures o.Fine? ==> found == (if name in table then Some(table[name]) else None)
      ensures o == First(old(outcomes)) && outcomes == Rest(old(outcomes))
      ensures AllFine(old(outcomes)) ==> o.Fine? && AllFine(outcomes)
    {
      o := Next();
      found := if name in table then Some(table[name]) else None;
    }

    /** Creates the entity or updates it in place; an error leaves everything as it was. */
    method Write(name: string, description: string, body: string) returns (o: Outcome)
      modifies this
      ensures o.Fine? ==>
                && table == old(table)[name := Entity(if name in old(table) then old(table)[name].id else old(nextId), description, body)]
      ensures !o.Fine? ==> table == old(table)
      ensures o == First(old(outcomes))
      ensures AllFine(old(outcomes)) ==> o.Fine? && AllFine(outcomes)
    {
      o := Next();
      if o.Fine? {
        var id := if name in table then table[name].id else nextId;
        nextId := if name in table then nextId else nextId + 1;
        table := table[name := Entity(id, description, body)];
      }
    }

    /** Updates the entity with the given ID; an unknown ID or a name that is taken is an error. */
    method UpdateById(id: nat, name: string, description: string, body: string) returns (o: Outcome)
      modifies this
      ensures o.Fine? ==> Renamed(old(table), table, id, name, description, body)
      ensures !o.Fine? ==> table == old(table)
      ensures o == First(old(outcomes)) || (First(old(outcomes)).Fine? && o.Permanent?)
    {
      o := Next();
      if o.Fine? {
        if n :| n in table && table[n].id == id && (n == name || name !in table) {
          table := (table - {n})[name := Entity(id, description, body)];
        } else {
          o := Permanent;
        }
      }
    }

    method Delete(name: string) returns (o: Outcome)
      modifies this
      ensures table == if o.Fine? then old(table) - {name} else old(table)
      ensures AllFine(old(outcomes)) ==> o.Fine? && AllFine(outcomes)
    {
      o := Next();
      if o.Fine? {
        table := table - {name};
      }
    }

    // -------------------------------------------------------------- applying a spec

    /** Writes one declared entity: by the ID in its spec, or by its name with the owners it already
        has and the namespace. */
    method ProcessEntity(spec: Spec, namespace: string, kind: Kind) returns (o: Outcome)
      requires WellFormed(namespace)
      modifies this
      ensures o.Fine? ==> Stored(old(table), table, spec, namespace, kind)
      ensures !o.Fine? ==> table == old(table)
      ensures spec.id.None? && o.Fine? ==> Written(old(table), table, spec, namespace)
      ensures spec.id.None? ==> forall k | k != spec.name :: Untouched(old(table), table, k)
      ensures spec.id.None? && AllFine(old(outcomes)) ==> o.Fine? && AllFine(outcomes)
      ensures o.Transient? <==> Interrupts(old(outcomes), ReadsFirst(kind, spec))
    {
      hide WithOwnerAdded, WellFormed, Written, AllFine, Renamed;
      var existing := "";
      if ReadsFirst(kind, spec) {
        var found;
        o, found := Read(spec.name);
        if !o.Fine? {
          return;
        }
        existing := if found.Some? then found.value.description else "";
      }
      var description := WithOwnerAdded(spec.description, existing, namespace);
      if spec.id.Some? {
        o := UpdateById(spec.id.value, spec.name, description, spec.body);
      } else {
        WriteMeans(table, spec, namespace, if spec.name in table then table[spec.name].id else nextId);
        o := Write(spec.name, description, spec.body);
      }
    }

    /** Writes all the declared entities. Errors are recorded by name and do not stop the loop;
        an entity whose write failed is as it was, or as an earlier spec of its name left it. */
    method ProcessEntities(specs: seq<Spec>, namespace: string, kind: Kind)
      returns (failed: set<string>, retry: bool, ghost tables: seq<Table>, ghost fine: seq<bool>, ghost how: seq<Outcome>)
      requires WellFormed(namespace)
      modifies this
      ensures Processed(specs, namespace, kind, tables, fine) && |fine| == |specs| && |tables| == |specs| + 1
      ensures tables[0] == old(table) && tables[|specs|] == table && failed == FailedNames(specs, fine)
      ensures NoIds(specs) ==> Progress(old(table), table, specs, failed, namespace)
      ensures NoIds(specs) && failed == {} ==> AllWritten(old(table), table, specs, namespace)
      ensures |how| == |specs| && (forall i | 0 <= i < |specs| :: fine[i] == how[i].Fine?) && (retry <==> Transient in how)
      ensures retry ==> failed != {}
      ensures NoIds(specs) && AllFine(old(outcomes)) ==> failed == {} && AllFine(outcomes)
    {
      hide Stored, Written, AllFine, WellFormed, Processed, FailedNames, Progress, AllWritten, Names;
      failed, retry, tables, fine, how := {}, false, [table], [], [];
      StartProcess(table, specs, namespace, kind);
      for i := 0 to |specs|
        invariant |fine| == i && |tables| == i + 1 && tables[0] == old(table) && tables[i] == table
        invariant Processed(specs, namespace, kind, tables, fine)
        invariant failed == FailedNames(specs, fine)
        invariant NoIds(specs) ==> Progress(old(table), table, specs[..i], failed, namespace)
        invariant NoIds(specs) && failed == {} ==> AllWritten(old(table), table, specs[..i], namespace)
        invariant |how| == i && (forall j | 0 <= j < i :: fine[j] == how[j].Fine?) && (retry <==> Transient in how)
        invariant retry ==> failed != {}
        invariant NoIds(specs) && AllFine(old(outcomes)) ==> failed == {} && AllFine(outcomes)
      {
        var spec := specs[i];
        ghost var mid := table;
        var o := Fine;
        if spec.name != "" {
          o := ProcessEntity(spec, namespace, kind);
          retry := retry || o.Transient?;
        }
        StepProcess(old(table), mid, table, specs, i, failed, o.Fine?, namespace);
        ProcessedMore(specs, namespace, kind, tables, fine, table, o.Fine?);
        if !o.Fine? {
          failed := failed + {spec.name};
        }
        tables, fine, how := tables + [table], fine + [o.Fine?], how + [o];
      }
      assert specs[..|specs|] == specs;
    }

    // -------------------------------------------------------------- releasing

    /** Takes the namespace from the owners of an entity that exists, and deletes the entity if
        no other owner remains. */
    method ReleaseEntity(name: string, entity: Entity, namespace: string) returns (o: Outcome)
      requires name in table && table[name] == entity
      modifies this
      ensures o.Fine? ==> Left(old(table), table, name, namespace)
      ensures !o.Fine? ==> table == old(table)
      ensures forall k | k != name :: Untouched(old(table), table, k)
      ensures AllFine(old(outcomes)) ==> o.Fine? && AllFine(outcomes)
    {
      hide WithOwnerRemoved, Left, AllFine;
      var r := WithOwnerRemoved(entity.description, namespace);
      ReleaseMeans(table, name, namespace);
      if !r.last {
        o := Write(name, r.description, entity.body);
      } else {
        o := Delete(name);
      }
    }

    /** Releases the declared entities that no sibling declares, until an error. */
    method DeleteEntities(specs: seq<Spec>, namespace: string, siblings: Declared) returns (ok: bool)
      modifies this
      ensures ok ==> AllLeft(old(table), table, specs, namespace, siblings)
      ensures LeftSome(old(table), table, Names(specs), namespace, siblings)
      ensures AllFine(old(outcomes)) ==> ok
    {
      ok := true;
      for i := 0 to |specs|
        invariant AllLeft(old(table), table, specs[..i], namespace, siblings)
        invariant AllFine(old(outcomes)) ==> AllFine(outcomes)
      {
        NamesMore(specs, i);
        var name := specs[i].name;
        if name != "" && !siblings.Has(name) {
          var o, found := Read(name);
          if o.Fine? && found.Some? {
            ghost var mid := table;
            o := ReleaseEntity(name, found.value, namespace);
            if o.Fine? {
              LeftMore(old(table), mid, table, specs, i, namespace, siblings);
            }
          }
          if !o.Fine? {
            LeftSoFar(old(table), table, specs, i, namespace, siblings);
            ok := false;
            return;
          }
        }
      }
      assert specs[..|specs|] == specs;
      LeftSoFar(old(table), table, specs, |specs|, namespace, siblings);
    }

    /** The names of all entities, in no particular order. */
    method List() returns (o: Outcome, names: seq<string>)
      modifies this`outcomes
      ensures forall i, j | 0 <= i < j < |names| :: names[i] != names[j]
      ensures forall k :: k in names <==> k in table
      ensures AllFine(old(outcomes)) ==> o.Fine? && AllFine(outcomes)
    {
      o := Next();
      names := [];
      var rest := table.Keys;
      while rest != {}
        invariant rest <= table.Keys
        invariant forall i, j | 0 <= i < j < |names| :: names[i] != names[j]
        invariant forall k :: k in names <==> k in table && k !in rest
        decreases |rest|
      {
        var k :| k in rest;
        names := names + [k];
        rest := rest - {k};
      }
    }

    /** Stale clean-up: releases every entity the namespace owns but that neither the
        resource nor a sibling declares, whatever the order of the list. */
    method RemoveStaleExplicit(specs: seq<Spec>, namespace: string, siblings: Declared, reread: bool) returns (ok: bool)
      modifies this
      ensures ok ==> AllCleaned(old(table), table, specs, namespace, siblings)
      ensures forall k :: Untouched(old(table), table, k)
                          || (Stale(old(table), k, specs, namespace, siblings) && Left(old(table), table, k, namespace))
      ensures AllFine(old(outcomes)) ==> ok
    {
      var o, names := List();
      ok := o.Fine?;
      if !ok {
        return;
      }
      for i := 0 to |names|
        invariant CleanedSoFar(old(table), table, names[..i], specs, namespace, siblings)
        invariant o.Fine?
        invariant AllFine(old(outcomes)) ==> AllFine(outcomes)
      {
        var name := names[i];
        assert name !in names[..i] && names[..i + 1] == names[..i] + [name];
        assert Untouched(old(table), table, name);
        if Stale(table, name, specs, namespace, siblings) {
          var found := Some(table[name]);
          if reread {
            o, found := Read(name);
          }
          if o.Fine? && found.Some? {
            ghost var mid := table;
            o := ReleaseEntity(name, found.value, namespace);
            if o.Fine? {
              CleanedMore(old(table), mid, table, names[..i], name, specs, namespace, siblings);
            }
          }
          if !o.Fine? {
            ok := false;
            return;
          }
        }
      }
      assert names[..|names|] == names;
    }
  }

  /** The tables after each entry of a spec; `fine[i]` tells whether entry `i` was written. */
  ghost predicate Processed(specs: seq<Spec>, namespace: string, kind: Kind, tables: seq<Table>, fine: seq<bool>) {
    && |tables| == |fine| + 1 && |fine| <= |specs|
    && forall i | 0 <= i < |fine| :: EntryStep(specs[i], namespace, kind, tables[i], tables[i + 1], fine[i])
  }

  ghost predicate EntryStep(spec: Spec, namespace: string, kind: Kind, before: Table, after: Table, fine: bool) {
    if spec.name != "" && fine then Stored(before, after, spec, namespace, kind)
    else after == before && (spec.name == "" ==> fine)
  }

  ghost function FailedNames(specs: seq<Spec>, fine: seq<bool>): set<string> {
    set i | 0 <= i < |fine| && i < |specs| && !fine[i] :: specs[i].name
  }

  lemma StartProcess(t: Table, specs: seq<Spec>, namespace: string, kind: Kind)
    ensures Processed(specs, namespace, kind, [t], []) && FailedNames(specs, []) == {}
    ensures Progress(t, t, specs[..0], {}, namespace) && AllWritten(t, t, specs[..0], namespace)
  {
    assert specs[..0] == [] && Names([]) == {};
    hide Written, Joined, Stored;
  }

  lemma ProcessedMore(specs: seq<Spec>, namespace: string, kind: Kind, tables: seq<Table>, fine: seq<bool>, t: Table, ok: bool)
    requires Processed(specs, namespace, kind, tables, fine) && |fine| < |specs|
    requires if specs[|fine|].name != "" && ok then Stored(tables[|fine|], t, specs[|fine|], namespace, kind)
             else t == tables[|fine|] && (specs[|fine|].name == "" ==> ok)
    ensures Processed(specs, namespace, kind, tables + [t], fine + [ok])
    ensures FailedNames(specs, fine + [ok]) == FailedNames(specs, fine) + (if ok then {} else {specs[|fine|].name})
  {
    hide Stored;
    assert EntryStep(specs[|fine|], namespace, kind, tables[|fine|], t, ok);
    hide EntryStep;
    var f, g, ts := fine, fine + [ok], tables + [t];
    forall i | 0 <= i < |g| ensures EntryStep(specs[i], namespace, kind, ts[i], ts[i + 1], g[i]) {
      if i < |f| {
        assert ts[i] == tables[i] && ts[i + 1] == tables[i + 1] && g[i] == f[i];
      }
    }
    assert FailedNames(specs, g) == FailedNames(specs, f) + (if ok then {} else {specs[|f|].name}) by {
      forall i | 0 <= i < |f| ensures g[i] == f[i] {}
      assert g[|f|] == ok;
    }
  }

  /** One more entry, for specs without IDs. */
  lemma StepProcess(before: Table, mid: Table, after: Table, specs: seq<Spec>, i: nat, failed: set<string>, ok: bool, namespace: string)
    requires i < |specs|
    requires NoIds(specs) && specs[i].name != "" && ok ==> Written(mid, after, specs[i], namespace)
    requires specs[i].name == "" || !ok ==> mid == after
    requires specs[i].name == "" ==> ok
    requires NoIds(specs) && specs[i].name != "" ==> forall k | k != specs[i].name :: Untouched(mid, after, k)
    ensures NoIds(specs) && Progress(before, mid, specs[..i], failed, namespace) ==>
              Progress(before, after, specs[..i + 1], if ok then failed else failed + {specs[i].name}, namespace)
    ensures NoIds(specs) && ok && AllWritten(before, mid, specs[..i], namespace) ==> AllWritten(before, after, specs[..i + 1], namespace)
  {
    hide Written, Progress, AllWritten, NoIds;
    if NoIds(specs) {
      if specs[i].name == "" {
        EmptyNameChangesNothing(before, after, specs, i, failed, namespace);
      } else {
        if Progress(before, mid, specs[..i], failed, namespace) {
          ProgressMore(before, mid, after, specs, i, failed, ok, namespace);
        }
        if ok && AllWritten(before, mid, specs[..i], namespace) {
          WrittenMore(before, mid, after, specs, i, namespace);
        }
      }
    }
  }

  // ---------------------------------------------------------------- IDs in a spec

  ghost predicate DistinctIds(t: Table) {
    forall a, b | a in t && b in t && t[a].id == t[b].id :: a == b
  }

  ghost predicate OwnersKept(before: Table, after: Table) {
    forall k, o | Owned(before, k, o) :: Owned(after, k, o)
  }

  /** An ID is harmless if it is that of the entity the spec names, which for a policy, not being
      read, must have no owner but the writer, or that of an entity without owners. */
  ghost predicate Harmless(t: Table, spec: Spec, namespace: string, kind: Kind) {
    spec.id.Some? ==>
      forall n, o | n in t && t[n].id == spec.id.value && HasOwner(t[n].description, o) ::
        n == spec.name && (kind.Policy? ==> o == namespace)
  }

  /** Writing a spec keeps every owner of every entity if and only if its ID is harmless. */
  lemma StoredKeepsOwnersIff(before: Table, after: Table, spec: Spec, namespace: string, kind: Kind)
    requires WellFormed(namespace) && DistinctIds(before) && Stored(before, after, spec, namespace, kind)
    ensures OwnersKept(before, after) <==> Harmless(before, spec, namespace, kind)
  {
    hide WithOwnerAdded, HasOwner, WellFormed, ParseOwners;
    var existing := if ReadsFirst(kind, spec) then DescriptionOf(before, spec.name) else "";
    NobodyOwnsNothing();
    forall o ensures HasOwner(after[spec.name].description, o) <==> HasOwner(existing, o) || o == namespace {
      OwnersAfter(spec.description, existing, namespace, o);
    }
    if spec.id.Some? {
      var n :| n in before && before[n].id == spec.id.value && (n == spec.name || spec.name !in before)
               && after == (before - {n})[spec.name := Entity(spec.id.value, Described(before, spec, namespace, kind), spec.body)];
      forall k, o | Owned(before, k, o) && k != n ensures Owned(after, k, o) {
        assert k != spec.name;
      }
      if OwnersKept(before, after) {
        forall o | HasOwner(before[n].description, o) ensures n == spec.name && (kind.Policy? ==> o == namespace) {
          assert Owned(before, n, o) && Owned(after, n, o);
        }
      }
    }
  }

  lemma NobodyOwnsNothing()
    ensures forall o :: !HasOwner("", o)
  {
    NoOwners();
  }

  /** The ID of somebody else's role takes the role away: it gets the name and the owner of the spec. */
  lemma ForeignIdTakesRole()
    ensures var before: Table := map["a" := Entity(0, Listing("x"), "")];
            var after: Table := map["b" := Entity(0, Listing("y"), "")];
            Stored(before, after, Spec("b", "", "", Some(0)), "y", Role) && Owned(before, "a", "x") && "a" !in after
  {
    var before: Table := map["a" := Entity(0, Listing("x"), "")];
    var after: Table := map["b" := Entity(0, Listing("y"), "")];
    hide WithOwnerAdded, HasOwner, Listing, WellFormed;
    FirstOwner("x");
    FirstOwner("y");
    assert Described(before, Spec("b", "", "", Some(0)), "y", Role) == Listing("y");
    assert (before - {"a"})["b" := Entity(0, Listing("y"), "")] == after;
    assert before["a"].id == 0;
  }

  /** What an apply writes is what being written means. */
  lemma WriteMeans(t: Table, spec: Spec, namespace: string, id: nat)
    requires WellFormed(namespace) && (spec.name in t ==> id == t[spec.name].id)
    ensures var description := WithOwnerAdded(spec.description, DescriptionOf(t, spec.name), namespace);
            Written(t, t[spec.name := Entity(id, description, spec.body)], spec, namespace)
  {
    hide WithOwnerAdded, ParseOwners, WellFormed, HasOwner;
    var existing := DescriptionOf(t, spec.name);
    AddThenParse(spec.description, existing, namespace);
    forall x
      ensures HasOwner(WithOwnerAdded(spec.description, existing, namespace), x) <==> HasOwner(existing, x) || x == namespace
    {
      OwnersAfter(spec.description, existing, namespace, x);
    }
  }

  /** What a release writes or deletes is what leaving means. */
  lemma ReleaseMeans(t: Table, name: string, namespace: string)
    requires name in t
    ensures var r := WithOwnerRemoved(t[name].description, namespace);
            Left(t, if r.last then t - {name} else t[name := t[name].(description := r.description)], name, namespace)
  {
    hide WithOwnerRemoved, ParseOwners, WellFormed;
    var description := t[name].description;
    var r := WithOwnerRemoved(description, namespace);
    RemoveThenParse(description, namespace);
    var owners := ParseOwners(description).owners;
    assert r.last <==> forall o | HasOwner(description, o) :: o == namespace by {
      assert forall o :: HasOwner(description, o) <==> o in owners;
    }
    if !r.last {
      forall x ensures HasOwner(r.description, x) <==> HasOwner(description, x) && x != namespace {
        OwnersAfter("", description, namespace, x);
      }
    }
  }

  /** Every entity is untouched or, being in `names` and of no sibling, has been left. */
  ghost predicate LeftSome(before: Table, after: Table, names: set<string>, namespace: string, siblings: Declared) {
    forall k :: Untouched(before, after, k) || (k in names && !siblings.Has(k) && Left(before, after, k, namespace))
  }

  lemma LeftSoFar(before: Table, after: Table, specs: seq<Spec>, i: nat, namespace: string, siblings: Declared)
    requires i <= |specs| && AllLeft(before, after, specs[..i], namespace, siblings)
    ensures LeftSome(before, after, Names(specs), namespace, siblings)
  {}

  lemma LeftMore(before: Table, mid: Table, after: Table, specs: seq<Spec>, i: nat, namespace: string, siblings: Declared)
    requires i < |specs| && specs[i].name != "" && !siblings.Has(specs[i].name) && specs[i].name in mid
    requires AllLeft(before, mid, specs[..i], namespace, siblings)
    requires Left(mid, after, specs[i].name, namespace)
    requires forall k | k != specs[i].name :: Untouched(mid, after, k)
    ensures AllLeft(before, after, specs[..i + 1], namespace, siblings)
  {
    NamesMore(specs, i);
    var name := specs[i].name;
    forall k | k in Names(specs[..i + 1]) && !siblings.Has(k) ensures Left(before, after, k, namespace) {
      if k == name {
        if k in Names(specs[..i]) {
          LeaveTwice(before, mid, after, k, namespace);
        } else {
          assert Untouched(before, mid, k);
        }
      } else {
        assert Left(before, mid, k, namespace) && Untouched(mid, after, k);
      }
    }
    forall k | k !in Names(specs[..i + 1]) || siblings.Has(k) ensures Untouched(before, after, k) {
      assert k != name;
      assert Untouched(before, mid, k) && Untouched(mid, after, k);
    }
  }

  /** Leaving twice is leaving once. */
  lemma LeaveTwice(before: Table, mid: Table, after: Table, name: string, namespace: string)
    requires name in mid && Left(before, mid, name, namespace) && Left(mid, after, name, namespace)
    ensures Left(before, after, name, namespace)
  {
    hide TextOf, HasOwner;
    var x :| HasOwner(before[name].description, x) && x != namespace;
    assert HasOwner(mid[name].description, x);
  }

  ghost predicate CleanedSoFar(before: Table, after: Table, done: seq<string>, specs: seq<Spec>, namespace: string, siblings: Declared) {
    forall k :: if k in done && Stale(before, k, specs, namespace, siblings) then Left(before, after, k, namespace)
                else Untouched(before, after, k)
  }

  lemma CleanedMore(before: Table, mid: Table, after: Table, done: seq<string>, name: string, specs: seq<Spec>, namespace: string, siblings: Declared)
    requires CleanedSoFar(before, mid, done, specs, namespace, siblings)
    requires name !in done && Stale(before, name, specs, namespace, siblings)
    requires Left(mid, after, name, namespace)
    requires forall k | k != name :: Untouched(mid, after, k)
    ensures CleanedSoFar(before, after, done + [name], specs, namespace, siblings)
  {
    forall k
      ensures if k in done + [name] && Stale(before, k, specs, namespace, siblings) then Left(before, after, k, namespace)
              else Untouched(before, after, k)
    {
      if k == name {
        assert Untouched(before, mid, k);
      } else {
        assert Untouched(mid, after, k);
      }
    }
  }

  /** Every declared name has been joined, or is among the failed and as it was before or as
      an earlier spec of its name left it; everything else is untouched. */
  ghost predicate Progress(before: Table, after: Table, specs: seq<Spec>, failed: set<string>, namespace: string) {
    && failed <= Names(specs)
    && forall k ::
         if k !in Names(specs) then Untouched(before, after, k)
         else Joined(before, after, k, namespace) || (k in failed && Untouched(before, after, k))
  }

  lemma ProgressMore(before: Table, mid: Table, after: Table, specs: seq<Spec>, i: nat, failed: set<string>, ok: bool, namespace: string)
    requires i < |specs| && specs[i].name != ""
    requires Progress(before, mid, specs[..i], failed, namespace)
    requires if ok then Written(mid, after, specs[i], namespace) else mid == after
    requires forall k | k != specs[i].name :: Untouched(mid, after, k)
    ensures Progress(before, after, specs[..i + 1], if ok then failed else failed + {specs[i].name}, namespace)
  {
    NamesMore(specs, i);
    var failed' := if ok then failed else failed + {specs[i].name};
    forall k
      ensures if k !in Names(specs[..i + 1]) then Untouched(before, after, k)
              else Joined(before, after, k, namespace) || (k in failed' && Untouched(before, after, k))
    {
      if k == specs[i].name && ok {
        JoinTwice(before, mid, after, k, namespace);
      } else {
        assert Untouched(mid, after, k);
      }
    }
  }

  lemma EmptyNameChangesNothing(before: Table, after: Table, specs: seq<Spec>, i: nat, failed: set<string>, namespace: string)
    requires i < |specs| && specs[i].name == ""
    ensures Progress(before, after, specs[..i], failed, namespace) ==> Progress(before, after, specs[..i + 1], failed, namespace)
    ensures AllWritten(before, after, specs[..i], namespace) ==> AllWritten(before, after, specs[..i + 1], namespace)
  {
    NamesMore(specs, i);
  }

  ghost predicate AllFine(outcomes: seq<Outcome>) {
    forall o | o in outcomes :: o.Fine?
  }

  lemma NamesMore(specs: seq<Spec>, i: nat)
    requires i < |specs|
    ensures Names(specs[..i + 1]) == Names(specs[..i]) + (if specs[i].name == "" then {} else {specs[i].name})
    ensures forall k | k in Names(specs[..i + 1]) ::
              LastSpec(specs[..i + 1], k) == if k == specs[i].name then specs[i] else LastSpec(specs[..i], k)
  {
    var init := specs[..i + 1];
    assert init[..i] == specs[..i] && init[i] == specs[i];
    forall j | 0 <= j < i ensures init[j] == specs[..i][j] {}
    assert Names(init) == Names(specs[..i]) + (if specs[i].name == "" then {} else {specs[i].name});
    forall k | k in Names(init)
      ensures LastSpec(init, k) == if k == specs[i].name then specs[i] else LastSpec(specs[..i], k)
    {
      assert |init| - 1 == i;
    }
  }

  /** Joining twice is joining once. */
  lemma JoinTwice(before: Table, mid: Table, after: Table, name: string, namespace: string)
    requires Joined(before, mid, name, namespace) || Untouched(before, mid, name)
    requires Joined(mid, after, name, namespace)
    ensures Joined(before, after, name, namespace)
  {}

  lemma WrittenMore(before: Table, mid: Table, after: Table, specs: seq<Spec>, i: nat, namespace: string)
    requires i < |specs| && specs[i].name != ""
    requires AllWritten(before, mid, specs[..i], namespace)
    requires Written(mid, after, specs[i], namespace)
    requires forall k | k != specs[i].name :: Untouched(mid, after, k)
    ensures AllWritten(before, after, specs[..i + 1], namespace)
  {
    NamesMore(specs, i);
    var init := specs[..i + 1];
    forall k | k in Names(init) ensures Written(before, after, LastSpec(init, k), namespace) {
      LastSpecName(init, k);
      if k == specs[i].name {
        if k in Names(specs[..i]) {
          LastSpecName(specs[..i], k);
        }
        JoinTwice(before, mid, after, k, namespace);
      } else {
        LastSpecName(specs[..i], k);
        assert Written(before, mid, LastSpec(specs[..i], k), namespace);
        assert Untouched(mid, after, k);
      }
    }
    forall k | k !in Names(init) ensures Untouched(before, after, k) {
      assert Untouched(before, mid, k) && Untouched(mid, after, k);
    }
  }

  lemma {:induction false} LastSpecName(specs: seq<Spec>, name: string)
    requires name in Names(specs)
    ensures LastSpec(specs, name).name == name
  {
    var n := |specs| - 1;
    if specs[n].name != name {
      assert name in Names(specs[..n]) by {
        var i :| 0 <= i < |specs| && specs[i].name != "" && specs[i].name == name;
        assert specs[..n][i].name == name;
      }
      LastSpecName(specs[..n], name);
    }
  }
}
