/** ConsulACL resources with generated names: every entity is called
    {crName}_{crNamespace}_{entity}, and that prefix tells whose it is. */
module AclPrefix {
  import opened AclEntities

  function Prefix(name: string, namespace: string): string {
    name + "_" + namespace + "_"
  }

  function ConvertEntityName(entity: string, name: string, namespace: string): string {
    Prefix(name, namespace) + entity
  }

  /** Up to its first underscore a text is determined by any text it is a prefix of. */
  lemma FirstFieldUnique(a: string, x: string, b: string, y: string)
    requires '_' !in a && '_' !in b && a + "_" + x <= b + "_" + y
    ensures a == b && x <= y
  {
    var s, t := a + "_" + x, b + "_" + y;
    assert s[|a|] == '_' && t[|b|] == '_' && t[|a|] == s[|a|];
    assert forall i | 0 <= i < |b| :: t[i] == b[i] && b[i] in b;
    assert forall i | 0 <= i < |a| :: s[i] == a[i] && a[i] in a;
    assert |a| == |b|;
    forall i | 0 <= i < |a| ensures a[i] == b[i] {
      assert s[i] == t[i];
    }
    forall i | 0 <= i < |x| ensures i < |y| && x[i] == y[i] {
      assert s[|a| + 1 + i] == t[|a| + 1 + i];
    }
    assert a == b;
  }

  /** A generated name carries the prefix of a resource exactly if it was generated for that
      resource; Kubernetes names have no underscore (section 2.1 of RFC 1123). */
  lemma PrefixUnambiguous(entity: string, name: string, namespace: string, otherName: string, otherNamespace: string)
    requires '_' !in name && '_' !in namespace && '_' !in otherName && '_' !in otherNamespace
    ensures Prefix(otherName, otherNamespace) <= ConvertEntityName(entity, name, namespace)
            <==> name == otherName && namespace == otherNamespace
  {
    var whole := ConvertEntityName(entity, name, namespace);
    assert whole == name + "_" + (namespace + "_" + entity);
    assert Prefix(otherName, otherNamespace) == otherName + "_" + (otherNamespace + "_");
    if Prefix(otherName, otherNamespace) <= whole {
      FirstFieldUnique(otherName, otherNamespace + "_", name, namespace + "_" + entity);
      assert otherNamespace + "_" == otherNamespace + "_" + "";
      FirstFieldUnique(otherNamespace, "", namespace, entity);
    }
  }

  /** Distinct entities of a resource get distinct names. */
  lemma ConvertInjective(entity: string, other: string, name: string, namespace: string)
    requires ConvertEntityName(entity, name, namespace) == ConvertEntityName(other, name, namespace)
    ensures entity == other
  {
    var p := Prefix(name, namespace);
    assert (p + entity)[|p|..] == entity && (p + other)[|p|..] == other;
  }

  /** The generated names of a spec; an entry without a name is counted too. */
  function Generated(specs: seq<Spec>, name: string, namespace: string): set<string> {
    set i | 0 <= i < |specs| :: ConvertEntityName(specs[i].name, name, namespace)
  }

  predicate Obsolete(k: string, specs: seq<Spec>, name: string, namespace: string) {
    Prefix(name, namespace) <= k && k !in Generated(specs, name, namespace)
  }

  /** Deletes the entities with the prefix of the resource that its spec does not declare. */
  method RemoveStalePrefixed(api: Api, specs: seq<Spec>, name: string, namespace: string) returns (ok: bool)
    modifies api
    ensures ok ==> api.table == map k | k in old(api.table) && !Obsolete(k, specs, name, namespace) :: old(api.table)[k]
    ensures forall k :: Untouched(old(api.table), api.table, k) || (Obsolete(k, specs, name, namespace) && k !in api.table)
    ensures AllFine(old(api.outcomes)) ==> ok
  {
    var prefix := Prefix(name, namespace);
    var declared: set<string> := set i | 0 <= i < |specs| :: ConvertEntityName(specs[i].name, name, namespace);
    assert declared == Generated(specs, name, namespace);
    hide ConvertEntityName, Prefix, Generated, AllFine;
    var o, names := api.List();
    ok := o.Fine?;
    if !ok {
      return;
    }
    for i := 0 to |names|
      invariant forall k :: k in api.table <==> k in old(api.table) && !(k in names[..i] && Obsolete(k, specs, name, namespace))
      invariant forall k | k in api.table :: api.table[k] == old(api.table)[k]
      invariant AllFine(old(api.outcomes)) ==> AllFine(api.outcomes)
    {
      assert names[..i + 1] == names[..i] + [names[i]];
      if prefix <= names[i] && names[i] !in declared {
        o := api.Delete(names[i]);
        if !o.Fine? {
          ok := false;
          return;
        }
      }
    }
    assert names[..|names|] == names;
  }

  /** After the clean-up only declared names are left under the prefix, and no entity generated
      for another resource has been touched. */
  lemma StalePrefixedFrame(before: Table, after: Table, specs: seq<Spec>, name: string, namespace: string,
                           entity: string, otherName: string, otherNamespace: string)
    requires after == map k | k in before && !Obsolete(k, specs, name, namespace) :: before[k]
    requires '_' !in name && '_' !in namespace && '_' !in otherName && '_' !in otherNamespace
    ensures forall k | k in after && name + "_" + namespace + "_" <= k ::
              exists spec | spec in specs :: k == name + "_" + namespace + "_" + spec.name
    ensures forall spec | spec in specs :: Untouched(before, after, name + "_" + namespace + "_" + spec.name)
    ensures otherName != name || otherNamespace != namespace ==>
              Untouched(before, after, otherName + "_" + otherNamespace + "_" + entity)
  {
    PrefixUnambiguous(entity, otherName, otherNamespace, name, namespace);
    forall k ensures k in Generated(specs, name, namespace) <==> exists spec | spec in specs :: k == name + "_" + namespace + "_" + spec.name {
      GeneratedAre(specs, name, namespace, k);
    }
    hide Generated;
  }

  lemma GeneratedAre(specs: seq<Spec>, name: string, namespace: string, k: string)
    ensures k in Generated(specs, name, namespace) <==> exists spec | spec in specs :: k == name + "_" + namespace + "_" + spec.name
  {
    if i :| 0 <= i < |specs| && k == ConvertEntityName(specs[i].name, name, namespace) {
      assert specs[i] in specs;
    }
  }
}
