/** Removing the binding rules that earlier versions of the operator left under legacy global auth
    methods, and the binding rules a spec no longer declares. */
module AclMigration {
  import opened Owners
  import opened AclEntities
  import opened AclPrefix
  import opened AclRules

  // ---------------------------------------------------------------- deleting rules

  /** What is left after deleting, under the methods `done`, the rules that `kill` selects. */
  ghost predicate Purged(before: Rules, after: Rules, done: set<string>, kill: Rule -> bool) {
    && (forall id :: id in after <==> id in before && !(before[id].method_ in done && kill(before[id])))
    && (forall id | id in after :: after[id] == before[id])
  }

  /** Some, but perhaps not all, of those rules are gone. */
  ghost predicate PurgedSome(before: Rules, after: Rules, done: set<string>, kill: Rule -> bool) {
    && (forall id | id in before && !(before[id].method_ in done && kill(before[id])) :: id in after)
    && (forall id | id in after :: id in before && after[id] == before[id])
  }

  lemma PurgedMore(before: Rules, mid: Rules, after: Rules, done: set<string>, m: string, kill: Rule -> bool)
    requires Purged(before, mid, done, kill)
    ensures Purged(mid, after, {m}, kill) ==> Purged(before, after, done + {m}, kill)
    ensures PurgedSome(mid, after, {m}, kill) ==> PurgedSome(before, after, done + {m}, kill)
  {}

  lemma NothingPurged(rules: Rules, done: set<string>, kill: Rule -> bool)
    ensures Purged(rules, rules, {}, kill) && PurgedSome(rules, rules, done, kill)
  {}

  lemma PurgedIsSome(before: Rules, after: Rules, done: set<string>, kill: Rule -> bool)
    requires Purged(before, after, done, kill)
    ensures PurgedSome(before, after, done, kill)
  {}

  lemma PurgedSomeWider(before: Rules, after: Rules, done: set<string>, all: set<string>, kill: Rule -> bool)
    requires PurgedSome(before, after, done, kill) && done <= all
    ensures PurgedSome(before, after, all, kill)
  {}

  /** Deletes the selected rules of one method. */
  method DeleteRules(api: RuleApi, m: string, kill: Rule -> bool) returns (ok: bool)
    requires api.Valid()
    modifies api`rules, api`readings, api`deletions
    ensures api.Valid()
    ensures ok ==> Purged(old(api.rules), api.rules, {m}, kill)
    ensures PurgedSome(old(api.rules), api.rules, {m}, kill)
    ensures AllFine(old(api.readings)) && AllFine(old(api.deletions)) ==> ok && AllFine(api.readings) && AllFine(api.deletions)
  {
    hide AllFine;
    FineStep(api.readings);
    var o, ids := api.List(m);
    ok := o.Fine?;
    if !ok {
      return;
    }
    for i := 0 to |ids|
      invariant api.Valid() && api.readings == Rest(old(api.readings)) && (AllFine(old(api.deletions)) ==> AllFine(api.deletions))
      invariant forall id :: id in api.rules <==> id in old(api.rules) && !(id in ids[..i] && kill(old(api.rules)[id]))
      invariant forall id | id in api.rules :: api.rules[id] == old(api.rules)[id]
    {
      assert ids[i] in ids && ids[i] !in ids[..i] && ids[..i + 1] == ids[..i] + [ids[i]];
      if kill(api.rules[ids[i]]) {
        FineStep(api.deletions);
        o := api.Delete(ids[i]);
        if !o.Fine? {
          ok := false;
          return;
        }
      }
    }
    assert ids[..|ids|] == ids;
  }

  // ---------------------------------------------------------------- legacy rules

  /** The spec declares the rule with that method as its own. */
  predicate DeclaredUnder(specs: seq<RuleSpec>, c: Context, m: string, bindName: string) {
    exists i | 0 <= i < |specs| ::
      && specs[i].method_ == m && Named(specs[i])
      && (bindName == GeneratedName(c, specs[i].bindName) || bindName == specs[i].bindName)
  }

  predicate Legacy(r: Rule, specs: seq<RuleSpec>, c: Context, keepDeclared: bool, failed: set<string>) {
    && r.bindType == BIND_TYPE_ROLE && Prefix(c.name, c.namespace) <= r.bindName
    && !(keepDeclared && DeclaredUnder(specs, c, r.method_, r.bindName)) && r.bindName !in failed
  }

  /** The legacy methods that are searched: those that exist and are not the current one. */
  function Searched(legacy: seq<string>, globalMethod: string, methods: set<string>): set<string> {
    set m | m in legacy && m != globalMethod && m in methods
  }

  lemma SearchedMore(legacy: seq<string>, globalMethod: string, methods: set<string>, i: nat)
    requires i < |legacy|
    ensures Searched(legacy[..i + 1], globalMethod, methods)
            == Searched(legacy[..i], globalMethod, methods)
               + (if legacy[i] != globalMethod && legacy[i] in methods then {legacy[i]} else {})
    ensures Searched(legacy[..i + 1], globalMethod, methods) <= Searched(legacy, globalMethod, methods)
  {
    assert legacy[..i + 1] == legacy[..i] + [legacy[i]];
  }

  /** Removes the rules of the resource left under legacy global methods. */
  method RemoveLegacyBindingRules(api: RuleApi, specs: seq<RuleSpec>, legacy: seq<string>, c: Context, keepDeclared: bool, failed: set<string>)
    returns (ok: bool)
    requires api.Valid()
    modifies api`rules, api`readings, api`deletions
    ensures api.Valid()
    ensures var kill := (r: Rule) => Legacy(r, specs, c, keepDeclared, failed);
            && (ok ==> Purged(old(api.rules), api.rules, Searched(legacy, c.globalMethod, api.methods), kill))
            && PurgedSome(old(api.rules), api.rules, Searched(legacy, c.globalMethod, api.methods), kill)
    ensures AllFine(old(api.readings)) && AllFine(old(api.deletions)) ==> ok
  {
    hide Legacy, Searched, Purged, PurgedSome, AllFine;
    var kill := (r: Rule) => Legacy(r, specs, c, keepDeclared, failed);
    ghost var all := Searched(legacy, c.globalMethod, api.methods);
    ok := true;
    NoneSearched(legacy, c.globalMethod, api.methods);
    NothingPurged(api.rules, all, kill);
    for i := 0 to |legacy|
      invariant api.Valid() && ok
      invariant Purged(old(api.rules), api.rules, Searched(legacy[..i], c.globalMethod, api.methods), kill)
      invariant AllFine(old(api.readings)) && AllFine(old(api.deletions)) ==> AllFine(api.readings) && AllFine(api.deletions)
    {
      var m := legacy[i];
      ghost var done := Searched(legacy[..i], c.globalMethod, api.methods);
      SearchedMore(legacy, c.globalMethod, api.methods, i);
      PurgedIsSome(old(api.rules), api.rules, done, kill);
      PurgedSomeWider(old(api.rules), api.rules, done, all, kill);
      if m == c.globalMethod {
        assert done + {} == done;
        continue;
      }
      FineStep(api.readings);
      var o := api.Look();
      if !o.Fine? {
        ok := false;
        return;
      }
      if m in api.methods {
        ghost var mid := api.rules;
        ok := DeleteRules(api, m, kill);
        PurgedMore(old(api.rules), mid, api.rules, done, m, kill);
        if !ok {
          PurgedSomeWider(old(api.rules), api.rules, done + {m}, all, kill);
          return;
        }
      } else {
        assert done + {} == done;
      }
    }
    assert legacy[..|legacy|] == legacy;
    PurgedIsSome(old(api.rules), api.rules, all, kill);
  }

  lemma NoneSearched(legacy: seq<string>, globalMethod: string, methods: set<string>)
    ensures Searched(legacy[..0], globalMethod, methods) == {}
  {}

  // ---------------------------------------------------------------- a whole migration

  /** `failed` holds, of the generated names, those of the entries that were not written. */
  ghost predicate FailedCopies(failed: set<string>, specs: seq<RuleSpec>, c: Context, wrote: seq<bool>) {
    forall e :: GeneratedName(c, e) in failed <==> GeneratedName(c, e) in FailedBy(specs, c, wrote)
  }

  /** The spec was processed to its end and some of the legacy rules were removed. */
  ghost predicate MigratedSome(specs: seq<RuleSpec>, c: Context, legacy: seq<string>, methods: set<string>,
                               states: seq<State>, wrote: seq<bool>, failed: set<string>, after: Rules)
  {
    && |states| == |specs| + 1 && |wrote| == |specs| && Replayed(specs, c, states, wrote)
    && MethodsExist(specs, c, methods) && FailedCopies(failed, specs, c, wrote)
    && PurgedSome(states[|specs|].rules, after, Searched(legacy, c.globalMethod, methods), (r: Rule) => Legacy(r, specs, c, true, failed))
  }

  /** The spec was processed to its end and all of them were. */
  ghost predicate Migrated(specs: seq<RuleSpec>, c: Context, legacy: seq<string>, methods: set<string>,
                           states: seq<State>, wrote: seq<bool>, failed: set<string>, after: Rules)
  {
    && |states| == |specs| + 1 && |wrote| == |specs| && Replayed(specs, c, states, wrote)
    && MethodsExist(specs, c, methods) && FailedCopies(failed, specs, c, wrote)
    && Purged(states[|specs|].rules, after, Searched(legacy, c.globalMethod, methods), (r: Rule) => Legacy(r, specs, c, true, failed))
  }

  /** Applies the binding rules of a spec and then removes the legacy copies. If the rules can not
      be applied nothing is removed. */
  method ApplyBindRules(api: RuleApi, specs: seq<RuleSpec>, legacy: seq<string>, c: Context)
    returns (ok: bool, ghost states: seq<State>, ghost wrote: seq<bool>, ghost failed: set<string>)
    requires api.Valid() && ' ' !in c.name
    modifies api
    ensures api.Valid() && Replayed(specs, c, states, wrote) && |states| == |wrote| + 1 && states[0] == old(api.Now())
    ensures MigratedSome(specs, c, legacy, api.methods, states, wrote, failed, api.rules) || api.rules == states[|wrote|].rules
    ensures ok ==> Migrated(specs, c, legacy, api.methods, states, wrote, failed, api.rules)
    ensures AllFine(old(api.readings)) && AllFine(old(api.deletions)) && MethodsExist(specs, c, api.methods) ==>
              && Scripted(specs, c, states, wrote, old(api.writes))
              && (ok <==> !Interrupted(specs, old(api.writes), |specs|)) && (!ok ==> api.rules == states[|wrote|].rules)
    ensures !c.explicit && WellFormed(c.namespace) && Dated(specs, old(api.nextId)) && SafeIds(specs, c, old(api.rules)) ==>
              forall id | id in old(api.rules) && id !in api.rules :: Replaced(old(api.rules)[id], api.rules, specs, c, legacy, wrote)
  {
    hide Replayed, Legacy, Searched, Purged, PurgedSome, AllFine, FailedEntities, FailedBy, Scripted, GeneratedName, MethodsExist;
    hide Replaced, SafeIds, Dated, WellFormed, Interrupted;
    var err, status;
    err, status, states, wrote := ProcessBindRules(api, specs, c);
    failed := FailedEntities(status);
    ghost var safe := !c.explicit && WellFormed(c.namespace) && Dated(specs, old(api.nextId)) && SafeIds(specs, c, old(api.rules));
    if safe {
      SafeIdsKeep(specs, c, states, wrote);
    }
    if err {
      ok := false;
      return;
    }
    ok := RemoveLegacyBindingRules(api, specs, legacy, c, true, FailedEntities(status));
    if safe {
      forall id | id in old(api.rules) && id !in api.rules ensures Replaced(old(api.rules)[id], api.rules, specs, c, legacy, wrote) {
        MigrationStrandsNobody(specs, c, legacy, api.methods, states, wrote, failed, api.rules, id);
      }
    }
  }

  /** A rule that a migration with safe IDs removes, as it was before. */
  lemma RemovedRule(specs: seq<RuleSpec>, c: Context, legacy: seq<string>, methods: set<string>, states: seq<State>, wrote: seq<bool>,
                    failed: set<string>, after: Rules, id: nat)
    requires MigratedSome(specs, c, legacy, methods, states, wrote, failed, after)
    requires Kept(specs, c, states[0], states[|specs|], wrote) && id in states[0].rules && id !in after
    ensures var r := states[0].rules[id];
            && id in states[|specs|].rules && states[|specs|].rules[id] == r
            && r.method_ in Searched(legacy, c.globalMethod, methods) && Legacy(r, specs, c, true, failed)
  {
    hide Replayed, GeneratedName, Searched, MethodsExist, FailedCopies, Present, FailedBy, WroteAs, DeclaredUnder;
    var r, r' := states[0].rules[id], states[|specs|].rules[id];
    assert r'.method_ in Searched(legacy, c.globalMethod, methods) && Legacy(r', specs, c, true, failed);
    SearchedIsLegacy(legacy, c.globalMethod, methods, r.method_);
    if WroteAs(specs, c, wrote, r.method_, r.bindName) {
      WrittenIsDeclared(specs, c, wrote, r.method_, r.bindName);
    }
  }

  /** A rule written under a method that is not the global one is declared under it. */
  lemma WrittenIsDeclared(specs: seq<RuleSpec>, c: Context, wrote: seq<bool>, m: string, b: string)
    requires WroteAs(specs, c, wrote, m, b) && m != c.globalMethod
    ensures DeclaredUnder(specs, c, m, b)
  {
    hide GeneratedName;
    var i :| 0 <= i < |wrote| && i < |specs| && wrote[i] && Named(specs[i]) && MethodOf(c, specs[i]) == m && BindOf(c, specs[i]) == b;
    assert specs[i].method_ == m;
  }

  lemma SearchedIsLegacy(legacy: seq<string>, globalMethod: string, methods: set<string>, m: string)
    ensures m in Searched(legacy, globalMethod, methods) <==> m in legacy && m != globalMethod && m in methods
  {}

  /** The rule of an entry under its own method survives the migration. */
  lemma OwnRuleSurvives(specs: seq<RuleSpec>, c: Context, legacy: seq<string>, methods: set<string>, states: seq<State>, wrote: seq<bool>,
                        failed: set<string>, after: Rules, i: nat)
    requires MigratedSome(specs, c, legacy, methods, states, wrote, failed, after) && i < |specs| && Named(specs[i])
    ensures Present(states[|specs|].rules, MethodOf(c, specs[i]), BindOf(c, specs[i]), c.namespace) ==>
              Present(after, MethodOf(c, specs[i]), BindOf(c, specs[i]), c.namespace)
  {
    hide Replayed, GeneratedName, Searched, MethodsExist, FailedCopies, HasOwner;
    var m, b, mid := MethodOf(c, specs[i]), BindOf(c, specs[i]), states[|specs|].rules;
    if Present(mid, m, b, c.namespace) {
      var q :| q in mid && IsRule(mid[q], m, b) && mid[q].bindType == BIND_TYPE_ROLE && HasOwner(mid[q].description, c.namespace);
      SearchedIsLegacy(legacy, c.globalMethod, methods, m);
      if m in Searched(legacy, c.globalMethod, methods) {
        assert specs[i].method_ == m && DeclaredUnder(specs, c, m, b);
      }
      assert q in after && after[q] == mid[q];
    }
  }

  /** The rule belonged to the resource under a legacy method it is not declared for, and every
      entry of its name was written and is there under its own method. */
  ghost predicate Replaced(r: Rule, after: Rules, specs: seq<RuleSpec>, c: Context, legacy: seq<string>, wrote: seq<bool>) {
    && r.method_ in legacy && r.method_ != c.globalMethod && r.bindType == "role"
    && c.name + "_" + c.namespace + "_" <= r.bindName && !KeptUnder(specs, c, r.method_, r.bindName)
    && forall i, m | 0 <= i < |specs| && specs[i].bindName != "" && Concerns(c, specs[i], m, r.bindName) ::
         m != r.method_ && i < |wrote| && wrote[i] && Present(after, m, r.bindName, c.namespace)
  }

  /** Some named entry of the spec names the method itself, and is called like the rule with or without
      the prefix of the resource. */
  ghost predicate KeptUnder(specs: seq<RuleSpec>, c: Context, m: string, b: string) {
    exists spec | spec in specs ::
      && spec.bindName != "" && spec.method_ == m
      && (b == spec.bindName || b == c.name + "_" + c.namespace + "_" + spec.bindName)
  }

  lemma KeptUnderIs(specs: seq<RuleSpec>, c: Context, m: string, b: string)
    ensures KeptUnder(specs, c, m, b) <==> DeclaredUnder(specs, c, m, b)
  {
    if DeclaredUnder(specs, c, m, b) {
      var i :| 0 <= i < |specs| && specs[i].method_ == m && Named(specs[i])
               && (b == GeneratedName(c, specs[i].bindName) || b == specs[i].bindName);
      assert specs[i] in specs;
    }
  }

  /** Migration strands no service: with generated names and safe IDs, a rule that a reconcile removes
      from a legacy method belongs to the resource, is not declared for that method, and wherever the
      spec declares its name under another method the replacement was written in the same reconcile
      and is there. */
  lemma MigrationStrandsNobody(specs: seq<RuleSpec>, c: Context, legacy: seq<string>, methods: set<string>, states: seq<State>, wrote: seq<bool>,
                               failed: set<string>, after: Rules, id: nat)
    requires MigratedSome(specs, c, legacy, methods, states, wrote, failed, after) && !c.explicit && WellFormed(c.namespace)
    requires ValidState(states[0]) && Dated(specs, states[0].nextId) && SafeIds(specs, c, states[0].rules)
    requires id in states[0].rules && id !in after
    ensures Replaced(states[0].rules[id], after, specs, c, legacy, wrote)
  {
    hide WellFormed, Present, DeclaredUnder, SafeIds, Dated, ValidState, MethodsExist, Replayed, GeneratedName;
    SafeIdsKeep(specs, c, states, wrote);
    RemovedRule(specs, c, legacy, methods, states, wrote, failed, after, id);
    var r := states[0].rules[id];
    SearchedIsLegacy(legacy, c.globalMethod, methods, r.method_);
    KeptUnderIs(specs, c, r.method_, r.bindName);
    hide KeptUnder, Concerns, Standing;
    forall i, m {:trigger Concerns(c, specs[i], m, r.bindName)}
      | 0 <= i < |specs| && specs[i].bindName != "" && Concerns(c, specs[i], m, r.bindName)
      ensures m != r.method_ && i < |wrote| && wrote[i] && Present(after, m, r.bindName, c.namespace)
    {
      ConcernsIs(c, specs[i], m, r.bindName);
      DeclaredEntry(specs, c, i, r.method_);
      OwnRuleSurvives(specs, c, legacy, methods, states, wrote, failed, after, i);
      assert GeneratedName(c, specs[i].bindName) !in FailedBy(specs, c, wrote);
    }
  }

  lemma DeclaredEntry(specs: seq<RuleSpec>, c: Context, i: nat, m: string)
    requires i < |specs| && Named(specs[i]) && m != c.globalMethod
    ensures MethodOf(c, specs[i]) == m ==> DeclaredUnder(specs, c, m, BindOf(c, specs[i]))
  {
    hide GeneratedName;
  }

  /** Rules of other resources, rules declared for the legacy method and rules that do not
      bind a role are never removed. */
  lemma MigrationSpares(before: Rules, after: Rules, specs: seq<RuleSpec>, legacy: seq<string>, methods: set<string>, c: Context,
                        failed: set<string>, id: nat, entity: string, otherName: string, otherNamespace: string)
    requires PurgedSome(before, after, Searched(legacy, c.globalMethod, methods), (r: Rule) => Legacy(r, specs, c, true, failed))
    requires id in before
    requires '_' !in c.name && '_' !in c.namespace && '_' !in otherName && '_' !in otherNamespace
    requires || before[id].bindType != "role" || before[id].method_ !in legacy || before[id].method_ == c.globalMethod
             || KeptUnder(specs, c, before[id].method_, before[id].bindName)
             || (before[id].bindName == otherName + "_" + otherNamespace + "_" + entity && (otherName != c.name || otherNamespace != c.namespace))
    ensures id in after && after[id] == before[id]
  {
    PrefixUnambiguous(entity, otherName, otherNamespace, c.name, c.namespace);
    KeptUnderIs(specs, c, before[id].method_, before[id].bindName);
    assert ConvertEntityName(entity, otherName, otherNamespace) == otherName + "_" + otherNamespace + "_" + entity;
    hide KeptUnder, DeclaredUnder, ConvertEntityName;
  }

  /** The other half: a complete removal leaves under a legacy method that exists no role rule with the
      prefix of the resource, except those whose replacement failed and, in an apply, the declared ones. */
  lemma MigrationRemoves(before: Rules, after: Rules, specs: seq<RuleSpec>, legacy: seq<string>, methods: set<string>, c: Context,
                         keepDeclared: bool, failed: set<string>, id: nat)
    requires Purged(before, after, Searched(legacy, c.globalMethod, methods), (r: Rule) => Legacy(r, specs, c, keepDeclared, failed))
    requires id in after && after[id].method_ in legacy && after[id].method_ in methods && after[id].method_ != c.globalMethod
    requires after[id].bindType == "role" && c.name + "_" + c.namespace + "_" <= after[id].bindName
    ensures after[id].bindName in failed || (keepDeclared && KeptUnder(specs, c, after[id].method_, after[id].bindName))
  {
    KeptUnderIs(specs, c, after[id].method_, after[id].bindName);
    hide KeptUnder, DeclaredUnder;
  }

  // ---------------------------------------------------------------- explicit names

  /** A legacy copy of entry `i` is gone and its replacement is not there. */
  ghost predicate Stranded(before: Rules, after: Rules, specs: seq<RuleSpec>, c: Context, id: nat, i: nat) {
    && i < |specs| && specs[i].bindName != "" && id in before && id !in after
    && before[id].bindName == c.name + "_" + c.namespace + "_" + specs[i].bindName
    && forall m, b | Concerns(c, specs[i], m, b) :: !Present(after, m, b, c.namespace)
  }

  lemma StrandedIs(before: Rules, after: Rules, specs: seq<RuleSpec>, c: Context, id: nat, i: nat)
    ensures Stranded(before, after, specs, c, id, i)
            <==> && i < |specs| && Named(specs[i]) && id in before && id !in after
                 && before[id].bindName == GeneratedName(c, specs[i].bindName)
                 && !Present(after, MethodOf(c, specs[i]), BindOf(c, specs[i]), c.namespace)
  {
    if i < |specs| {
      assert GeneratedName(c, specs[i].bindName) == c.name + "_" + c.namespace + "_" + specs[i].bindName;
      forall m, b ensures Concerns(c, specs[i], m, b) <==> m == MethodOf(c, specs[i]) && b == BindOf(c, specs[i]) {
        ConcernsIs(c, specs[i], m, b);
      }
      hide Concerns, MethodOf, BindOf, Present, GeneratedName;
    }
  }

  /** Some pattern of failing writes makes the reconcile strand the entry. */
  ghost predicate CanStrand(specs: seq<RuleSpec>, c: Context, legacy: seq<string>, methods: set<string>, s: State, id: nat, i: nat) {
    exists states: seq<State>, wrote: seq<bool>, failed: set<string>, after: Rules ::
      Migrated(specs, c, legacy, methods, states, wrote, failed, after) && states[0] == s && Stranded(s.rules, after, specs, c, id, i)
  }

  /** Entry `j` can be written if all the entries of its name are: a rule of its name and method is
      there, or it or an earlier such entry creates one. */
  predicate Creatable(specs: seq<RuleSpec>, c: Context, rules: Rules, j: nat)
    requires j < |specs|
  {
    || HasRule(rules, MethodOf(c, specs[j]), specs[j].bindName)
    || exists k | 0 <= k <= j :: specs[k].bindName == specs[j].bindName && MethodOf(c, specs[k]) == MethodOf(c, specs[j]) && specs[k].id.None?
  }

  /** What the spec and the rules tell before the reconcile: the rule is a legacy copy of the entry
      that is not declared for its method, the entry has no rule of its own yet, and no entry that
      happens to be called like the copy, and so would protect it, is sure to fail. */
  ghost predicate Exposed(specs: seq<RuleSpec>, c: Context, legacy: seq<string>, methods: set<string>, rules: Rules, id: nat, i: nat) {
    && MethodsExist(specs, c, methods) && i < |specs| && Named(specs[i]) && id in rules
    && var r := rules[id];
       && r.bindName == GeneratedName(c, specs[i].bindName) && r.bindType == BIND_TYPE_ROLE
       && r.method_ in Searched(legacy, c.globalMethod, methods) && !DeclaredUnder(specs, c, r.method_, r.bindName)
       && !Present(rules, MethodOf(c, specs[i]), specs[i].bindName, c.namespace)
       && forall j | 0 <= j < |specs| && specs[j].bindName == r.bindName :: Creatable(specs, c, rules, j)
  }

  lemma GeneratedIsLonger(c: Context, entity: string)
    ensures GeneratedName(c, entity) != entity && GeneratedName(c, entity) != ""
    ensures Prefix(c.name, c.namespace) <= GeneratedName(c, entity)
  {
    assert |GeneratedName(c, entity)| > |entity|;
  }

  lemma HasRuleLasts(before: Rules, after: Rules, m: string, b: string)
    requires InPlace(before, after) && HasRule(before, m, b)
    ensures HasRule(after, m, b)
  {
    var id :| id in before && IsRule(before[id], m, b);
    assert IsRule(after[id], m, b);
  }

  lemma PresentIsThere(rules: Rules, m: string, b: string, namespace: string)
    requires Present(rules, m, b, namespace)
    ensures HasRule(rules, m, b)
  {
    hide HasOwner;
  }

  lemma SamePresent(a: Rules, b: Rules, m: string, n: string, namespace: string)
    requires (forall id | id in a && IsRule(a[id], m, n) :: id in b && b[id] == a[id]) && Present(a, m, n, namespace)
    ensures Present(b, m, n, namespace)
  {
    hide HasOwner;
  }

  /** What is known when an entry is written. */
  lemma WrittenStep(specs: seq<RuleSpec>, c: Context, states: seq<State>, wrote: seq<bool>, j: nat)
    requires Replayed(specs, c, states, wrote) && WellFormed(c.namespace)
    requires ValidState(states[0]) && Dated(specs, states[0].nextId) && SafeIds(specs, c, states[0].rules)
    requires j < |wrote| && Named(specs[j]) && wrote[j]
    ensures Kept(specs, c, states[0], states[j], wrote[..j]) && Writable(states[j], c, specs[j]) && Neat(states[0].rules, c, specs[j])
  {
    assert RuleStep(states[j], states[j + 1], c, specs[j], wrote[j]);
    ReplayedPrefix(specs, c, states, wrote, j);
    hide Kept, WellFormed, Replayed, Put, Writable, Neat, ValidState, Dated, Standing;
    SafeIdsKeep(specs, c, states[..j + 1], wrote[..j]);
    WritableByPut(states[j], states[j + 1], c, specs[j]);
  }

  /** An entry that names the ID of no rule and finds one of its name was preceded by an entry that made it. */
  lemma MadeEarlier(specs: seq<RuleSpec>, c: Context, s: State, s': State, wrote: seq<bool>, j: nat) returns (k: nat)
    requires |wrote| == j < |specs| && Dated(specs, s.nextId) && c.explicit && specs[j].id.Some?
    requires Kept(specs, c, s, s', wrote) && Writable(s', c, specs[j]) && Neat(s.rules, c, specs[j])
    requires !HasRule(s.rules, MethodOf(c, specs[j]), specs[j].bindName)
    ensures k < j && wrote[k] && Named(specs[k]) && MethodOf(c, specs[k]) == MethodOf(c, specs[j]) && specs[k].bindName == specs[j].bindName
  {
    hide Present, MethodOf, InPlace, ValidState;
    var m, b := MethodOf(c, specs[j]), specs[j].bindName;
    assert specs[j] in specs;
    assert specs[j].id.value !in s'.rules;
    var id :| id in s'.rules && IsRule(s'.rules[id], m, b);
    assert WroteAs(specs, c, wrote, m, b);
    k :| 0 <= k < j && wrote[k] && Named(specs[k]) && MethodOf(c, specs[k]) == m && BindOf(c, specs[k]) == b;
  }

  /** An entry that was written with safe IDs had a rule of its own, or could create one. */
  lemma {:induction false} WrittenIsCreatable(specs: seq<RuleSpec>, c: Context, states: seq<State>, wrote: seq<bool>, j: nat)
    requires Replayed(specs, c, states, wrote) && WellFormed(c.namespace) && c.explicit
    requires ValidState(states[0]) && Dated(specs, states[0].nextId) && SafeIds(specs, c, states[0].rules)
    requires j < |wrote| && Named(specs[j]) && wrote[j]
    ensures Creatable(specs, c, states[0].rules, j)
    decreases j
  {
    assert |states| > j && |wrote| <= |specs|;
    hide Kept, WellFormed, Replayed, Put, Writable, Neat, ValidState, Dated, MethodOf, HasRule, SafeIds;
    WrittenStep(specs, c, states, wrote, j);
    if specs[j].id.Some? && !HasRule(states[0].rules, MethodOf(c, specs[j]), specs[j].bindName) {
      var k := MadeEarlier(specs, c, states[0], states[j], wrote[..j], j);
      WrittenIsCreatable(specs, c, states, wrote, k);
    }
  }

  lemma WritableByPut(s: State, s': State, c: Context, spec: RuleSpec)
    requires Put(s, s', c, spec)
    ensures Writable(s, c, spec)
  {
    hide PutAt;
  }

  /** A stranded entry was exposed. */
  lemma StrandedIsExposed(specs: seq<RuleSpec>, c: Context, legacy: seq<string>, methods: set<string>, states: seq<State>, wrote: seq<bool>,
                          failed: set<string>, after: Rules, id: nat, i: nat)
    requires Migrated(specs, c, legacy, methods, states, wrote, failed, after) && c.explicit && WellFormed(c.namespace)
    requires ValidState(states[0]) && Dated(specs, states[0].nextId) && SafeIds(specs, c, states[0].rules)
    requires Stranded(states[0].rules, after, specs, c, id, i)
    ensures Exposed(specs, c, legacy, methods, states[0].rules, id, i)
  {
    hide WellFormed, Present, DeclaredUnder, SafeIds, Dated, ValidState, MethodsExist, Replayed, GeneratedName, Searched, Creatable;
    StrandedIs(states[0].rules, after, specs, c, id, i);
    hide Stranded;
    PurgedIsSome(states[|specs|].rules, after, Searched(legacy, c.globalMethod, methods), (r: Rule) => Legacy(r, specs, c, true, failed));
    SafeIdsKeep(specs, c, states, wrote);
    RemovedRule(specs, c, legacy, methods, states, wrote, failed, after, id);
    OwnRuleSurvives(specs, c, legacy, methods, states, wrote, failed, after, i);
    GeneratedIsLonger(c, specs[i].bindName);
    var g := states[0].rules[id].bindName;
    assert g !in FailedBy(specs, c, wrote);
    forall j | 0 <= j < |specs| && specs[j].bindName == g ensures Creatable(specs, c, states[0].rules, j) {
      assert BindOf(c, specs[j]) == g;
      WrittenIsCreatable(specs, c, states, wrote, j);
    }
  }

  /** The pattern of writes that fails for every name but one. */
  function Only(specs: seq<RuleSpec>, g: string, n: nat): seq<bool>
    requires n <= |specs|
  {
    seq(n, k requires 0 <= k < n => Named(specs[k]) && specs[k].bindName == g)
  }

  lemma OnlyStart(specs: seq<RuleSpec>, g: string)
    ensures Only(specs, g, 0) == []
  {}

  lemma OnlyMore(specs: seq<RuleSpec>, g: string, n: nat)
    requires 0 < n <= |specs|
    ensures Only(specs, g, n) == Only(specs, g, n - 1) + [Named(specs[n - 1]) && specs[n - 1].bindName == g]
    ensures |Only(specs, g, n - 1)| == n - 1
  {}

  lemma PutExists(s: State, c: Context, spec: RuleSpec) returns (s': State)
    requires Writable(s, c, spec)
    ensures Put(s, s', c, spec)
  {
    hide PutAt;
    var m, b := MethodOf(c, spec), BindOf(c, spec);
    var id := s.nextId;
    if HasRule(s.rules, m, b) {
      id :| id in s.rules && IsRule(s.rules[id], m, b);
    } else if spec.id.Some? {
      id := spec.id.value;
    }
    assert Target(s, c, spec, id);
    s' := PutAt(s, c, spec, id);
  }

  lemma CreatableIsWritable(specs: seq<RuleSpec>, c: Context, s: State, s': State, g: string, n: nat)
    requires c.explicit && n < |specs| && Named(specs[n]) && specs[n].bindName == g && Creatable(specs, c, s.rules, n)
    requires Kept(specs, c, s, s', Only(specs, g, n))
    ensures Writable(s', c, specs[n])
  {
    hide MethodOf, Present, ValidState;
    var m := MethodOf(c, specs[n]);
    if HasRule(s.rules, m, g) {
      HasRuleLasts(s.rules, s'.rules, m, g);
    } else {
      var k :| 0 <= k <= n && specs[k].bindName == g && MethodOf(c, specs[k]) == m && specs[k].id.None?;
      if k < n {
        assert Only(specs, g, n)[k];
        PresentIsThere(s'.rules, m, g, c.namespace);
      }
    }
  }

  /** A reconcile in which exactly the entries of one name are written. */
  lemma {:induction false} OnlyRun(specs: seq<RuleSpec>, c: Context, s: State, g: string, n: nat) returns (states: seq<State>)
    requires c.explicit && WellFormed(c.namespace) && n <= |specs|
    requires ValidState(s) && Dated(specs, s.nextId) && SafeIds(specs, c, s.rules)
    requires forall j | 0 <= j < |specs| && Named(specs[j]) && specs[j].bindName == g :: Creatable(specs, c, s.rules, j)
    ensures Replayed(specs, c, states, Only(specs, g, n)) && states[0] == s
  {
    hide WellFormed, Put, Kept, SafeIds, Dated, ValidState, Creatable, Only, Writable, RuleStep;
    if n == 0 {
      states := [s];
      OnlyStart(specs, g);
    } else {
      states := OnlyRun(specs, c, s, g, n - 1);
      var before, w := Only(specs, g, n - 1), Named(specs[n - 1]) && specs[n - 1].bindName == g;
      OnlyMore(specs, g, n);
      SafeIdsKeep(specs, c, states, before);
      var s' := states[n - 1];
      if w {
        CreatableIsWritable(specs, c, s, s', g, n - 1);
        s' := PutExists(s', c, specs[n - 1]);
      }
      StepIs(states[n - 1], s', c, specs[n - 1], w);
      ReplayedMore(specs, c, states, before, s', w);
      states := states + [s'];
    }
  }

  lemma StepIs(s: State, s': State, c: Context, spec: RuleSpec, wrote: bool)
    requires if Named(spec) && wrote then Put(s, s', c, spec) else s' == s && !wrote
    ensures RuleStep(s, s', c, spec, wrote)
  {
    hide Put;
  }

  function Purging(rules: Rules, done: set<string>, specs: seq<RuleSpec>, c: Context, failed: set<string>): Rules {
    map q | q in rules && !(rules[q].method_ in done && Legacy(rules[q], specs, c, true, failed)) :: rules[q]
  }

  /** What the writes of entries of another name leave as it was. */
  lemma OthersUnwritten(specs: seq<RuleSpec>, c: Context, s: State, s': State, g: string, m: string, b: string)
    requires c.explicit && Kept(specs, c, s, s', Only(specs, g, |specs|)) && b != g
    ensures forall id | id in s'.rules && IsRule(s'.rules[id], m, b) :: id in s.rules && s'.rules[id] == s.rules[id]
  {
    hide MethodOf, Present, ValidState, InPlace;
  }

  /** An exposed entry can be stranded: every write fails but those of entries called like the copy. */
  lemma ExposedCanStrand(specs: seq<RuleSpec>, c: Context, legacy: seq<string>, methods: set<string>, s: State, id: nat, i: nat)
    requires Exposed(specs, c, legacy, methods, s.rules, id, i) && c.explicit && WellFormed(c.namespace)
    requires ValidState(s) && Dated(specs, s.nextId) && SafeIds(specs, c, s.rules)
    ensures CanStrand(specs, c, legacy, methods, s, id, i)
  {
    var g, b, m := s.rules[id].bindName, specs[i].bindName, MethodOf(c, specs[i]);
    GeneratedIsLonger(c, b);
    hide GeneratedName, Creatable, DeclaredUnder, WellFormed, MethodsExist, SafeIds, Dated;
    var wrote := Only(specs, g, |specs|);
    var states := OnlyRun(specs, c, s, g, |specs|);
    SafeIdsKeep(specs, c, states, wrote);
    var mid, failed := states[|specs|].rules, FailedBy(specs, c, wrote);
    var done := Searched(legacy, c.globalMethod, methods);
    var after := Purging(mid, done, specs, c, failed);
    PurgingPurges(mid, done, specs, c, failed);
    assert g !in failed;
    OthersUnwritten(specs, c, s, states[|specs|], g, m, b);
    CopyUnwritten(specs, c, legacy, methods, s, states[|specs|], wrote, id);
    assert id !in after by {
      assert Legacy(mid[id], specs, c, true, failed);
    }
    hide Kept, Replayed, Legacy, Searched, Only, FailedBy, ValidState;
    assert !Present(after, m, b, c.namespace) by {
      if Present(after, m, b, c.namespace) {
        SamePresent(after, s.rules, m, b, c.namespace);
      }
    }
    StrandedIs(s.rules, after, specs, c, id, i);
    hide Stranded;
    assert Migrated(specs, c, legacy, methods, states, wrote, failed, after) && Stranded(s.rules, after, specs, c, id, i);
  }

  lemma PurgingPurges(rules: Rules, done: set<string>, specs: seq<RuleSpec>, c: Context, failed: set<string>)
    ensures Purged(rules, Purging(rules, done, specs, c, failed), done, (r: Rule) => Legacy(r, specs, c, true, failed))
  {
    hide Legacy;
  }

  /** A legacy copy that is not declared for its method is not written. */
  lemma CopyUnwritten(specs: seq<RuleSpec>, c: Context, legacy: seq<string>, methods: set<string>, s: State, s': State, wrote: seq<bool>, id: nat)
    requires Kept(specs, c, s, s', wrote) && id in s.rules && s.rules[id].method_ in Searched(legacy, c.globalMethod, methods)
    requires !DeclaredUnder(specs, c, s.rules[id].method_, s.rules[id].bindName)
    ensures id in s'.rules && s'.rules[id] == s.rules[id]
  {
    hide Present, GeneratedName, ValidState, WroteAs, DeclaredUnder;
    if WroteAs(specs, c, wrote, s.rules[id].method_, s.rules[id].bindName) {
      WrittenIsDeclared(specs, c, wrote, s.rules[id].method_, s.rules[id].bindName);
    }
  }

  /** With explicit names a migration can strand an entry if and only if the entry is exposed, which
      the spec and the rules tell before the reconcile. */
  lemma ExplicitStrandsIff(specs: seq<RuleSpec>, c: Context, legacy: seq<string>, methods: set<string>, s: State, id: nat, i: nat)
    requires c.explicit && WellFormed(c.namespace) && ValidState(s) && Dated(specs, s.nextId) && SafeIds(specs, c, s.rules)
    ensures CanStrand(specs, c, legacy, methods, s, id, i) <==> Exposed(specs, c, legacy, methods, s.rules, id, i)
  {
    hide Replayed, Purged, FailedCopies, MethodsExist, Stranded, Exposed, WellFormed, ValidState, Dated, SafeIds;
    if CanStrand(specs, c, legacy, methods, s, id, i) {
      var states: seq<State>, wrote: seq<bool>, failed: set<string>, after: Rules :|
        Migrated(specs, c, legacy, methods, states, wrote, failed, after) && states[0] == s && Stranded(s.rules, after, specs, c, id, i);
      StrandedIsExposed(specs, c, legacy, methods, states, wrote, failed, after, id, i);
    }
    if Exposed(specs, c, legacy, methods, s.rules, id, i) {
      ExposedCanStrand(specs, c, legacy, methods, s, id, i);
    }
  }

  // ---------------------------------------------------------------- stale rules

  /** The auth methods the spec refers to: the global one and the overrides. */
  function SpecMethods(specs: seq<RuleSpec>, globalMethod: string): set<string> {
    {globalMethod} + set i | 0 <= i < |specs| && specs[i].method_ != "" :: specs[i].method_
  }

  function GeneratedBindNames(specs: seq<RuleSpec>, c: Context): set<string> {
    set i | 0 <= i < |specs| :: GeneratedName(c, specs[i].bindName)
  }

  predicate StaleRule(r: Rule, specs: seq<RuleSpec>, c: Context) {
    Prefix(c.name, c.namespace) <= r.bindName && r.bindName !in GeneratedBindNames(specs, c)
  }

  /** Deletes, under the methods of the spec, the rules of the resource it does not declare. */
  method RemoveStaleRules(api: RuleApi, specs: seq<RuleSpec>, c: Context) returns (ok: bool)
    requires api.Valid()
    modifies api`rules, api`readings, api`deletions
    ensures api.Valid()
    ensures ok ==> Purged(old(api.rules), api.rules, SpecMethods(specs, c.globalMethod), (r: Rule) => StaleRule(r, specs, c))
    ensures PurgedSome(old(api.rules), api.rules, SpecMethods(specs, c.globalMethod), (r: Rule) => StaleRule(r, specs, c))
    ensures AllFine(old(api.readings)) && AllFine(old(api.deletions)) ==> ok
  {
    hide StaleRule, SpecMethods, Purged, PurgedSome, AllFine;
    var kill := (r: Rule) => StaleRule(r, specs, c);
    ghost var all := SpecMethods(specs, c.globalMethod);
    ghost var done: set<string> := {};
    NothingPurged(api.rules, all, kill);
    var rest := SpecMethods(specs, c.globalMethod);
    ok := true;
    while rest != {}
      invariant api.Valid() && ok && done + rest == all && done !! rest
      invariant Purged(old(api.rules), api.rules, done, kill)
      invariant AllFine(old(api.readings)) && AllFine(old(api.deletions)) ==> AllFine(api.readings) && AllFine(api.deletions)
      decreases |rest|
    {
      var m :| m in rest;
      ghost var mid := api.rules;
      ok := DeleteRules(api, m, kill);
      PurgedMore(old(api.rules), mid, api.rules, done, m, kill);
      done, rest := done + {m}, rest - {m};
      if !ok {
        PurgedSomeWider(old(api.rules), api.rules, done, all, kill);
        return;
      }
    }
    assert done == all;
    PurgedIsSome(old(api.rules), api.rules, all, kill);
  }

  /** The clean-up leaves, under the methods it searched, only declared names with the prefix of
      the resource, and no rule of another resource has been touched. */
  lemma StaleRulesFrame(before: Rules, after: Rules, specs: seq<RuleSpec>, c: Context,
                        id: nat, entity: string, otherName: string, otherNamespace: string)
    requires Purged(before, after, SpecMethods(specs, c.globalMethod), (r: Rule) => StaleRule(r, specs, c))
    requires '_' !in c.name && '_' !in c.namespace && '_' !in otherName && '_' !in otherNamespace
    ensures forall i | i in after && UsesMethod(specs, c, after[i].method_) && c.name + "_" + c.namespace + "_" <= after[i].bindName ::
              exists spec | spec in specs :: after[i].bindName == c.name + "_" + c.namespace + "_" + spec.bindName
    ensures (id in before && before[id].bindName == otherName + "_" + otherNamespace + "_" + entity
             && (otherName != c.name || otherNamespace != c.namespace)) ==> id in after && after[id] == before[id]
    ensures id in before && !UsesMethod(specs, c, before[id].method_) ==> id in after && after[id] == before[id]
    ensures forall spec | spec in specs && id in before && before[id].bindName == c.name + "_" + c.namespace + "_" + spec.bindName ::
              id in after && after[id] == before[id]
  {
    PrefixUnambiguous(entity, otherName, otherNamespace, c.name, c.namespace);
    forall m ensures UsesMethod(specs, c, m) <==> m in SpecMethods(specs, c.globalMethod) {
      UsesMethodIs(specs, c, m);
    }
    forall i | i in after && after[i].bindName in GeneratedBindNames(specs, c)
      ensures exists spec | spec in specs :: after[i].bindName == c.name + "_" + c.namespace + "_" + spec.bindName
    {
      var k :| 0 <= k < |specs| && GeneratedName(c, specs[k].bindName) == after[i].bindName;
      assert specs[k] in specs;
    }
  }

  /** The method is the global one or the one some entry names. */
  ghost predicate UsesMethod(specs: seq<RuleSpec>, c: Context, m: string) {
    m == c.globalMethod || exists spec | spec in specs :: spec.method_ != "" && spec.method_ == m
  }

  lemma UsesMethodIs(specs: seq<RuleSpec>, c: Context, m: string)
    ensures UsesMethod(specs, c, m) <==> m in SpecMethods(specs, c.globalMethod)
  {
    if i :| 0 <= i < |specs| && specs[i].method_ != "" && specs[i].method_ == m {
      assert specs[i] in specs;
    }
  }
}
