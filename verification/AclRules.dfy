/** Binding rules: what the operator writes for the rules of a spec, entry by entry, and what becomes
    of the rules that are already there. An entry may name the ID of the rule to write. */
module AclRules {
  import opened Wrappers
  import opened Owners
  import opened AclEntities
  import opened AclPrefix

  const BIND_TYPE_ROLE := "role"
  const UNNAMED_KEY := "innerErrorHandlingItem"

  datatype Rule = Rule(method_: string, bindName: string, bindType: string, description: string)

  type Rules = map<nat, Rule>

  /** A declared rule; an empty `method_` means the global method. */
  datatype RuleSpec = RuleSpec(bindName: string, method_: string, description: string, id: Option<nat>)

  /** The resource the rules belong to and the global auth method of the operator. */
  datatype Context = Context(globalMethod: string, name: string, namespace: string, explicit: bool)

  predicate Named(spec: RuleSpec) {
    spec.bindName != ""
  }

  function MethodOf(c: Context, spec: RuleSpec): string {
    if spec.method_ != "" then spec.method_ else c.globalMethod
  }

  function GeneratedName(c: Context, entity: string): string {
    ConvertEntityName(entity, c.name, c.namespace)
  }

  function BindOf(c: Context, spec: RuleSpec): string {
    if c.explicit then spec.bindName else GeneratedName(c, spec.bindName)
  }

  /** The entry is about the rule called `b` under the method `m`: the method it names, or else the
      global one, and its name, as it is or with the prefix of the resource. */
  ghost predicate Concerns(c: Context, spec: RuleSpec, m: string, b: string) {
    && (spec.method_ != "" ==> m == spec.method_) && (spec.method_ == "" ==> m == c.globalMethod)
    && (c.explicit ==> b == spec.bindName) && (!c.explicit ==> b == c.name + "_" + c.namespace + "_" + spec.bindName)
  }

  lemma ConcernsIs(c: Context, spec: RuleSpec, m: string, b: string)
    ensures Concerns(c, spec, m, b) <==> m == MethodOf(c, spec) && b == BindOf(c, spec)
  {}

  // ---------------------------------------------------------------- one write

  /** The rules, and the next ID to be handed out. */
  datatype State = State(rules: Rules, nextId: nat)

  ghost predicate ValidState(s: State) {
    forall id | id in s.rules :: id < s.nextId
  }

  predicate IsRule(r: Rule, m: string, b: string) {
    r.method_ == m && r.bindName == b
  }

  predicate HasRule(rules: Rules, m: string, b: string) {
    exists id | id in rules :: IsRule(rules[id], m, b)
  }

  /** The rule exists under the method, binds a role and is owned by the namespace. */
  ghost predicate Present(rules: Rules, m: string, b: string, namespace: string) {
    exists id | id in rules ::
      IsRule(rules[id], m, b) && rules[id].bindType == BIND_TYPE_ROLE && HasOwner(rules[id].description, namespace)
  }

  /** The rule an entry is written to: one of its name under its method, else the one whose ID it
      names, else a new one. */
  predicate Target(s: State, c: Context, spec: RuleSpec, id: nat) {
    var m, b := MethodOf(c, spec), BindOf(c, spec);
    if HasRule(s.rules, m, b) then id in s.rules && IsRule(s.rules[id], m, b)
    else if spec.id.Some? then id == spec.id.value && id in s.rules
    else id == s.nextId
  }

  predicate Writable(s: State, c: Context, spec: RuleSpec) {
    HasRule(s.rules, MethodOf(c, spec), BindOf(c, spec)) || spec.id.None? || spec.id.value in s.rules
  }

  function PutAt(s: State, c: Context, spec: RuleSpec, id: nat): State {
    var m, b := MethodOf(c, spec), BindOf(c, spec);
    var existing := if id in s.rules && IsRule(s.rules[id], m, b) then s.rules[id].description else "";
    State(s.rules[id := Rule(m, b, BIND_TYPE_ROLE, WithOwnerAdded(spec.description, existing, c.namespace))],
          if id == s.nextId then s.nextId + 1 else s.nextId)
  }

  ghost predicate Put(s: State, s': State, c: Context, spec: RuleSpec) {
    exists id :: Target(s, c, spec, id) && s' == PutAt(s, c, spec, id)
  }

  /** The entry names no ID, or one that is not used: that of a rule that is not there, or any when
      a rule of its name and method is. */
  predicate Neat(rules: Rules, c: Context, spec: RuleSpec) {
    spec.id.None? || spec.id.value !in rules || HasRule(rules, MethodOf(c, spec), BindOf(c, spec))
  }

  ghost predicate OwnersStay(before: Rule, after: Rule) {
    forall o | HasOwner(before.description, o) :: HasOwner(after.description, o)
  }

  /** No rule is lost, given another method or name, or deprived of an owner. */
  ghost predicate InPlace(before: Rules, after: Rules) {
    forall id | id in before :: id in after && IsRule(after[id], before[id].method_, before[id].bindName) && OwnersStay(before[id], after[id])
  }

  /** A write moves a rule if and only if the entry names the ID of a rule while there is none of its
      own name and method. */
  lemma PutInPlaceIff(s: State, s': State, c: Context, spec: RuleSpec)
    requires ValidState(s) && Put(s, s', c, spec) && WellFormed(c.namespace)
    ensures InPlace(s.rules, s'.rules) <==> Neat(s.rules, c, spec)
  {
    hide WithOwnerAdded, BindOf, MethodOf, HasOwner, WellFormed;
    var id :| Target(s, c, spec, id) && s' == PutAt(s, c, spec, id);
    if !Neat(s.rules, c, spec) {
      assert id in s.rules && !IsRule(s.rules[id], MethodOf(c, spec), BindOf(c, spec));
    } else if id in s.rules {
      PutOwners(s, c, spec, id);
    }
  }

  /** The owners a write leaves on the rule of its own name. */
  lemma PutOwners(s: State, c: Context, spec: RuleSpec, id: nat)
    requires WellFormed(c.namespace) && id in s.rules && IsRule(s.rules[id], MethodOf(c, spec), BindOf(c, spec))
    ensures forall o :: HasOwner(PutAt(s, c, spec, id).rules[id].description, o)
                        <==> HasOwner(s.rules[id].description, o) || o == c.namespace
  {
    hide WithOwnerAdded, HasOwner, WellFormed, MethodOf, BindOf;
    forall o ensures HasOwner(PutAt(s, c, spec, id).rules[id].description, o) <==> HasOwner(s.rules[id].description, o) || o == c.namespace {
      OwnersAfter(spec.description, s.rules[id].description, c.namespace, o);
    }
  }

  /** What a write of the rule called `b` under `m` leaves at `id`: a role rule with the text of the spec
      and nothing else changed; one of that name and method if there was any, which keeps its owners and
      gets the namespace; else the one whose ID the spec names, or a new one, owned by the namespace alone. */
  ghost predicate WrittenAt(before: Rules, after: Rules, spec: RuleSpec, namespace: string, m: string, b: string, id: nat) {
    && id in after && after == before[id := after[id]]
    && after[id].method_ == m && after[id].bindName == b && after[id].bindType == "role"
    && SameText(after[id].description, spec.description)
    && if exists q :: q in before && before[q].method_ == m && before[q].bindName == b
       then && id in before && before[id].method_ == m && before[id].bindName == b
            && forall o :: HasOwner(after[id].description, o) <==> HasOwner(before[id].description, o) || o == namespace
       else && (if spec.id.Some? then id in before && id == spec.id.value else id !in before)
            && forall o :: HasOwner(after[id].description, o) <==> o == namespace
  }

  lemma PutMeans(s: State, s': State, c: Context, spec: RuleSpec, m: string, b: string) returns (id: nat)
    requires ValidState(s) && Put(s, s', c, spec) && WellFormed(c.namespace) && Concerns(c, spec, m, b)
    ensures WrittenAt(s.rules, s'.rules, spec, c.namespace, m, b, id)
  {
    ConcernsIs(c, spec, m, b);
    hide WithOwnerAdded, HasOwner, WellFormed, MethodOf, BindOf, Concerns, SameText, ParseOwners;
    id :| Target(s, c, spec, id) && s' == PutAt(s, c, spec, id);
    var existing := if id in s.rules && IsRule(s.rules[id], m, b) then s.rules[id].description else "";
    AddThenParse(spec.description, existing, c.namespace);
    NobodyOwnsNothing();
    forall o ensures HasOwner(s'.rules[id].description, o) <==> HasOwner(existing, o) || o == c.namespace {
      OwnersAfter(spec.description, existing, c.namespace, o);
    }
    assert HasRule(s.rules, m, b) <==> exists q :: q in s.rules && s.rules[q].method_ == m && s.rules[q].bindName == b;
  }

  /** What a write in place does: only the rules of its name and method change, and one of them is
      there afterwards, with the namespace among its owners. */
  ghost predicate Grows(before: Rules, after: Rules, m: string, b: string) {
    InPlace(before, after) && forall id | id in after :: (id in before && after[id] == before[id]) || IsRule(after[id], m, b)
  }

  lemma NeatPut(s: State, s': State, c: Context, spec: RuleSpec)
    requires ValidState(s) && Put(s, s', c, spec) && Neat(s.rules, c, spec) && WellFormed(c.namespace)
    ensures ValidState(s') && s.nextId <= s'.nextId && Grows(s.rules, s'.rules, MethodOf(c, spec), BindOf(c, spec))
    ensures forall id | id in s'.rules && id !in s.rules :: id >= s.nextId
    ensures Present(s'.rules, MethodOf(c, spec), BindOf(c, spec), c.namespace)
  {
    hide WithOwnerAdded, BindOf, MethodOf, HasOwner, WellFormed, InPlace, Present, IsRule, HasRule;
    PutInPlaceIff(s, s', c, spec);
    var id :| Target(s, c, spec, id) && s' == PutAt(s, c, spec, id);
    PutIsPresent(s, c, spec, id);
  }

  lemma PutIsPresent(s: State, c: Context, spec: RuleSpec, id: nat)
    requires WellFormed(c.namespace)
    ensures var m, b, s' := MethodOf(c, spec), BindOf(c, spec), PutAt(s, c, spec, id);
            id in s'.rules && IsRule(s'.rules[id], m, b) && Present(s'.rules, m, b, c.namespace)
  {
    var m, b := MethodOf(c, spec), BindOf(c, spec);
    hide WithOwnerAdded, BindOf, MethodOf, HasOwner, WellFormed;
    var existing := if id in s.rules && IsRule(s.rules[id], m, b) then s.rules[id].description else "";
    OwnersAfter(spec.description, existing, c.namespace, c.namespace);
    assert id in PutAt(s, c, spec, id).rules;
  }

  lemma PresentLasts(before: Rules, after: Rules, m: string, b: string, m': string, b': string, namespace: string)
    requires Present(before, m, b, namespace) && Grows(before, after, m', b') && Present(after, m', b', namespace)
    ensures Present(after, m, b, namespace)
  {
    hide HasOwner;
    if m != m' || b != b' {
      var id :| id in before && IsRule(before[id], m, b) && before[id].bindType == BIND_TYPE_ROLE
                && HasOwner(before[id].description, namespace);
      assert id in after && after[id] == before[id];
    }
  }

  // ---------------------------------------------------------------- all the entries

  ghost predicate RuleStep(s: State, s': State, c: Context, spec: RuleSpec, wrote: bool) {
    if Named(spec) && wrote then Put(s, s', c, spec) else s' == s && !wrote
  }

  /** The states after each of the first entries of a spec; `wrote[i]` tells whether entry `i` was
      written. */
  ghost predicate Replayed(specs: seq<RuleSpec>, c: Context, states: seq<State>, wrote: seq<bool>) {
    && |states| == |wrote| + 1 && |wrote| <= |specs|
    && forall i | 0 <= i < |wrote| :: RuleStep(states[i], states[i + 1], c, specs[i], wrote[i])
  }

  lemma ReplayedMore(specs: seq<RuleSpec>, c: Context, states: seq<State>, wrote: seq<bool>, s: State, w: bool)
    requires Replayed(specs, c, states, wrote) && |wrote| < |specs| && RuleStep(states[|wrote|], s, c, specs[|wrote|], w)
    ensures Replayed(specs, c, states + [s], wrote + [w])
  {
    hide RuleStep;
  }

  /** The IDs a spec names were handed out before. */
  predicate Dated(specs: seq<RuleSpec>, nextId: nat) {
    forall s | s in specs && s.id.Some? :: s.id.value < nextId
  }

  predicate SafeIds(specs: seq<RuleSpec>, c: Context, rules: Rules) {
    forall i | 0 <= i < |specs| && Named(specs[i]) :: Neat(rules, c, specs[i])
  }

  predicate WroteAs(specs: seq<RuleSpec>, c: Context, wrote: seq<bool>, m: string, b: string) {
    exists i | 0 <= i < |wrote| && i < |specs| :: wrote[i] && Named(specs[i]) && MethodOf(c, specs[i]) == m && BindOf(c, specs[i]) == b
  }

  /** What a reconcile with safe IDs has done to the rules: none was lost or moved, what is new or
      changed has the name and method of a written entry, and every written entry is there. */
  ghost predicate Kept(specs: seq<RuleSpec>, c: Context, s: State, s': State, wrote: seq<bool>) {
    && ValidState(s') && s.nextId <= s'.nextId && InPlace(s.rules, s'.rules)
    && (forall id | id in s'.rules && id !in s.rules :: id >= s.nextId)
    && (forall id | id in s'.rules :: (id in s.rules && s'.rules[id] == s.rules[id]) || WroteAs(specs, c, wrote, s'.rules[id].method_, s'.rules[id].bindName))
    && (forall i | 0 <= i < |wrote| && i < |specs| && wrote[i] :: Present(s'.rules, MethodOf(c, specs[i]), BindOf(c, specs[i]), c.namespace))
    && (forall m, b | Present(s.rules, m, b, c.namespace) :: Present(s'.rules, m, b, c.namespace))
  }

  lemma NeatLasts(specs: seq<RuleSpec>, c: Context, s: State, s': State, i: nat)
    requires InPlace(s.rules, s'.rules) && (forall id | id in s'.rules && id !in s.rules :: id >= s.nextId)
    requires i < |specs| && Dated(specs, s.nextId) && Neat(s.rules, c, specs[i])
    ensures Neat(s'.rules, c, specs[i])
  {
    hide MethodOf, BindOf;
    assert specs[i] in specs;
    var m, b := MethodOf(c, specs[i]), BindOf(c, specs[i]);
    if HasRule(s.rules, m, b) {
      var id :| id in s.rules && IsRule(s.rules[id], m, b);
      assert IsRule(s'.rules[id], m, b);
    }
  }

  lemma InPlaceTwice(a: Rules, b: Rules, c: Rules)
    requires InPlace(a, b) && InPlace(b, c)
    ensures InPlace(a, c)
  {}

  lemma KeptMore(specs: seq<RuleSpec>, c: Context, s: State, s1: State, s2: State, wrote: seq<bool>)
    requires |wrote| < |specs| && Named(specs[|wrote|]) && Kept(specs, c, s, s1, wrote)
    requires ValidState(s2) && s1.nextId <= s2.nextId && (forall id | id in s2.rules && id !in s1.rules :: id >= s1.nextId)
    requires var m, b := MethodOf(c, specs[|wrote|]), BindOf(c, specs[|wrote|]);
             Grows(s1.rules, s2.rules, m, b) && Present(s2.rules, m, b, c.namespace)
    ensures Kept(specs, c, s, s2, wrote + [true])
  {
    hide MethodOf, BindOf, Present;
    var n, more := |wrote|, wrote + [true];
    var m, b := MethodOf(c, specs[n]), BindOf(c, specs[n]);
    InPlaceTwice(s.rules, s1.rules, s2.rules);
    forall m', b' | Present(s1.rules, m', b', c.namespace) ensures Present(s2.rules, m', b', c.namespace) {
      PresentLasts(s1.rules, s2.rules, m', b', m, b, c.namespace);
    }
    assert WroteAs(specs, c, more, m, b) by {
      assert more[n];
    }
    forall m', b' | WroteAs(specs, c, wrote, m', b') ensures WroteAs(specs, c, more, m', b') {
      var i :| 0 <= i < n && wrote[i] && Named(specs[i]) && MethodOf(c, specs[i]) == m' && BindOf(c, specs[i]) == b';
      assert more[i];
    }
    forall i | 0 <= i < |more| && more[i] ensures Present(s2.rules, MethodOf(c, specs[i]), BindOf(c, specs[i]), c.namespace) {
      assert i < n ==> wrote[i];
    }
  }

  lemma KeptIdle(specs: seq<RuleSpec>, c: Context, s: State, s1: State, wrote: seq<bool>)
    requires |wrote| < |specs| && Kept(specs, c, s, s1, wrote)
    ensures Kept(specs, c, s, s1, wrote + [false])
  {
    hide MethodOf, BindOf, Present, InPlace;
    var n, more := |wrote|, wrote + [false];
    forall m', b' | WroteAs(specs, c, wrote, m', b') ensures WroteAs(specs, c, more, m', b') {
      var i :| 0 <= i < n && wrote[i] && Named(specs[i]) && MethodOf(c, specs[i]) == m' && BindOf(c, specs[i]) == b';
      assert more[i];
    }
    forall i | 0 <= i < |more| && more[i] ensures Present(s1.rules, MethodOf(c, specs[i]), BindOf(c, specs[i]), c.namespace) {
      assert i < n && wrote[i];
    }
  }

  lemma KeptStart(specs: seq<RuleSpec>, c: Context, s: State)
    requires ValidState(s)
    ensures Kept(specs, c, s, s, [])
  {}

  /** Every written entry stands under the method and the name it is about, as a role rule owned by the
      namespace; whatever is new or changed is such an entry. */
  ghost predicate Standing(specs: seq<RuleSpec>, c: Context, before: Rules, after: Rules, wrote: seq<bool>) {
    && (forall i, m, b | 0 <= i < |wrote| && i < |specs| && wrote[i] && Concerns(c, specs[i], m, b) :: Present(after, m, b, c.namespace))
    && (forall id | id in after && !(id in before && after[id] == before[id]) ::
          exists i | 0 <= i < |wrote| && i < |specs| ::
            wrote[i] && specs[i].bindName != "" && Concerns(c, specs[i], after[id].method_, after[id].bindName))
  }

  lemma KeptIsStanding(specs: seq<RuleSpec>, c: Context, s: State, s': State, wrote: seq<bool>)
    requires Kept(specs, c, s, s', wrote)
    ensures Standing(specs, c, s.rules, s'.rules, wrote)
  {
    hide MethodOf, BindOf, Present, Concerns, InPlace, ValidState;
    forall i, m, b | 0 <= i < |wrote| && i < |specs| && wrote[i] && Concerns(c, specs[i], m, b) ensures Present(s'.rules, m, b, c.namespace) {
      ConcernsIs(c, specs[i], m, b);
    }
    forall id | id in s'.rules && !(id in s.rules && s'.rules[id] == s.rules[id])
      ensures exists i | 0 <= i < |wrote| && i < |specs| ::
                wrote[i] && specs[i].bindName != "" && Concerns(c, specs[i], s'.rules[id].method_, s'.rules[id].bindName)
    {
      var m, b := s'.rules[id].method_, s'.rules[id].bindName;
      var i :| 0 <= i < |wrote| && i < |specs| && wrote[i] && Named(specs[i]) && MethodOf(c, specs[i]) == m && BindOf(c, specs[i]) == b;
      ConcernsIs(c, specs[i], m, b);
    }
  }

  /** With safe IDs, whatever entries are written, nothing is lost or moved, and what was written stands. */
  lemma {:induction false} SafeIdsKeep(specs: seq<RuleSpec>, c: Context, states: seq<State>, wrote: seq<bool>)
    requires Replayed(specs, c, states, wrote) && WellFormed(c.namespace)
    requires ValidState(states[0]) && Dated(specs, states[0].nextId) && SafeIds(specs, c, states[0].rules)
    ensures Kept(specs, c, states[0], states[|wrote|], wrote) && Standing(specs, c, states[0].rules, states[|wrote|].rules, wrote)
    decreases |wrote|
  {
    hide Standing;
    if wrote == [] {
      KeptStart(specs, c, states[0]);
      KeptIsStanding(specs, c, states[0], states[0], wrote);
    } else {
      var n := |wrote| - 1;
      assert RuleStep(states[n], states[n + 1], c, specs[n], wrote[n]);
      assert Replayed(specs, c, states[..n + 1], wrote[..n]) by {
        ReplayedPrefix(specs, c, states, wrote, n);
      }
      SafeIdsKeep(specs, c, states[..n + 1], wrote[..n]);
      assert wrote == wrote[..n] + [wrote[n]];
      hide Replayed, Put, MethodOf, BindOf, WellFormed;
      if Named(specs[n]) && wrote[n] {
        NeatLasts(specs, c, states[0], states[n], n);
        NeatPut(states[n], states[n + 1], c, specs[n]);
        KeptMore(specs, c, states[0], states[n], states[n + 1], wrote[..n]);
      } else {
        KeptIdle(specs, c, states[0], states[n], wrote[..n]);
      }
      KeptIsStanding(specs, c, states[0], states[n + 1], wrote);
    }
  }

  lemma ReplayedPrefix(specs: seq<RuleSpec>, c: Context, states: seq<State>, wrote: seq<bool>, n: nat)
    requires Replayed(specs, c, states, wrote) && n <= |wrote|
    ensures Replayed(specs, c, states[..n + 1], wrote[..n])
  {
    hide RuleStep;
  }

  /** Only entry `i` is written, from `s`. */
  lemma OnlyOne(specs: seq<RuleSpec>, c: Context, s: State, i: nat, s': State) returns (states: seq<State>, wrote: seq<bool>)
    requires i < |specs| && Named(specs[i]) && Put(s, s', c, specs[i])
    ensures Replayed(specs, c, states, wrote) && |wrote| == |specs| && states[0] == s && states[|specs|] == s'
  {
    hide Put;
    states := seq(|specs| + 1, k => if k <= i then s else s');
    wrote := seq(|specs|, k => k == i);
  }

  /** The states a reconcile of the spec can reach from `s`. */
  ghost predicate Reaches(specs: seq<RuleSpec>, c: Context, s: State, s': State) {
    exists states: seq<State>, wrote: seq<bool> ::
      Replayed(specs, c, states, wrote) && |wrote| == |specs| && states[0] == s && states[|specs|] == s'
  }

  /** Whatever entries a reconcile manages to write, no rule is moved, if and only if no entry names
      the ID of a rule while there is none of its own name and method. */
  lemma NoRuleMovesIff(specs: seq<RuleSpec>, c: Context, s: State)
    requires ValidState(s) && Dated(specs, s.nextId) && WellFormed(c.namespace)
    ensures (forall s' | Reaches(specs, c, s, s') :: InPlace(s.rules, s'.rules)) <==> SafeIds(specs, c, s.rules)
  {
    if SafeIds(specs, c, s.rules) {
      forall s' | Reaches(specs, c, s, s') ensures InPlace(s.rules, s'.rules) {
        var states: seq<State>, wrote: seq<bool> :|
          Replayed(specs, c, states, wrote) && |wrote| == |specs| && states[0] == s && states[|specs|] == s';
        hide Replayed, InPlace;
        SafeIdsKeep(specs, c, states, wrote);
      }
    } else {
      hide Neat, InPlace;
      var i :| 0 <= i < |specs| && Named(specs[i]) && !Neat(s.rules, c, specs[i]);
      var s' := UnsafePut(s, c, specs[i]);
      var states, wrote := OnlyOne(specs, c, s, i, s');
      assert Reaches(specs, c, s, s');
    }
  }

  lemma UnsafePut(s: State, c: Context, spec: RuleSpec) returns (s': State)
    requires ValidState(s) && !Neat(s.rules, c, spec) && WellFormed(c.namespace)
    ensures Put(s, s', c, spec) && !InPlace(s.rules, s'.rules)
  {
    hide WithOwnerAdded, MethodOf, BindOf, WellFormed;
    s' := PutAt(s, c, spec, spec.id.value);
    assert Target(s, c, spec, spec.id.value);
    PutInPlaceIff(s, s', c, spec);
  }

  // ---------------------------------------------------------------- the status of the writes

  function WrittenKey(bindName: string): string {
    "Bind rule for role with name " + bindName
  }

  /** The names whose last write failed. */
  function FailedEntities(status: map<string, string>): set<string> {
    set k | k in status && "error:" <= status[k]
  }

  /** The names of the entries that were not written. */
  function FailedBy(specs: seq<RuleSpec>, c: Context, wrote: seq<bool>): set<string> {
    set i | 0 <= i < |wrote| && i < |specs| && Named(specs[i]) && !wrote[i] :: BindOf(c, specs[i])
  }

  lemma FailedByMore(specs: seq<RuleSpec>, c: Context, wrote: seq<bool>, w: bool)
    requires |wrote| < |specs|
    ensures FailedBy(specs, c, wrote + [w])
            == FailedBy(specs, c, wrote) + (if Named(specs[|wrote|]) && !w then {BindOf(c, specs[|wrote|])} else {})
  {
    hide BindOf;
    var f, g := wrote, wrote + [w];
    forall i | 0 <= i < |f| ensures g[i] == f[i] {}
    assert g[|f|] == w;
  }

  /** A generated name is never the key under which a success is reported. */
  lemma GeneratedIsNoStatusKey(entity: string, name: string, namespace: string, other: string)
    requires ' ' !in name
    ensures ConvertEntityName(entity, name, namespace) != WrittenKey(other)
    ensures ConvertEntityName(entity, name, namespace) != UNNAMED_KEY
  {
    var g, n := ConvertEntityName(entity, name, namespace), |name|;
    GeneratedStart(entity, name, namespace);
    WrittenKeyStart(other);
    assert g[n] in g && '_' !in UNNAMED_KEY;
    if n > 4 {
      assert name[4] in name;
    }
  }

  lemma GeneratedStart(entity: string, name: string, namespace: string)
    ensures var g := ConvertEntityName(entity, name, namespace);
            |g| > |name| && g[|name|] == '_' && forall i | 0 <= i < |name| :: g[i] == name[i]
  {}

  lemma WrittenKeyStart(other: string)
    ensures |WrittenKey(other)| > 5 && WrittenKey(other)[4] == ' '
    ensures forall i | 0 <= i < 5 :: WrittenKey(other)[i] != '_'
  {}

  /** Of the generated names, exactly those of entries that were not written are reported as failed. */
  ghost predicate Reported(status: map<string, string>, specs: seq<RuleSpec>, c: Context, wrote: seq<bool>) {
    forall e :: GeneratedName(c, e) in FailedEntities(status) <==> GeneratedName(c, e) in FailedBy(specs, c, wrote)
  }

  lemma ReportedMore(status: map<string, string>, specs: seq<RuleSpec>, c: Context, wrote: seq<bool>, key: string, value: string, w: bool)
    requires Reported(status, specs, c, wrote) && |wrote| < |specs| && ' ' !in c.name
    requires if Named(specs[|wrote|]) && !w then key == BindOf(c, specs[|wrote|]) && "error:" <= value
             else key == UNNAMED_KEY || key == WrittenKey(BindOf(c, specs[|wrote|]))
    ensures Reported(status[key := value], specs, c, wrote + [w])
  {
    hide WrittenKey, BindOf, FailedBy;
    FailedByMore(specs, c, wrote, w);
    forall e ensures GeneratedName(c, e) in FailedEntities(status[key := value]) <==> GeneratedName(c, e) in FailedBy(specs, c, wrote + [w]) {
      GeneratedIsNoStatusKey(e, c.name, c.namespace, BindOf(c, specs[|wrote|]));
      hide ConvertEntityName;
    }
  }

  // ---------------------------------------------------------------- the API

  function Nth(script: seq<Outcome>, n: nat): Outcome {
    if n < |script| then script[n] else Fine
  }

  function Drop(script: seq<Outcome>, n: nat): seq<Outcome> {
    if n < |script| then script[n..] else []
  }

  lemma DropMore(script: seq<Outcome>, n: nat)
    ensures First(Drop(script, n)) == Nth(script, n) && Rest(Drop(script, n)) == Drop(script, n + 1)
  {}

  lemma FineRest(script: seq<Outcome>)
    requires AllFine(script)
    ensures First(script).Fine? && AllFine(Rest(script))
  {
    if script != [] {
      assert script[0] in script;
    }
  }

  class RuleApi {
    var rules: Rules
    var nextId: nat
    /** The auth methods that exist. */
    const methods: set<string>
    /** How the reads, the writes and the deletions to come end. */
    var readings: seq<Outcome>
    var writes: seq<Outcome>
    var deletions: seq<Outcome>

    ghost predicate Valid()
      reads this
    {
      forall id | id in rules :: id < nextId
    }

    function Now(): State
      reads this
    {
      State(rules, nextId)
    }

    constructor (rules: Rules, nextId: nat, methods: set<string>, readings: seq<Outcome>, writes: seq<Outcome>, deletions: seq<Outcome>)
      requires forall id | id in rules :: id < nextId
      ensures Valid() && this.rules == rules && this.nextId == nextId && this.methods == methods
      ensures this.readings == readings && this.writes == writes && this.deletions == deletions
    {
      this.rules, this.nextId, this.methods := rules, nextId, methods;
      this.readings, this.writes, this.deletions := readings, writes, deletions;
    }

    method Look() returns (o: Outcome)
      modifies this`readings
      ensures o == First(old(readings)) && readings == Rest(old(readings))
    {
      o := First(readings);
      readings := Rest(readings);
    }

    /** The rules of one method, in no particular order. */
    method List(m: string) returns (o: Outcome, ids: seq<nat>)
      modifies this`readings
      ensures o == First(old(readings)) && readings == Rest(old(readings))
      ensures forall id :: id in ids <==> id in rules && rules[id].method_ == m
      ensures forall i, j | 0 <= i < j < |ids| :: ids[i] != ids[j]
    {
      o := Look();
      ids := [];
      var rest := set id | id in rules && rules[id].method_ == m;
      while rest != {}
        invariant forall id | id in rest :: id in rules && rules[id].method_ == m
        invariant forall id :: id in ids <==> id in rules && rules[id].method_ == m && id !in rest
        invariant forall i, j | 0 <= i < j < |ids| :: ids[i] != ids[j]
        decreases |rest|
      {
        var id :| id in rest;
        ids := ids + [id];
        rest := rest - {id};
      }
    }

    method Delete(id: nat) returns (o: Outcome)
      requires Valid()
      modifies this`rules, this`deletions
      ensures Valid() && rules == if o.Fine? then old(rules) - {id} else old(rules)
      ensures o == First(old(deletions)) && deletions == Rest(old(deletions))
    {
      o := First(deletions);
      deletions := Rest(deletions);
      if o.Fine? {
        rules := rules - {id};
      }
    }

    /** The first listed rule of the name. */
    method Find(ids: seq<nat>, m: string, b: string) returns (found: Option<nat>)
      requires forall id :: id in ids <==> id in rules && rules[id].method_ == m
      ensures found.Some? <==> HasRule(rules, m, b)
      ensures found.Some? ==> found.value in rules && IsRule(rules[found.value], m, b)
    {
      for i := 0 to |ids|
        invariant forall j | 0 <= j < i :: ids[j] in rules && rules[ids[j]].bindName != b
      {
        assert ids[i] in ids;
        if rules[ids[i]].bindName == b {
          return Some(ids[i]);
        }
      }
      return None;
    }

    /** Creates or updates the rule of an entry. An update of an unknown ID is an error. */
    method WriteRule(c: Context, spec: RuleSpec) returns (o: Outcome, listed: bool, action: string)
      requires Valid()
      modifies this`rules, this`nextId, this`readings, this`writes
      ensures Valid() && readings == Rest(old(readings)) && listed == First(old(readings)).Fine?
      ensures !listed ==> !o.Fine? && writes == old(writes)
      ensures listed ==> writes == Rest(old(writes))
      ensures listed ==> o == if First(old(writes)).Fine? && !Writable(old(Now()), c, spec) then Permanent else First(old(writes))
      ensures o.Fine? ==> Put(old(Now()), Now(), c, spec)
      ensures o.Fine? && WellFormed(c.namespace) ==>
                forall m, b | Concerns(c, spec, m, b) :: exists id :: WrittenAt(old(rules), rules, spec, c.namespace, m, b, id)
      ensures !o.Fine? ==> Now() == old(Now())
      ensures action == "create" || action == "update"
    {
      var m, b := MethodOf(c, spec), BindOf(c, spec);
      hide MethodOf, BindOf, WithOwnerAdded, Put, WrittenAt, Concerns, WellFormed;
      var ids;
      action := "create";
      o, ids := List(m);
      listed := o.Fine?;
      if !listed {
        return;
      }
      var found := Find(ids, m, b);
      var id := if found.Some? then found.value else if spec.id.Some? then spec.id.value else nextId;
      action := if found.Some? || spec.id.Some? then "update" else "create";
      o := First(writes);
      writes := Rest(writes);
      if o.Fine? {
        if action == "update" && id !in rules {
          o := Permanent;
        } else {
          PutByTarget(Now(), c, spec, id);
          var existing := if found.Some? then rules[id].description else "";
          rules := rules[id := Rule(m, b, BIND_TYPE_ROLE, WithOwnerAdded(spec.description, existing, c.namespace))];
          nextId := if action == "create" then nextId + 1 else nextId;
          if WellFormed(c.namespace) {
            forall m', b' | Concerns(c, spec, m', b') ensures exists id :: WrittenAt(old(rules), rules, spec, c.namespace, m', b', id) {
              var at := PutMeans(old(Now()), Now(), c, spec, m', b');
            }
          }
        }
      }
    }
  }

  lemma PutByTarget(s: State, c: Context, spec: RuleSpec, id: nat)
    requires Target(s, c, spec, id)
    ensures Put(s, PutAt(s, c, spec, id), c, spec)
  {
    hide Target, PutAt;
  }

  // ---------------------------------------------------------------- applying the rules of a spec

  /** How many entries before `i` have a name. */
  function NamedBefore(specs: seq<RuleSpec>, i: nat): nat
    requires i <= |specs|
  {
    if i == 0 then 0 else NamedBefore(specs, i - 1) + (if Named(specs[i - 1]) then 1 else 0)
  }

  /** The write of one of the first `n` entries fails for a transient reason. */
  ghost predicate Interrupted(specs: seq<RuleSpec>, writes: seq<Outcome>, n: nat)
    requires n <= |specs|
  {
    exists i | 0 <= i < n :: specs[i].bindName != "" && Nth(writes, NamedBefore(specs, i)).Transient?
  }

  lemma InterruptedMore(specs: seq<RuleSpec>, writes: seq<Outcome>, n: nat)
    requires n < |specs|
    ensures !Interrupted(specs, writes, 0)
    ensures Interrupted(specs, writes, n + 1)
            <==> Interrupted(specs, writes, n) || (Named(specs[n]) && Nth(writes, NamedBefore(specs, n)).Transient?)
  {
    hide Nth, NamedBefore;
  }

  predicate MethodsExist(specs: seq<RuleSpec>, c: Context, methods: set<string>) {
    forall s | s in specs && Named(s) :: MethodOf(c, s) in methods
  }

  /** The writes to come decide which entries are written. */
  ghost predicate Scripted(specs: seq<RuleSpec>, c: Context, states: seq<State>, wrote: seq<bool>, writes: seq<Outcome>) {
    && |wrote| < |states| && |wrote| <= |specs|
    && forall i | 0 <= i < |wrote| && Named(specs[i]) ::
         wrote[i] <==> Nth(writes, NamedBefore(specs, i)).Fine? && Writable(states[i], c, specs[i])
  }

  lemma ScriptedMore(specs: seq<RuleSpec>, c: Context, states: seq<State>, wrote: seq<bool>, writes: seq<Outcome>, s: State, w: bool)
    requires Scripted(specs, c, states, wrote, writes) && |states| == |wrote| + 1 && |wrote| < |specs|
    requires Named(specs[|wrote|]) ==>
               (w <==> Nth(writes, NamedBefore(specs, |wrote|)).Fine? && Writable(states[|wrote|], c, specs[|wrote|]))
    ensures Scripted(specs, c, states + [s], wrote + [w], writes)
  {
    hide Writable, Nth, NamedBefore;
  }

  /** Applies one rule. The auth method is looked up once; a failed lookup or list stops the loop. */
  method ProcessRule(api: RuleApi, spec: RuleSpec, c: Context, known: set<string>)
    returns (stop: bool, known': set<string>, key: string, value: string, done: bool, retry: bool)
    requires api.Valid()
    modifies api`rules, api`nextId, api`readings, api`writes
    ensures api.Valid() && (stop ==> api.Now() == old(api.Now()))
    ensures !stop ==> RuleStep(old(api.Now()), api.Now(), c, spec, done)
    ensures !stop ==> if Named(spec) && !done then key == BindOf(c, spec) && "error:" <= value
                      else key == UNNAMED_KEY || key == WrittenKey(BindOf(c, spec))
    ensures !stop && Named(spec) ==> retry || MethodOf(c, spec) in api.methods
    ensures AllFine(old(api.readings)) && (Named(spec) ==> MethodOf(c, spec) in api.methods) ==> !stop && AllFine(api.readings)
    ensures !Named(spec) ==> !retry && api.writes == old(api.writes)
    ensures !stop && Named(spec) && MethodOf(c, spec) in api.methods ==>
              && api.writes == Rest(old(api.writes))
              && (done <==> First(old(api.writes)).Fine? && Writable(old(api.Now()), c, spec))
              && (retry <==> First(old(api.writes)).Transient?)
  {
    hide Put, Writable, MethodOf, BindOf, WrittenKey, AllFine;
    known', stop, done, retry := known, false, false, false;
    key, value := UNNAMED_KEY, "Some binding rules have not got a name";
    if !Named(spec) {
      return;
    }
    var m, b := MethodOf(c, spec), BindOf(c, spec);
    if m !in known {
      FineStep(api.readings);
      var o := api.Look();
      known' := known + {m};
      if !o.Fine? {
        stop := true;
        return;
      }
    }
    if m !in api.methods {
      key, value, retry := b, "error: auth method does not exist", true;
      return;
    }
    FineStep(api.readings);
    var o, listed, action := api.WriteRule(c, spec);
    if !listed {
      stop := true;
      return;
    }
    done, retry := o.Fine?, o.Transient?;
    key, value := if done then WrittenKey(b) else b, if done then action + "d" else "error: write failed";
  }

  /** Applies the rules of a spec. A rule that can not be written is reported under its name; a
      transient failure and an unknown method are returned as an error. */
  method ProcessBindRules(api: RuleApi, specs: seq<RuleSpec>, c: Context)
    returns (err: bool, status: map<string, string>, ghost states: seq<State>, ghost wrote: seq<bool>)
    requires api.Valid()
    modifies api`rules, api`nextId, api`readings, api`writes
    ensures api.Valid()
    ensures Replayed(specs, c, states, wrote) && |states| == |wrote| + 1
    ensures states[0] == old(api.Now()) && states[|wrote|] == api.Now()
    ensures !err ==> |wrote| == |specs| && MethodsExist(specs, c, api.methods)
    ensures ' ' !in c.name ==> Reported(status, specs, c, wrote)
    ensures AllFine(old(api.readings)) && MethodsExist(specs, c, api.methods) ==>
              && AllFine(api.readings) && Scripted(specs, c, states, wrote, old(api.writes))
              && (err <==> Interrupted(specs, old(api.writes), |specs|))
  {
    hide Interrupted;
    hide Replayed, Reported, Scripted, Put, Writable, MethodOf, BindOf, WrittenKey, AllFine, RuleStep, NamedBefore, Nth, Drop, First, Rest;
    status, states, wrote := map[], [api.Now()], [];
    var retry, known := false, {};
    ghost var fine := AllFine(api.readings) && MethodsExist(specs, c, api.methods);
    StartRules(api.Now(), specs, c, api.writes);
    for i := 0 to |specs|
      invariant api.Valid() && |wrote| == i && |states| == i + 1 && states[0] == old(api.Now()) && states[i] == api.Now()
      invariant Replayed(specs, c, states, wrote)
      invariant ' ' !in c.name ==> Reported(status, specs, c, wrote)
      invariant retry || forall j | 0 <= j < i && Named(specs[j]) :: MethodOf(c, specs[j]) in api.methods
      invariant fine ==> AllFine(api.readings) && Scripted(specs, c, states, wrote, old(api.writes))
      invariant fine ==> api.writes == Drop(old(api.writes), NamedBefore(specs, i)) && (retry <==> Interrupted(specs, old(api.writes), i))
    {
      assert specs[i] in specs;
      NamedMore(specs, i);
      InterruptedMore(specs, old(api.writes), i);
      DropMore(old(api.writes), NamedBefore(specs, i));
      var stop, key, value, done, again;
      stop, known, key, value, done, again := ProcessRule(api, specs[i], c, known);
      if stop {
        err := true;
        return;
      }
      retry := retry || again;
      ReplayedMore(specs, c, states, wrote, api.Now(), done);
      if ' ' !in c.name {
        ReportedMore(status, specs, c, wrote, key, value, done);
      }
      if fine {
        ScriptedMore(specs, c, states, wrote, old(api.writes), api.Now(), done);
      }
      status, states, wrote := status[key := value], states + [api.Now()], wrote + [done];
    }
    err := retry;
  }

  lemma StartRules(s: State, specs: seq<RuleSpec>, c: Context, writes: seq<Outcome>)
    ensures Replayed(specs, c, [s], []) && Reported(map[], specs, c, []) && Scripted(specs, c, [s], [], writes)
    ensures NamedBefore(specs, 0) == 0 && Drop(writes, 0) == writes && !Interrupted(specs, writes, 0)
  {}

  lemma NamedMore(specs: seq<RuleSpec>, i: nat)
    requires i < |specs|
    ensures NamedBefore(specs, i + 1) == NamedBefore(specs, i) + (if Named(specs[i]) then 1 else 0)
  {}

  lemma FineStep(script: seq<Outcome>)
    ensures AllFine(script) ==> First(script).Fine? && AllFine(Rest(script))
  {
    if AllFine(script) {
      FineRest(script);
    }
  }
}
