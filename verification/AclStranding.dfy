/** Two reconciles, carried out call by call, after which a service is left without its binding rule. */
module AclStranding {
  import opened Wrappers
  import opened Owners
  import opened AclEntities
  import opened AclPrefix
  import opened AclRules
  import opened AclMigration

  const BOTH_METHODS := {"g", "old"}

  lemma OldIsSearched()
    ensures Searched(["old"], "g", BOTH_METHODS) == {"old"}
  {}

  // ---------------------------------------------------------------- an explicit name

  const EXPLICIT := Context("g", "c", "n", true)
  const EXPLICIT_SPEC := [RuleSpec("x", "", "", None)]
  const COPY := Rule("old", GeneratedName(EXPLICIT, "x"), BIND_TYPE_ROLE, "")

  /** With the one write of the reconcile failed, the copy goes and nothing takes its place. */
  lemma FailedWriteStrands(states: seq<State>, failed: set<string>, after: Rules)
    requires Migrated(EXPLICIT_SPEC, EXPLICIT, ["old"], BOTH_METHODS, states, [false], failed, after)
    requires states[0].rules == map[0 := COPY]
    ensures Stranded(map[0 := COPY], after, EXPLICIT_SPEC, EXPLICIT, 0, 0)
  {
    assert RuleStep(states[0], states[1], EXPLICIT, EXPLICIT_SPEC[0], false);
    OldIsSearched();
    GeneratedIsLonger(EXPLICIT, "x");
    assert GeneratedName(EXPLICIT, "x") !in FailedBy(EXPLICIT_SPEC, EXPLICIT, [false]);
    assert !DeclaredUnder(EXPLICIT_SPEC, EXPLICIT, "old", COPY.bindName);
    hide GeneratedName, Searched;
    assert Legacy(COPY, EXPLICIT_SPEC, EXPLICIT, true, failed);
  }

  /** The rule "x" of an explicit spec can not be written for a reason that is not transient; its
      legacy copy is removed all the same. */
  method ExplicitStranding() returns (ok: bool, before: Rules, after: Rules)
    ensures ok && before == map[0 := COPY] && Stranded(before, after, EXPLICIT_SPEC, EXPLICIT, 0, 0)
  {
    before := map[0 := COPY];
    var api := new RuleApi(before, 1, BOTH_METHODS, [], [Permanent], []);
    ghost var states, wrote, failed;
    ok, states, wrote, failed := ApplyBindRules(api, EXPLICIT_SPEC, ["old"], EXPLICIT);
    after := api.rules;
    assert ok && wrote == [false] by {
      assert NamedBefore(EXPLICIT_SPEC, 0) == 0 && Nth([Permanent], 0) == Permanent;
    }
    FailedWriteStrands(states, failed, after);
  }

  // ---------------------------------------------------------------- the ID of another rule

  const PREFIXED := Context("g", "c", "n", false)
  const ID_SPEC := [RuleSpec("a", "", "", None), RuleSpec("b", "", "", Some(0))]
  const RULE_A := Rule("g", GeneratedName(PREFIXED, "a"), BIND_TYPE_ROLE, "")
  const COPY_A := Rule("old", GeneratedName(PREFIXED, "a"), BIND_TYPE_ROLE, "")

  lemma TwoNames()
    ensures GeneratedName(PREFIXED, "a") != GeneratedName(PREFIXED, "b")
    ensures Prefix("c", "n") <= GeneratedName(PREFIXED, "a")
  {
    assert GeneratedName(PREFIXED, "a")[4] == 'a' && GeneratedName(PREFIXED, "b")[4] == 'b';
  }

  /** The first entry is written to its rule, the second turns that rule into its own. */
  lemma SecondEntryTakesRule(s0: State, s1: State, s2: State)
    requires s0.rules == map[0 := RULE_A, 1 := COPY_A] && Put(s0, s1, PREFIXED, ID_SPEC[0]) && Put(s1, s2, PREFIXED, ID_SPEC[1])
    ensures s2.rules.Keys == {0, 1} && s2.rules[1] == COPY_A && IsRule(s2.rules[0], "g", GeneratedName(PREFIXED, "b"))
  {
    TwoNames();
    hide GeneratedName, WithOwnerAdded;
    assert IsRule(s0.rules[0], "g", GeneratedName(PREFIXED, "a"));
    var i :| Target(s0, PREFIXED, ID_SPEC[0], i) && s1 == PutAt(s0, PREFIXED, ID_SPEC[0], i);
    assert i == 0;
    var j :| Target(s1, PREFIXED, ID_SPEC[1], j) && s2 == PutAt(s1, PREFIXED, ID_SPEC[1], j);
    assert !HasRule(s1.rules, "g", GeneratedName(PREFIXED, "b"));
    assert j == 0;
  }

  lemma TakenRuleStrands(states: seq<State>, failed: set<string>, after: Rules)
    requires Migrated(ID_SPEC, PREFIXED, ["old"], BOTH_METHODS, states, [true, true], failed, after)
    requires states[0].rules == map[0 := RULE_A, 1 := COPY_A]
    ensures Stranded(map[0 := RULE_A, 1 := COPY_A], after, ID_SPEC, PREFIXED, 1, 0)
    ensures !InPlace(map[0 := RULE_A, 1 := COPY_A], after)
  {
    assert RuleStep(states[0], states[1], PREFIXED, ID_SPEC[0], true) && RuleStep(states[1], states[2], PREFIXED, ID_SPEC[1], true);
    SecondEntryTakesRule(states[0], states[1], states[2]);
    OldIsSearched();
    TwoNames();
    assert FailedBy(ID_SPEC, PREFIXED, [true, true]) == {};
    assert GeneratedName(PREFIXED, "a") !in failed;
    assert !DeclaredUnder(ID_SPEC, PREFIXED, "old", COPY_A.bindName);
    hide GeneratedName, Searched, DeclaredUnder, Replayed, FailedBy;
    var mid := states[2].rules;
    assert Legacy(mid[1], ID_SPEC, PREFIXED, true, failed);
    assert 1 !in after;
    assert forall id | id in after :: id == 0 && after[id] == mid[0];
  }

  lemma BothWritable(s0: State, s1: State)
    requires s0.rules == map[0 := RULE_A, 1 := COPY_A] && Put(s0, s1, PREFIXED, ID_SPEC[0])
    ensures Writable(s0, PREFIXED, ID_SPEC[0]) && Writable(s1, PREFIXED, ID_SPEC[1])
  {
    hide GeneratedName, WithOwnerAdded;
    assert IsRule(s0.rules[0], "g", GeneratedName(PREFIXED, "a"));
  }

  lemma BothWritten(states: seq<State>, wrote: seq<bool>)
    requires Replayed(ID_SPEC, PREFIXED, states, wrote) && |wrote| == 2 && |states| == 3
    requires states[0].rules == map[0 := RULE_A, 1 := COPY_A] && Scripted(ID_SPEC, PREFIXED, states, wrote, [])
    ensures wrote == [true, true]
  {
    assert RuleStep(states[0], states[1], PREFIXED, ID_SPEC[0], wrote[0]);
    hide GeneratedName, Put, Writable;
    assert Nth([], NamedBefore(ID_SPEC, 0)).Fine? && Nth([], NamedBefore(ID_SPEC, 1)).Fine?;
    FirstWritable(states[0]);
    assert wrote[0];
    BothWritable(states[0], states[1]);
  }

  lemma FirstWritable(s0: State)
    requires s0.rules == map[0 := RULE_A, 1 := COPY_A]
    ensures Writable(s0, PREFIXED, ID_SPEC[0])
  {}

  /** Nothing fails: "a" is written to its rule, "b", which names the ID of that rule and has none of
      its own, turns it into its own, and the legacy copy of "a" is removed. */
  method IdStranding() returns (ok: bool, before: Rules, after: Rules)
    ensures ok && before == map[0 := RULE_A, 1 := COPY_A] && !SafeIds(ID_SPEC, PREFIXED, before)
    ensures Stranded(before, after, ID_SPEC, PREFIXED, 1, 0) && !InPlace(before, after)
  {
    before := map[0 := RULE_A, 1 := COPY_A];
    var api := new RuleApi(before, 2, BOTH_METHODS, [], [], []);
    ghost var states, wrote, failed;
    ok, states, wrote, failed := ApplyBindRules(api, ID_SPEC, ["old"], PREFIXED);
    after := api.rules;
    UnsafeId();
    hide Replayed, SafeIds, InPlace, Stranded, Purged, FailedCopies, PurgedSome, Scripted;
    assert AllFine([]) && MethodsExist(ID_SPEC, PREFIXED, BOTH_METHODS) && Transient !in [];
    assert ok;
    BothWritten(states, wrote);
    TakenRuleStrands(states, failed, after);
  }

  lemma UnsafeId()
    ensures !SafeIds(ID_SPEC, PREFIXED, map[0 := RULE_A, 1 := COPY_A])
  {
    TwoNames();
    hide GeneratedName;
    var rules: Rules := map[0 := RULE_A, 1 := COPY_A];
    assert !HasRule(rules, "g", GeneratedName(PREFIXED, "b"));
    assert !Neat(rules, PREFIXED, ID_SPEC[1]);
  }
}
