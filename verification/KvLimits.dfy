/** What the ConsulKV protocol does not survive, and exactly when: a lost record, an external write
    to a counted key, an owned key that is gone. */
module KvLimits {
  import opened ConsulStore
  import opened Wrappers
  import opened KvFlags
  import opened KvStatus
  import opened KvProtocol
  import opened KvSafety

  // ---------------------------------------------------------------- a lost record

  function Cut(w: World, c: string): World
    requires c in w.crs && Enabled(w.crs[c], Abort)
  {
    World(w.store, w.crs[c := w.crs[c].(pc := Idle)])
  }

  /** Losing the record of a reconcile is safe exactly when it has not released a key: otherwise
      the resource is still recorded as an owner of keys it no longer pays for. */
  lemma LostRecordSafeIff(w: World, c: string)
    requires Inv(w) && Exact(w) && c in w.crs && Enabled(w.crs[c], Abort)
    ensures Safe(Cut(w, c)) <==> ReleasedSoFar(w.crs[c].pc) == {}
  {
    var cr, w' := w.crs[c], Cut(w, c);
    ExactIsSafe(w);
    if ReleasedSoFar(cr.pc) == {} {
      StepPreservesSafe(w, c, Abort);
    } else {
      var k :| k in ReleasedSoFar(cr.pc);
      HoldersChange(w.crs, c, w'.crs[c], k);
      assert k in Held(w'.crs[c]) && k !in Held(cr);
      assert |Holders(w'.crs, k)| == Flags(w.store, k) + 1;
    }
  }

  /** Losing it keeps the counters exact if and only if the reconcile has changed nothing in
      what the resource holds. */
  lemma LostRecordExactIff(w: World, c: string)
    requires Inv(w) && Exact(w) && c in w.crs && Enabled(w.crs[c], Abort)
    ensures Exact(Cut(w, c)) <==> Held(w.crs[c]) == OwnedKeys(w.crs[c].status)
  {
    var cr, w' := w.crs[c], Cut(w, c);
    forall k ensures |Holders(w'.crs, k)| == Flags(w'.store, k) <==> (k in Held(cr) <==> k in OwnedKeys(cr.status)) {
      HoldersChange(w.crs, c, w'.crs[c], k);
    }
    if Exact(w') {
      forall k ensures k in Held(cr) <==> k in OwnedKeys(cr.status) {
        assert |Holders(w'.crs, k)| == Flags(w'.store, k);
      }
    }
  }

  // ---------------------------------------------------------------- a second release

  lemma StepIs(w: World, c: string, m: Move)
    requires c in w.crs && Enabled(w.crs[c], m) && !m.Abort?
    ensures Allowed(w, Step(c, m))
    ensures After(w, Step(c, m)) == World(StoreAfter(w.store, w.crs[c], m), w.crs[c := CrAfter(w.store, w.crs[c], m)])
  {
    hide StoreAfter, CrAfter, Enabled;
  }

  lemma {:induction false} RunsConcat(w: World, a: seq<Event>, w1: World, b: seq<Event>, w2: World)
    requires Runs(w, a, w1) && Runs(w1, b, w2)
    ensures Runs(w, a + b, w2)
    decreases |a|
  {
    if a == [] {
      assert a + b == b;
    } else {
      hide Allowed, After;
      assert (a + b)[0] == a[0] && (a + b)[1..] == a[1..] + b;
      RunsConcat(After(w, a[0]), a[1..], w1, b, w2);
    }
  }

  lemma RunsOne(w: World, e: Event)
    requires Allowed(w, e)
    ensures Runs(w, [e], After(w, e))
  {
    hide Allowed, After;
    assert [e][1..] == [];
    assert Runs(After(w, e), [], After(w, e));
  }

  /** One more move at the end of a run. */
  lemma RunsStep(w: World, events: seq<Event>, w1: World, c: string, m: Move)
    requires Runs(w, events, w1) && c in w1.crs && Enabled(w1.crs[c], m) && !m.Abort?
    ensures Runs(w, events + [Step(c, m)],
                 World(StoreAfter(w1.store, w1.crs[c], m), w1.crs[c := CrAfter(w1.store, w1.crs[c], m)]))
  {
    StepIs(w1, c, m);
    hide Allowed, After, Enabled, StoreAfter, CrAfter;
    RunsOne(w1, Step(c, m));
    RunsConcat(w, events, w1, [Step(c, m)], After(w1, Step(c, m)));
  }

  lemma OneKeyOps(k: string, pair: Pair)
    ensures ReleaseOps([k], [Some(pair)]) == [ReleaseOp(k, pair)]
  {
    assert [k][..0] == [] && [Some(pair)][..0] == [];
  }

  /** One operation on one key. */
  lemma CommitOne(s: Store, op: Op)
    ensures op.DeleteCas? ==> op.key !in Commit(s, [op]).pairs
    ensures op.Cas? ==> Lookup(Commit(s, [op]), op.key) == Some(Pair(op.value, op.flags, s.index + 1))
  {
    WriteAllPointwise(s.pairs, [op], s.index + 1);
    assert [op][0] == op;
  }

  function ReleasingOne(c: string): seq<Event> {
    [Step(c, Begin)] + [Step(c, Read(false))] + [Step(c, Submit(false))]
  }

  /** The three moves with which a deleted resource releases its one key. */
  lemma ReleaseOneKey(s: Store, cr: Cr, k: string, pair: Pair) returns (cr1: Cr, cr2: Cr, cr3: Cr)
    requires cr.pc.Idle? && cr.deleting && OwnedStatusKeys(cr.status) == [k] && Lookup(s, k) == Some(pair)
    ensures Enabled(cr, Begin) && CrAfter(s, cr, Begin) == cr1 && StoreAfter(s, cr, Begin) == s
    ensures Enabled(cr1, Read(false)) && CrAfter(s, cr1, Read(false)) == cr2 && StoreAfter(s, cr1, Read(false)) == s
    ensures Enabled(cr2, Submit(false)) && CrAfter(s, cr2, Submit(false)) == cr3
    ensures cr3 == cr.(pc := Recording(Finalize, {k}, true))
    ensures StoreAfter(s, cr2, Submit(false)) == Commit(s, [ReleaseOp(k, pair)])
  {
    hide OwnedStatusKeys;
    OneKeyOps(k, pair);
    cr1 := cr.(pc := Releasing(Finalize, [k], {}, [], 0));
    cr2 := cr.(pc := Releasing(Finalize, [k], {}, [Some(pair)], 0));
    assert KeySet([k]) == {k} && {} + {k} == {k};
    cr3 := CrAfter(s, cr2, Submit(false));
  }

  /** The same moves as a run of the system. */
  lemma ReleasesOneKey(w: World, c: string, k: string) returns (w': World)
    requires c in w.crs && k in w.store.pairs
    requires var cr := w.crs[c]; cr.pc.Idle? && cr.deleting && OwnedStatusKeys(cr.status) == [k]
    ensures Runs(w, ReleasingOne(c), w')
    ensures w'.crs == w.crs[c := w.crs[c].(pc := Recording(Finalize, {k}, true))]
    ensures w'.store == Commit(w.store, [ReleaseOp(k, w.store.pairs[k])])
  {
    hide StoreAfter, CrAfter, Enabled, After, Allowed, OwnedStatusKeys, Commit;
    var s, cr := w.store, w.crs[c];
    var cr1, cr2, cr3 := ReleaseOneKey(s, cr, k, s.pairs[k]);
    assert Runs(w, [], w);
    assert [] + [Step(c, Begin)] == [Step(c, Begin)];
    RunsStep(w, [], w, c, Begin);
    RunsStep(w, [Step(c, Begin)], World(s, w.crs[c := cr1]), c, Read(false));
    assert w.crs[c := cr1][c := cr2] == w.crs[c := cr2] && w.crs[c := cr2][c := cr3] == w.crs[c := cr3];
    RunsStep(w, [Step(c, Begin)] + [Step(c, Read(false))], World(s, w.crs[c := cr2]), c, Submit(false));
    w' := World(Commit(s, [ReleaseOp(k, s.pairs[k])]), w.crs[c := cr3]);
  }

  /** What a lost record can do: a resource whose one key was already released, and which is still
      recorded as its owner, releases it again and deletes it from under its last holder. */
  lemma SecondReleaseDeletes(w: World, c: string, d: string, k: string) returns (w': World)
    requires Inv(w) && Exact(w) && c in w.crs && d != c && Enabled(w.crs[c], Abort)
    requires w.crs[c].deleting && OwnedStatusKeys(w.crs[c].status) == [k] && Holders(w.crs, k) == {d}
    ensures Runs(Cut(w, c), ReleasingOne(c), w')
    ensures k in w.store.pairs && k !in w'.store.pairs && d in Holders(w'.crs, k)
  {
    hide Inv, Held, OwnedStatusKeys, Commit, Enabled, Runs, ReleasingOne;
    ExactIsSafe(w);
    assert d in Holders(w.crs, k) && |Holders(w.crs, k)| == 1;
    HolderCounts(w, d, k);
    w' := ReleasesOneKey(Cut(w, c), c, k);
    CommitOne(w.store, ReleaseOp(k, w.store.pairs[k]));
  }

  // ---------------------------------------------------------------- and it happens

  const SPEC := [Entry("k", "v")]
  const SYNCED := [EntryStatus("k", STATUS_SYNCED, true)]

  function ClaimingOne(c: string): seq<Event> {
    [Step(c, Begin)] + [Step(c, Read(false))] + [Step(c, Submit(false))] + [Step(c, Record)]
  }

  /** What a reconcile of the spec computes around its one transaction. */
  lemma OneEntry(found: Option<Pair>)
    ensures OwnedKeys([]) == {} && Winners(SPEC) == SPEC && KeysToDrop([], SPEC) == []
    ensures ClaimOps(SPEC, [found], {}) == [ClaimOp(SPEC[0], found, false)]
    ensures WillOwn(SPEC, [found], {}) == map["k" := ClaimOf(found, false).own]
    ensures ApplyStatuses(SPEC, {}, map["k" := true], None) == SYNCED && Merge([], SYNCED, {}) == SYNCED
    ensures OwnedStatusKeys(SYNCED) == ["k"] && OwnedKeys(SYNCED) == {"k"}
  {
    assert OwnedKeys([]) == {};
    assert Wins(SPEC, 0) && WinnersUpTo(SPEC, 0) == [] && WinnersUpTo(SPEC, 1) == SPEC;
    assert RemovedEntries([], Keys(SPEC)) == [];
    assert SPEC[..0] == [] && [found][..0] == [] && SYNCED[..0] == [];
    assert Wins(SPEC, 0);
    assert ApplyStatuses(SPEC, {}, map["k" := true], None) == SYNCED;
    assert [] + SYNCED == SYNCED && Order(SYNCED) == ["k"] && Group(SYNCED, "k") == SYNCED;
    assert ["k"][..0] == [];
    assert Layout([], [], SYNCED, {}) == [];
    assert Layout(["k"], [], SYNCED, {}) == SYNCED;
    assert OwnedStatusKeys([]) == [];
    assert SYNCED[0].owned;
    assert OwnedKeys(SYNCED) == {"k"};
  }

  /** The four moves with which a new resource claims its one key and records it. */
  lemma ClaimOneKey(s: Store) returns (cr1: Cr, cr2: Cr, cr3: Cr, s': Store)
    requires "k" in s.pairs ==> s.pairs["k"].flags > 0
    ensures var cr := Cr(SPEC, [], false, Idle);
            && Enabled(cr, Begin) && CrAfter(s, cr, Begin) == cr1 && StoreAfter(s, cr, Begin) == s
            && Enabled(cr1, Read(false)) && CrAfter(s, cr1, Read(false)) == cr2 && StoreAfter(s, cr1, Read(false)) == s
            && Enabled(cr2, Submit(false)) && CrAfter(s, cr2, Submit(false)) == cr3 && StoreAfter(s, cr2, Submit(false)) == s'
            && Enabled(cr3, Record) && CrAfter(s', cr3, Record) == Cr(SPEC, SYNCED, false, Idle) && StoreAfter(s', cr3, Record) == s'
    ensures "k" in s'.pairs && s'.pairs["k"].flags == Flags(s, "k") + 1
  {
    var found := Lookup(s, "k");
    OneEntry(found);
    var op := ClaimOp(SPEC[0], found, false);
    CommitOne(s, op);
    hide OwnedKeys, Winners, KeysToDrop, ClaimOps, WillOwn, ApplyStatuses, Merge, OwnedStatusKeys, Commit;
    cr1 := Cr(SPEC, [], false, Claiming(SPEC, {}, SPEC, map[], [], 0));
    cr2 := Cr(SPEC, [], false, Claiming(SPEC, {}, SPEC, map[], [found], 0));
    var none: seq<Option<Pair>> := [];
    assert Head(SPEC) == SPEC && Head(SPEC)[0].key == "k" && none + [found] == [found];
    assert ClaimOf(found, false).own && map[] + map["k" := true] == map["k" := true];
    cr3 := Cr(SPEC, [], false, Recording(Update(SPEC, SYNCED), {}, true));
    s' := Commit(s, [op]);
    assert Accepts(s, [op]);
  }

  lemma ClaimsOneKey(w: World, c: string) returns (w': World)
    requires c in w.crs && w.crs[c] == Cr(SPEC, [], false, Idle)
    requires "k" in w.store.pairs ==> w.store.pairs["k"].flags > 0
    ensures Runs(w, ClaimingOne(c), w') && w'.crs == w.crs[c := Cr(SPEC, SYNCED, false, Idle)]
    ensures "k" in w'.store.pairs && w'.store.pairs["k"].flags == Flags(w.store, "k") + 1
  {
    hide StoreAfter, CrAfter, Enabled, After, Allowed;
    var s := w.store;
    var cr1, cr2, cr3, s' := ClaimOneKey(s);
    var cr4 := Cr(SPEC, SYNCED, false, Idle);
    assert Runs(w, [], w);
    assert [] + [Step(c, Begin)] == [Step(c, Begin)];
    RunsStep(w, [], w, c, Begin);
    RunsStep(w, [Step(c, Begin)], World(s, w.crs[c := cr1]), c, Read(false));
    assert w.crs[c := cr1][c := cr2] == w.crs[c := cr2] && w.crs[c := cr2][c := cr3] == w.crs[c := cr3];
    assert w.crs[c := cr3][c := cr4] == w.crs[c := cr4];
    RunsStep(w, [Step(c, Begin)] + [Step(c, Read(false))], World(s, w.crs[c := cr2]), c, Submit(false));
    RunsStep(w, [Step(c, Begin)] + [Step(c, Read(false))] + [Step(c, Submit(false))], World(s', w.crs[c := cr3]), c, Record);
    w' := World(s', w.crs[c := cr4]);
  }

  /** Two resources that share a key. */
  function Sharing(store: Store, a: Cr, b: Cr): World {
    World(store, map["a" := a, "b" := b])
  }

  ghost predicate AllCareful(events: seq<Event>) {
    forall e | e in events :: Careful(e)
  }

  /** A careful run, continued. */
  lemma CarefulMore(w: World, a: seq<Event>, w1: World, b: seq<Event>, w2: World)
    requires Runs(w, a, w1) && Runs(w1, b, w2) && AllCareful(a) && AllCareful(b)
    ensures Runs(w, a + b, w2) && AllCareful(a + b)
  {
    hide Runs, Careful;
    RunsConcat(w, a, w1, b, w2);
  }

  lemma PartsAreCareful(c: string)
    ensures AllCareful(ClaimingOne(c)) && AllCareful(ReleasingOne(c)) && AllCareful([Create(c, SPEC)]) && AllCareful([Delete(c)])
  {}

  const NEWBORN := Cr(SPEC, [], false, Idle)
  const OWNER := Cr(SPEC, SYNCED, false, Idle)
  const EMPTY := World(Store(map[], 0), map[])

  lemma TwoResources()
    ensures Runs(EMPTY, [Create("a", SPEC)] + [Create("b", SPEC)], Sharing(EMPTY.store, NEWBORN, NEWBORN))
  {
    var w1 := World(EMPTY.store, map["a" := NEWBORN]);
    assert After(EMPTY, Create("a", SPEC)) == w1 && After(w1, Create("b", SPEC)) == Sharing(EMPTY.store, NEWBORN, NEWBORN);
    RunsOne(EMPTY, Create("a", SPEC));
    RunsOne(w1, Create("b", SPEC));
    RunsConcat(EMPTY, [Create("a", SPEC)], w1, [Create("b", SPEC)], Sharing(EMPTY.store, NEWBORN, NEWBORN));
  }

  /** From an empty store, two resources claim the key. */
  lemma TwoClaims() returns (events: seq<Event>, store: Store)
    ensures Runs(EMPTY, events, Sharing(store, OWNER, OWNER)) && AllCareful(events) && "k" in store.pairs
  {
    TwoResources();
    PartsAreCareful("a");
    PartsAreCareful("b");
    hide Runs, ClaimingOne, ReleasingOne, Careful;
    events := [Create("a", SPEC)] + [Create("b", SPEC)];
    var w := Sharing(EMPTY.store, NEWBORN, NEWBORN);
    var w1 := ClaimsOneKey(w, "a");
    CarefulMore(EMPTY, events, w, ClaimingOne("a"), w1);
    events := events + ClaimingOne("a");
    var w2 := ClaimsOneKey(w1, "b");
    CarefulMore(EMPTY, events, w1, ClaimingOne("b"), w2);
    events, store := events + ClaimingOne("b"), w2.store;
    assert w2 == Sharing(store, OWNER, OWNER);
  }

  lemma MarkFirst(store: Store)
    ensures Runs(Sharing(store, OWNER, OWNER), [Delete("a")], Sharing(store, OWNER.(deleting := true), OWNER))
  {
    RunsOne(Sharing(store, OWNER, OWNER), Delete("a"));
    assert After(Sharing(store, OWNER, OWNER), Delete("a")) == Sharing(store, OWNER.(deleting := true), OWNER);
  }

  lemma SharingChange(store: Store, a: Cr, b: Cr, a': Cr)
    ensures "a" in Sharing(store, a, b).crs && Sharing(store, a, b).crs["a"] == a && Sharing(store, a, b).store == store
    ensures forall s :: World(s, Sharing(store, a, b).crs["a" := a']) == Sharing(s, a', b)
  {
    assert Sharing(store, a, b).crs["a" := a'] == map["a" := a', "b" := b];
  }

  /** Then the first is deleted and releases it. */
  lemma FirstRelease() returns (events: seq<Event>, w: World)
    ensures Runs(EMPTY, events, w) && AllCareful(events)
    ensures w == Sharing(w.store, Cr(SPEC, SYNCED, true, Recording(Finalize, {"k"}, true)), OWNER)
  {
    var store;
    events, store := TwoClaims();
    MarkFirst(store);
    OneEntry(None);
    PartsAreCareful("a");
    SharingChange(store, OWNER.(deleting := true), OWNER, Cr(SPEC, SYNCED, true, Recording(Finalize, {"k"}, true)));
    hide Runs, ReleasingOne, AllCareful, OwnedStatusKeys, Sharing, Commit, ReleaseOp;
    var w1 := Sharing(store, OWNER.(deleting := true), OWNER);
    CarefulMore(EMPTY, events, Sharing(store, OWNER, OWNER), [Delete("a")], w1);
    w := ReleasesOneKey(w1, "a", "k");
    CarefulMore(EMPTY, events + [Delete("a")], w1, ReleasingOne("a"), w);
    events := events + [Delete("a")] + ReleasingOne("a");
  }

  lemma EmptyIsExact()
    ensures Init(EMPTY) && Inv(EMPTY) && Exact(EMPTY) && AllTidy(EMPTY)
  {
    forall k ensures Holders(EMPTY.crs, k) == {} {}
  }

  lemma SharedHolders(store: Store)
    ensures Holders(Sharing(store, Cr(SPEC, SYNCED, true, Recording(Finalize, {"k"}, true)), OWNER).crs, "k") == {"b"}
  {
    OneEntry(None);
    hide OwnedKeys;
  }

  /** A whole run: two resources claim a key, one is deleted and releases it, its finalizer write
      is lost, it releases the key again, and the key is gone while the other still holds it. */
  lemma SecondReleaseHappens() returns (events: seq<Event>, w: World, w': World)
    ensures Init(EMPTY) && Runs(EMPTY, events, w)
    ensures "a" in w.crs && Enabled(w.crs["a"], Abort) && Runs(Cut(w, "a"), ReleasingOne("a"), w')
    ensures "k" !in w'.store.pairs && "b" in Holders(w'.crs, "k")
  {
    events, w := FirstRelease();
    EmptyIsExact();
    OneEntry(None);
    SharedHolders(w.store);
    hide Runs, ReleasingOne, Inv, Exact, Holders, AllTidy, FaithfulRun, OwnedStatusKeys, Careful;
    DistinctKeysAreFaithful(EMPTY, events, w);
    ExactOverEveryRun(EMPTY, events, w);
    w' := SecondReleaseDeletes(w, "a", "b", "k");
  }

  // ---------------------------------------------------------------- external writes to counted keys

  function Interfered(w: World, f: Foreign): World {
    World(Interfere(w.store, f), w.crs)
  }

  /** An external write is safe if and only if the counter it leaves covers the holders of the key:
      a key that somebody holds must not be removed. */
  lemma ExternalSafeIff(w: World, f: Foreign)
    requires Safe(w) && !f.Batch?
    ensures Safe(Interfered(w, f)) <==> |Holders(w.crs, f.key)| <= if f.Put? then f.flags else 0
  {
    var w' := Interfered(w, f);
    assert Flags(w'.store, f.key) == if f.Put? then f.flags else 0;
    forall k | k != f.key ensures |Holders(w'.crs, k)| <= Flags(w'.store, k) {
      assert Flags(w'.store, k) == Flags(w.store, k);
    }
  }

  /** Writing a key that the resource owned before never counts it again: the key is there
      afterwards and still held, with a counter of 0 if and only if it was absent, or uncounted,
      before. */
  lemma OwnedClaimUncountedIff(w: World, c: string, k: string)
    requires Inv(w) && Allowed(w, Step(c, Submit(false))) && Commits(w.store, w.crs[c], Submit(false))
    requires w.crs[c].pc.Claiming? && k in Keys(Head(w.crs[c].pc.entries)) && k in w.crs[c].pc.before
    ensures var w' := After(w, Step(c, Submit(false)));
            && k in w'.store.pairs && k in Held(w'.crs[c])
            && (w'.store.pairs[k].flags == 0 <==> k !in w.store.pairs || w.store.pairs[k].flags == 0)
            && (w'.store.pairs[k].flags == 0 ==> !Safe(w'))
  {
    var s, cr, pc := w.store, w.crs[c], w.crs[c].pc;
    var w' := After(w, Step(c, Submit(false)));
    HeadTail(pc.entries);
    ClaimTxnIsAtomic(s, Head(pc.entries), pc.seen, pc.before);
    ClaimCommitBalances(s, cr);
    assert Balanced(s, cr, w'.store, w'.crs[c], k);
    hide CrAfter, StoreAfter, CrInv, SeenFresh;
    if w'.store.pairs[k].flags == 0 {
      assert c in Holders(w'.crs, k);
      if Safe(w') {
        HolderCounts(w', c, k);
      }
    }
  }
}
