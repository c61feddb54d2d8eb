/** The main theorems about the ConsulKV protocol: what holds in every state that any
    interleaving of resources and other writers can reach. */
module KvSafety {
  import opened ConsulStore
  import opened Wrappers
  import opened KvFlags
  import opened KvStatus
  import opened KvProtocol

  // ---------------------------------------------------------------- one step of one resource

  /** The store seen by a step: it only ever moves to a later state. */
  lemma StoreMoves(s: Store, cr: Cr, m: Move)
    requires ValidStore(s) && Enabled(cr, m)
    ensures ValidStore(StoreAfter(s, cr, m)) && Later(s, StoreAfter(s, cr, m))
  {
    if Commits(s, cr, m) {
      CommitIsLater(s, Ops(cr.pc));
    }
  }

  /** No step lets the counter of a key fall behind the claims on it. */
  ghost predicate Covers(s: Store, cr: Cr, s': Store, cr': Cr, k: string) {
    Flags(s', k) + B(k in Held(cr)) >= Flags(s, k) + B(k in Held(cr'))
  }

  /** A step that leaves the store alone and holds no more than before. */
  lemma QuietStep(s: Store, cr: Cr, cr': Cr)
    requires Held(cr') <= Held(cr)
    ensures forall k :: Covers(s, cr, s, cr', k)
    ensures Held(cr') == Held(cr) ==> forall k :: Balanced(s, cr, s, cr', k)
  {}

  lemma BalancedCovers(s: Store, cr: Cr, s': Store, cr': Cr)
    requires forall k :: Balanced(s, cr, s', cr', k)
    ensures forall k :: Covers(s, cr, s', cr', k)
  {
    forall k ensures Covers(s, cr, s', cr', k) {
      assert Balanced(s, cr, s', cr', k);
    }
  }

  lemma AbortKeeps(s: Store, cr: Cr)
    requires CrInv(cr) && Enabled(cr, Abort) && ReleasedSoFar(cr.pc) == {}
    ensures CrInv(cr.(pc := Idle)) && SeenFresh(s, cr.(pc := Idle)) && Held(cr.(pc := Idle)) <= Held(cr)
  {}

  /** The steps that touch the store or read it. */
  lemma WorkKeeps(s: Store, cr: Cr, m: Move)
    requires ValidStore(s) && CrInv(cr) && SeenFresh(s, cr) && Enabled(cr, m) && (m.Read? || m.Submit?)
    requires forall k | k in Held(cr) :: Flags(s, k) > 0
    ensures CrInv(CrAfter(s, cr, m)) && SeenFresh(StoreAfter(s, cr, m), CrAfter(s, cr, m))
    ensures forall k :: Balanced(s, cr, StoreAfter(s, cr, m), CrAfter(s, cr, m), k)
  {
    if cr.pc.Claiming? {
      if Commits(s, cr, m) {
        ClaimCommitBalances(s, cr);
      } else {
        ClaimStepKeeps(s, cr, m);
        QuietStep(s, cr, ClaimAfter(s, cr, m));
      }
    } else {
      if Commits(s, cr, m) {
        ReleaseCommitBalances(s, cr);
      } else {
        ReleaseStepKeeps(s, cr, m);
        QuietStep(s, cr, ReleaseAfter(s, cr, m));
      }
    }
  }

  /** The move is not the loss of a record, and a record that is written hides no ownership. */
  ghost predicate Accurate(cr: Cr, m: Move) {
    !m.Abort? && (m.Record? ==> RecordsAll(cr))
  }

  lemma MoveKeeps(s: Store, cr: Cr, m: Move)
    requires ValidStore(s) && CrInv(cr) && SeenFresh(s, cr) && Enabled(cr, m)
    requires forall k | k in Held(cr) :: Flags(s, k) > 0
    requires m.Abort? ==> ReleasedSoFar(cr.pc) == {}
    ensures CrInv(CrAfter(s, cr, m)) && SeenFresh(StoreAfter(s, cr, m), CrAfter(s, cr, m))
    ensures forall k :: Covers(s, cr, StoreAfter(s, cr, m), CrAfter(s, cr, m), k)
    ensures Accurate(cr, m) ==>
              forall k :: Balanced(s, cr, StoreAfter(s, cr, m), CrAfter(s, cr, m), k)
  {
    var s', cr' := StoreAfter(s, cr, m), CrAfter(s, cr, m);
    match m
    case Begin =>
      BeginKeeps(cr);
      QuietStep(s, cr, cr');
    case Record =>
      RecordKeeps(cr);
      QuietStep(s, cr, cr');
    case Abort =>
      AbortKeeps(s, cr);
      QuietStep(s, cr, cr');
    case _ =>
      WorkKeeps(s, cr, m);
      BalancedCovers(s, cr, s', cr');
  }

  // ---------------------------------------------------------------- counting holders

  lemma SetChange(h: set<string>, h': set<string>, c: string)
    requires h - {c} == h' - {c}
    ensures |h'| + B(c in h) == |h| + B(c in h')
  {
    assert h == if c in h then (h - {c}) + {c} else h - {c};
    assert h' == if c in h' then (h' - {c}) + {c} else h' - {c};
  }

  lemma HoldersChange(crs: map<string, Cr>, c: string, cr: Cr, k: string)
    ensures |Holders(crs[c := cr], k)| + B(c in crs && k in Held(crs[c])) == |Holders(crs, k)| + B(k in Held(cr))
  {
    SetChange(Holders(crs, k), Holders(crs[c := cr], k), c);
  }

  lemma HolderCounts(w: World, c: string, k: string)
    requires Safe(w) && c in w.crs && k in Held(w.crs[c])
    ensures Flags(w.store, k) > 0
  {
    assert {c} <= Holders(w.crs, k);
    CardinalityMonotone({c}, Holders(w.crs, k));
  }

  lemma {:induction false} CardinalityMonotone(a: set<string>, b: set<string>)
    requires a <= b
    ensures |a| <= |b|
  {
    assert b == a + (b - a);
  }

  // ---------------------------------------------------------------- one event of the system

  lemma OthersStayFresh(w: World, s: Store, c: string)
    requires Inv(w) && Later(w.store, s) && c in w.crs
    ensures SeenFresh(s, w.crs[c])
  {}

  lemma StepPreservesSafe(w: World, c: string, m: Move)
    requires Inv(w) && Safe(w) && Allowed(w, Step(c, m))
    ensures Inv(After(w, Step(c, m))) && Safe(After(w, Step(c, m)))
  {
    var cr, w' := w.crs[c], After(w, Step(c, m));
    forall k | k in Held(cr) ensures Flags(w.store, k) > 0 {
      HolderCounts(w, c, k);
    }
    MoveKeeps(w.store, cr, m);
    StoreMoves(w.store, cr, m);
    forall d | d in w'.crs ensures CrInv(w'.crs[d]) && SeenFresh(w'.store, w'.crs[d]) {
      if d != c {
        OthersStayFresh(w, w'.store, d);
      }
    }
    forall k ensures |Holders(w'.crs, k)| <= Flags(w'.store, k) {
      HoldersChange(w.crs, c, w'.crs[c], k);
      assert Covers(w.store, cr, w'.store, w'.crs[c], k);
    }
  }

  lemma EventPreservesSafe(w: World, e: Event)
    requires Inv(w) && Safe(w) && Allowed(w, e)
    ensures Inv(After(w, e)) && Safe(After(w, e))
  {
    hide StoreAfter, CrAfter;
    var w' := After(w, e);
    match e
    case Step(c, m) => StepPreservesSafe(w, c, m);
    case External(f) =>
      InterfereIsLater(w.store, f);
      forall d | d in w.crs ensures SeenFresh(w'.store, w.crs[d]) {
        OthersStayFresh(w, w'.store, d);
      }
    case _ =>
      forall k ensures |Holders(w'.crs, k)| <= Flags(w'.store, k) {
        HoldersChange(w.crs, e.c, w'.crs[e.c], k);
      }
  }

  /** Safety over every run: whatever the interleaving, in every reachable state the counter of
      every key covers all the resources that hold it. */
  lemma {:induction false} SafeOverEveryRun(w: World, events: seq<Event>, w': World)
    requires Inv(w) && Safe(w) && Runs(w, events, w')
    ensures Inv(w') && Safe(w')
    decreases |events|
  {
    if events != [] {
      EventPreservesSafe(w, events[0]);
      SafeOverEveryRun(After(w, events[0]), events[1..], w');
    }
  }

  lemma InitIsSafe(w: World)
    requires Init(w)
    ensures Inv(w) && Safe(w)
  {}

  /** From any initial store, every key a resource holds is present and counted at least once
      for each resource that holds it. */
  lemma HeldKeysArePresent(w: World, events: seq<Event>, w': World, k: string)
    requires Init(w) && Runs(w, events, w')
    ensures Holders(w'.crs, k) != {} ==>
              k in w'.store.pairs && w'.store.pairs[k].flags >= |Holders(w'.crs, k)|
  {
    InitIsSafe(w);
    SafeOverEveryRun(w, events, w');
    if Holders(w'.crs, k) != {} {
      var c :| c in Holders(w'.crs, k);
      HolderCounts(w', c, k);
    }
  }

  /** A step of a resource deletes a key only if no other resource holds it. */
  lemma NoKeyDeletedWhileHeld(w: World, c: string, m: Move, k: string)
    requires Inv(w) && Safe(w) && Allowed(w, Step(c, m))
    requires k in w.store.pairs && k !in After(w, Step(c, m)).store.pairs
    ensures Holders(w.crs, k) <= {c}
  {
    var w' := After(w, Step(c, m));
    StepPreservesSafe(w, c, m);
    forall d | d in Holders(w.crs, k) ensures d == c {
      if d != c {
        HolderCounts(w', d, k);
      }
    }
  }

  /** A key that nobody counts (Flags 0) is neither deleted nor counted by any step of a
      resource; at most its value is written. */
  lemma ForeignKeysStay(w: World, c: string, m: Move, k: string)
    requires Inv(w) && Safe(w) && Allowed(w, Step(c, m))
    requires k in w.store.pairs && w.store.pairs[k].flags == 0
    ensures var w' := After(w, Step(c, m)); k in w'.store.pairs && w'.store.pairs[k].flags == 0
  {
    var cr := w.crs[c];
    forall j | j in Held(cr) ensures Flags(w.store, j) > 0 {
      HolderCounts(w, c, j);
    }
    if Commits(w.store, cr, m) {
      var pc := cr.pc;
      if pc.Claiming? {
        HeadTail(pc.entries);
        ClaimTxnIsAtomic(w.store, Head(pc.entries), pc.seen, pc.before);
        assert k in pc.before ==> k in Held(cr);
      } else {
        HeadTailKeys(pc.keys);
        FoundAll(Head(pc.keys), pc.seen);
        ReleaseTxnIsAtomic(w.store, Head(pc.keys), pc.seen);
        HeldWhileReleasing(cr);
      }
    }
  }

  /** The optimistic protocol refines the atomic one: whatever happened since the keys of the
      chunk were read, a committed transaction applies the claim rule, or the release rule, to the
      store of that instant for the whole chunk; any other step leaves the store alone. */
  lemma StepsAreAtomic(w: World, c: string, m: Move)
    requires Inv(w) && Safe(w) && Allowed(w, Step(c, m))
    ensures var s, pc, s' := w.store, w.crs[c].pc, After(w, Step(c, m)).store;
            if !Commits(s, w.crs[c], m) then s' == s
            else if pc.Claiming? then s' == ClaimAll(s, Head(pc.entries), pc.before)
            else s' == ReleaseAll(s, Head(pc.keys))
  {
    var pc := w.crs[c].pc;
    if Commits(w.store, w.crs[c], m) {
      if pc.Claiming? {
        HeadTail(pc.entries);
        ClaimTxnIsAtomic(w.store, Head(pc.entries), pc.seen, pc.before);
      } else {
        HeadTailKeys(pc.keys);
        FoundAll(Head(pc.keys), pc.seen);
        ReleaseTxnIsAtomic(w.store, Head(pc.keys), pc.seen);
      }
    }
  }

  // ---------------------------------------------------------------- who writes values

  /** The event writes `value` to the key: a resource commits an entry, or somebody outside does it. */
  ghost predicate Puts(w: World, e: Event, k: string, value: string)
    requires Allowed(w, e)
  {
    match e
    case Step(c, m) => Commits(w.store, w.crs[c], m) && w.crs[c].pc.Claiming? && Entry(k, value) in Head(w.crs[c].pc.entries)
    case External(f) => f.Put? && f.key == k && f.value == value
    case _ => false
  }

  lemma ClaimedValue(s: Store, entries: seq<Entry>, before: set<string>, k: string)
    requires DistinctKeys(entries) && k in Keys(entries)
    ensures var s' := ClaimAll(s, entries, before); k in s'.pairs && Entry(k, s'.pairs[k].value) in entries
  {
    var i :| 0 <= i < |entries| && entries[i].key == k;
    ClaimMeans(s, entries, before, i);
    hide ClaimAll;
    assert entries[i] == Entry(k, entries[i].value);
  }

  /** Whatever is in the store after a step of a resource was there before with the same value, or is
      the entry it has just committed: in particular a release changes no value. */
  lemma StepKeepsValues(w: World, c: string, m: Move, k: string)
    requires Inv(w) && Safe(w) && Allowed(w, Step(c, m))
    ensures var s, s' := w.store, After(w, Step(c, m)).store;
            k in s'.pairs ==>
              || Puts(w, Step(c, m), k, s'.pairs[k].value)
              || (k in s.pairs && s'.pairs[k].value == s.pairs[k].value)
  {
    var s, s', pc := w.store, After(w, Step(c, m)).store, w.crs[c].pc;
    StepsAreAtomic(w, c, m);
    if Commits(s, w.crs[c], m) {
      if pc.Claiming? {
        HeadTail(pc.entries);
        if k in Keys(Head(pc.entries)) {
          ClaimedValue(s, Head(pc.entries), pc.before, k);
        }
      } else {
        ReleaseMeans(s, Head(pc.keys));
      }
    }
  }

  lemma EventKeepsValues(w: World, e: Event, k: string)
    requires Inv(w) && Safe(w) && Allowed(w, e)
    ensures var s, s' := w.store, After(w, e).store;
            k in s'.pairs ==> Puts(w, e, k, s'.pairs[k].value) || (k in s.pairs && s'.pairs[k].value == s.pairs[k].value)
  {
    hide StoreAfter, CrAfter, CrInv;
    if e.Step? {
      StepKeepsValues(w, e.c, e.m, k);
    }
  }

  /** Somewhere in the run the value is put into the key. */
  ghost predicate PutInRun(w: World, events: seq<Event>, k: string, value: string)
    decreases |events|
  {
    && events != [] && Allowed(w, events[0])
    && (Puts(w, events[0], k, value) || PutInRun(After(w, events[0]), events[1..], k, value))
  }

  /** Values over every run: what a key holds at the end it held at the start, or some resource or
      outside writer put it there. However owners come and go, no release wipes or alters a value. */
  lemma {:induction false} ValuesOverEveryRun(w: World, events: seq<Event>, w': World, k: string)
    requires Inv(w) && Safe(w) && Runs(w, events, w') && k in w'.store.pairs
    ensures || PutInRun(w, events, k, w'.store.pairs[k].value)
            || (k in w.store.pairs && w.store.pairs[k].value == w'.store.pairs[k].value)
    decreases |events|
  {
    if events != [] {
      hide Inv, Safe, Allowed, After, Puts;
      EventPreservesSafe(w, events[0]);
      ValuesOverEveryRun(After(w, events[0]), events[1..], w', k);
      EventKeepsValues(w, events[0], k);
    }
  }

  // ---------------------------------------------------------------- exact conservation

  lemma ExactIsSafe(w: World)
    requires Exact(w)
    ensures Safe(w)
  {}

  lemma StepPreservesExact(w: World, c: string, m: Move)
    requires Inv(w) && Exact(w) && Allowed(w, Step(c, m)) && Accurate(w.crs[c], m)
    ensures Exact(After(w, Step(c, m)))
  {
    ExactIsSafe(w);
    var cr, w' := w.crs[c], After(w, Step(c, m));
    forall k | k in Held(cr) ensures Flags(w.store, k) > 0 {
      HolderCounts(w, c, k);
    }
    MoveKeeps(w.store, cr, m);
    forall k ensures |Holders(w'.crs, k)| == Flags(w'.store, k) {
      HoldersChange(w.crs, c, w'.crs[c], k);
      assert Balanced(w.store, cr, w'.store, w'.crs[c], k);
    }
  }

  /** Every record is written and hides nothing, and other writers count nobody. */
  ghost predicate Faithful(w: World, e: Event) {
    match e
    case Step(c, m) => c in w.crs ==> Accurate(w.crs[c], m)
    case External(f) => f.Put? ==> f.flags == 0
    case _ => true
  }

  ghost predicate FaithfulRun(w: World, events: seq<Event>)
    decreases |events|
  {
    events != [] && Allowed(w, events[0]) ==> Faithful(w, events[0]) && FaithfulRun(After(w, events[0]), events[1..])
  }

  lemma EventPreservesExact(w: World, e: Event)
    requires Inv(w) && Exact(w) && Allowed(w, e) && Faithful(w, e)
    ensures Exact(After(w, e))
  {
    hide StoreAfter, CrAfter, CrInv;
    var w' := After(w, e);
    match e
    case Step(c, m) => StepPreservesExact(w, c, m);
    case External(f) =>
    case _ =>
      forall k ensures |Holders(w'.crs, k)| == Flags(w'.store, k) {
        HoldersChange(w.crs, e.c, w'.crs[e.c], k);
      }
  }

  /** Exact conservation over every faithful run: whatever chunks fail and however often they
      are retried, the counter of every key is the number of resources that hold it, each
      counted once. */
  lemma {:induction false} ExactOverEveryRun(w: World, events: seq<Event>, w': World)
    requires Inv(w) && Exact(w) && Runs(w, events, w') && FaithfulRun(w, events)
    ensures Inv(w') && Exact(w')
    decreases |events|
  {
    if events != [] {
      ExactIsSafe(w);
      EventPreservesSafe(w, events[0]);
      EventPreservesExact(w, events[0]);
      ExactOverEveryRun(After(w, events[0]), events[1..], w');
    }
  }

  /** A record keeps the counters exact if and only if the first entry of every unreleased
      dropped key carries its ownership. */
  lemma RecordExactIff(w: World, c: string)
    requires Inv(w) && Exact(w) && Allowed(w, Step(c, Record))
    ensures Exact(After(w, Step(c, Record))) <==> RecordsAll(w.crs[c])
  {
    var cr, w' := w.crs[c], After(w, Step(c, Record));
    RecordKeeps(cr);
    hide Held, CrInv, RecordAfter;
    if RecordsAll(cr) {
      StepPreservesExact(w, c, Record);
    } else {
      var k :| k in Held(cr) && k !in Held(w'.crs[c]);
      HoldersChange(w.crs, c, w'.crs[c], k);
      assert |Holders(w'.crs, k)| != Flags(w'.store, k);
    }
  }

  /** In every state that a faithful run reaches from a store nobody counts in, the counter of a
      key that no reconcile is working on is the number of resources recorded as owning it. */
  lemma RecordedOwnersAreCounted(w: World, events: seq<Event>, w': World, k: string)
    requires Init(w) && (forall j :: Flags(w.store, j) == 0) && Runs(w, events, w') && FaithfulRun(w, events)
    requires forall c | c in w'.crs :: w'.crs[c].pc.Idle? || w'.crs[c].pc.Gone?
    ensures Flags(w'.store, k) == |set c | c in w'.crs && k in OwnedKeys(w'.crs[c].status)|
  {
    InitIsSafe(w);
    assert Exact(w) by {
      forall j ensures Holders(w.crs, j) == {} {}
    }
    ExactOverEveryRun(w, events, w');
    assert Holders(w'.crs, k) == set c | c in w'.crs && k in OwnedKeys(w'.crs[c].status);
  }

  // ---------------------------------------------------------------- specs without repeated keys

  /** No repeated key can hide ownership anywhere in the resource. */
  ghost predicate Tidy(cr: Cr) {
    && DistinctKeys(cr.spec)
    && OwnedCarried(cr.status)
    && (cr.pc.Claiming? ==> DistinctKeys(cr.pc.spec))
    && (cr.pc.Releasing? || cr.pc.Recording? ==> cr.pc.goal.Update? ==> OwnedCarried(cr.pc.goal.results))
  }

  lemma EndClaimsTidy(cr: Cr, owned: map<string, bool>, err: Option<string>)
    requires Tidy(cr) && cr.pc.Claiming?
    ensures Tidy(EndClaims(cr, owned, err))
  {
    ApplyCarries(cr.pc.spec, cr.pc.before, owned, err);
  }

  lemma ClaimKeepsTidy(s: Store, cr: Cr, m: Move)
    requires Tidy(cr) && cr.pc.Claiming? && Enabled(cr, m) && (m.Read? || m.Submit?)
    ensures Tidy(ClaimAfter(s, cr, m))
  {
    var pc := cr.pc;
    EndClaimsTidy(cr, pc.owned, Some(ERROR_GET));
    EndClaimsTidy(cr, pc.owned, Some(ERROR_TXN));
    EndClaimsTidy(cr, pc.owned, Some(ERROR_RETRIES));
    if m.Submit? {
      EndClaimsTidy(cr, pc.owned + WillOwn(Head(pc.entries), pc.seen, pc.before), None);
    }
  }

  lemma MoveKeepsTidy(s: Store, cr: Cr, m: Move)
    requires Tidy(cr) && Enabled(cr, m)
    ensures Tidy(CrAfter(s, cr, m))
  {
    match m
    case Begin =>
      ApplyCarries(cr.spec, OwnedKeys(cr.status), map[], None);
    case Record =>
      if cr.pc.goal.Update? {
        MergeCarries(cr.status, cr.pc.goal.results, cr.pc.released);
      } else {
        MarkCarries(cr.status, cr.pc.released);
      }
    case Abort =>
    case _ =>
      if cr.pc.Claiming? {
        ClaimKeepsTidy(s, cr, m);
      }
  }

  ghost predicate AllTidy(w: World) {
    forall c | c in w.crs :: Tidy(w.crs[c])
  }

  /** Every status write succeeds, no spec repeats a key and other writers count nobody. */
  predicate Careful(e: Event) {
    match e
    case Step(_, m) => !m.Abort?
    case Edit(_, spec) => DistinctKeys(spec)
    case Create(_, spec) => DistinctKeys(spec)
    case External(f) => f.Put? ==> f.flags == 0
    case Delete(_) => true
  }

  lemma EventKeepsTidy(w: World, e: Event)
    requires AllTidy(w) && Allowed(w, e) && Careful(e)
    ensures AllTidy(After(w, e)) && Faithful(w, e)
  {
    if e.Step? {
      MoveKeepsTidy(w.store, w.crs[e.c], e.m);
    }
    hide CrAfter, StoreAfter;
  }

  /** Runs in which no spec repeats a key and no record is lost are faithful. */
  lemma {:induction false} DistinctKeysAreFaithful(w: World, events: seq<Event>, w': World)
    requires AllTidy(w) && Runs(w, events, w') && forall e | e in events :: Careful(e)
    ensures FaithfulRun(w, events)
    decreases |events|
  {
    if events != [] {
      EventKeepsTidy(w, events[0]);
      DistinctKeysAreFaithful(After(w, events[0]), events[1..], w');
    }
  }

  /** The key goes away at the very step where its last holder releases it. */
  lemma LastReleaseDeletes(w: World, c: string, m: Move, k: string)
    requires Inv(w) && Exact(w) && Allowed(w, Step(c, m)) && Accurate(w.crs[c], m)
    requires Holders(w.crs, k) == {c} && k !in Held(After(w, Step(c, m)).crs[c])
    ensures k in w.store.pairs && k !in After(w, Step(c, m)).store.pairs
  {
    hide CrInv, CrAfter, Held, RecordsAll;
    ExactIsSafe(w);
    var cr, w' := w.crs[c], After(w, Step(c, m));
    assert c in Holders(w.crs, k);
    HolderCounts(w, c, k);
    StepPreservesExact(w, c, m);
    StepsAreAtomic(w, c, m);
    HoldersChange(w.crs, c, w'.crs[c], k);
    assert Flags(w.store, k) == 1 && Flags(w'.store, k) == 0;
  }
}
