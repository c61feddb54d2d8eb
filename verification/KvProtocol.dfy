/** Any number of ConsulKV resources and other writers sharing one store, step by step.

    A resource reads one key per step, submits one transaction per step and records its status
    in one step; every step of every resource may be interleaved with the steps of the others
    and with foreign writes. The invariants proved here hold in every reachable state. */
module KvProtocol {
  import opened ConsulStore
  import opened Wrappers
  import opened KvFlags
  import opened KvStatus

  /** Why a resource releases keys: after writing `spec` with the given report, or for good. */
  datatype Goal = Update(spec: seq<Entry>, results: seq<EntryStatus>) | Finalize

  /** Where a resource is in its reconcile. `seen` holds the reads of the current chunk. */
  datatype Pc =
    | Idle
    | Claiming(spec: seq<Entry>, before: set<string>, entries: seq<Entry>, owned: map<string, bool>,
               seen: seq<Option<Pair>>, attempt: nat)
    | Releasing(goal: Goal, keys: seq<string>, released: set<string>, seen: seq<Option<Pair>>, attempt: nat)
    | Recording(goal: Goal, released: set<string>, complete: bool)
    | Gone

  datatype Cr = Cr(spec: seq<Entry>, status: seq<EntryStatus>, deleting: bool, pc: Pc)

  datatype World = World(store: Store, crs: map<string, Cr>)

  datatype Move = Begin | Read(fails: bool) | Submit(fails: bool) | Record | Abort

  /** The current chunk and what follows it. */
  function Head<T>(xs: seq<T>): seq<T> {
    if |xs| <= TXN_BATCH_SIZE then xs else xs[..TXN_BATCH_SIZE]
  }

  function Tail<T>(xs: seq<T>): seq<T> {
    if |xs| <= TXN_BATCH_SIZE then [] else xs[TXN_BATCH_SIZE..]
  }

  function KeySet(keys: seq<string>): set<string> {
    set k | k in keys
  }

  /** Ownership as computed from the reads, recorded once the chunk has committed. */
  function WillOwn(entries: seq<Entry>, seen: seq<Option<Pair>>, before: set<string>): map<string, bool>
    requires |seen| == |entries|
  {
    if entries == [] then map[]
    else
      var n := |entries| - 1;
      WillOwn(entries[..n], seen[..n], before)[entries[n].key := ClaimOf(seen[n], entries[n].key in before).own]
  }

  // ---------------------------------------------------------------- the steps of one resource

  predicate Enabled(cr: Cr, m: Move) {
    match m
    case Begin => cr.pc.Idle?
    case Read(_) =>
      || (cr.pc.Claiming? && |cr.pc.seen| < |Head(cr.pc.entries)|)
      || (cr.pc.Releasing? && |cr.pc.seen| < |Head(cr.pc.keys)|)
    case Submit(_) =>
      || (cr.pc.Claiming? && |cr.pc.seen| == |Head(cr.pc.entries)|)
      || (cr.pc.Releasing? && |cr.pc.seen| == |Head(cr.pc.keys)|)
    case Record => cr.pc.Recording?
    case Abort => !cr.pc.Idle? && !cr.pc.Gone?
  }

  /** The key the resource is about to read. */
  function NextKey(cr: Cr): string
    requires Enabled(cr, Read(false))
  {
    if cr.pc.Claiming? then Head(cr.pc.entries)[|cr.pc.seen|].key else Head(cr.pc.keys)[|cr.pc.seen|]
  }

  /** The transaction the resource is about to submit. */
  function Ops(pc: Pc): seq<Op>
    requires (pc.Claiming? && |pc.seen| == |Head(pc.entries)|) || (pc.Releasing? && |pc.seen| == |Head(pc.keys)|)
  {
    if pc.Claiming? then ClaimOps(Head(pc.entries), pc.seen, pc.before) else ReleaseOps(Head(pc.keys), pc.seen)
  }

  predicate Commits(s: Store, cr: Cr, m: Move)
    requires Enabled(cr, m)
  {
    m == Submit(false) && Accepts(s, Ops(cr.pc)) && Ops(cr.pc) != []
  }

  function StoreAfter(s: Store, cr: Cr, m: Move): Store
    requires Enabled(cr, m)
  {
    if Commits(s, cr, m) then Commit(s, Ops(cr.pc)) else s
  }

  function ReleaseKeys(status: seq<EntryStatus>, goal: Goal): seq<string> {
    if goal.Update? then KeysToDrop(status, goal.spec) else OwnedStatusKeys(status)
  }

  function BeginRelease(cr: Cr, goal: Goal): Cr {
    var keys := ReleaseKeys(cr.status, goal);
    cr.(pc := if keys == [] then Recording(goal, {}, true) else Releasing(goal, keys, {}, [], 0))
  }

  function EndClaims(cr: Cr, owned: map<string, bool>, err: Option<string>): Cr
    requires cr.pc.Claiming?
  {
    BeginRelease(cr, Update(cr.pc.spec, ApplyStatuses(cr.pc.spec, cr.pc.before, owned, err)))
  }

  function BeginAfter(cr: Cr): Cr {
    var before, winners := OwnedKeys(cr.status), Winners(cr.spec);
    if cr.deleting then BeginRelease(cr, Finalize)
    else if winners == [] then BeginRelease(cr, Update(cr.spec, ApplyStatuses(cr.spec, before, map[], None)))
    else cr.(pc := Claiming(cr.spec, before, winners, map[], [], 0))
  }

  function Claim(cr: Cr, entries: seq<Entry>, owned: map<string, bool>, seen: seq<Option<Pair>>, attempt: nat): Cr
    requires cr.pc.Claiming?
  {
    cr.(pc := Claiming(cr.pc.spec, cr.pc.before, entries, owned, seen, attempt))
  }

  function Release(cr: Cr, keys: seq<string>, released: set<string>, seen: seq<Option<Pair>>, attempt: nat): Cr
    requires cr.pc.Releasing?
  {
    cr.(pc := Releasing(cr.pc.goal, keys, released, seen, attempt))
  }

  function ClaimAfter(s: Store, cr: Cr, m: Move): Cr
    requires cr.pc.Claiming? && Enabled(cr, m) && (m.Read? || m.Submit?)
  {
    var pc := cr.pc;
    if m.Read? then
      if m.fails then EndClaims(cr, pc.owned, Some(ERROR_GET))
      else Claim(cr, pc.entries, pc.owned, pc.seen + [Lookup(s, Head(pc.entries)[|pc.seen|].key)], pc.attempt)
    else if m.fails then EndClaims(cr, pc.owned, Some(ERROR_TXN))
    else if Accepts(s, Ops(pc)) then ClaimNext(cr, pc.owned + WillOwn(Head(pc.entries), pc.seen, pc.before))
    else ClaimAgain(cr)
  }

  /** After a committed chunk: the next one, or the end. */
  function ClaimNext(cr: Cr, owned: map<string, bool>): Cr
    requires cr.pc.Claiming?
  {
    if Tail(cr.pc.entries) == [] then EndClaims(cr, owned, None) else Claim(cr, Tail(cr.pc.entries), owned, [], 0)
  }

  /** After a rejected chunk: the same one again, at most ten times. */
  function ClaimAgain(cr: Cr): Cr
    requires cr.pc.Claiming?
  {
    if cr.pc.attempt + 1 >= CAS_MAX_RETRIES then EndClaims(cr, cr.pc.owned, Some(ERROR_RETRIES))
    else Claim(cr, cr.pc.entries, cr.pc.owned, [], cr.pc.attempt + 1)
  }

  function ReleaseAfter(s: Store, cr: Cr, m: Move): Cr
    requires cr.pc.Releasing? && Enabled(cr, m) && (m.Read? || m.Submit?)
  {
    var pc := cr.pc;
    if m.Read? then
      if m.fails then EndReleases(cr, pc.released, false)
      else Release(cr, pc.keys, pc.released, pc.seen + [Lookup(s, Head(pc.keys)[|pc.seen|])], pc.attempt)
    else if Ops(pc) == [] || (!m.fails && Accepts(s, Ops(pc))) then
      ReleaseNext(cr)
    else if m.fails then EndReleases(cr, pc.released, false)
    else ReleaseAgain(cr)
  }

  function EndReleases(cr: Cr, released: set<string>, complete: bool): Cr
    requires cr.pc.Releasing?
  {
    cr.(pc := Recording(cr.pc.goal, released, complete))
  }

  function ReleaseNext(cr: Cr): Cr
    requires cr.pc.Releasing?
  {
    var released := cr.pc.released + KeySet(Head(cr.pc.keys));
    if Tail(cr.pc.keys) == [] then EndReleases(cr, released, true) else Release(cr, Tail(cr.pc.keys), released, [], 0)
  }

  function ReleaseAgain(cr: Cr): Cr
    requires cr.pc.Releasing?
  {
    if cr.pc.attempt + 1 >= CAS_MAX_RETRIES then EndReleases(cr, cr.pc.released, false)
    else Release(cr, cr.pc.keys, cr.pc.released, [], cr.pc.attempt + 1)
  }

  /** A resource whose chunk was rejected `n` times in a row. */
  function Rejected(cr: Cr, n: nat): Cr {
    if n == 0 then cr
    else
      var last := Rejected(cr, n - 1);
      if last.pc.Claiming? then ClaimAgain(last) else if last.pc.Releasing? then ReleaseAgain(last) else last
  }

  /** A chunk that is rejected again and again is tried ten times, no more and no less. */
  lemma {:induction false} TenAttempts(cr: Cr, n: nat)
    requires (cr.pc.Claiming? || cr.pc.Releasing?) && cr.pc.attempt == 0 && cr.pc.seen == [] && n <= 10
    ensures cr.pc.Claiming? ==>
              Rejected(cr, n) == if n < 10 then Claim(cr, cr.pc.entries, cr.pc.owned, [], n) else EndClaims(cr, cr.pc.owned, Some(ERROR_RETRIES))
    ensures cr.pc.Releasing? ==>
              Rejected(cr, n) == if n < 10 then Release(cr, cr.pc.keys, cr.pc.released, [], n) else EndReleases(cr, cr.pc.released, false)
  {
    if n > 0 {
      TenAttempts(cr, n - 1);
      hide ReleaseKeys, ApplyStatuses;
    }
  }

  function RecordAfter(cr: Cr): Cr
    requires cr.pc.Recording?
  {
    match cr.pc.goal
    case Update(_, results) => cr.(status := Merge(cr.status, results, cr.pc.released), pc := Idle)
    case Finalize =>
      if cr.pc.complete then cr.(status := [], pc := Gone)
      else cr.(status := MarkReleased(cr.status, cr.pc.released), pc := Idle)
  }

  function CrAfter(s: Store, cr: Cr, m: Move): Cr
    requires Enabled(cr, m)
  {
    match m
    case Begin => BeginAfter(cr)
    case Record => RecordAfter(cr)
    case Abort => cr.(pc := Idle)
    case _ => if cr.pc.Claiming? then ClaimAfter(s, cr, m) else ReleaseAfter(s, cr, m)
  }

  // ---------------------------------------------------------------- the whole system

  datatype Event =
    | Step(c: string, m: Move)
    | Edit(c: string, spec: seq<Entry>)
    | Delete(c: string)
    | Create(c: string, spec: seq<Entry>)
    | External(w: Foreign)

  function ReleasedSoFar(pc: Pc): set<string> {
    if pc.Releasing? || pc.Recording? then pc.released else {}
  }

  /** The events of the system. A reconcile may be cut short, or its status write lost, at any
      point before it has released a key; other writers leave counted keys alone. */
  predicate Allowed(w: World, e: Event) {
    match e
    case Step(c, m) => c in w.crs && Enabled(w.crs[c], m) && (m.Abort? ==> ReleasedSoFar(w.crs[c].pc) == {})
    case Edit(c, _) => c in w.crs && !w.crs[c].pc.Gone?
    case Delete(c) => c in w.crs && !w.crs[c].pc.Gone?
    case Create(c, _) => c in w.crs ==> w.crs[c].pc.Gone?
    case External(f) => !f.Batch? && Flags(w.store, f.key) == 0
  }

  function After(w: World, e: Event): World
    requires Allowed(w, e)
  {
    match e
    case Step(c, m) => World(StoreAfter(w.store, w.crs[c], m), w.crs[c := CrAfter(w.store, w.crs[c], m)])
    case Edit(c, spec) => w.(crs := w.crs[c := w.crs[c].(spec := spec)])
    case Delete(c) => w.(crs := w.crs[c := w.crs[c].(deleting := true)])
    case Create(c, spec) => w.(crs := w.crs[c := Cr(spec, [], false, Idle)])
    case External(f) => w.(store := Interfere(w.store, f))
  }

  ghost predicate Runs(w: World, events: seq<Event>, w': World)
    decreases |events|
  {
    if events == [] then w == w'
    else Allowed(w, events[0]) && Runs(After(w, events[0]), events[1..], w')
  }

  /** A store nobody counts in yet and no resources. */
  ghost predicate Init(w: World) {
    ValidStore(w.store) && w.crs == map[]
  }

  // ---------------------------------------------------------------- who holds a key

  function OwnTrue(owned: map<string, bool>): set<string> {
    set k | k in owned && owned[k]
  }

  /** The keys for which the resource is counted: recorded as owned, or claimed in the reconcile
      under way, and not yet released by it. */
  function Held(cr: Cr): set<string> {
    match cr.pc
    case Idle => OwnedKeys(cr.status)
    case Claiming(_, _, _, owned, _, _) => OwnedKeys(cr.status) + OwnTrue(owned)
    case Releasing(goal, _, released, _, _) => Stake(cr.status, goal) - released
    case Recording(goal, released, _) => Stake(cr.status, goal) - released
    case Gone => {}
  }

  function Stake(status: seq<EntryStatus>, goal: Goal): set<string> {
    OwnedKeys(status) + (if goal.Update? then OwnedKeys(goal.results) else {})
  }

  function Holders(crs: map<string, Cr>, k: string): set<string> {
    set c | c in crs && k in Held(crs[c])
  }

  // ---------------------------------------------------------------- invariants

  /** The keys the goal asks to release. */
  function Releasable(status: seq<EntryStatus>, goal: Goal): set<string> {
    if goal.Update? then OwnedKeys(status) - Keys(goal.spec) else OwnedKeys(status)
  }

  ghost predicate GoalInv(status: seq<EntryStatus>, goal: Goal) {
    goal.Update? ==>
      && StatusKeys(goal.results) == Keys(goal.spec)
      && "" !in OwnedKeys(goal.results)
      && OwnedKeys(status) * Keys(goal.spec) <= OwnedKeys(goal.results)
  }

  ghost predicate ClaimInv(status: seq<EntryStatus>, spec: seq<Entry>, before: set<string>, entries: seq<Entry>, owned: map<string, bool>) {
    && before == OwnedKeys(status)
    && DistinctKeys(entries)
    && Keys(entries) !! owned.Keys
    && Keys(entries) + owned.Keys == Keys(spec) - {""}
    && forall k | k in owned && k in before :: owned[k]
  }

  ghost predicate ReleaseInv(status: seq<EntryStatus>, goal: Goal, keys: seq<string>, released: set<string>) {
    && GoalInv(status, goal)
    && Distinct(keys)
    && KeySet(keys) !! released
    && KeySet(keys) + released == Releasable(status, goal)
  }

  ghost predicate CrInv(cr: Cr) {
    && "" !in OwnedKeys(cr.status)
    && match cr.pc
       case Idle => true
       case Claiming(spec, before, entries, owned, seen, _) =>
         entries != [] && |seen| <= |Head(entries)| && ClaimInv(cr.status, spec, before, entries, owned)
       case Releasing(goal, keys, released, seen, _) =>
         && keys != [] && |seen| <= |Head(keys)| && ReleaseInv(cr.status, goal, keys, released)
         && forall i | 0 <= i < |seen| :: seen[i].Some?
       case Recording(goal, released, complete) =>
         && GoalInv(cr.status, goal) && released <= Releasable(cr.status, goal)
         && (complete ==> released == Releasable(cr.status, goal))
       case Gone => cr.status == []
  }

  ghost predicate SeenFresh(s: Store, cr: Cr) {
    && (cr.pc.Claiming? ==> AllFresh(s, Head(cr.pc.entries), cr.pc.seen))
    && (cr.pc.Releasing? ==> AllFreshKeys(s, Head(cr.pc.keys), cr.pc.seen))
  }

  ghost predicate Inv(w: World) {
    && ValidStore(w.store)
    && forall c | c in w.crs :: CrInv(w.crs[c]) && SeenFresh(w.store, w.crs[c])
  }

  /** Every key is counted at least once for each resource that holds it. */
  ghost predicate Safe(w: World) {
    forall k :: |Holders(w.crs, k)| <= Flags(w.store, k)
  }

  /** The counter of every key is exactly the number of resources that hold it. */
  ghost predicate Exact(w: World) {
    forall k :: |Holders(w.crs, k)| == Flags(w.store, k)
  }

  function B(b: bool): nat { if b then 1 else 0 }

  // ---------------------------------------------------------------- one resource, one step

  /** The books of one resource on one key: how far the step moves the counter and the claim. */
  ghost predicate Balanced(s: Store, cr: Cr, s': Store, cr': Cr, k: string) {
    Flags(s', k) + B(k in Held(cr)) == Flags(s, k) + B(k in Held(cr'))
  }

  lemma BeginReleaseKeeps(cr: Cr, goal: Goal)
    requires "" !in OwnedKeys(cr.status) && GoalInv(cr.status, goal)
    ensures CrInv(BeginRelease(cr, goal)) && Held(BeginRelease(cr, goal)) == Stake(cr.status, goal)
    ensures forall s :: SeenFresh(s, BeginRelease(cr, goal))
  {
    if goal.Update? {
      KeysToDropAre(cr.status, goal.spec);
    } else {
      OwnedStatusKeysAre(cr.status);
    }
  }

  lemma EndClaimsKeeps(cr: Cr, rest: seq<Entry>, owned: map<string, bool>, err: Option<string>)
    requires cr.pc.Claiming? && "" !in OwnedKeys(cr.status)
    requires ClaimInv(cr.status, cr.pc.spec, cr.pc.before, rest, owned)
    ensures CrInv(EndClaims(cr, owned, err)) && Held(EndClaims(cr, owned, err)) == OwnedKeys(cr.status) + OwnTrue(owned)
    ensures forall s :: SeenFresh(s, EndClaims(cr, owned, err))
  {
    var results := ApplyStatuses(cr.pc.spec, cr.pc.before, owned, err);
    OwnedAfterApply(cr.pc.spec, cr.pc.before, owned, err);
    BeginReleaseKeeps(cr, Update(cr.pc.spec, results));
  }

  lemma BeginKeeps(cr: Cr)
    requires CrInv(cr) && cr.pc.Idle?
    ensures CrInv(BeginAfter(cr)) && Held(BeginAfter(cr)) == Held(cr)
    ensures forall s :: SeenFresh(s, BeginAfter(cr))
  {
    WinnersAreLastEntries(cr.spec);
    if cr.deleting {
      BeginReleaseKeeps(cr, Finalize);
    } else if Winners(cr.spec) == [] {
      var before := OwnedKeys(cr.status);
      OwnedAfterApply(cr.spec, before, map[], None);
      BeginReleaseKeeps(cr, Update(cr.spec, ApplyStatuses(cr.spec, before, map[], None)));
    }
  }

  /** A step of a claim that does not commit leaves the claims as they are. */
  lemma ClaimStepKeeps(s: Store, cr: Cr, m: Move)
    requires ValidStore(s) && CrInv(cr) && SeenFresh(s, cr) && cr.pc.Claiming? && Enabled(cr, m) && (m.Read? || m.Submit?)
    requires !Commits(s, cr, m)
    ensures CrInv(ClaimAfter(s, cr, m)) && SeenFresh(s, ClaimAfter(s, cr, m)) && Held(ClaimAfter(s, cr, m)) == Held(cr)
  {
    var pc := cr.pc;
    if m.fails {
      EndClaimsKeeps(cr, pc.entries, pc.owned, Some(if m.Read? then ERROR_GET else ERROR_TXN));
    } else if m.Submit? {
      assert Ops(pc) != [] by {
        assert |Ops(pc)| == |Head(pc.entries)|;
      }
      EndClaimsKeeps(cr, pc.entries, pc.owned, Some(ERROR_RETRIES));
    }
  }

  lemma {:induction false} WillOwnAt(entries: seq<Entry>, seen: seq<Option<Pair>>, before: set<string>, decided: map<string, bool>)
    requires |seen| == |entries| && forall i | 0 <= i < |entries| :: entries[i].key in decided
    requires forall i | 0 <= i < |entries| :: ClaimOf(seen[i], entries[i].key in before).own == decided[entries[i].key]
    ensures WillOwn(entries, seen, before).Keys == Keys(entries)
    ensures forall k | k in WillOwn(entries, seen, before) :: k in decided && WillOwn(entries, seen, before)[k] == decided[k]
  {
    hide Keys, ClaimOf;
    if entries != [] {
      var n := |entries| - 1;
      LastKey(entries);
      WillOwnAt(entries[..n], seen[..n], before, decided);
    } else {
      NoEntries();
    }
  }

  lemma NoEntries()
    ensures Keys([]) == {}
  {}

  lemma WillOwnIs(entries: seq<Entry>, seen: seq<Option<Pair>>, before: set<string>, decided: map<string, bool>)
    requires |seen| == |entries| && decided.Keys == Keys(entries)
    requires forall i | 0 <= i < |entries| :: ClaimOf(seen[i], entries[i].key in before).own == decided[entries[i].key]
    ensures WillOwn(entries, seen, before) == decided
  {
    WillOwnAt(entries, seen, before, decided);
  }

  lemma HeadTail(entries: seq<Entry>)
    requires DistinctKeys(entries)
    ensures DistinctKeys(Head(entries)) && DistinctKeys(Tail(entries))
    ensures Keys(entries) == Keys(Head(entries)) + Keys(Tail(entries)) && Keys(Head(entries)) !! Keys(Tail(entries))
  {}

  /** A committed claim moves the counter of each of its keys by exactly the claim it adds. */
  lemma ClaimCommitBalances(s: Store, cr: Cr)
    requires ValidStore(s) && CrInv(cr) && SeenFresh(s, cr) && cr.pc.Claiming?
    requires Enabled(cr, Submit(false)) && Commits(s, cr, Submit(false))
    ensures var s', cr' := Commit(s, Ops(cr.pc)), ClaimAfter(s, cr, Submit(false));
            && CrInv(cr') && SeenFresh(s', cr')
            && forall k :: Balanced(s, cr, s', cr', k)
  {
    var pc, head := cr.pc, Head(cr.pc.entries);
    HeadTail(pc.entries);
    ClaimTxnIsAtomic(s, head, pc.seen, pc.before);
    WillOwnIs(head, pc.seen, pc.before, Decisions(s, head, pc.before));
    var owned := pc.owned + Decisions(s, head, pc.before);
    ClaimInvMore(s, cr);
    EndClaimsKeeps(cr, Tail(pc.entries), owned, None);
    var s', cr' := ClaimAll(s, head, pc.before), ClaimAfter(s, cr, Submit(false));
    assert cr' == if Tail(pc.entries) == [] then EndClaims(cr, owned, None) else Claim(cr, Tail(pc.entries), owned, [], 0);
    forall k ensures Balanced(s, cr, s', cr', k) {
      ClaimAllBalances(s, cr, k);
    }
  }

  /** Moving the first chunk from the entries to claim to the claimed keys. */
  lemma ClaimInvMore(s: Store, cr: Cr)
    requires CrInv(cr) && cr.pc.Claiming?
    ensures ClaimInv(cr.status, cr.pc.spec, cr.pc.before, Tail(cr.pc.entries),
                     cr.pc.owned + Decisions(s, Head(cr.pc.entries), cr.pc.before))
  {}

  /** The claim rule, key by key: the counter grows exactly for the keys newly owned. */
  lemma ClaimAllBalances(s: Store, cr: Cr, k: string)
    requires CrInv(cr) && cr.pc.Claiming?
    ensures var head, before, owned := Head(cr.pc.entries), cr.pc.before, cr.pc.owned;
            Flags(ClaimAll(s, head, before), k) + B(k in Held(cr))
            == Flags(s, k) + B(k in OwnedKeys(cr.status) + OwnTrue(owned + Decisions(s, head, before)))
  {
    HeadTail(cr.pc.entries);
  }

  /** A step of a release that does not commit leaves the claims as they are. */
  lemma ReleaseStepKeeps(s: Store, cr: Cr, m: Move)
    requires ValidStore(s) && CrInv(cr) && SeenFresh(s, cr) && cr.pc.Releasing? && Enabled(cr, m) && (m.Read? || m.Submit?)
    requires !Commits(s, cr, m)
    requires forall k | k in Held(cr) :: Flags(s, k) > 0
    ensures CrInv(ReleaseAfter(s, cr, m)) && SeenFresh(s, ReleaseAfter(s, cr, m)) && Held(ReleaseAfter(s, cr, m)) == Held(cr)
  {
    hide Stake, Releasable, GoalInv, OwnedKeys, Found, Tail;
    var pc := cr.pc;
    HeldWhileReleasing(cr);
    if m.Read? {
      if !m.fails {
        assert Head(pc.keys)[|pc.seen|] in Held(cr);
      }
    } else {
      FoundAll(Head(pc.keys), pc.seen);
    }
  }

  lemma HeldWhileReleasing(cr: Cr)
    requires CrInv(cr) && cr.pc.Releasing?
    ensures forall i | 0 <= i < |Head(cr.pc.keys)| :: Head(cr.pc.keys)[i] in Held(cr)
  {}

  lemma {:induction false} FoundAll(keys: seq<string>, seen: seq<Option<Pair>>)
    requires |seen| == |keys| && forall i | 0 <= i < |seen| :: seen[i].Some?
    ensures Found(keys, seen) == keys
    ensures keys != [] ==> ReleaseOps(keys, seen) != []
  {
    if keys != [] {
      var n := |keys| - 1;
      FoundAll(keys[..n], seen[..n]);
      FoundMore(keys, seen);
      hide Found, ReleaseOps;
      assert keys == keys[..n] + [keys[n]];
    }
  }

  lemma FoundMore(keys: seq<string>, seen: seq<Option<Pair>>)
    requires |seen| == |keys| > 0 && seen[|keys| - 1].Some?
    ensures Found(keys, seen) == Found(keys[..|keys| - 1], seen[..|keys| - 1]) + [keys[|keys| - 1]]
    ensures ReleaseOps(keys, seen) != []
  {}

  lemma HeadTailKeys(keys: seq<string>)
    requires Distinct(keys)
    ensures Distinct(Head(keys)) && Distinct(Tail(keys))
    ensures KeySet(keys) == KeySet(Head(keys)) + KeySet(Tail(keys)) && KeySet(Head(keys)) !! KeySet(Tail(keys))
  {}

  /** A committed release moves the counter of each of its keys by exactly the claim it gives up. */
  lemma ReleaseCommitBalances(s: Store, cr: Cr)
    requires ValidStore(s) && CrInv(cr) && SeenFresh(s, cr) && cr.pc.Releasing?
    requires Enabled(cr, Submit(false)) && Commits(s, cr, Submit(false))
    requires forall k | k in Held(cr) :: Flags(s, k) > 0
    ensures var s', cr' := Commit(s, Ops(cr.pc)), ReleaseAfter(s, cr, Submit(false));
            && CrInv(cr') && SeenFresh(s', cr')
            && forall k :: Balanced(s, cr, s', cr', k)
  {
    var pc, head := cr.pc, Head(cr.pc.keys);
    ReleaseIsAtomic(s, cr);
    ReleaseNextKeeps(cr);
    HeldWhileReleasing(cr);
    var s', cr' := ReleaseAll(s, head), ReleaseNext(cr);
    hide ReleaseAll, ReleaseNext, Held, CrInv, Head, ReleaseOps, Accepts, Commit, Flags, AllFreshKeys;
    assert ReleaseAfter(s, cr, Submit(false)) == cr';
    forall k ensures Balanced(s, cr, s', cr', k) {
      ReleaseAllFlags(s, head, k);
    }
  }

  lemma ReleaseIsAtomic(s: Store, cr: Cr)
    requires ValidStore(s) && CrInv(cr) && SeenFresh(s, cr) && cr.pc.Releasing?
    requires Enabled(cr, Submit(false)) && Commits(s, cr, Submit(false))
    ensures Commit(s, Ops(cr.pc)) == ReleaseAll(s, Head(cr.pc.keys))
    ensures forall s' :: SeenFresh(s', ReleaseNext(cr))
  {
    hide ReleaseAll, Commit, Accepts, AllFreshKeys, ReleaseOps, Found, Releasable, GoalInv;
    HeadTailKeys(cr.pc.keys);
    FoundAll(Head(cr.pc.keys), cr.pc.seen);
    ReleaseTxnIsAtomic(s, Head(cr.pc.keys), cr.pc.seen);
    NothingRead(cr);
  }

  lemma NothingRead(cr: Cr)
    requires cr.pc.Releasing?
    ensures forall s :: SeenFresh(s, ReleaseNext(cr))
  {}

  /** The release rule, key by key. */
  lemma ReleaseAllFlags(s: Store, keys: seq<string>, k: string)
    ensures Flags(ReleaseAll(s, keys), k) == if k in keys && Flags(s, k) > 0 then Flags(s, k) - 1 else Flags(s, k)
  {}

  /** Moving the first chunk from the keys to release to the released keys. */
  lemma ReleaseNextKeeps(cr: Cr)
    requires CrInv(cr) && cr.pc.Releasing?
    ensures CrInv(ReleaseNext(cr)) && Held(ReleaseNext(cr)) == Held(cr) - KeySet(Head(cr.pc.keys))
  {}

  /** The first entry of every key that the spec dropped and the reconcile did not release carries
      the ownership of the key, so that the merged record does too. */
  ghost predicate RecordsAll(cr: Cr) {
    cr.pc.Recording? && cr.pc.goal.Update? ==>
      forall k | k in OwnedKeys(cr.status) - Keys(cr.pc.goal.spec) - cr.pc.released :: FirstCarries(cr.status, k)
  }

  /** Recording never claims more than the resource holds, and exactly that if and only if no
      repeated key hides the ownership of an unreleased dropped key. */
  lemma RecordKeeps(cr: Cr)
    requires CrInv(cr) && cr.pc.Recording?
    ensures CrInv(RecordAfter(cr)) && Held(RecordAfter(cr)) <= Held(cr)
    ensures forall s :: SeenFresh(s, RecordAfter(cr))
    ensures Held(RecordAfter(cr)) == Held(cr) <==> RecordsAll(cr)
  {
    var pc := cr.pc;
    match pc.goal
    case Update(spec, results) =>
      forall k ensures k in OwnedKeys(Merge(cr.status, results, pc.released))
                       <==> if k in Keys(spec) then k in OwnedKeys(results) else FirstCarries(cr.status, k) && k !in pc.released
      {
        MergeOwned(cr.status, results, pc.released, k);
      }
      OwnedKeysInStatus(results);
      forall k ensures FirstCarries(cr.status, k) ==> k in OwnedKeys(cr.status) {
        FirstCarriesWhenDistinct(cr.status, k);
      }
    case Finalize =>
      MarkReleasedOwned(cr.status, pc.released);
  }

  lemma OwnedKeysInStatus(statuses: seq<EntryStatus>)
    ensures OwnedKeys(statuses) <= StatusKeys(statuses)
  {}
}
