/** The ConsulKV reconciler: the loops that write, release and record the keys of one resource
    while other clients write to the same store. */
module KvController {
  import opened ConsulStore
  import opened Wrappers
  import opened KvFlags
  import opened KvClient
  import opened KvStatus
  import P = KvProtocol

  // ---------------------------------------------------------------- chunks

  /** Number of transactions needed for `n` operations. */
  function NumChunks(n: nat): nat {
    (n + TXN_BATCH_SIZE - 1) / TXN_BATCH_SIZE
  }

  /** Number of elements in the first `c` chunks of `n` elements. */
  function Covered(n: nat, c: nat): (m: nat)
    ensures m <= n
  {
    if TXN_BATCH_SIZE * c < n then TXN_BATCH_SIZE * c else n
  }

  /** Chunk `c`: at most 64 consecutive elements. */
  function Chunk<T>(xs: seq<T>, c: nat): (r: seq<T>)
    ensures |r| <= 64
  {
    if Covered(|xs|, c) <= Covered(|xs|, c + 1) then xs[Covered(|xs|, c)..Covered(|xs|, c + 1)] else []
  }

  function ClaimSteps(entries: seq<Entry>, before: set<string>, chunks: nat): seq<Step> {
    seq(chunks, c requires 0 <= c => Claimed(Chunk(entries, c), before))
  }

  /** The first `n` elements, chunk by chunk: nothing is lost, repeated or reordered. */
  lemma {:induction false} ChunksCover<T>(xs: seq<T>, c: nat)
    requires c < NumChunks(|xs|)
    ensures Chunk(xs, c) != [] && (|Chunk(xs, c)| == 64 || c == NumChunks(|xs|) - 1)
    ensures xs[..Covered(|xs|, c)] + Chunk(xs, c) == xs[..Covered(|xs|, c + 1)]
    ensures Covered(|xs|, NumChunks(|xs|)) == |xs|
  {}

  // ---------------------------------------------------------------- writing

  /** No failure and no other writer in the rest of the script. */
  ghost predicate Calm(turns: seq<Turn>) {
    forall t | t in turns :: t == Turn([], false)
  }

  lemma CalmTurn(turns: seq<Turn>)
    requires Calm(turns)
    ensures NextTurn(turns) == Turn([], false) && Calm(LaterTurns(turns)) && Others([]) == []
  {
    if turns != [] {
      assert turns[0] in turns;
      assert forall t | t in turns[1..] :: t in turns;
    }
  }

  lemma AllFreshLasts(a: Store, b: Store, entries: seq<Entry>, seen: seq<Option<Pair>>)
    requires AllFresh(a, entries, seen) && Later(a, b)
    ensures AllFresh(b, entries, seen)
  {}

  /** The machine `cr` with the reads `seen` of the current chunk. */
  ghost function WithReads(cr: P.Cr, seen: seq<Option<Pair>>): P.Cr
    requires cr.pc.Claiming?
  {
    P.Claim(cr, cr.pc.entries, cr.pc.owned, seen, cr.pc.attempt)
  }

  /** The machine is about to read the first key of the chunk `entries`. */
  ghost predicate AtChunk(cr: P.Cr, entries: seq<Entry>, before: set<string>) {
    cr.pc.Claiming? && cr.pc.before == before && P.Head(cr.pc.entries) == entries && cr.pc.seen == []
  }

  lemma StartReads(cr: P.Cr, entries: seq<Entry>, before: set<string>)
    requires AtChunk(cr, entries, before)
    ensures cr.pc.Claiming? && WithReads(cr, []) == cr
  {}

  lemma ReadEnabled(cr: P.Cr, entries: seq<Entry>, before: set<string>, seen: seq<Option<Pair>>)
    requires AtChunk(cr, entries, before) && |seen| < |entries|
    ensures P.Enabled(WithReads(cr, seen), P.Read(false)) && P.NextKey(WithReads(cr, seen)) == entries[|seen|].key
  {}

  lemma ReadMoves(s: Store, cr: P.Cr, entries: seq<Entry>, before: set<string>, seen: seq<Option<Pair>>, fails: bool)
    requires AtChunk(cr, entries, before) && |seen| < |entries|
    ensures P.Enabled(WithReads(cr, seen), P.Read(fails))
    ensures P.CrAfter(s, WithReads(cr, seen), P.Read(fails))
            == if fails then P.EndClaims(cr, cr.pc.owned, Some(ERROR_GET)) else WithReads(cr, seen + [Lookup(s, entries[|seen|].key)])
  {}

  lemma SubmitEnabled(cr: P.Cr, entries: seq<Entry>, before: set<string>, seen: seq<Option<Pair>>)
    requires AtChunk(cr, entries, before) && |seen| == |entries|
    ensures P.Enabled(WithReads(cr, seen), P.Submit(false)) && P.Ops(WithReads(cr, seen).pc) == ClaimOps(entries, seen, before)
    ensures |ClaimOps(entries, seen, before)| == |entries|
  {}

  lemma SubmitMoves(s: Store, cr: P.Cr, entries: seq<Entry>, before: set<string>, seen: seq<Option<Pair>>, fails: bool)
    requires AtChunk(cr, entries, before) && |seen| == |entries|
    ensures P.Enabled(WithReads(cr, seen), P.Submit(fails))
    ensures P.CrAfter(s, WithReads(cr, seen), P.Submit(fails))
            == if fails then P.EndClaims(cr, cr.pc.owned, Some(ERROR_TXN))
               else if Accepts(s, ClaimOps(entries, seen, before)) then P.ClaimNext(cr, cr.pc.owned + P.WillOwn(entries, seen, before))
               else P.ClaimAgain(cr)
  {}

  /** Reads one key and computes the operation that claims it. */
  method PlanClaim(consul: Client, e: Entry, before: set<string>)
    returns (err: Option<string>, op: Op, own: bool, ghost found: Option<Pair>)
    requires consul.Valid() && P.Enabled(consul.cr, P.Read(false)) && P.NextKey(consul.cr) == e.key
    modifies consul`state, consul`log, consul`turns, consul`cr, consul`trace
    ensures consul.Valid() && old(consul.log) <= consul.log && Later(old(consul.state), consul.state)
    ensures err.None? ==>
              && found == Lookup(consul.state, e.key) && Fresh(consul.state, e.key, found)
              && op == ClaimOp(e, found, e.key in before) && own == ClaimOf(found, e.key in before).own
    ensures err.Some? ==> err.value == ERROR_GET
    ensures consul.cr == P.CrAfter(consul.state, old(consul.cr), P.Read(err.Some?))
    ensures Calm(old(consul.turns)) ==> err.None? && Calm(consul.turns) && consul.state == old(consul.state)
  {
    hide P.CrAfter, P.Enabled, P.NextKey, P.Ops, P.EndClaims, P.ClaimNext, P.ClaimAgain, P.Claim, P.Commits, P.StoreAfter;
    hide Calm, NextTurn, LaterTurns, Others, Later, Accounts, Tracks, ValidStore;
    if Calm(consul.turns) {
      CalmTurn(consul.turns);
    }
    var r := consul.Get(e.key);
    err, op, own, found := None, DeleteCas(e.key, 0), true, None;
    if r.Err? {
      err := Some(ERROR_GET);
      return;
    }
    var pair := r.value;
    var flags := if pair.Some? then pair.value.flags else 0;
    var newFlags := flags;
    if e.key in before {
      own := true;
    } else if pair.Some? && flags == 0 {
      own := false;
    } else {
      newFlags, own := flags + 1, true;
    }
    op, found := Cas(e.key, e.value, newFlags, IndexOf(pair)), pair;
  }

  /** The plan of a chunk after the first `|seen|` keys were read. */
  ghost predicate ClaimPlan(now: Store, entries: seq<Entry>, before: set<string>, seen: seq<Option<Pair>>, ops: seq<Op>, willOwn: seq<bool>) {
    && |ops| == |willOwn| == |seen| && AllFresh(now, entries, seen)
    && (forall j | 0 <= j < |seen| :: ops[j] == ClaimOp(entries[j], seen[j], entries[j].key in before))
    && (forall j | 0 <= j < |seen| :: willOwn[j] == ClaimOf(seen[j], entries[j].key in before).own)
  }

  /** The reads still hold. */
  ghost predicate SeenNow(s: Store, entries: seq<Entry>, seen: seq<Option<Pair>>) {
    |seen| <= |entries| && forall j | 0 <= j < |seen| :: seen[j] == Lookup(s, entries[j].key)
  }

  lemma StartClaimPlan(now: Store, entries: seq<Entry>, before: set<string>)
    ensures ClaimPlan(now, entries, before, [], [], []) && SeenNow(now, entries, [])
  {}

  lemma ClaimPlanMore(was: Store, now: Store, entries: seq<Entry>, before: set<string>,
                      seen: seq<Option<Pair>>, ops: seq<Op>, willOwn: seq<bool>, found: Option<Pair>)
    requires ClaimPlan(was, entries, before, seen, ops, willOwn) && Later(was, now) && |seen| < |entries|
    requires Fresh(now, entries[|seen|].key, found)
    ensures ClaimPlan(now, entries, before, seen + [found], ops + [ClaimOp(entries[|seen|], found, entries[|seen|].key in before)],
                      willOwn + [ClaimOf(found, entries[|seen|].key in before).own])
  {}

  lemma SeenNowMore(s: Store, entries: seq<Entry>, seen: seq<Option<Pair>>, found: Option<Pair>)
    requires |seen| < |entries| && found == Lookup(s, entries[|seen|].key)
    ensures SeenNow(s, entries, seen) ==> SeenNow(s, entries, seen + [found])
  {}

  lemma ClaimPlanDone(now: Store, entries: seq<Entry>, before: set<string>, seen: seq<Option<Pair>>, ops: seq<Op>, willOwn: seq<bool>)
    requires ClaimPlan(now, entries, before, seen, ops, willOwn) && |seen| == |entries|
    ensures AllFresh(now, entries, seen) && ops == ClaimOps(entries, seen, before) && |willOwn| == |entries|
    ensures forall i | 0 <= i < |entries| :: willOwn[i] == ClaimOf(seen[i], entries[i].key in before).own
    ensures SeenNow(now, entries, seen) ==> ReadsCurrent(now, entries, seen)
  {}

  /** First pass of a chunk: reads every key and computes its operation. */
  method PlanClaims(consul: Client, entries: seq<Entry>, before: set<string>)
    returns (err: Option<string>, ops: seq<Op>, willOwn: seq<bool>, ghost seen: seq<Option<Pair>>)
    requires consul.Valid() && AtChunk(consul.cr, entries, before)
    modifies consul`state, consul`log, consul`turns, consul`cr, consul`trace
    ensures consul.Valid() && old(consul.log) <= consul.log
    ensures err.None? ==>
              |seen| == |entries| && ClaimPlan(consul.state, entries, before, seen, ops, willOwn)
    ensures err.None? ==> consul.cr == WithReads(old(consul.cr), seen)
    ensures err.Some? ==> err.value == ERROR_GET && consul.cr == P.EndClaims(old(consul.cr), old(consul.cr).pc.owned, err)
    ensures Calm(old(consul.turns)) ==>
              err.None? && Calm(consul.turns) && consul.state == old(consul.state) && SeenNow(consul.state, entries, seen)
  {
    hide P.CrAfter, P.Enabled, P.NextKey, P.Ops, P.EndClaims, P.ClaimNext, P.ClaimAgain, P.Claim, P.Commits, P.StoreAfter;
    hide AtChunk, WithReads, ClaimPlan, SeenNow;
    hide Calm, NextTurn, LaterTurns, Others, Later, Accounts, Tracks, ValidStore;
    err, ops, willOwn, seen := None, [], [], [];
    StartClaimPlan(consul.state, entries, before);
    StartReads(consul.cr, entries, before);
    for i := 0 to |entries|
      invariant consul.Valid() && old(consul.log) <= consul.log && err.None?
      invariant |seen| == i && ClaimPlan(consul.state, entries, before, seen, ops, willOwn)
      invariant consul.cr == WithReads(old(consul.cr), seen)
      invariant Calm(old(consul.turns)) ==>
                  Calm(consul.turns) && consul.state == old(consul.state) && SeenNow(consul.state, entries, seen)
    {
      ghost var was := consul.state;
      ReadEnabled(old(consul.cr), entries, before, seen);
      var op, own;
      ghost var found;
      err, op, own, found := PlanClaim(consul, entries[i], before);
      ReadMoves(consul.state, old(consul.cr), entries, before, seen, err.Some?);
      if err.Some? {
        return;
      }
      ClaimPlanMore(was, consul.state, entries, before, seen, ops, willOwn, found);
      SeenNowMore(consul.state, entries, seen, found);
      ops, willOwn, seen := ops + [op], willOwn + [own], seen + [found];
    }
  }

  /** One attempt to write a chunk: the reads and the transaction. */
  method TryClaim(consul: Client, entries: seq<Entry>, before: set<string>)
    returns (r: Result<bool>, willOwn: seq<bool>, ghost instant: Store)
    requires consul.Valid() && DistinctKeys(entries) && entries != [] && AtChunk(consul.cr, entries, before)
    modifies consul
    ensures consul.Valid() && old(consul.log) <= consul.log
    ensures r.Ok? && r.value ==>
              && consul.ours == old(consul.ours) + [Claimed(entries, before)]
              && consul.state == ClaimAll(instant, entries, before)
              && consul.decided == old(consul.decided) + Decisions(instant, entries, before)
              && |willOwn| == |entries|
              && forall i | 0 <= i < |entries| :: willOwn[i] == Decisions(instant, entries, before)[entries[i].key]
    ensures !(r.Ok? && r.value) ==> consul.ours == old(consul.ours) && consul.decided == old(consul.decided)
    ensures consul.cr == match r
                         case Ok(true) => P.ClaimNext(old(consul.cr), old(consul.cr).pc.owned + Decisions(instant, entries, before))
                         case Ok(false) => P.ClaimAgain(old(consul.cr))
                         case Err(e) => P.EndClaims(old(consul.cr), old(consul.cr).pc.owned, Some(e))
    ensures Calm(old(consul.turns)) ==> r == Ok(true) && Calm(consul.turns) && instant == old(consul.state)
  {
    hide P.CrAfter, P.Enabled, P.NextKey, P.Ops, P.EndClaims, P.ClaimNext, P.ClaimAgain, P.Claim, P.Commits, P.StoreAfter;
    hide AtChunk, WithReads, P.WillOwn;
    hide ClaimAll, ClaimOps, Commit, Accepts, Later, Decisions, ReadsCurrent, AllFresh, Accounts, Tracks, ClaimPlan, SeenNow, Calm, Others;
    var err, ops;
    ghost var seen;
    err, ops, willOwn, seen := PlanClaims(consul, entries, before);
    instant := consul.state;
    if err.Some? {
      r := Err(err.value);
      return;
    }
    ClaimPlanDone(consul.state, entries, before, seen, ops, willOwn);
    ghost var was, script := consul.state, consul.turns;
    forall s | ValidStore(s) && Later(was, s) && Accepts(s, ops) ensures Commit(s, ops) == ClaimAll(s, entries, before) {
      AllFreshLasts(was, s, entries, seen);
      ClaimTxnIsAtomic(s, entries, seen, before);
    }
    var answer;
    SubmitEnabled(old(consul.cr), entries, before, seen);
    answer, instant := consul.Txn(ops, Claimed(entries, before));
    SubmitMoves(instant, old(consul.cr), entries, before, seen, answer.Err?);
    r := if answer.Ok? then answer else Err(ERROR_TXN);
    AllFreshLasts(was, instant, entries, seen);
    if Calm(script) {
      CalmTurn(script);
      ClaimAcceptedIffCurrent(was, entries, seen, before);
    }
    if r.Ok? && r.value {
      ClaimTxnIsAtomic(instant, entries, seen, before);
      WillOwnAsDecided(instant, entries, seen, before);
    }
  }

  lemma WillOwnAsDecided(s: Store, entries: seq<Entry>, seen: seq<Option<Pair>>, before: set<string>)
    requires |seen| == |entries|
    requires forall i | 0 <= i < |entries| ::
               ClaimOf(seen[i], entries[i].key in before).own == Decisions(s, entries, before)[entries[i].key]
    ensures P.WillOwn(entries, seen, before) == Decisions(s, entries, before)
  {
    P.WillOwnIs(entries, seen, before, Decisions(s, entries, before));
  }

  /** The machine about to make its attempt `n` at a chunk; after the last one it gives up. */
  ghost function Attempt(cr: P.Cr, n: nat): P.Cr
    requires cr.pc.Claiming?
  {
    if n < CAS_MAX_RETRIES then P.Claim(cr, cr.pc.entries, cr.pc.owned, [], n)
    else P.EndClaims(cr, cr.pc.owned, Some(ERROR_RETRIES))
  }

  lemma StartAttempts(cr: P.Cr)
    requires cr.pc.Claiming? && cr.pc.seen == [] && cr.pc.attempt == 0
    ensures Attempt(cr, 0) == cr
  {}

  lemma AttemptMoves(cr: P.Cr, entries: seq<Entry>, before: set<string>, n: nat)
    requires AtChunk(cr, entries, before) && n < CAS_MAX_RETRIES
    ensures AtChunk(Attempt(cr, n), entries, before) && Attempt(cr, n).pc.owned == cr.pc.owned
    ensures P.ClaimAgain(Attempt(cr, n)) == Attempt(cr, n + 1)
    ensures forall owned :: P.ClaimNext(Attempt(cr, n), owned) == P.ClaimNext(cr, owned)
    ensures forall err :: P.EndClaims(Attempt(cr, n), cr.pc.owned, err) == P.EndClaims(cr, cr.pc.owned, err)
  {}

  /** Writes one chunk. Whatever the other clients do, either the chunk takes effect as one
      atomic claim, with the ownership decided by the store of that instant, or an error is
      returned and nothing was written. */
  method WriteKVChunk(consul: Client, entries: seq<Entry>, before: set<string>, owned: map<string, bool>)
    returns (err: Option<string>, owned': map<string, bool>, ghost instant: Store)
    requires consul.Valid() && DistinctKeys(entries) && entries != [] && AtChunk(consul.cr, entries, before)
    requires consul.cr.pc.attempt == 0 && consul.cr.pc.owned == owned
    modifies consul
    ensures consul.Valid() && old(consul.log) <= consul.log
    ensures err.None? ==>
              && consul.ours == old(consul.ours) + [Claimed(entries, before)]
              && consul.state == ClaimAll(instant, entries, before)
              && consul.decided == old(consul.decided) + Decisions(instant, entries, before)
              && owned' == owned + Decisions(instant, entries, before)
    ensures err.Some? ==> consul.ours == old(consul.ours) && consul.decided == old(consul.decided) && owned' == owned
    ensures consul.cr == if err.None? then P.ClaimNext(old(consul.cr), owned') else P.EndClaims(old(consul.cr), owned, err)
    ensures Calm(old(consul.turns)) ==> err.None? && Calm(consul.turns) && instant == old(consul.state)
  {
    hide P.CrAfter, P.Enabled, P.NextKey, P.Ops, P.EndClaims, P.ClaimNext, P.ClaimAgain, P.Claim, P.Commits, P.StoreAfter;
    owned', instant := owned, consul.state;
    StartAttempts(consul.cr);
    for attempt := 0 to CAS_MAX_RETRIES
      invariant consul.Valid() && old(consul.log) <= consul.log
      invariant consul.ours == old(consul.ours) && consul.decided == old(consul.decided) && owned' == owned
      invariant consul.cr == Attempt(old(consul.cr), attempt)
      invariant Calm(old(consul.turns)) ==> Calm(consul.turns) && attempt == 0
      invariant attempt == 0 ==> consul.state == old(consul.state)
    {
      var r, willOwn;
      AttemptMoves(old(consul.cr), entries, before, attempt);
      r, willOwn, instant := TryClaim(consul, entries, before);
      if r.Err? {
        err := Some(r.error);
        return;
      }
      if r.value {
        owned' := RecordOwned(entries, willOwn, Decisions(instant, entries, before), owned);
        err := None;
        return;
      }
    }
    err := Some(ERROR_RETRIES);
  }

  lemma KeysMore(entries: seq<Entry>, i: nat)
    requires i < |entries|
    ensures Keys(entries[..i + 1]) == Keys(entries[..i]) + {entries[i].key}
    ensures entries[i].key in Keys(entries)
  {}

  /** Records the ownership of a committed chunk. */
  method RecordOwned(entries: seq<Entry>, willOwn: seq<bool>, ghost decided: map<string, bool>, owned: map<string, bool>)
    returns (owned': map<string, bool>)
    requires |willOwn| == |entries| && decided.Keys == Keys(entries)
    requires forall i | 0 <= i < |entries| :: willOwn[i] == decided[entries[i].key]
    ensures owned' == owned + decided
  {
    hide Keys;
    assert entries[..0] == [];
    P.NoEntries();
    owned' := owned;
    for i := 0 to |entries|
      invariant Keys(entries[..i]) <= Keys(entries)
      invariant forall k :: k in owned' <==> k in owned || k in Keys(entries[..i])
      invariant forall k | k in owned' :: owned'[k] == if k in Keys(entries[..i]) then decided[k] else owned[k]
    {
      KeysMore(entries, i);
      owned' := owned'[entries[i].key := willOwn[i]];
    }
    assert entries[..|entries|] == entries;
  }

  /** What a batch of claims leaves behind after `done` committed chunks: exactly those chunks
      were written, each atomically and in order, and `owned` holds what they decided. */
  ghost predicate BatchClaimed(was: seq<Step>, ours: seq<Step>, decided: map<string, bool>,
                               entries: seq<Entry>, before: set<string>, owned: map<string, bool>, done: nat)
  {
    && done <= NumChunks(|entries|)
    && ours == was + ClaimSteps(entries, before, done)
    && owned.Keys == Keys(entries[..Covered(|entries|, done)])
    && forall k | k in owned :: k in decided && decided[k] == owned[k]
  }

  lemma BatchClaimedMore(was: seq<Step>, ours: seq<Step>, decided: map<string, bool>,
                         entries: seq<Entry>, before: set<string>, owned: map<string, bool>, done: nat, instant: Store)
    requires BatchClaimed(was, ours, decided, entries, before, owned, done)
    requires done < NumChunks(|entries|) && DistinctKeys(entries)
    ensures BatchClaimed(was, ours + [Claimed(Chunk(entries, done), before)],
                         decided + Decisions(instant, Chunk(entries, done), before),
                         entries, before, owned + Decisions(instant, Chunk(entries, done), before), done + 1)
  {
    ChunkKeys(entries, done);
    OneMoreClaim(entries, before, done);
  }

  /** Adding the keys of one more chunk. */
  lemma ChunkKeys(entries: seq<Entry>, c: nat)
    requires c < NumChunks(|entries|) && DistinctKeys(entries)
    ensures DistinctKeys(Chunk(entries, c))
    ensures Keys(entries[..Covered(|entries|, c + 1)]) == Keys(entries[..Covered(|entries|, c)]) + Keys(Chunk(entries, c))
    ensures Keys(entries[..Covered(|entries|, c)]) !! Keys(Chunk(entries, c))
  {}

  lemma OneMoreClaim(entries: seq<Entry>, before: set<string>, c: nat)
    ensures ClaimSteps(entries, before, c + 1) == ClaimSteps(entries, before, c) + [Claimed(Chunk(entries, c), before)]
  {}

  lemma ClaimStepAppend(s: Store, entries: seq<Entry>, before: set<string>, c: nat)
    ensures Replay(s, ClaimSteps(entries, before, c + 1))
            == ClaimAll(Replay(s, ClaimSteps(entries, before, c)), Chunk(entries, c), before)
  {
    OneMoreClaim(entries, before, c);
    Append(s, ClaimSteps(entries, before, c), Claimed(Chunk(entries, c), before));
  }

  /** The machine is about to claim `entries`, having claimed `owned`. */
  ghost predicate AtEntries(cr: P.Cr, entries: seq<Entry>, before: set<string>, owned: map<string, bool>) {
    && cr.pc.Claiming? && cr.pc.before == before && cr.pc.entries == entries
    && cr.pc.owned == owned && cr.pc.seen == [] && cr.pc.attempt == 0
  }

  /** The machine, started as `cr0`, after the chunks before `start`. */
  ghost predicate BetweenChunks(cr0: P.Cr, cr: P.Cr, entries: seq<Entry>, owned: map<string, bool>, start: nat) {
    if entries == [] then cr == cr0
    else
      && cr0.pc.Claiming?
      && cr == if start < |entries| then P.Claim(cr0, entries[start..], owned, [], 0) else P.EndClaims(cr0, owned, None)
  }

  /** The chunk that begins at `start`. */
  function ChunkAt<T>(xs: seq<T>, start: nat): seq<T>
    requires start < |xs|
  {
    xs[start..if start + TXN_BATCH_SIZE < |xs| then start + TXN_BATCH_SIZE else |xs|]
  }

  lemma ChunkOf<T>(xs: seq<T>, start: nat)
    requires start < |xs|
    ensures P.Head(xs[start..]) == ChunkAt(xs, start)
    ensures P.Tail(xs[start..]) == if start + TXN_BATCH_SIZE < |xs| then xs[start + TXN_BATCH_SIZE..] else []
  {}

  lemma StartBatch(ours: seq<Step>, decided: map<string, bool>, entries: seq<Entry>, before: set<string>, s: Store)
    ensures BatchClaimed(ours, ours, decided, entries, before, map[], 0)
    ensures Replay(s, ClaimSteps(entries, before, 0)) == s
  {}

  /** Chunk `c` begins at 64 * c, and there is one exactly when that is not beyond the end. */
  lemma ChunkIsAt<T>(xs: seq<T>, c: nat)
    requires TXN_BATCH_SIZE * c < |xs|
    ensures c < NumChunks(|xs|) && Chunk(xs, c) == ChunkAt(xs, TXN_BATCH_SIZE * c)
  {}

  lemma NoMoreChunks(n: nat, c: nat)
    requires TXN_BATCH_SIZE * c >= n && c <= NumChunks(n)
    ensures c == NumChunks(n)
  {}

  lemma StartChunks(cr: P.Cr, entries: seq<Entry>, before: set<string>)
    requires entries != [] ==> AtEntries(cr, entries, before, map[])
    ensures BetweenChunks(cr, cr, entries, map[], 0)
  {}

  lemma EndChunks(cr0: P.Cr, cr: P.Cr, entries: seq<Entry>, owned: map<string, bool>, start: nat)
    requires BetweenChunks(cr0, cr, entries, owned, start) && start >= |entries|
    ensures entries != [] ==> cr0.pc.Claiming?
    ensures cr == if entries == [] then cr0 else P.EndClaims(cr0, owned, None)
  {}

  lemma ChunkMoves(cr0: P.Cr, cr: P.Cr, entries: seq<Entry>, before: set<string>, owned: map<string, bool>, start: nat)
    requires BetweenChunks(cr0, cr, entries, owned, start) && start < |entries| && AtEntries(cr0, entries, before, map[])
    ensures AtChunk(cr, ChunkAt(entries, start), before)
    ensures cr0.pc.Claiming? && cr == P.Claim(cr0, entries[start..], owned, [], 0)
    ensures cr.pc.attempt == 0 && cr.pc.owned == owned
    ensures forall err :: P.EndClaims(cr, owned, err) == P.EndClaims(cr0, owned, err)
  {}

  lemma ChunkMoved(cr0: P.Cr, cr: P.Cr, entries: seq<Entry>, before: set<string>,
                   sofar: map<string, bool>, owned: map<string, bool>, start: nat)
    requires start < |entries| && AtEntries(cr0, entries, before, map[])
    requires cr == P.ClaimNext(P.Claim(cr0, entries[start..], sofar, [], 0), owned)
    ensures BetweenChunks(cr0, cr, entries, owned, start + TXN_BATCH_SIZE)
  {}

  /** Writes all the entries, one transaction per chunk, until one fails. */
  method WriteKVBatchWithOwnership(consul: Client, entries: seq<Entry>, before: set<string>)
    returns (owned: map<string, bool>, err: Option<string>, ghost done: nat)
    requires consul.Valid() && DistinctKeys(entries)
    requires entries != [] ==> AtEntries(consul.cr, entries, before, map[])
    modifies consul
    ensures consul.Valid() && old(consul.log) <= consul.log
    ensures BatchClaimed(old(consul.ours), consul.ours, consul.decided, entries, before, owned, done)
    ensures err.None? <==> done == NumChunks(|entries|)
    ensures consul.cr == if entries == [] then old(consul.cr) else P.EndClaims(old(consul.cr), owned, err)
    ensures Calm(old(consul.turns)) ==>
              err.None? && Calm(consul.turns) && consul.state == Replay(old(consul.state), ClaimSteps(entries, before, done))
  {
    hide P.EndClaims, P.ClaimNext, P.Claim, P.Head, P.Tail;
    hide AtEntries, AtChunk, BetweenChunks, BatchClaimed, Chunk, NumChunks, ClaimSteps, Replay, DistinctKeys, Accounts, Tracks, Calm, ClaimAll;
    owned, err, done := map[], None, 0;
    var start := 0;
    StartChunks(consul.cr, entries, before);
    StartBatch(consul.ours, consul.decided, entries, before, consul.state);
    while start < |entries|
      invariant start == TXN_BATCH_SIZE * done && err.None?
      invariant consul.Valid() && old(consul.log) <= consul.log
      invariant BatchClaimed(old(consul.ours), consul.ours, consul.decided, entries, before, owned, done)
      invariant BetweenChunks(old(consul.cr), consul.cr, entries, owned, start) && done <= NumChunks(|entries|)
      invariant Calm(old(consul.turns)) ==>
                  Calm(consul.turns) && consul.state == Replay(old(consul.state), ClaimSteps(entries, before, done))
    {
      var end := if start + TXN_BATCH_SIZE < |entries| then start + TXN_BATCH_SIZE else |entries|;
      ChunkIsAt(entries, done);
      ChunkKeys(entries, done);
      ChunkMoves(old(consul.cr), consul.cr, entries, before, owned, start);
      ghost var instant;
      ghost var ours, decided, sofar := consul.ours, consul.decided, owned;
      err, owned, instant := WriteKVChunk(consul, entries[start..end], before, owned);
      if err.Some? {
        return;
      }
      ChunkMoved(old(consul.cr), consul.cr, entries, before, sofar, owned, start);
      BatchClaimedMore(old(consul.ours), ours, decided, entries, before, sofar, done, instant);
      ClaimStepAppend(old(consul.state), entries, before, done);
      done := done + 1;
      start := start + TXN_BATCH_SIZE;
    }
    EndChunks(old(consul.cr), consul.cr, entries, owned, start);
    NoMoreChunks(|entries|, done);
  }

  /** The values of a store, without counters and indices. */
  function Values(s: Store): map<string, string> {
    map k | k in s.pairs :: s.pairs[k].value
  }

  /** Writing the entries one by one, left to right; empty keys are not written. */
  function Fold(values: map<string, string>, entries: seq<Entry>): map<string, string> {
    if entries == [] then values
    else
      var e := entries[|entries| - 1];
      var init := Fold(values, entries[..|entries| - 1]);
      if e.key == "" then init else init[e.key := e.value]
  }

  lemma {:induction false} FoldAt(values: map<string, string>, entries: seq<Entry>, k: string)
    ensures k in Fold(values, entries) <==> k in values || (k != "" && k in Keys(entries))
    ensures k in Fold(values, entries) ==>
              Fold(values, entries)[k] == if k != "" && k in Keys(entries) then LastValue(entries, k) else values[k]
  {
    if entries != [] {
      var n := |entries| - 1;
      FoldAt(values, entries[..n], k);
      assert Keys(entries) == Keys(entries[..n]) + {entries[n].key} by {
        forall i | 0 <= i < n ensures entries[i] == entries[..n][i] {}
      }
    }
  }

  lemma {:induction false} FoldConcat(values: map<string, string>, a: seq<Entry>, b: seq<Entry>)
    ensures Fold(values, a + b) == Fold(Fold(values, a), b)
  {
    if b == [] {
      assert a + b == a;
    } else {
      FoldConcat(values, a, b[..|b| - 1]);
      assert (a + b)[..|a + b| - 1] == a + b[..|b| - 1];
    }
  }

  /** One chunk writes the values of its entries. */
  lemma ClaimAllValues(s: Store, entries: seq<Entry>, before: set<string>)
    requires "" !in Keys(entries)
    ensures Values(ClaimAll(s, entries, before)) == Fold(Values(s), entries)
  {
    var a, b := Values(ClaimAll(s, entries, before)), Fold(Values(s), entries);
    forall k ensures k in a <==> k in b
             ensures k in a ==> a[k] == b[k]
    {
      FoldAt(Values(s), entries, k);
    }
    assert a == b;
  }

  lemma {:induction false} ClaimStepsValues(s: Store, entries: seq<Entry>, before: set<string>, chunks: nat)
    requires DistinctKeys(entries) && "" !in Keys(entries) && chunks <= NumChunks(|entries|)
    ensures Values(Replay(s, ClaimSteps(entries, before, chunks)))
            == Fold(Values(s), entries[..Covered(|entries|, chunks)])
  {
    if chunks > 0 {
      var c := chunks - 1;
      ClaimStepsValues(s, entries, before, c);
      ClaimStepAppend(s, entries, before, c);
      ChunksCover(entries, c);
      ChunkKeys(entries, c);
      assert Keys(Chunk(entries, c)) <= Keys(entries[..Covered(|entries|, chunks)]) <= Keys(entries) by {
        forall i | 0 <= i < Covered(|entries|, chunks) ensures entries[..Covered(|entries|, chunks)][i] == entries[i] {}
      }
      ClaimAllValues(Replay(s, ClaimSteps(entries, before, c)), Chunk(entries, c), before);
      FoldConcat(Values(s), entries[..Covered(|entries|, c)], Chunk(entries, c));
    }
  }

  lemma FoldWinners(values: map<string, string>, entries: seq<Entry>)
    ensures Fold(values, Winners(entries)) == Fold(values, entries)
  {
    var w := Winners(entries);
    WinnersAreLastEntries(entries);
    var a, b := Fold(values, w), Fold(values, entries);
    forall k ensures k in a <==> k in b
             ensures k in a ==> a[k] == b[k]
    {
      FoldAt(values, w, k);
      FoldAt(values, entries, k);
      if k in Keys(w) {
        var i :| 0 <= i < |w| && w[i].key == k;
        LastValueOfDistinct(w, i);
        assert w[i] in w;
      }
    }
    assert a == b;
  }

  /** Without interference, writing the winners chunk by chunk leaves the values that writing
      the whole spec left to right would leave. */
  lemma ApplyIsFold(s: Store, entries: seq<Entry>, before: set<string>)
    ensures Values(Replay(s, ClaimSteps(Winners(entries), before, NumChunks(|Winners(entries)|))))
            == Fold(Values(s), entries)
  {
    var w := Winners(entries);
    WinnersAreLastEntries(entries);
    ClaimStepsValues(s, w, before, NumChunks(|w|));
    assert w[..Covered(|w|, NumChunks(|w|))] == w;
    FoldWinners(Values(s), entries);
  }

  /** Once the claims of a reconcile are over, the machine goes on to release what `base` dropped. */
  lemma EndApply(base: P.Cr, cr: P.Cr, before: set<string>, owned: map<string, bool>, err: Option<string>)
    requires !base.deleting && before == OwnedKeys(base.status)
    requires var start := P.BeginAfter(base);
             if Winners(base.spec) == [] then cr == start && owned == map[] && err.None?
             else start.pc.Claiming? && cr == P.EndClaims(start, owned, err)
    ensures cr == P.BeginRelease(base, P.Update(base.spec, ApplyStatuses(base.spec, before, owned, err)))
  {}

  lemma EmptyBatch(was: seq<Step>, ours: seq<Step>, decided: map<string, bool>, before: set<string>, owned: map<string, bool>, done: nat)
    requires BatchClaimed(was, ours, decided, [], before, owned, done)
    ensures owned == map[] && done == NumChunks(0)
  {}

  /** Writes the entries of a spec and reports on each of them. Only the last entry of each
      non-empty key is written; the report aligns with the spec index by index. */
  method ApplyKVEntries(consul: Client, entries: seq<Entry>, before: set<string>, ghost base: P.Cr)
    returns (statuses: seq<EntryStatus>, err: Option<string>, ghost owned: map<string, bool>, ghost done: nat)
    requires consul.Valid()
    requires !base.deleting && base.spec == entries && OwnedKeys(base.status) == before && consul.cr == P.BeginAfter(base)
    modifies consul
    ensures consul.Valid() && old(consul.log) <= consul.log
    ensures BatchClaimed(old(consul.ours), consul.ours, consul.decided, Winners(entries), before, owned, done)
    ensures err.None? <==> done == NumChunks(|Winners(entries)|)
    ensures statuses == ApplyStatuses(entries, before, owned, err)
    ensures |statuses| == |entries| && forall i | 0 <= i < |entries| :: Reports(entries, i, before, owned, statuses[i])
    ensures consul.cr == P.BeginRelease(base, P.Update(entries, statuses))
    ensures Calm(old(consul.turns)) ==>
              && err.None? && Calm(consul.turns)
              && Values(consul.state) == Fold(Values(old(consul.state)), entries)
  {
    hide P.Claim, BatchClaimed, NumChunks, ApplyStatuses, Accounts, Tracks, Calm, Fold, Values, Replay, ClaimSteps, Winners, IsLastIndex, Reports;
    var lastIndex := IndexLast(entries);
    var valid := SelectWinners(entries, lastIndex);
    WinnersAreLastEntries(entries);
    var written;
    written, err, done := WriteKVBatchWithOwnership(consul, valid, before);
    owned := written;
    if Winners(entries) == [] {
      EmptyBatch(old(consul.ours), consul.ours, consul.decided, before, owned, done);
    }
    EndApply(base, consul.cr, before, owned, err);
    statuses := ReportEntries(entries, lastIndex, before, written, err);
    ReportsEach(entries, before, owned, err);
    if Calm(old(consul.turns)) {
      ApplyIsFold(old(consul.state), entries, before);
    }
  }

  ghost predicate IsLastIndex(entries: seq<Entry>, lastIndex: map<string, nat>) {
    && lastIndex.Keys == Keys(entries)
    && forall i | 0 <= i < |entries| ::
         && entries[i].key in lastIndex && i <= lastIndex[entries[i].key] < |entries|
         && entries[lastIndex[entries[i].key]].key == entries[i].key
  }

  /** The entries that go into the transactions. */
  method SelectWinners(entries: seq<Entry>, lastIndex: map<string, nat>) returns (valid: seq<Entry>)
    requires IsLastIndex(entries, lastIndex)
    ensures valid == Winners(entries)
  {
    valid := [];
    for i := 0 to |entries|
      invariant valid == WinnersUpTo(entries, i)
    {
      assert Wins(entries, i) <==> entries[i].key != "" && lastIndex[entries[i].key] == i;
      if entries[i].key != "" && lastIndex[entries[i].key] == i {
        valid := valid + [entries[i]];
      }
    }
  }

  /** The report on each entry of the spec. */
  method ReportEntries(entries: seq<Entry>, lastIndex: map<string, nat>, before: set<string>, written: map<string, bool>, err: Option<string>)
    returns (statuses: seq<EntryStatus>)
    requires IsLastIndex(entries, lastIndex)
    ensures statuses == ApplyStatuses(entries, before, written, err)
  {
    statuses := [];
    for i := 0 to |entries|
      invariant |statuses| == i
      invariant forall j | 0 <= j < i :: statuses[j] == ApplyStatus(entries, j, before, written, err)
    {
      var k := entries[i].key;
      var status;
      if k == "" {
        status := EntryStatus("", STATUS_EMPTY_KEY, false);
      } else if lastIndex[k] != i {
        status := EntryStatus(k, STATUS_SKIPPED, false);
      } else if k !in written {
        var reason := if err.Some? then err.value else "not written";
        status := EntryStatus(k, "error: " + reason, k in before);
      } else if written[k] {
        status := EntryStatus(k, STATUS_SYNCED, true);
      } else {
        status := EntryStatus(k, STATUS_NOT_OWNED, false);
      }
      assert status == ApplyStatus(entries, i, before, written, err);
      statuses := statuses + [status];
    }
  }

  /** The position of the last entry of each key. */
  method IndexLast(entries: seq<Entry>) returns (lastIndex: map<string, nat>)
    ensures IsLastIndex(entries, lastIndex)
  {
    lastIndex := map[];
    for i := 0 to |entries|
      invariant forall k | k in lastIndex :: lastIndex[k] < i && entries[lastIndex[k]].key == k
      invariant forall j | 0 <= j < i :: entries[j].key in lastIndex && j <= lastIndex[entries[j].key]
    {
      lastIndex := lastIndex[entries[i].key := i];
    }
    assert lastIndex.Keys == Keys(entries);
  }

  // ---------------------------------------------------------------- releasing

  /** Since the log had length `start`, a read found the key absent. */
  ghost predicate SeenAbsent(start: nat, log: seq<Step>, k: string) {
    exists n | start <= n < |log| :: log[n] == Missed(k)
  }

  lemma AllFreshKeysLast(a: Store, b: Store, keys: seq<string>, seen: seq<Option<Pair>>)
    requires AllFreshKeys(a, keys, seen) && Later(a, b)
    ensures AllFreshKeys(b, keys, seen)
  {}

  ghost function AfterReads(cr: P.Cr, seen: seq<Option<Pair>>): P.Cr
    requires cr.pc.Releasing?
  {
    P.Release(cr, cr.pc.keys, cr.pc.released, seen, cr.pc.attempt)
  }

  /** The machine is about to read the first key of the chunk `keys`. */
  ghost predicate AtKeys(cr: P.Cr, keys: seq<string>) {
    cr.pc.Releasing? && P.Head(cr.pc.keys) == keys && cr.pc.seen == []
  }

  lemma StartReleaseReads(cr: P.Cr, keys: seq<string>)
    requires AtKeys(cr, keys)
    ensures cr.pc.Releasing? && AfterReads(cr, []) == cr
  {}

  lemma ReleaseReadEnabled(cr: P.Cr, keys: seq<string>, seen: seq<Option<Pair>>)
    requires AtKeys(cr, keys) && |seen| < |keys|
    ensures P.Enabled(AfterReads(cr, seen), P.Read(false)) && P.NextKey(AfterReads(cr, seen)) == keys[|seen|]
  {}

  lemma ReleaseReadMoves(s: Store, cr: P.Cr, keys: seq<string>, seen: seq<Option<Pair>>, fails: bool)
    requires AtKeys(cr, keys) && |seen| < |keys|
    ensures P.Enabled(AfterReads(cr, seen), P.Read(fails))
    ensures P.CrAfter(s, AfterReads(cr, seen), P.Read(fails))
            == if fails then P.EndReleases(cr, cr.pc.released, false) else AfterReads(cr, seen + [Lookup(s, keys[|seen|])])
  {}

  lemma ReleaseSubmitEnabled(cr: P.Cr, keys: seq<string>, seen: seq<Option<Pair>>)
    requires AtKeys(cr, keys) && |seen| == |keys|
    ensures P.Enabled(AfterReads(cr, seen), P.Submit(false)) && P.Ops(AfterReads(cr, seen).pc) == ReleaseOps(keys, seen)
    ensures ReleaseOps(keys, seen) == [] ==> forall s :: !P.Commits(s, AfterReads(cr, seen), P.Submit(false))
  {}

  lemma ReleaseSubmitMoves(s: Store, cr: P.Cr, keys: seq<string>, seen: seq<Option<Pair>>, fails: bool)
    requires AtKeys(cr, keys) && |seen| == |keys|
    ensures P.Enabled(AfterReads(cr, seen), P.Submit(fails))
    ensures P.CrAfter(s, AfterReads(cr, seen), P.Submit(fails))
            == if ReleaseOps(keys, seen) == [] || (!fails && Accepts(s, ReleaseOps(keys, seen))) then P.ReleaseNext(cr)
               else if fails then P.EndReleases(cr, cr.pc.released, false)
               else P.ReleaseAgain(cr)
  {
    hide P.ReleaseNext, P.ReleaseAgain, P.EndReleases, Accepts;
    SameRelease(cr, seen);
    ReleaseSubmitEnabled(cr, keys, seen);
  }

  /** The reads of a chunk do not matter for what follows it. */
  lemma SameRelease(cr: P.Cr, seen: seq<Option<Pair>>)
    requires cr.pc.Releasing?
    ensures var at := AfterReads(cr, seen);
            && P.ReleaseNext(at) == P.ReleaseNext(cr) && P.ReleaseAgain(at) == P.ReleaseAgain(cr)
            && P.EndReleases(at, cr.pc.released, false) == P.EndReleases(cr, cr.pc.released, false)
  {}

  /** Reads one key; an absent key is noted as absent at this instant. */
  method PlanRelease(consul: Client, key: string)
    returns (err: Option<string>, op: Option<Op>, ghost found: Option<Pair>)
    requires consul.Valid() && P.Enabled(consul.cr, P.Read(false)) && P.NextKey(consul.cr) == key
    modifies consul`state, consul`log, consul`turns, consul`cr, consul`trace
    ensures consul.Valid() && old(consul.log) <= consul.log && Later(old(consul.state), consul.state)
    ensures err.None? ==>
              && found == Lookup(consul.state, key) && Fresh(consul.state, key, found)
              && op == (if found.Some? then Some(ReleaseOp(key, found.value)) else None)
              && (found.None? ==> SeenAbsent(|old(consul.log)|, consul.log, key))
    ensures consul.cr == P.CrAfter(consul.state, old(consul.cr), P.Read(err.Some?))
    ensures Calm(old(consul.turns)) ==> err.None? && Calm(consul.turns) && consul.state == old(consul.state)
  {
    hide P.CrAfter, P.Enabled, P.NextKey, P.Ops, P.EndReleases, P.ReleaseNext, P.ReleaseAgain, P.Release, P.Commits, P.StoreAfter;
    hide Calm, NextTurn, LaterTurns, Others, Later, Accounts, Tracks, ValidStore;
    if Calm(consul.turns) {
      CalmTurn(consul.turns);
    }
    var r := consul.Get(key);
    err, op, found := None, None, None;
    if r.Err? {
      err := Some(ERROR_GET);
      return;
    }
    var pair := r.value;
    found := pair;
    if pair.None? {
      assert consul.log[|consul.log| - 1] == Missed(key);
    } else if pair.value.flags <= 1 {
      op := Some(DeleteCas(key, pair.value.index));
    } else {
      op := Some(Cas(key, pair.value.value, pair.value.flags - 1, pair.value.index));
    }
  }

  ghost predicate NotedAbsent(start: nat, log: seq<Step>, keys: seq<string>, seen: seq<Option<Pair>>) {
    && |seen| <= |keys|
    && forall i | 0 <= i < |seen| && seen[i].None? :: SeenAbsent(start, log, keys[i])
  }

  lemma SeenAbsentLasts(start: nat, from_: nat, log: seq<Step>, later: seq<Step>, k: string)
    requires start <= from_ && SeenAbsent(from_, log, k) && log <= later
    ensures SeenAbsent(start, later, k)
  {}

  /** The plan of a release after the first `|seen|` keys were read. */
  ghost predicate ReleasePlan(start: nat, log: seq<Step>, now: Store,
                              keys: seq<string>, seen: seq<Option<Pair>>, ops: seq<Op>)
  {
    && AllFreshKeys(now, keys, seen)
    && NotedAbsent(start, log, keys, seen)
    && ops == ReleaseOps(keys[..|seen|], seen)
  }

  ghost predicate KeysCurrent(s: Store, keys: seq<string>, seen: seq<Option<Pair>>)
    requires |seen| <= |keys|
  {
    forall i | 0 <= i < |seen| :: seen[i] == Lookup(s, keys[i])
  }

  lemma StartReleasePlan(start: nat, log: seq<Step>, now: Store, keys: seq<string>)
    ensures ReleasePlan(start, log, now, keys, [], []) && KeysCurrent(now, keys, [])
  {}

  lemma KeysCurrentMore(s: Store, keys: seq<string>, seen: seq<Option<Pair>>, found: Option<Pair>)
    requires |seen| < |keys| && found == Lookup(s, keys[|seen|])
    ensures KeysCurrent(s, keys, seen) ==> KeysCurrent(s, keys, seen + [found])
  {}

  lemma ReleasePlanMore(start: nat, log: seq<Step>, was: Store, later: seq<Step>, now: Store,
                        keys: seq<string>, seen: seq<Option<Pair>>, ops: seq<Op>, found: Option<Pair>, op: Option<Op>)
    requires ReleasePlan(start, log, was, keys, seen, ops) && |seen| < |keys|
    requires log <= later && start <= |log| && Later(was, now)
    requires Fresh(now, keys[|seen|], found)
    requires op == if found.Some? then Some(ReleaseOp(keys[|seen|], found.value)) else None
    requires found.None? ==> SeenAbsent(|log|, later, keys[|seen|])
    ensures ReleasePlan(start, later, now, keys, seen + [found], ops + (if op.Some? then [op.value] else []))
  {
    var i := |seen|;
    AllFreshKeysLast(was, now, keys, seen);
    forall j | 0 <= j < i && seen[j].None? ensures SeenAbsent(start, later, keys[j]) {
      SeenAbsentLasts(start, start, log, later, keys[j]);
    }
    if found.None? {
      SeenAbsentLasts(start, |log|, later, later, keys[i]);
    }
    assert keys[..i + 1][..i] == keys[..i] && (seen + [found])[..i] == seen;
  }

  /** First pass of a release: reads every key and decides delete or decrement. */
  method PlanReleases(consul: Client, keys: seq<string>)
    returns (err: Option<string>, ops: seq<Op>, ghost seen: seq<Option<Pair>>)
    requires consul.Valid() && AtKeys(consul.cr, keys)
    modifies consul`state, consul`log, consul`turns, consul`cr, consul`trace
    ensures consul.Valid() && old(consul.log) <= consul.log
    ensures err.None? ==>
              && |seen| == |keys|
              && ReleasePlan(|old(consul.log)|, consul.log, consul.state, keys, seen, ops)
              && consul.cr == AfterReads(old(consul.cr), seen)
    ensures err.Some? ==> consul.cr == P.EndReleases(old(consul.cr), old(consul.cr).pc.released, false)
    ensures Calm(old(consul.turns)) ==>
              && err.None? && Calm(consul.turns) && consul.state == old(consul.state)
              && |seen| == |keys| && KeysCurrent(consul.state, keys, seen)
  {
    hide P.CrAfter, P.Enabled, P.NextKey, P.Ops, P.EndReleases, P.ReleaseNext, P.ReleaseAgain, P.Release, P.Commits, P.StoreAfter;
    hide AfterReads, AtKeys, ReleasePlan, KeysCurrent, SeenAbsent;
    hide Calm, NextTurn, LaterTurns, Others, Later, Accounts, Tracks, ValidStore;
    err, ops, seen := None, [], [];
    StartReleasePlan(|consul.log|, consul.log, consul.state, keys);
    StartReleaseReads(consul.cr, keys);
    var i := 0;
    while i < |keys|
      invariant consul.Valid() && old(consul.log) <= consul.log && err.None? && |seen| == i <= |keys|
      invariant consul.cr == AfterReads(old(consul.cr), seen)
      invariant ReleasePlan(|old(consul.log)|, consul.log, consul.state, keys, seen, ops)
      invariant Calm(old(consul.turns)) ==>
                  Calm(consul.turns) && consul.state == old(consul.state) && KeysCurrent(consul.state, keys, seen)
    {
      ghost var was, log := consul.state, consul.log;
      ReleaseReadEnabled(old(consul.cr), keys, seen);
      var op;
      ghost var found;
      err, op, found := PlanRelease(consul, keys[i]);
      ReleaseReadMoves(consul.state, old(consul.cr), keys, seen, err.Some?);
      if err.Some? {
        return;
      }
      KeysCurrentMore(consul.state, keys, seen, found);
      ReleasePlanMore(|old(consul.log)|, log, was, consul.log, consul.state, keys, seen, ops, found, op);
      ops := ops + (if op.Some? then [op.value] else []);
      seen := seen + [found];
      i := i + 1;
    }
  }

  /** What a release of `keys` that freed `found` means: only listed keys lost an owner, each
      once, and a key that was not freed had been seen absent. */
  ghost predicate ReleasedFrom(start: nat, log: seq<Step>, keys: seq<string>, found: seq<string>) {
    && Distinct(found)
    && (forall k | k in found :: k in keys)
    && (forall k | k in keys && k !in found :: SeenAbsent(start, log, k))
  }

  /** A complete plan, whenever its transaction is accepted, frees exactly the keys found. */
  lemma ReleasePlanWorks(start: nat, log: seq<Step>, now: Store, keys: seq<string>, seen: seq<Option<Pair>>, ops: seq<Op>)
    returns (found: seq<string>)
    requires ReleasePlan(start, log, now, keys, seen, ops) && |seen| == |keys| && Distinct(keys)
    ensures ReleasedFrom(start, log, keys, found)
    ensures ops == [] <==> found == []
    ensures forall s | ValidStore(s) && Later(now, s) && Accepts(s, ops) :: Commit(s, ops) == Perform(s, Released(found))
    ensures KeysCurrent(now, keys, seen) ==>
              Accepts(now, ops) && forall k | k in keys :: k in found <==> k in now.pairs
  {
    found := Found(keys, seen);
    ReleaseOpsAt(keys, seen);
    PresentAt(keys, seen);
    assert keys[..|seen|] == keys;
    forall s | ValidStore(s) && Later(now, s) && Accepts(s, ops) ensures Commit(s, ops) == ReleaseAll(s, found) {
      AllFreshKeysLast(now, s, keys, seen);
      ReleaseTxnIsAtomic(s, keys, seen);
    }
    if KeysCurrent(now, keys, seen) {
      ReleaseAccepted(now, keys, seen);
    }
  }

  /** One attempt to release a chunk. */
  method TryRelease(consul: Client, keys: seq<string>) returns (r: Result<bool>, ghost found: seq<string>, ghost instant: Store)
    requires consul.Valid() && Distinct(keys) && AtKeys(consul.cr, keys)
    modifies consul
    ensures consul.Valid() && old(consul.log) <= consul.log && consul.decided == old(consul.decided)
    ensures r.Ok? && r.value ==>
              && consul.ours == old(consul.ours) + (if found == [] then [] else [Released(found)])
              && consul.state == (if found == [] then instant else ReleaseAll(instant, found))
              && ReleasedFrom(|old(consul.log)|, consul.log, keys, found)
    ensures !(r.Ok? && r.value) ==> consul.ours == old(consul.ours)
    ensures consul.cr == match r
                         case Ok(true) => P.ReleaseNext(old(consul.cr))
                         case Ok(false) => P.ReleaseAgain(old(consul.cr))
                         case Err(_) => P.EndReleases(old(consul.cr), old(consul.cr).pc.released, false)
    ensures Calm(old(consul.turns)) ==>
              && r == Ok(true) && Calm(consul.turns) && instant == old(consul.state)
              && forall k | k in keys :: k in found <==> k in old(consul.state).pairs
  {
    hide P.CrAfter, P.Enabled, P.NextKey, P.Ops, P.EndReleases, P.ReleaseNext, P.ReleaseAgain, P.Release, P.Commits, P.StoreAfter;
    hide AfterReads, AtKeys;
    hide ReleaseAll, Commit, Accepts, Later, Accounts, Tracks, ReleasedFrom, Calm, Others, AllFreshKeys, KeysCurrent;
    var err, ops;
    ghost var seen;
    err, ops, seen := PlanReleases(consul, keys);
    found, instant := [], consul.state;
    if err.Some? {
      r := Err(err.value);
      return;
    }
    ghost var script, log := consul.turns, consul.log;
    found := ReleasePlanWorks(|old(consul.log)|, log, consul.state, keys, seen, ops);
    ReleaseSubmitEnabled(old(consul.cr), keys, seen);
    assert keys[..|seen|] == keys;
    if ops == [] {
      ReleaseSubmitMoves(consul.state, old(consul.cr), keys, seen, false);
      consul.Move(P.Submit(false));
      r := Ok(true);
      return;
    }
    r, instant := consul.Txn(ops, Released(found));
    ReleaseSubmitMoves(instant, old(consul.cr), keys, seen, r.Err?);
    if Calm(old(consul.turns)) {
      CalmTurn(script);
    }
    ReleasedFromLasts(|old(consul.log)|, |old(consul.log)|, log, consul.log, keys, found);
  }

  lemma ReleasedFromLasts(start: nat, from_: nat, log: seq<Step>, later: seq<Step>, keys: seq<string>, found: seq<string>)
    requires ReleasedFrom(from_, log, keys, found) && start <= from_ && log <= later
    ensures ReleasedFrom(start, later, keys, found)
  {}

  /** A release whose reads are all current is accepted. */
  lemma ReleaseAccepted(s: Store, keys: seq<string>, seen: seq<Option<Pair>>)
    requires Distinct(keys) && |seen| == |keys|
    requires forall i | 0 <= i < |keys| :: seen[i] == Lookup(s, keys[i])
    ensures Accepts(s, ReleaseOps(keys, seen))
  {
    ReleaseOpsAt(keys, seen);
    PresentAt(keys, seen);
    var ops, found := ReleaseOps(keys, seen), Found(keys, seen);
    forall j | 0 <= j < |ops| ensures ops[j].key == found[j] && ops[j].index == IndexOf(Lookup(s, ops[j].key)) {
      var i :| 0 <= i < |keys| && keys[i] == found[j];
    }
  }

  lemma ChunkReleased(instant: Store, after: Store, found: seq<string>)
    requires after == if found == [] then instant else ReleaseAll(instant, found)
    ensures Relieved(instant, after, set k | k in found)
  {
    ReleaseMeans(instant, found);
  }

  ghost function ReleaseAttempt(cr: P.Cr, n: nat): P.Cr
    requires cr.pc.Releasing?
  {
    if n < CAS_MAX_RETRIES then P.Release(cr, cr.pc.keys, cr.pc.released, [], n) else P.EndReleases(cr, cr.pc.released, false)
  }

  lemma StartReleaseAttempts(cr: P.Cr)
    requires cr.pc.Releasing? && cr.pc.seen == [] && cr.pc.attempt == 0
    ensures ReleaseAttempt(cr, 0) == cr
  {}

  lemma ReleaseAttemptMoves(cr: P.Cr, keys: seq<string>, n: nat)
    requires AtKeys(cr, keys) && n < CAS_MAX_RETRIES
    ensures var at := ReleaseAttempt(cr, n);
            && AtKeys(at, keys) && P.ReleaseAgain(at) == ReleaseAttempt(cr, n + 1) && P.ReleaseNext(at) == P.ReleaseNext(cr)
            && P.EndReleases(at, at.pc.released, false) == P.EndReleases(cr, cr.pc.released, false)
  {}

  /** Releases one chunk: either each listed key that is present loses one owner, all in one
      atomic step, or an error is returned and nothing was written. */
  method DeleteKVChunk(consul: Client, keys: seq<string>) returns (err: Option<string>, ghost found: seq<string>, ghost instant: Store)
    requires consul.Valid() && Distinct(keys) && AtKeys(consul.cr, keys) && consul.cr.pc.attempt == 0
    modifies consul
    ensures consul.Valid() && old(consul.log) <= consul.log && consul.decided == old(consul.decided)
    ensures err.None? ==>
              && consul.ours == old(consul.ours) + (if found == [] then [] else [Released(found)])
              && consul.state == (if found == [] then instant else ReleaseAll(instant, found))
              && ReleasedFrom(|old(consul.log)|, consul.log, keys, found)
    ensures err.Some? ==> consul.ours == old(consul.ours)
    ensures err.None? ==> Relieved(instant, consul.state, set k | k in found)
    ensures consul.cr == if err.None? then P.ReleaseNext(old(consul.cr)) else P.EndReleases(old(consul.cr), old(consul.cr).pc.released, false)
    ensures Calm(old(consul.turns)) ==>
              && err.None? && Calm(consul.turns) && instant == old(consul.state)
              && forall k | k in keys :: k in found <==> k in old(consul.state).pairs
  {
    hide P.CrAfter, P.Enabled, P.NextKey, P.Ops, P.EndReleases, P.ReleaseNext, P.ReleaseAgain, P.Release, P.Commits, P.StoreAfter;
    hide Relieved, ReleaseAll;
    found, instant := [], consul.state;
    StartReleaseAttempts(consul.cr);
    for attempt := 0 to CAS_MAX_RETRIES
      invariant consul.Valid() && old(consul.log) <= consul.log
      invariant consul.ours == old(consul.ours) && consul.decided == old(consul.decided)
      invariant consul.cr == ReleaseAttempt(old(consul.cr), attempt)
      invariant Calm(old(consul.turns)) ==> Calm(consul.turns) && attempt == 0
      invariant attempt == 0 ==> consul.state == old(consul.state)
    {
      ghost var log := consul.log;
      ReleaseAttemptMoves(old(consul.cr), keys, attempt);
      var r;
      r, found, instant := TryRelease(consul, keys);
      if r.Err? {
        err := Some(r.error);
        return;
      }
      if r.value {
        ReleasedFromLasts(|old(consul.log)|, |log|, consul.log, consul.log, keys, found);
        ChunkReleased(instant, consul.state, found);
        err := None;
        return;
      }
    }
    err := Some(ERROR_RETRIES);
  }

  /** The steps of a batch of releases; a chunk that freed nothing makes no step. */
  function ReleaseSteps(freed: seq<seq<string>>): seq<Step> {
    if freed == [] then []
    else
      var last := freed[|freed| - 1];
      ReleaseSteps(freed[..|freed| - 1]) + (if last == [] then [] else [Released(last)])
  }

  /** The keys of the first `c` chunks. */
  function FirstKeys(keys: seq<string>, c: nat): set<string> {
    set k | k in keys[..Covered(|keys|, c)]
  }

  lemma FirstKeysMore(keys: seq<string>, c: nat)
    requires c < NumChunks(|keys|)
    ensures FirstKeys(keys, c + 1) == FirstKeys(keys, c) + (set k | k in Chunk(keys, c))
  {}

  /** `freed[c]` is what the release of chunk `c` freed. */
  ghost predicate FreedChunks(start: nat, log: seq<Step>, keys: seq<string>, freed: seq<seq<string>>) {
    forall c | 0 <= c < |freed| :: ReleasedFrom(start, log, Chunk(keys, c), freed[c])
  }

  lemma FreedChunksLast(start: nat, log: seq<Step>, later: seq<Step>, keys: seq<string>, freed: seq<seq<string>>)
    requires FreedChunks(start, log, keys, freed) && log <= later
    ensures FreedChunks(start, later, keys, freed)
  {}

  lemma FreedChunksAppend(start: nat, log: seq<Step>, keys: seq<string>, freed: seq<seq<string>>, found: seq<string>)
    requires FreedChunks(start, log, keys, freed) && ReleasedFrom(start, log, Chunk(keys, |freed|), found)
    ensures FreedChunks(start, log, keys, freed + [found])
  {}

  /** What a batch of releases leaves behind: `freed[c]` is what chunk `c` released. */
  ghost predicate BatchReleased(was: seq<Step>, ours: seq<Step>, start: nat, log: seq<Step>,
                                keys: seq<string>, released: set<string>, freed: seq<seq<string>>)
  {
    && |freed| <= NumChunks(|keys|)
    && ours == was + ReleaseSteps(freed)
    && released == FirstKeys(keys, |freed|)
    && FreedChunks(start, log, keys, freed)
  }

  lemma BatchReleasedMore(was: seq<Step>, ours: seq<Step>, start: nat, log: seq<Step>, later: seq<Step>,
                          keys: seq<string>, released: set<string>, freed: seq<seq<string>>, found: seq<string>)
    requires BatchReleased(was, ours, start, log, keys, released, freed)
    requires |freed| < NumChunks(|keys|) && log <= later && start <= |log|
    requires ReleasedFrom(|log|, later, Chunk(keys, |freed|), found)
    ensures BatchReleased(was, ours + (if found == [] then [] else [Released(found)]), start, later, keys,
                          released + (set k | k in Chunk(keys, |freed|)), freed + [found])
  {
    assert (freed + [found])[..|freed|] == freed;
    FirstKeysMore(keys, |freed|);
    FreedChunksLast(start, log, later, keys, freed);
    ReleasedFromLasts(start, |log|, later, later, Chunk(keys, |freed|), found);
    FreedChunksAppend(start, later, keys, freed, found);
  }

  lemma ChunkDistinct(keys: seq<string>, c: nat)
    requires Distinct(keys)
    ensures Distinct(Chunk(keys, c))
  {}

  /** The machine, releasing `keys` for `base`, after the chunks before `start`. */
  ghost predicate BetweenKeys(base: P.Cr, goal: P.Goal, cr: P.Cr, keys: seq<string>, released: set<string>, start: nat) {
    cr == base.(pc := if start < |keys| then P.Releasing(goal, keys[start..], released, [], 0) else P.Recording(goal, released, true))
  }

  lemma StartKeys(base: P.Cr, goal: P.Goal, cr: P.Cr, keys: seq<string>)
    requires cr == P.BeginRelease(base, goal) && keys == P.ReleaseKeys(base.status, goal)
    ensures BetweenKeys(base, goal, cr, keys, {}, 0)
  {}

  lemma StartReleases(ours: seq<Step>, start: nat, log: seq<Step>, keys: seq<string>)
    ensures BatchReleased(ours, ours, start, log, keys, {}, [])
  {}

  lemma EndKeys(base: P.Cr, goal: P.Goal, cr: P.Cr, keys: seq<string>, released: set<string>, start: nat)
    requires BetweenKeys(base, goal, cr, keys, released, start) && start >= |keys|
    ensures cr == base.(pc := P.Recording(goal, released, true))
  {}

  lemma KeysMove(base: P.Cr, goal: P.Goal, cr: P.Cr, keys: seq<string>, released: set<string>, start: nat)
    requires BetweenKeys(base, goal, cr, keys, released, start) && start < |keys|
    ensures AtKeys(cr, ChunkAt(keys, start))
    ensures cr == base.(pc := P.Releasing(goal, keys[start..], released, [], 0))
    ensures cr.pc.Releasing? && cr.pc.attempt == 0 && cr.pc.released == released
    ensures P.EndReleases(cr, released, false) == base.(pc := P.Recording(goal, released, false))
  {}

  lemma KeysMoved(base: P.Cr, goal: P.Goal, cr: P.Cr, keys: seq<string>, sofar: set<string>, released: set<string>, start: nat)
    requires start < |keys|
    requires cr == P.ReleaseNext(base.(pc := P.Releasing(goal, keys[start..], sofar, [], 0)))
    requires released == sofar + P.KeySet(ChunkAt(keys, start))
    ensures BetweenKeys(base, goal, cr, keys, released, start + TXN_BATCH_SIZE)
  {
    ChunkOf(keys, start);
  }

  /** Releases all the keys, one transaction per chunk, until one fails; the returned set
      holds exactly the keys of the chunks that were released. */
  method DeleteKVBatch(consul: Client, keys: seq<string>, ghost base: P.Cr, ghost goal: P.Goal)
    returns (released: set<string>, err: Option<string>, ghost freed: seq<seq<string>>)
    requires consul.Valid() && Distinct(keys)
    requires consul.cr == P.BeginRelease(base, goal) && keys == P.ReleaseKeys(base.status, goal)
    modifies consul
    ensures consul.Valid() && old(consul.log) <= consul.log && consul.decided == old(consul.decided)
    ensures BatchReleased(old(consul.ours), consul.ours, |old(consul.log)|, consul.log, keys, released, freed)
    ensures err.None? <==> |freed| == NumChunks(|keys|)
    ensures consul.cr == base.(pc := P.Recording(goal, released, err.None?))
    ensures Calm(old(consul.turns)) ==>
              err.None? && Calm(consul.turns) && Relieved(old(consul.state), consul.state, set k | k in keys)
  {
    hide P.EndReleases, P.ReleaseNext, P.Release, P.Head, P.Tail, P.BeginRelease, P.ReleaseKeys;
    hide AtKeys, BetweenKeys, BatchReleased, ReleasedFrom, Chunk, NumChunks, Distinct, Accounts, Tracks, Calm, ReleaseAll, Relieved;
    released, err, freed := {}, None, [];
    var start := 0;
    StartKeys(base, goal, consul.cr, keys);
    StartReleases(consul.ours, |consul.log|, consul.log, keys);
    StartRelieved(consul.state, keys);
    while start < |keys|
      invariant start == TXN_BATCH_SIZE * |freed| && err.None?
      invariant consul.Valid() && old(consul.log) <= consul.log && consul.decided == old(consul.decided)
      invariant BatchReleased(old(consul.ours), consul.ours, |old(consul.log)|, consul.log, keys, released, freed)
      invariant BetweenKeys(base, goal, consul.cr, keys, released, start) && |freed| <= NumChunks(|keys|)
      invariant Calm(old(consul.turns)) ==> Calm(consul.turns) && Relieved(old(consul.state), consul.state, FirstKeys(keys, |freed|))
    {
      var end := if start + TXN_BATCH_SIZE < |keys| then start + TXN_BATCH_SIZE else |keys|;
      ChunkIsAt(keys, |freed|);
      ChunkDistinct(keys, |freed|);
      KeysMove(base, goal, consul.cr, keys, released, start);
      ghost var sofar := released;
      ghost var found, instant;
      ghost var ours, log, chunk := consul.ours, consul.log, keys[start..end];
      err, found, instant := DeleteKVChunk(consul, keys[start..end]);
      if err.Some? {
        BatchReleasedLasts(old(consul.ours), ours, |old(consul.log)|, log, consul.log, keys, released, freed);
        return;
      }
      BatchReleasedMore(old(consul.ours), ours, |old(consul.log)|, log, consul.log, keys, released, freed, found);
      if Calm(old(consul.turns)) {
        ChunkRelieved(old(consul.state), instant, consul.state, keys, |freed|, |log|, consul.log, found);
      }
      released := released + (set k | k in keys[start..end]);
      KeysMoved(base, goal, consul.cr, keys, sofar, released, start);
      freed := freed + [found];
      start := start + TXN_BATCH_SIZE;
    }
    EndKeys(base, goal, consul.cr, keys, released, start);
    NoMoreChunks(|keys|, |freed|);
    AllChunks(keys);
  }

  lemma StartRelieved(s: Store, keys: seq<string>)
    ensures FirstKeys(keys, 0) == {} && Relieved(s, s, {})
  {}

  lemma AllChunks(keys: seq<string>)
    ensures FirstKeys(keys, NumChunks(|keys|)) == set k | k in keys
  {
    assert keys[..Covered(|keys|, NumChunks(|keys|))] == keys;
  }

  /** One more chunk without interference. */
  lemma ChunkRelieved(a: Store, b: Store, after: Store, keys: seq<string>, c: nat, start: nat, log: seq<Step>, found: seq<string>)
    requires Relieved(a, b, FirstKeys(keys, c)) && Distinct(keys) && c < NumChunks(|keys|)
    requires ReleasedFrom(start, log, Chunk(keys, c), found) && (forall k | k in Chunk(keys, c) :: k in found <==> k in b.pairs)
    requires after == if found == [] then b else ReleaseAll(b, found)
    ensures Relieved(a, after, FirstKeys(keys, c + 1))
  {
    FirstKeysMore(keys, c);
    FreshChunk(keys, c);
    hide Chunk, FirstKeys, Relieved, ReleaseAll, Distinct;
    RelievedMore(a, b, FirstKeys(keys, c), found, set k | k in Chunk(keys, c));
  }

  lemma FreshChunk(keys: seq<string>, c: nat)
    requires Distinct(keys)
    ensures FirstKeys(keys, c) !! set k | k in Chunk(keys, c)
  {}

  lemma BatchReleasedLasts(was: seq<Step>, ours: seq<Step>, start: nat, log: seq<Step>, later: seq<Step>,
                           keys: seq<string>, released: set<string>, freed: seq<seq<string>>)
    requires BatchReleased(was, ours, start, log, keys, released, freed) && log <= later
    ensures BatchReleased(was, ours, start, later, keys, released, freed)
  {}
}
