/** The reference counter kept in `Flags`: the rule a ConsulKV resource applies when it writes
    a key, the rule it applies when it releases one, and the proof that the optimistic
    transactions built from earlier reads have the effect of these rules applied atomically. */
module KvFlags {
  import opened ConsulStore
  import opened Wrappers

  /** One entry of a ConsulKV spec. */
  datatype Entry = Entry(key: string, value: string)

  function Keys(entries: seq<Entry>): set<string> {
    set i | 0 <= i < |entries| :: entries[i].key
  }

  lemma LastKey(entries: seq<Entry>)
    requires entries != []
    ensures Keys(entries) == Keys(entries[..|entries| - 1]) + {entries[|entries| - 1].key}
  {}

  predicate DistinctKeys(entries: seq<Entry>) {
    forall i, j | 0 <= i < j < |entries| :: entries[i].key != entries[j].key
  }

  predicate Distinct(keys: seq<string>) {
    forall i, j | 0 <= i < j < |keys| :: keys[i] != keys[j]
  }

  /** The value of the last entry of a key. */
  function LastValue(entries: seq<Entry>, key: string): string
    requires key in Keys(entries)
  {
    var last := entries[|entries| - 1];
    if last.key == key then last.value
    else
      var init := entries[..|entries| - 1];
      assert key in Keys(init) by {
        var i :| 0 <= i < |entries| && entries[i].key == key;
        assert init[i].key == key;
      }
      LastValue(init, key)
  }

  lemma {:induction false} LastValueOfDistinct(entries: seq<Entry>, i: nat)
    requires DistinctKeys(entries) && i < |entries|
    ensures entries[i].key in Keys(entries) && LastValue(entries, entries[i].key) == entries[i].value
  {
    assert entries[i].key in Keys(entries);
    var n := |entries| - 1;
    if i < n {
      assert entries[i] == entries[..n][i];
      LastValueOfDistinct(entries[..n], i);
    }
  }

  // ---------------------------------------------------------------- claiming

  datatype Claim = Claim(flags: nat, own: bool)

  /** The four cases of the ownership rule. */
  function ClaimOf(found: Option<Pair>, ownedBefore: bool): Claim {
    var flags := if found.Some? then found.value.flags else 0;
    if ownedBefore then Claim(flags, true)
    else if found.Some? && flags == 0 then Claim(0, false)
    else Claim(flags + 1, true)
  }

  function ClaimOp(e: Entry, found: Option<Pair>, ownedBefore: bool): Op {
    Cas(e.key, e.value, ClaimOf(found, ownedBefore).flags, IndexOf(found))
  }

  function ClaimOps(entries: seq<Entry>, seen: seq<Option<Pair>>, before: set<string>): seq<Op>
    requires |seen| == |entries|
  {
    seq(|entries|, i requires 0 <= i < |entries| => ClaimOp(entries[i], seen[i], entries[i].key in before))
  }

  /** The reference semantics of writing a chunk: all keys at once, from one store. */
  function ClaimAll(s: Store, entries: seq<Entry>, before: set<string>): Store {
    Store(map k | k in s.pairs.Keys + Keys(entries) ::
            if k in Keys(entries)
            then Pair(LastValue(entries, k), ClaimOf(Lookup(s, k), k in before).flags, s.index + 1)
            else s.pairs[k],
          s.index + 1)
  }

  /** Which of the keys the resource owns once the chunk is written to `s`. */
  function Decisions(s: Store, entries: seq<Entry>, before: set<string>): map<string, bool> {
    map k | k in Keys(entries) :: ClaimOf(Lookup(s, k), k in before).own
  }

  ghost predicate AllFresh(s: Store, entries: seq<Entry>, seen: seq<Option<Pair>>) {
    && |seen| <= |entries|
    && forall i | 0 <= i < |seen| :: Fresh(s, entries[i].key, seen[i])
  }

  ghost predicate ReadsCurrent(s: Store, entries: seq<Entry>, seen: seq<Option<Pair>>)
    requires |seen| == |entries|
  {
    forall i | 0 <= i < |entries| :: seen[i] == Lookup(s, entries[i].key)
  }

  /** The claiming transaction is accepted exactly when every read is still current. */
  lemma ClaimAcceptedIffCurrent(s: Store, entries: seq<Entry>, seen: seq<Option<Pair>>, before: set<string>)
    requires ValidStore(s) && DistinctKeys(entries) && |seen| == |entries| && AllFresh(s, entries, seen)
    ensures Accepts(s, ClaimOps(entries, seen, before)) <==> ReadsCurrent(s, entries, seen)
  {
    var ops := ClaimOps(entries, seen, before);
    forall i | 0 <= i < |entries|
      ensures ops[i].index == IndexOf(Lookup(s, ops[i].key)) <==> seen[i] == Lookup(s, entries[i].key)
    {
      EqualIndexMeansUnchanged(s, entries[i].key, seen[i]);
    }
  }

  /** Whatever happened between the reads and the transaction, an accepted chunk has the effect
      of the ownership rule applied to the then-current store, for all its keys at once. */
  lemma ClaimTxnIsAtomic(s: Store, entries: seq<Entry>, seen: seq<Option<Pair>>, before: set<string>)
    requires ValidStore(s) && DistinctKeys(entries) && |seen| == |entries| && AllFresh(s, entries, seen)
    requires Accepts(s, ClaimOps(entries, seen, before))
    ensures Commit(s, ClaimOps(entries, seen, before)) == ClaimAll(s, entries, before)
    ensures forall i | 0 <= i < |entries| ::
              ClaimOf(seen[i], entries[i].key in before).own == Decisions(s, entries, before)[entries[i].key]
  {
    var ops := ClaimOps(entries, seen, before);
    hide Commit, ClaimAll, Accepts, AllFresh, ValidStore;
    ClaimAcceptedIffCurrent(s, entries, seen, before);
    ClaimOpsPerform(s, entries, before, ops);
  }

  lemma ClaimOpsPerform(s: Store, entries: seq<Entry>, before: set<string>, ops: seq<Op>)
    requires DistinctKeys(entries) && |ops| == |entries|
    requires forall i | 0 <= i < |ops| :: ops[i] == ClaimOp(entries[i], Lookup(s, entries[i].key), entries[i].key in before)
    ensures Commit(s, ops) == ClaimAll(s, entries, before)
  {
    hide WriteAll, ClaimOf, LastValue, WrittenBy, OpKeys;
    WriteAllPointwise(s.pairs, ops, s.index + 1);
    var done, spec := Commit(s, ops).pairs, ClaimAll(s, entries, before).pairs;
    forall k ensures k in done <==> k in spec
             ensures k in done ==> done[k] == spec[k]
    {
      ClaimOpsPerformAt(s, entries, before, ops, done, k);
    }
    assert done == spec;
  }

  lemma ClaimOpsPerformAt(s: Store, entries: seq<Entry>, before: set<string>, ops: seq<Op>, done: map<string, Pair>, k: string)
    requires DistinctKeys(entries) && |ops| == |entries|
    requires forall i | 0 <= i < |ops| :: ops[i] == ClaimOp(entries[i], Lookup(s, entries[i].key), entries[i].key in before)
    requires WrittenBy(s.pairs, done, ops, s.index + 1)
    ensures k in done <==> k in s.pairs || k in Keys(entries)
    ensures k in done ==> done[k] == if k in Keys(entries)
                                     then Pair(LastValue(entries, k), ClaimOf(Lookup(s, k), k in before).flags, s.index + 1)
                                     else s.pairs[k]
  {
    hide ClaimOf, Lookup;
    if k in Keys(entries) {
      var i :| 0 <= i < |entries| && entries[i].key == k;
      assert ops[i] == ClaimOp(entries[i], Lookup(s, k), k in before);
      LastValueOfDistinct(entries, i);
    } else {
      assert k !in OpKeys(ops);
    }
  }

  /** What the claim of a chunk leaves for one of its entries: the value of the entry, and the key is
      owned unless somebody else had put it there uncounted; only a new owner is counted. */
  lemma ClaimMeans(s: Store, entries: seq<Entry>, before: set<string>, i: nat)
    requires DistinctKeys(entries) && i < |entries|
    ensures var k, after, own := entries[i].key, ClaimAll(s, entries, before), Decisions(s, entries, before);
            && k in after.pairs && after.pairs[k].value == entries[i].value && k in own
            && (own[k] <==> k in before || k !in s.pairs || s.pairs[k].flags > 0)
            && Flags(after, k) == Flags(s, k) + (if own[k] && k !in before then 1 else 0)
    ensures forall k | k !in Keys(entries) :: Lookup(ClaimAll(s, entries, before), k) == Lookup(s, k)
  {
    LastValueOfDistinct(entries, i);
  }

  // ---------------------------------------------------------------- releasing

  function ReleaseOp(key: string, found: Pair): Op {
    if found.flags <= 1 then DeleteCas(key, found.index)
    else Cas(key, found.value, found.flags - 1, found.index)
  }

  /** The keys that were found present by the reads: only these get an operation. */
  function Found(keys: seq<string>, seen: seq<Option<Pair>>): seq<string>
    requires |seen| == |keys|
  {
    if keys == [] then []
    else
      var n := |keys| - 1;
      Found(keys[..n], seen[..n]) + (if seen[n].Some? then [keys[n]] else [])
  }

  function ReleaseOps(keys: seq<string>, seen: seq<Option<Pair>>): seq<Op>
    requires |seen| == |keys|
  {
    if keys == [] then []
    else
      var n := |keys| - 1;
      ReleaseOps(keys[..n], seen[..n]) + (if seen[n].Some? then [ReleaseOp(keys[n], seen[n].value)] else [])
  }

  /** The reference semantics of releasing keys: each present key loses one owner, and
      is deleted with its last one; all at once, from one store. */
  function ReleaseAll(s: Store, keys: seq<string>): Store {
    Store(map k | k in s.pairs && !(k in keys && s.pairs[k].flags <= 1) ::
            if k in keys then Pair(s.pairs[k].value, s.pairs[k].flags - 1, s.index + 1) else s.pairs[k],
          s.index + 1)
  }

  /** From `a` to `b` each of the keys lost one owner and went with its last one; whatever is left has
      its value, and what was not released its counter. */
  ghost predicate Relieved(a: Store, b: Store, keys: set<string>) {
    && (forall k :: k in b.pairs <==> k in a.pairs && (k in keys ==> a.pairs[k].flags > 1))
    && (forall k | k in b.pairs :: b.pairs[k].value == a.pairs[k].value)
    && (forall k | k in b.pairs :: b.pairs[k].flags == a.pairs[k].flags - (if k in keys then 1 else 0))
  }

  /** A release takes one owner from each key and leaves every value as it was. */
  lemma ReleaseMeans(s: Store, keys: seq<string>)
    ensures Relieved(s, ReleaseAll(s, keys), set k | k in keys)
    ensures forall k | k !in keys :: Lookup(ReleaseAll(s, keys), k) == Lookup(s, k)
  {}

  /** Releases of different keys add up; keys that are not there do not matter. */
  lemma RelievedMore(a: Store, b: Store, done: set<string>, found: seq<string>, keys: set<string>)
    requires Relieved(a, b, done) && done !! keys && forall k | k in keys :: k in found <==> k in b.pairs
    requires forall k | k in found :: k in keys
    ensures Relieved(a, ReleaseAll(b, found), done + keys)
    ensures found == [] ==> Relieved(a, b, done + keys)
  {
    ReleaseMeans(b, found);
    hide ReleaseAll;
  }

  ghost predicate AllFreshKeys(s: Store, keys: seq<string>, seen: seq<Option<Pair>>) {
    && |seen| <= |keys|
    && forall i | 0 <= i < |seen| :: Fresh(s, keys[i], seen[i])
  }

  /** What the reads found, by key. */
  function Present(keys: seq<string>, seen: seq<Option<Pair>>): map<string, Pair>
    requires |seen| == |keys|
  {
    if keys == [] then map[]
    else
      var n := |keys| - 1;
      var init := Present(keys[..n], seen[..n]);
      if seen[n].Some? then init[keys[n] := seen[n].value] else init
  }

  lemma {:induction false} PresentAt(keys: seq<string>, seen: seq<Option<Pair>>)
    requires |seen| == |keys| && Distinct(keys)
    ensures forall k | k in Present(keys, seen) :: k in keys
    ensures forall i | 0 <= i < |keys| :: keys[i] in Present(keys, seen) <==> seen[i].Some?
    ensures forall i | 0 <= i < |keys| && seen[i].Some? :: Present(keys, seen)[keys[i]] == seen[i].value
  {
    if keys != [] {
      var n := |keys| - 1;
      var ks, ss := keys[..n], seen[..n];
      PresentAt(ks, ss);
      forall i | 0 <= i < n ensures keys[i] == ks[i] && seen[i] == ss[i] && keys[i] != keys[n] {}
      assert keys[n] !in ks;
    }
  }

  /** The operations of a release, one for each key found present, in order. */
  lemma {:induction false} ReleaseOpsAt(keys: seq<string>, seen: seq<Option<Pair>>)
    requires |seen| == |keys| && Distinct(keys)
    ensures |ReleaseOps(keys, seen)| == |Found(keys, seen)| && Distinct(Found(keys, seen))
    ensures forall k :: k in Found(keys, seen) <==> k in Present(keys, seen)
    ensures forall j | 0 <= j < |Found(keys, seen)| ::
              && Found(keys, seen)[j] in Present(keys, seen)
              && ReleaseOps(keys, seen)[j] == ReleaseOp(Found(keys, seen)[j], Present(keys, seen)[Found(keys, seen)[j]])
  {
    if keys != [] {
      var n := |keys| - 1;
      var ks, ss := keys[..n], seen[..n];
      ReleaseOpsAt(ks, ss);
      PresentAt(ks, ss);
      assert keys[n] !in ks;
    }
  }

  /** An accepted release has the effect of the release rule applied to the then-current
      store, for all the keys that were found present, at once. */
  lemma ReleaseTxnIsAtomic(s: Store, keys: seq<string>, seen: seq<Option<Pair>>)
    requires ValidStore(s) && Distinct(keys) && |seen| == |keys| && AllFreshKeys(s, keys, seen)
    requires Accepts(s, ReleaseOps(keys, seen))
    ensures Commit(s, ReleaseOps(keys, seen)) == ReleaseAll(s, Found(keys, seen))
    ensures forall k | k in Found(keys, seen) :: k in s.pairs
  {
    var ops, found, present := ReleaseOps(keys, seen), Found(keys, seen), Present(keys, seen);
    PresentAt(keys, seen);
    ReleaseOpsAt(keys, seen);
    forall j | 0 <= j < |found| ensures found[j] in s.pairs && s.pairs[found[j]] == present[found[j]] {
      var i :| 0 <= i < |keys| && keys[i] == found[j];
      assert ops[j].index == IndexOf(Lookup(s, ops[j].key));
      EqualIndexMeansUnchanged(s, keys[i], seen[i]);
    }
    ReleaseOpsPerform(s, found, ops);
  }

  lemma ReleaseOpsPerform(s: Store, keys: seq<string>, ops: seq<Op>)
    requires Distinct(keys) && |ops| == |keys|
    requires forall j | 0 <= j < |keys| :: keys[j] in s.pairs && ops[j] == ReleaseOp(keys[j], s.pairs[keys[j]])
    ensures Commit(s, ops) == ReleaseAll(s, keys)
  {
    hide WriteAll;
    WriteAllPointwise(s.pairs, ops, s.index + 1);
    var done, spec := Commit(s, ops).pairs, ReleaseAll(s, keys).pairs;
    forall k ensures k in OpKeys(ops) <==> k in keys {
      if k in keys {
        var j :| 0 <= j < |keys| && keys[j] == k;
        assert ops[j].key == k;
      }
    }
    forall k ensures k in done <==> k in spec
             ensures k in done ==> done[k] == spec[k]
    {
      if k in keys {
        var j :| 0 <= j < |keys| && keys[j] == k;
        assert ops[j] == ReleaseOp(k, s.pairs[k]);
      }
    }
    assert done == spec;
  }

  /** A key read as absent gets no operation, hence no index check: if another client creates
      it before the commit it is not released. The committed release equals the release of
      all the keys exactly when the keys read as absent are still absent. */
  lemma ReleaseCoversAllKeysIff(s: Store, keys: seq<string>, seen: seq<Option<Pair>>)
    requires ValidStore(s) && Distinct(keys) && |seen| == |keys| && AllFreshKeys(s, keys, seen)
    requires Accepts(s, ReleaseOps(keys, seen))
    ensures Commit(s, ReleaseOps(keys, seen)) == ReleaseAll(s, keys)
            <==> forall i | 0 <= i < |keys| && seen[i].None? :: keys[i] !in s.pairs
  {
    hide Found, Present, ReleaseOps, ReleaseAll, AllFreshKeys, Accepts, Commit, ValidStore;
    ReleaseTxnIsAtomic(s, keys, seen);
    PresentAt(keys, seen);
    ReleaseOpsAt(keys, seen);
    var found := Found(keys, seen);
    assert forall i | 0 <= i < |keys| :: keys[i] in found <==> seen[i].Some?;
    ReleaseSubset(s, found, keys);
  }

  /** Releasing some of the keys is releasing all of them exactly when the others are absent. */
  lemma ReleaseSubset(s: Store, some: seq<string>, keys: seq<string>)
    requires forall k | k in some :: k in keys
    requires ValidStore(s)
    ensures ReleaseAll(s, some) == ReleaseAll(s, keys) <==> forall i | 0 <= i < |keys| && keys[i] in s.pairs :: keys[i] in some
  {
    var part, all := ReleaseAll(s, some).pairs, ReleaseAll(s, keys).pairs;
    if i :| 0 <= i < |keys| && keys[i] in s.pairs && keys[i] !in some {
      assert keys[i] in part && part[keys[i]] == s.pairs[keys[i]];
      assert keys[i] in all ==> all[keys[i]].index == s.index + 1;
    } else {
      assert part == all;
    }
  }

  /** A concrete store where the two differ: a key created after it was read as absent. */
  lemma ReleaseMissesLateKey()
    ensures exists s, keys, seen ::
              && ValidStore(s) && Distinct(keys) && |seen| == |keys| && AllFreshKeys(s, keys, seen)
              && Accepts(s, ReleaseOps(keys, seen))
              && Commit(s, ReleaseOps(keys, seen)) != ReleaseAll(s, keys)
  {
    var s := Store(map["a" := LATE_PAIR, "b" := Pair("w", 1, 2)], 2);
    var keys, seen := ["a", "b"], [Some(LATE_PAIR), None];
    LateKeyOps();
    assert Accepts(s, ReleaseOps(keys, seen)) && AllFreshKeys(s, keys, seen) && Distinct(keys) && ValidStore(s);
    ReleaseCoversAllKeysIff(s, keys, seen);
    assert seen[1].None? && keys[1] in s.pairs;
    assert Commit(s, ReleaseOps(keys, seen)) != ReleaseAll(s, keys);
  }

  const LATE_PAIR := Pair("v", 1, 1)

  lemma LateKeyOps()
    ensures ReleaseOps(["a", "b"], [Some(LATE_PAIR), None]) == [DeleteCas("a", 1)]
  {
    var keys, seen := ["a", "b"], [Some(LATE_PAIR), None];
    assert keys[..1] == ["a"] && seen[..1] == [Some(LATE_PAIR)];
    assert ["a"][..0] == [] && [Some(LATE_PAIR)][..0] == [];
    assert ReleaseOps(["a"], [Some(LATE_PAIR)]) == [DeleteCas("a", 1)];
  }
}
