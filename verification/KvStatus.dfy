/** The per-key status of a ConsulKV resource: which entries of a spec are written, what is
    recorded about them, and how the record of one reconcile is merged into the previous one. */
module KvStatus {
  import opened Wrappers
  import opened KvFlags

  const TXN_BATCH_SIZE: nat := 64
  const CAS_MAX_RETRIES: nat := 10

  const STATUS_EMPTY_KEY := "error: key must not be empty"
  const STATUS_SKIPPED := "skipped (duplicate key)"
  const STATUS_SYNCED := "synced"
  const STATUS_NOT_OWNED := "synced (not owned: pre-existing key)"
  const STATUS_REMOVED := "removed"
  const STATUS_RELEASED := "released"

  /** The errors of a chunk, without the text of the underlying failure. */
  const ERROR_GET := "KV get"
  const ERROR_TXN := "KV txn"
  const ERROR_RETRIES := "KV txn: max retries exceeded (10)"

  datatype EntryStatus = EntryStatus(key: string, status: string, owned: bool)

  function StatusKeys(statuses: seq<EntryStatus>): set<string> {
    set i | 0 <= i < |statuses| :: statuses[i].key
  }

  /** The keys recorded as owned. */
  function OwnedKeys(statuses: seq<EntryStatus>): set<string> {
    set i | 0 <= i < |statuses| && statuses[i].owned :: statuses[i].key
  }

  predicate DistinctStatusKeys(statuses: seq<EntryStatus>) {
    forall i, j | 0 <= i < j < |statuses| :: statuses[i].key != statuses[j].key
  }

  // ---------------------------------------------------------------- which entries are written

  /** Entry `i` is written: its key is not empty and no later entry has the same key. */
  predicate Wins(entries: seq<Entry>, i: nat)
    requires i < |entries|
  {
    entries[i].key != "" && forall j | i < j < |entries| :: entries[j].key != entries[i].key
  }

  function WinnersUpTo(entries: seq<Entry>, n: nat): seq<Entry>
    requires n <= |entries|
  {
    if n == 0 then []
    else WinnersUpTo(entries, n - 1) + (if Wins(entries, n - 1) then [entries[n - 1]] else [])
  }

  /** The entries that go into the transactions, in spec order. */
  function Winners(entries: seq<Entry>): seq<Entry> {
    WinnersUpTo(entries, |entries|)
  }

  lemma {:induction false} WinnersUpToAre(entries: seq<Entry>, n: nat)
    requires n <= |entries|
    ensures DistinctKeys(WinnersUpTo(entries, n))
    ensures forall e | e in WinnersUpTo(entries, n) :: exists i | 0 <= i < n :: Wins(entries, i) && entries[i] == e
    ensures forall i | 0 <= i < n && Wins(entries, i) :: entries[i] in WinnersUpTo(entries, n)
  {
    if n > 0 {
      WinnersUpToAre(entries, n - 1);
      var prev := WinnersUpTo(entries, n - 1);
      if Wins(entries, n - 1) {
        forall j | 0 <= j < |prev| ensures prev[j].key != entries[n - 1].key {
          assert prev[j] in prev;
          var i :| 0 <= i < n - 1 && Wins(entries, i) && entries[i] == prev[j];
        }
      }
    }
  }

  predicate Increasing(at: seq<nat>) {
    forall i, j | 0 <= i < j < |at| :: at[i] < at[j]
  }

  /** The winners stand in spec order. */
  lemma {:induction false} WinnersInOrder(entries: seq<Entry>, n: nat) returns (at: seq<nat>)
    requires n <= |entries|
    ensures |at| == |WinnersUpTo(entries, n)| && Increasing(at)
    ensures forall x | 0 <= x < |at| :: at[x] < n && WinnersUpTo(entries, n)[x] == entries[at[x]]
  {
    at := [];
    if n > 0 {
      at := WinnersInOrder(entries, n - 1);
      if Wins(entries, n - 1) {
        at := at + [n - 1];
      }
    }
  }

  /** The winners have distinct non-empty keys, exactly the non-empty keys of the spec, and
      each carries the value of the last entry of its key. */
  lemma WinnersAreLastEntries(entries: seq<Entry>)
    ensures DistinctKeys(Winners(entries))
    ensures Keys(Winners(entries)) == Keys(entries) - {""}
    ensures forall e | e in Winners(entries) :: e.key in Keys(entries) && e.value == LastValue(entries, e.key)
  {
    WinnersUpToAre(entries, |entries|);
    var w := Winners(entries);
    forall e | e in w ensures e.key in Keys(entries) && e.key != "" && e.value == LastValue(entries, e.key) {
      var i :| 0 <= i < |entries| && Wins(entries, i) && entries[i] == e;
      LastEntryValue(entries, i);
    }
    forall k | k in Keys(w) ensures k in Keys(entries) - {""} {
      var j :| 0 <= j < |w| && w[j].key == k;
      assert w[j] in w;
    }
    forall k | k in Keys(entries) - {""} ensures k in Keys(w) {
      var i := LastIndexOf(entries, k);
      assert Wins(entries, i) && entries[i] in w;
    }
  }

  lemma {:induction false} LastEntryValue(entries: seq<Entry>, i: nat)
    requires i < |entries| && forall j | i < j < |entries| :: entries[j].key != entries[i].key
    ensures entries[i].key in Keys(entries) && LastValue(entries, entries[i].key) == entries[i].value
  {
    assert entries[i].key in Keys(entries);
    var n := |entries| - 1;
    if i < n {
      assert entries[i] == entries[..n][i];
      LastEntryValue(entries[..n], i);
    }
  }

  lemma {:induction false} LastIndexOf(entries: seq<Entry>, k: string) returns (i: nat)
    requires k in Keys(entries)
    ensures i < |entries| && entries[i].key == k && forall j | i < j < |entries| :: entries[j].key != k
  {
    i := |entries| - 1;
    while entries[i].key != k
      invariant i < |entries| && (forall j | i < j < |entries| :: entries[j].key != k)
      decreases i
    {
      if i == 0 {
        assert false;
      }
      i := i - 1;
    }
  }

  // ---------------------------------------------------------------- what is recorded about them

  /** The status of entry `i` after the committed keys decided `owned` and the write ended
      with `err`: a key that was not written stays owned if it was owned before. */
  function ApplyStatus(entries: seq<Entry>, i: nat, before: set<string>, owned: map<string, bool>, err: Option<string>): EntryStatus
    requires i < |entries|
  {
    var k := entries[i].key;
    if k == "" then EntryStatus("", STATUS_EMPTY_KEY, false)
    else if !Wins(entries, i) then EntryStatus(k, STATUS_SKIPPED, false)
    else if k !in owned then
      EntryStatus(k, "error: " + (if err.Some? then err.value else "not written"), k in before)
    else EntryStatus(k, if owned[k] then STATUS_SYNCED else STATUS_NOT_OWNED, owned[k])
  }

  function ApplyStatuses(entries: seq<Entry>, before: set<string>, owned: map<string, bool>, err: Option<string>): seq<EntryStatus> {
    seq(|entries|, i requires 0 <= i < |entries| => ApplyStatus(entries, i, before, owned, err))
  }

  /** What a reconcile records as owned: the committed keys it decided to own and, of the keys
      it could not write, those it owned before. */
  lemma OwnedAfterApply(entries: seq<Entry>, before: set<string>, owned: map<string, bool>, err: Option<string>)
    ensures OwnedKeys(ApplyStatuses(entries, before, owned, err))
            == set k | k in Keys(entries) - {""} && (if k in owned then owned[k] else k in before)
    ensures StatusKeys(ApplyStatuses(entries, before, owned, err)) == Keys(entries)
  {
    var st := ApplyStatuses(entries, before, owned, err);
    forall i | 0 <= i < |entries| ensures st[i].key == entries[i].key {}
    forall k | k in Keys(entries) && k != "" && (if k in owned then owned[k] else k in before) ensures k in OwnedKeys(st) {
      var i := LastIndexOf(entries, k);
      assert Wins(entries, i) && st[i].owned;
    }
  }

  /** What a report says of entry `i`, given what the committed chunks decided: it reads "synced", with
      or without ownership, if and only if it is the last entry of a committed key. */
  ghost predicate Reports(entries: seq<Entry>, i: nat, before: set<string>, owned: map<string, bool>, st: EntryStatus)
    requires i < |entries|
  {
    var k, last := entries[i].key, forall j | i < j < |entries| :: entries[j].key != entries[i].key;
    && st.key == k
    && (st.status == "synced" <==> k != "" && last && k in owned && owned[k])
    && (st.status == "synced (not owned: pre-existing key)" <==> k != "" && last && k in owned && !owned[k])
    && (st.status == "skipped (duplicate key)" <==> k != "" && !last)
    && (k == "" ==> st.status == "error: key must not be empty")
    && ("error: " <= st.status <==> k == "" || (last && k !in owned))
    && (st.owned <==> k != "" && last && if k in owned then owned[k] else k in before)
  }

  lemma ReportsEach(entries: seq<Entry>, before: set<string>, owned: map<string, bool>, err: Option<string>)
    ensures |ApplyStatuses(entries, before, owned, err)| == |entries|
    ensures forall i | 0 <= i < |entries| :: Reports(entries, i, before, owned, ApplyStatuses(entries, before, owned, err)[i])
  {
    forall i | 0 <= i < |entries| ensures Reports(entries, i, before, owned, ApplyStatuses(entries, before, owned, err)[i]) {
      ReportsOne(entries, i, before, owned, err);
    }
  }

  lemma ReportsOne(entries: seq<Entry>, i: nat, before: set<string>, owned: map<string, bool>, err: Option<string>)
    requires i < |entries|
    ensures Reports(entries, i, before, owned, ApplyStatus(entries, i, before, owned, err))
  {
    var status := ApplyStatus(entries, i, before, owned, err).status;
    assert "synced"[0] == 's' && STATUS_NOT_OWNED[0] == 's' && STATUS_SKIPPED[1] == 'k' && STATUS_EMPTY_KEY[0] == 'e';
    assert "error: "[0] == 'e' && |STATUS_NOT_OWNED| > |STATUS_SYNCED| && STATUS_SYNCED[1] == 'y';
    assert "error: " <= STATUS_EMPTY_KEY;
    assert "error: " <= status ==> status[0] == 'e';
  }

  // ---------------------------------------------------------------- keys to release

  /** The distinct non-empty owned keys, in order of first appearance as owned. */
  function OwnedStatusKeys(statuses: seq<EntryStatus>): seq<string> {
    if statuses == [] then []
    else
      var init, e := OwnedStatusKeys(statuses[..|statuses| - 1]), statuses[|statuses| - 1];
      if e.key != "" && e.owned && e.key !in init then init + [e.key] else init
  }

  lemma {:induction false} OwnedStatusKeysAre(statuses: seq<EntryStatus>)
    ensures Distinct(OwnedStatusKeys(statuses))
    ensures forall k :: k in OwnedStatusKeys(statuses) <==> k in OwnedKeys(statuses) && k != ""
  {
    if statuses != [] {
      var n := |statuses| - 1;
      OwnedStatusKeysAre(statuses[..n]);
      assert OwnedKeys(statuses)
          == OwnedKeys(statuses[..n]) + (if statuses[n].owned then {statuses[n].key} else {}) by {
        forall i | 0 <= i < n ensures statuses[i] == statuses[..n][i] {}
      }
    }
  }

  /** The owned keys stand in the order in which the record has them. */
  lemma {:induction false} OwnedKeysInOrder(statuses: seq<EntryStatus>) returns (at: seq<nat>)
    ensures |at| == |OwnedStatusKeys(statuses)| && Increasing(at)
    ensures forall x | 0 <= x < |at| :: at[x] < |statuses| && statuses[at[x]].owned && OwnedStatusKeys(statuses)[x] == statuses[at[x]].key
  {
    at := [];
    if statuses != [] {
      var n := |statuses| - 1;
      at := OwnedKeysInOrder(statuses[..n]);
      if statuses[n].key != "" && statuses[n].owned && statuses[n].key !in OwnedStatusKeys(statuses[..n]) {
        at := at + [n];
      }
    }
  }

  /** The status entries whose key the spec no longer has. */
  function RemovedEntries(existing: seq<EntryStatus>, specKeys: set<string>): seq<EntryStatus> {
    if existing == [] then []
    else
      var e := existing[|existing| - 1];
      RemovedEntries(existing[..|existing| - 1], specKeys) + (if e.key in specKeys then [] else [e])
  }

  lemma {:induction false} RemovedEntriesOwned(existing: seq<EntryStatus>, specKeys: set<string>)
    ensures OwnedKeys(RemovedEntries(existing, specKeys)) == OwnedKeys(existing) - specKeys
  {
    if existing != [] {
      var n := |existing| - 1;
      RemovedEntriesOwned(existing[..n], specKeys);
      OwnedKeysSplit(existing);
      var init, all := RemovedEntries(existing[..n], specKeys), RemovedEntries(existing, specKeys);
      if existing[n].key in specKeys {
        assert all == init;
      } else {
        assert all[..|all| - 1] == init;
        OwnedKeysSplit(all);
      }
    }
  }

  lemma OwnedKeysSplit(statuses: seq<EntryStatus>)
    ensures statuses != [] ==>
              var n := |statuses| - 1;
              OwnedKeys(statuses) == OwnedKeys(statuses[..n]) + (if statuses[n].owned then {statuses[n].key} else {})
  {}

  /** The keys to release when the spec is `entries`. */
  function KeysToDrop(existing: seq<EntryStatus>, entries: seq<Entry>): seq<string> {
    OwnedStatusKeys(RemovedEntries(existing, Keys(entries)))
  }

  lemma KeysToDropAre(existing: seq<EntryStatus>, entries: seq<Entry>)
    ensures Distinct(KeysToDrop(existing, entries))
    ensures forall k :: k in KeysToDrop(existing, entries) <==> k in OwnedKeys(existing) && k !in Keys(entries) && k != ""
  {
    OwnedStatusKeysAre(RemovedEntries(existing, Keys(entries)));
    RemovedEntriesOwned(existing, Keys(entries));
  }

  function MarkReleased(statuses: seq<EntryStatus>, released: set<string>): seq<EntryStatus> {
    seq(|statuses|, i requires 0 <= i < |statuses| =>
      if statuses[i].key in released then EntryStatus(statuses[i].key, STATUS_RELEASED, false) else statuses[i])
  }

  lemma MarkReleasedOwned(statuses: seq<EntryStatus>, released: set<string>)
    ensures OwnedKeys(MarkReleased(statuses, released)) == OwnedKeys(statuses) - released
    ensures StatusKeys(MarkReleased(statuses, released)) == StatusKeys(statuses)
    ensures forall i | 0 <= i < |statuses| :: MarkReleased(statuses, released)[i].status == "released" || MarkReleased(statuses, released)[i] == statuses[i]
  {
    var m := MarkReleased(statuses, released);
    forall i | 0 <= i < |statuses|
      ensures m[i].key == statuses[i].key
      ensures m[i].owned == (statuses[i].owned && statuses[i].key !in released) {}
  }

  // ---------------------------------------------------------------- merging two records

  /** The distinct keys in order of first appearance. */
  function Order(statuses: seq<EntryStatus>): seq<string> {
    if statuses == [] then []
    else
      var init, k := Order(statuses[..|statuses| - 1]), statuses[|statuses| - 1].key;
      if k in init then init else init + [k]
  }

  /** The entries of one key, in order. */
  function Group(statuses: seq<EntryStatus>, key: string): seq<EntryStatus> {
    if statuses == [] then []
    else
      var e := statuses[|statuses| - 1];
      Group(statuses[..|statuses| - 1], key) + (if e.key == key then [e] else [])
  }

  /** What the merged record holds for one key: the new entries if there are any, otherwise one
      "removed" entry that keeps the ownership of the first old entry unless it was released. */
  function Slot(key: string, existing: seq<EntryStatus>, updated: seq<EntryStatus>, cleaned: set<string>): seq<EntryStatus> {
    var before, after := Group(existing, key), Group(updated, key);
    if after != [] then after
    else [EntryStatus(key, STATUS_REMOVED, before != [] && before[0].owned && key !in cleaned)]
  }

  function Layout(keys: seq<string>, existing: seq<EntryStatus>, updated: seq<EntryStatus>, cleaned: set<string>): seq<EntryStatus> {
    if keys == [] then []
    else Layout(keys[..|keys| - 1], existing, updated, cleaned) + Slot(keys[|keys| - 1], existing, updated, cleaned)
  }

  /** The merged record: one slot per key, the old keys first, each in order of first appearance. */
  function Merge(existing: seq<EntryStatus>, updated: seq<EntryStatus>, cleaned: set<string>): seq<EntryStatus> {
    Layout(Order(existing + updated), existing, updated, cleaned)
  }

  lemma OrderMore(statuses: seq<EntryStatus>, e: EntryStatus)
    ensures Order(statuses + [e]) == if e.key in Order(statuses) then Order(statuses) else Order(statuses) + [e.key]
  {
    assert (statuses + [e])[..|statuses|] == statuses;
  }

  lemma {:induction false} OrderAre(statuses: seq<EntryStatus>)
    ensures Distinct(Order(statuses))
    ensures forall k :: k in Order(statuses) <==> k in StatusKeys(statuses)
  {
    if statuses != [] {
      var n := |statuses| - 1;
      OrderAre(statuses[..n]);
      assert StatusKeys(statuses) == StatusKeys(statuses[..n]) + {statuses[n].key} by {
        forall i | 0 <= i < n ensures statuses[i] == statuses[..n][i] {}
      }
    }
  }

  lemma {:induction false} GroupAre(statuses: seq<EntryStatus>, key: string)
    ensures forall e | e in Group(statuses, key) :: e.key == key && e in statuses
    ensures forall e | e in statuses && e.key == key :: e in Group(statuses, key)
    ensures Group(statuses, key) != [] <==> key in StatusKeys(statuses)
  {
    if statuses != [] {
      var n := |statuses| - 1;
      GroupAre(statuses[..n], key);
      assert statuses == statuses[..n] + [statuses[n]];
      assert StatusKeys(statuses) == StatusKeys(statuses[..n]) + {statuses[n].key} by {
        forall i | 0 <= i < n ensures statuses[i] == statuses[..n][i] {}
      }
    }
  }

  lemma SlotAre(key: string, existing: seq<EntryStatus>, updated: seq<EntryStatus>, cleaned: set<string>)
    ensures Slot(key, existing, updated, cleaned) != []
    ensures forall e | e in Slot(key, existing, updated, cleaned) :: e.key == key
  {
    GroupAre(updated, key);
  }

  /** The keys of a layout appear in the given order. */
  lemma {:induction false} LayoutOrder(keys: seq<string>, existing: seq<EntryStatus>, updated: seq<EntryStatus>, cleaned: set<string>)
    requires Distinct(keys)
    ensures Order(Layout(keys, existing, updated, cleaned)) == keys
  {
    hide Slot;
    if keys != [] {
      var n := |keys| - 1;
      LayoutOrder(keys[..n], existing, updated, cleaned);
      SlotAre(keys[n], existing, updated, cleaned);
      assert keys[n] !in keys[..n] && keys == keys[..n] + [keys[n]];
      AppendBlock(Layout(keys[..n], existing, updated, cleaned), Slot(keys[n], existing, updated, cleaned), keys[n]);
    }
  }

  /** The group of each key of a layout is its slot. */
  lemma {:induction false} LayoutGroup(keys: seq<string>, existing: seq<EntryStatus>, updated: seq<EntryStatus>, cleaned: set<string>, k: string)
    requires Distinct(keys)
    ensures Group(Layout(keys, existing, updated, cleaned), k) == if k in keys then Slot(k, existing, updated, cleaned) else []
  {
    if keys != [] {
      var n := |keys| - 1;
      var init, slot := Layout(keys[..n], existing, updated, cleaned), Slot(keys[n], existing, updated, cleaned);
      LayoutGroup(keys[..n], existing, updated, cleaned, k);
      SlotAre(keys[n], existing, updated, cleaned);
      assert keys[n] !in keys[..n];
      calc {
        Group(Layout(keys, existing, updated, cleaned), k);
        Group(init + slot, k);
        { GroupConcat(init, slot, k); }
        Group(init, k) + Group(slot, k);
        { GroupOfBlock(slot, keys[n], k); }
        Group(init, k) + (if k == keys[n] then slot else []);
      }
    }
  }

  lemma {:induction false} GroupConcat(a: seq<EntryStatus>, b: seq<EntryStatus>, k: string)
    ensures Group(a + b, k) == Group(a, k) + Group(b, k)
  {
    if b == [] {
      assert a + b == a;
    } else {
      GroupConcat(a, b[..|b| - 1], k);
      assert (a + b)[..|a + b| - 1] == a + b[..|b| - 1];
    }
  }

  lemma {:induction false} GroupOfBlock(block: seq<EntryStatus>, key: string, k: string)
    requires forall e | e in block :: e.key == key
    ensures Group(block, k) == if k == key then block else []
  {
    if block != [] {
      GroupOfBlock(block[..|block| - 1], key, k);
      assert block == block[..|block| - 1] + [block[|block| - 1]];
    }
  }

  lemma {:induction false} AppendBlock(a: seq<EntryStatus>, block: seq<EntryStatus>, key: string)
    requires block != [] && (forall e | e in block :: e.key == key) && key !in Order(a)
    ensures Order(a + block) == Order(a) + [key]
  {
    var init := block[..|block| - 1];
    assert (a + block)[..|a + block| - 1] == a + init;
    if init == [] {
      assert a + init == a;
    } else {
      AppendBlock(a, init, key);
    }
  }

  lemma {:induction false} OrderOfKnown(a: seq<EntryStatus>, b: seq<EntryStatus>)
    requires forall e | e in b :: e.key in Order(a)
    ensures Order(a + b) == Order(a)
  {
    if b == [] {
      assert a + b == a;
    } else {
      OrderOfKnown(a, b[..|b| - 1]);
      assert (a + b)[..|a + b| - 1] == a + b[..|b| - 1];
    }
  }

  /** The merged record covers exactly the keys of both inputs, in order of first
      appearance with the old keys first. */
  lemma MergeCovers(existing: seq<EntryStatus>, updated: seq<EntryStatus>, cleaned: set<string>)
    ensures StatusKeys(Merge(existing, updated, cleaned)) == StatusKeys(existing) + StatusKeys(updated)
    ensures Order(Merge(existing, updated, cleaned)) == Order(existing + updated)
  {
    var m, all := Merge(existing, updated, cleaned), existing + updated;
    OrderAre(all);
    LayoutOrder(Order(all), existing, updated, cleaned);
    OrderAre(m);
    StatusKeysConcat(existing, updated);
  }

  lemma StatusKeysConcat(a: seq<EntryStatus>, b: seq<EntryStatus>)
    ensures StatusKeys(a + b) == StatusKeys(a) + StatusKeys(b)
  {
    forall i | 0 <= i < |a| ensures (a + b)[i] == a[i] {}
    forall i | 0 <= i < |b| ensures (a + b)[|a| + i] == b[i] {}
  }

  /** The merged record holds, of each key, all the new entries if there are any, and otherwise one
      entry that reads "removed", owned if the first old entry was and the key was not released. */
  lemma MergeGroup(existing: seq<EntryStatus>, updated: seq<EntryStatus>, cleaned: set<string>, k: string)
    ensures Group(Merge(existing, updated, cleaned), k)
            == if Group(updated, k) != [] then Group(updated, k)
               else if Group(existing, k) != [] then [EntryStatus(k, "removed", Group(existing, k)[0].owned && k !in cleaned)]
               else []
  {
    GroupAre(existing, k);
    GroupAre(updated, k);
    OrderAre(existing + updated);
    StatusKeysConcat(existing, updated);
    LayoutGroup(Order(existing + updated), existing, updated, cleaned, k);
  }

  /** The order of the old keys is kept as a prefix. */
  lemma {:induction false} MergeKeepsOrder(existing: seq<EntryStatus>, updated: seq<EntryStatus>)
    ensures Order(existing) <= Order(existing + updated)
  {
    if updated == [] {
      assert existing + updated == existing;
    } else {
      MergeKeepsOrder(existing, updated[..|updated| - 1]);
      assert (existing + updated)[..|existing + updated| - 1] == existing + updated[..|updated| - 1];
    }
  }

  /** All entries of a key stand together. */
  ghost predicate Contiguous(l: seq<EntryStatus>) {
    forall i, j, n | 0 <= i < j < n < |l| && l[i].key == l[n].key :: l[j].key == l[i].key
  }

  lemma {:induction false} LayoutContiguous(keys: seq<string>, existing: seq<EntryStatus>, updated: seq<EntryStatus>, cleaned: set<string>)
    requires Distinct(keys)
    ensures Contiguous(Layout(keys, existing, updated, cleaned))
  {
    if keys != [] {
      var n := |keys| - 1;
      var init, slot := Layout(keys[..n], existing, updated, cleaned), Slot(keys[n], existing, updated, cleaned);
      LayoutContiguous(keys[..n], existing, updated, cleaned);
      LayoutOrder(keys[..n], existing, updated, cleaned);
      SlotAre(keys[n], existing, updated, cleaned);
      OrderAre(init);
      forall i | 0 <= i < |init| ensures init[i].key != keys[n] {
        assert init[i].key in StatusKeys(init);
      }
      hide Layout, Slot, Contiguous, Distinct;
      ContiguousMore(init, slot, keys[n]);
      assert Layout(keys, existing, updated, cleaned) == init + slot by {
        LayoutMore(keys, existing, updated, cleaned);
      }
    }
  }

  lemma LayoutMore(keys: seq<string>, existing: seq<EntryStatus>, updated: seq<EntryStatus>, cleaned: set<string>)
    requires keys != []
    ensures var n := |keys| - 1;
            Layout(keys, existing, updated, cleaned) == Layout(keys[..n], existing, updated, cleaned) + Slot(keys[n], existing, updated, cleaned)
  {
    hide Slot;
  }

  lemma ContiguousMore(a: seq<EntryStatus>, block: seq<EntryStatus>, key: string)
    requires Contiguous(a) && (forall i | 0 <= i < |a| :: a[i].key != key) && forall e | e in block :: e.key == key
    ensures Contiguous(a + block)
  {
    var l := a + block;
    forall i | 0 <= i < |l| ensures if i < |a| then l[i] == a[i] else l[i].key == key {
      if i >= |a| {
        assert l[i] == block[i - |a|] && l[i] in block;
      }
    }
  }

  lemma MergeContiguous(existing: seq<EntryStatus>, updated: seq<EntryStatus>, cleaned: set<string>)
    ensures Contiguous(Merge(existing, updated, cleaned))
  {
    OrderAre(existing + updated);
    LayoutContiguous(Order(existing + updated), existing, updated, cleaned);
  }

  /** Merging the result again with the same update and the same released keys changes nothing. */
  lemma MergeIdempotent(existing: seq<EntryStatus>, updated: seq<EntryStatus>, cleaned: set<string>)
    ensures var m := Merge(existing, updated, cleaned); Merge(m, updated, cleaned) == m
  {
    var m := Merge(existing, updated, cleaned);
    MergeCovers(existing, updated, cleaned);
    OrderAre(m);
    forall e | e in updated ensures e.key in Order(m) {
      var i :| 0 <= i < |updated| && updated[i] == e;
      assert e.key in StatusKeys(updated);
    }
    OrderOfKnown(m, updated);
    forall k | k in Order(m) ensures Slot(k, m, updated, cleaned) == Slot(k, existing, updated, cleaned) {
      MergeGroup(existing, updated, cleaned, k);
    }
    SameSlots(Order(m), m, existing, updated, cleaned);
  }

  lemma {:induction false} SameSlots(keys: seq<string>, a: seq<EntryStatus>, b: seq<EntryStatus>, updated: seq<EntryStatus>, cleaned: set<string>)
    requires forall k | k in keys :: Slot(k, a, updated, cleaned) == Slot(k, b, updated, cleaned)
    ensures Layout(keys, a, updated, cleaned) == Layout(keys, b, updated, cleaned)
  {
    if keys != [] {
      SameSlots(keys[..|keys| - 1], a, b, updated, cleaned);
    }
  }

  // ---------------------------------------------------------------- ownership through a merge

  /** The first old entry of a key carries its ownership. */
  predicate FirstCarries(existing: seq<EntryStatus>, k: string) {
    Group(existing, k) != [] && Group(existing, k)[0].owned
  }

  /** What the merged record owns: the keys the new record owns, and the keys it does not mention
      whose first old entry was owned and that were not released. */
  lemma MergeOwned(existing: seq<EntryStatus>, updated: seq<EntryStatus>, cleaned: set<string>, k: string)
    ensures k in OwnedKeys(Merge(existing, updated, cleaned))
            <==> if k in StatusKeys(updated) then k in OwnedKeys(updated)
                 else FirstCarries(existing, k) && k !in cleaned
  {
    var m := Merge(existing, updated, cleaned);
    MergeGroup(existing, updated, cleaned, k);
    GroupAre(updated, k);
    GroupAre(existing, k);
    OwnedIffInGroup(m, k);
    OwnedIffInGroup(updated, k);
  }

  lemma OwnedIffInGroup(statuses: seq<EntryStatus>, k: string)
    ensures k in OwnedKeys(statuses) <==> exists e | e in Group(statuses, k) :: e.owned
  {
    GroupAre(statuses, k);
    if k in OwnedKeys(statuses) {
      var i :| 0 <= i < |statuses| && statuses[i].owned && statuses[i].key == k;
      assert statuses[i] in statuses;
    }
    if exists e | e in Group(statuses, k) :: e.owned {
      var e :| e in Group(statuses, k) && e.owned;
      var i :| 0 <= i < |statuses| && statuses[i] == e;
    }
  }

  /** Without repeated keys in the old record, its first entry always carries the ownership. */
  lemma FirstCarriesWhenDistinct(existing: seq<EntryStatus>, k: string)
    ensures FirstCarries(existing, k) ==> k in OwnedKeys(existing)
    ensures DistinctStatusKeys(existing) && k in OwnedKeys(existing) ==> FirstCarries(existing, k)
  {
    GroupAre(existing, k);
    OwnedIffInGroup(existing, k);
    if DistinctStatusKeys(existing) {
      GroupSingle(existing, k);
    }
  }

  lemma {:induction false} GroupSingle(existing: seq<EntryStatus>, k: string)
    requires DistinctStatusKeys(existing)
    ensures |Group(existing, k)| <= 1
  {
    if existing != [] {
      var n := |existing| - 1;
      GroupSingle(existing[..n], k);
      GroupAre(existing[..n], k);
    }
  }

  /** The first entry of every owned key carries its ownership. */
  ghost predicate OwnedCarried(statuses: seq<EntryStatus>) {
    forall k | k in OwnedKeys(statuses) :: FirstCarries(statuses, k)
  }

  /** A merge keeps the ownership of every removed key that was not released exactly when the
      first old entry of each such key carries it. */
  lemma MergeKeepsOwnershipIff(existing: seq<EntryStatus>, updated: seq<EntryStatus>, cleaned: set<string>)
    ensures (forall k | k in OwnedKeys(existing) - StatusKeys(updated) - cleaned :: k in OwnedKeys(Merge(existing, updated, cleaned)))
            <==> forall k | k in OwnedKeys(existing) - StatusKeys(updated) - cleaned :: FirstCarries(existing, k)
  {
    forall k | k in OwnedKeys(existing) - StatusKeys(updated) - cleaned
      ensures k in OwnedKeys(Merge(existing, updated, cleaned)) <==> FirstCarries(existing, k)
    {
      MergeOwned(existing, updated, cleaned, k);
    }
  }

  lemma MergeCarries(existing: seq<EntryStatus>, updated: seq<EntryStatus>, cleaned: set<string>)
    requires OwnedCarried(updated)
    ensures OwnedCarried(Merge(existing, updated, cleaned))
  {
    var m := Merge(existing, updated, cleaned);
    forall k | k in OwnedKeys(m) ensures FirstCarries(m, k) {
      MergeOwned(existing, updated, cleaned, k);
      MergeGroup(existing, updated, cleaned, k);
      GroupAre(updated, k);
      GroupAre(existing, k);
    }
  }

  /** A report on a spec without repeated keys carries its ownership. */
  lemma ApplyCarries(entries: seq<Entry>, before: set<string>, owned: map<string, bool>, err: Option<string>)
    requires DistinctKeys(entries)
    ensures OwnedCarried(ApplyStatuses(entries, before, owned, err))
  {
    var st := ApplyStatuses(entries, before, owned, err);
    forall i | 0 <= i < |st| ensures st[i].key == entries[i].key {}
    forall k | k in OwnedKeys(st) ensures FirstCarries(st, k) {
      FirstCarriesWhenDistinct(st, k);
    }
  }

  lemma MarkCarries(statuses: seq<EntryStatus>, released: set<string>)
    requires OwnedCarried(statuses)
    ensures OwnedCarried(MarkReleased(statuses, released))
  {
    MarkReleasedOwned(statuses, released);
    forall k | k in OwnedKeys(statuses) - released ensures FirstCarries(MarkReleased(statuses, released), k) {
      MarkKeepsGroup(statuses, released, k);
    }
  }

  lemma {:induction false} MarkKeepsGroup(statuses: seq<EntryStatus>, released: set<string>, k: string)
    requires k !in released
    ensures Group(MarkReleased(statuses, released), k) == Group(statuses, k)
  {
    if statuses != [] {
      var n := |statuses| - 1;
      MarkKeepsGroup(statuses[..n], released, k);
      assert MarkReleased(statuses, released)[..n] == MarkReleased(statuses[..n], released);
    }
  }

  /** Repeated keys can hide ownership: the failed release of a key whose first entry is a
      skipped duplicate is recorded as not owned. */
  lemma DuplicateHidesOwnership()
    ensures exists existing: seq<EntryStatus>, k ::
              k in OwnedKeys(existing) && k !in OwnedKeys(Merge(existing, [], {}))
  {
    var existing := [EntryStatus("a", STATUS_SKIPPED, false), EntryStatus("a", STATUS_SYNCED, true)];
    assert existing[1].owned;
    assert "a" in OwnedKeys(existing);
    assert existing[..1] == [existing[0]] && existing[..0] == [] && [existing[0]][..0] == [];
    assert Group([existing[0]], "a") == [existing[0]];
    assert Group(existing, "a") == [existing[0], existing[1]];
    MergeOwned(existing, [], {}, "a");
  }
}
