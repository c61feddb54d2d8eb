/** One reconcile of a ConsulKV resource: what is read from its status, written to the store,
    released from it and recorded back, with each Kubernetes write succeeding or failing. */
module KvReconcile {
  import opened ConsulStore
  import opened Wrappers
  import opened KvFlags
  import opened KvClient
  import opened KvStatus
  import opened KvController
  import P = KvProtocol

  /** The distinct non-empty keys owned according to the status entries. */
  method CollectOwnedKeys(statuses: seq<EntryStatus>) returns (keys: seq<string>)
    ensures keys == OwnedStatusKeys(statuses)
  {
    var seen: set<string> := {};
    keys := [];
    for i := 0 to |statuses|
      invariant keys == OwnedStatusKeys(statuses[..i])
      invariant forall k :: k in seen <==> k in keys
    {
      var e := statuses[i];
      assert statuses[..i + 1][..i] == statuses[..i];
      if e.key != "" && e.owned && e.key !in seen {
        seen := seen + {e.key};
        keys := keys + [e.key];
      }
    }
    assert statuses[..|statuses|] == statuses;
  }

  /** Releases the keys that were owned but that the spec no longer has. */
  method DeleteRemovedEntries(consul: Client, existing: seq<EntryStatus>, spec: seq<Entry>, ghost base: P.Cr, ghost goal: P.Goal)
    returns (released: set<string>, err: Option<string>, ghost freed: seq<seq<string>>)
    requires consul.Valid() && consul.cr == P.BeginRelease(base, goal)
    requires goal.Update? && goal.spec == spec && base.status == existing
    modifies consul
    ensures consul.Valid() && old(consul.log) <= consul.log && consul.decided == old(consul.decided)
    ensures BatchReleased(old(consul.ours), consul.ours, |old(consul.log)|, consul.log, KeysToDrop(existing, spec), released, freed)
    ensures err.None? <==> |freed| == NumChunks(|KeysToDrop(existing, spec)|)
    ensures consul.cr == base.(pc := P.Recording(goal, released, err.None?))
    ensures Calm(old(consul.turns)) ==>
              err.None? && Relieved(old(consul.state), consul.state, OwnedKeys(existing) - Keys(spec) - {""})
  {
    var specKeys: set<string> := set i | 0 <= i < |spec| :: spec[i].key;
    var removed := [];
    for i := 0 to |existing|
      invariant removed == RemovedEntries(existing[..i], specKeys)
    {
      assert existing[..i + 1][..i] == existing[..i];
      if existing[i].key !in specKeys {
        removed := removed + [existing[i]];
      }
    }
    assert existing[..|existing|] == existing;
    var keys := CollectOwnedKeys(removed);
    KeysToDropAre(existing, spec);
    assert (set k | k in keys) == OwnedKeys(existing) - Keys(spec) - {""};
    hide Relieved, OwnedKeys, Keys, KeysToDrop;
    released, err, freed := DeleteKVBatch(consul, keys, base, goal);
  }

  /** The status entries with the released keys no longer owned. */
  method MarkAsReleased(statuses: seq<EntryStatus>, released: set<string>) returns (result: seq<EntryStatus>)
    ensures result == MarkReleased(statuses, released)
  {
    result := [];
    for i := 0 to |statuses|
      invariant |result| == i
      invariant forall j | 0 <= j < i :: result[j] == MarkReleased(statuses, released)[j]
    {
      var e := statuses[i];
      if e.key in released {
        e := e.(owned := false, status := STATUS_RELEASED);
      }
      result := result + [e];
    }
  }

  ghost predicate IsGrouping(updated: seq<EntryStatus>, byKey: map<string, seq<EntryStatus>>) {
    && (forall k :: k in byKey <==> Group(updated, k) != [])
    && (forall k | k in byKey :: byKey[k] == Group(updated, k))
  }

  /** The new entries grouped by key. */
  method GroupByKey(updated: seq<EntryStatus>) returns (byKey: map<string, seq<EntryStatus>>)
    ensures IsGrouping(updated, byKey)
  {
    byKey := map[];
    for i := 0 to |updated|
      invariant forall k :: k in byKey <==> Group(updated[..i], k) != []
      invariant forall k | k in byKey :: byKey[k] == Group(updated[..i], k)
    {
      var e := updated[i];
      assert updated[..i + 1][..i] == updated[..i];
      var sofar := if e.key in byKey then byKey[e.key] else [];
      byKey := byKey[e.key := sofar + [e]];
    }
    assert updated[..|updated|] == updated;
  }

  /** The merge after the entries `prefix` have been visited. */
  ghost predicate MergedSoFar(prefix: seq<EntryStatus>, seen: set<string>, result: seq<EntryStatus>,
                              existing: seq<EntryStatus>, updated: seq<EntryStatus>, cleaned: set<string>)
  {
    && (forall k :: k in seen <==> k in Order(prefix))
    && result == Layout(Order(prefix), existing, updated, cleaned)
  }

  lemma MergedMore(prefix: seq<EntryStatus>, seen: set<string>, result: seq<EntryStatus>, e: EntryStatus,
                   existing: seq<EntryStatus>, updated: seq<EntryStatus>, cleaned: set<string>)
    requires MergedSoFar(prefix, seen, result, existing, updated, cleaned)
    ensures e.key in seen ==> MergedSoFar(prefix + [e], seen, result, existing, updated, cleaned)
    ensures e.key !in seen ==> MergedSoFar(prefix + [e], seen + {e.key}, result + Slot(e.key, existing, updated, cleaned), existing, updated, cleaned)
  {
    OrderMore(prefix, e);
    hide Slot, Order;
    if e.key !in seen {
      var keys := Order(prefix) + [e.key];
      assert keys[..|keys| - 1] == Order(prefix);
      LayoutMore(keys, existing, updated, cleaned);
      hide Layout;
    }
  }

  /** The slots of the old keys. */
  method MergeOldKeys(existing: seq<EntryStatus>, updated: seq<EntryStatus>, byKey: map<string, seq<EntryStatus>>, cleaned: set<string>)
    returns (seen: set<string>, result: seq<EntryStatus>)
    requires IsGrouping(updated, byKey)
    ensures MergedSoFar(existing, seen, result, existing, updated, cleaned)
  {
    seen, result := {}, [];
    for i := 0 to |existing|
      invariant MergedSoFar(existing[..i], seen, result, existing, updated, cleaned)
    {
      var e := existing[i];
      assert existing[..i + 1] == existing[..i] + [e];
      MergedMore(existing[..i], seen, result, e, existing, updated, cleaned);
      if e.key !in seen {
        FirstOfGroup(existing, i);
        seen := seen + {e.key};
        if e.key in byKey {
          result := result + byKey[e.key];
        } else {
          result := result + [EntryStatus(e.key, STATUS_REMOVED, e.owned && e.key !in cleaned)];
        }
      }
    }
    assert existing[..|existing|] == existing;
  }

  /** Merges the report of a reconcile into the recorded status. */
  method MergeKVStatuses(existing: seq<EntryStatus>, updated: seq<EntryStatus>, cleaned: set<string>)
    returns (result: seq<EntryStatus>)
    ensures result == Merge(existing, updated, cleaned)
  {
    hide MergedSoFar, Group, Layout, Order, Merge;
    var byKey := GroupByKey(updated);
    var seen;
    seen, result := MergeOldKeys(existing, updated, byKey, cleaned);
    assert existing + updated[..0] == existing;
    for i := 0 to |updated|
      invariant MergedSoFar(existing + updated[..i], seen, result, existing, updated, cleaned)
    {
      var e := updated[i];
      assert existing + updated[..i + 1] == existing + updated[..i] + [e];
      MergedMore(existing + updated[..i], seen, result, e, existing, updated, cleaned);
      if e.key !in seen {
        GroupAre(updated, e.key);
        seen := seen + {e.key};
        result := result + byKey[e.key];
      }
    }
    assert updated[..|updated|] == updated;
    MergedAll(existing, updated, seen, result, cleaned);
  }

  lemma MergedAll(existing: seq<EntryStatus>, updated: seq<EntryStatus>, seen: set<string>, result: seq<EntryStatus>, cleaned: set<string>)
    requires MergedSoFar(existing + updated, seen, result, existing, updated, cleaned)
    ensures result == Merge(existing, updated, cleaned)
  {}

  /** An entry whose key does not appear before it is the first of its group. */
  lemma {:induction false} FirstOfGroup(statuses: seq<EntryStatus>, i: nat)
    requires i < |statuses| && statuses[i].key !in Order(statuses[..i])
    ensures Group(statuses, statuses[i].key) != [] && Group(statuses, statuses[i].key)[0] == statuses[i]
  {
    var n, k := |statuses| - 1, statuses[i].key;
    if i == n {
      OrderAre(statuses[..i]);
      GroupAre(statuses[..i], k);
    } else {
      assert statuses[..n][..i] == statuses[..i];
      FirstOfGroup(statuses[..n], i);
    }
  }

  // ---------------------------------------------------------------- the reconcile

  /** What is known after a reconcile that wrote the spec: the claims of a prefix of the chunks,
      then the releases of a prefix of the chunks of removed keys, and the two reports. */
  ghost predicate Applied(was: seq<Step>, ours: seq<Step>, decided: map<string, bool>, start: nat, log: seq<Step>,
                          spec: seq<Entry>, status: seq<EntryStatus>, results: seq<EntryStatus>, released: set<string>)
  {
    exists mid, owned, done, err, since, freed ::
      && BatchClaimed(was, mid, decided, Winners(spec), OwnedKeys(status), owned, done)
      && (err == None <==> done == NumChunks(|Winners(spec)|))
      && results == ApplyStatuses(spec, OwnedKeys(status), owned, err)
      && start <= since && BatchReleased(mid, ours, since, log, KeysToDrop(status, spec), released, freed)
  }

  /** What an undisturbed reconcile does to the store: the spec is written from left to right, and each
      key the resource owned and no longer declares loses one owner. */
  ghost predicate Synchronized(before: Store, after: Store, spec: seq<Entry>, owned: set<string>) {
    exists mid :: Values(mid) == Fold(Values(before), spec) && Relieved(mid, after, owned - Keys(spec) - {""})
  }

  /** Then every declared key has the value of its last entry, and of the other keys none changed its
      value and only those dropped by the resource can be gone. */
  lemma SynchronizedValues(before: Store, after: Store, spec: seq<Entry>, owned: set<string>, k: string)
    requires Synchronized(before, after, spec, owned)
    ensures k != "" && k in Keys(spec) ==> k in after.pairs && after.pairs[k].value == LastValue(spec, k)
    ensures k == "" || k !in Keys(spec) ==>
              && (k in after.pairs ==> k in before.pairs && after.pairs[k].value == before.pairs[k].value)
              && (k in before.pairs && (k == "" || k !in owned) ==> k in after.pairs)
  {
    var mid :| Values(mid) == Fold(Values(before), spec) && Relieved(mid, after, owned - Keys(spec) - {""});
    FoldAt(Values(before), spec, k);
    hide Fold, LastValue;
    assert k in Values(mid) <==> k in mid.pairs;
  }

  /** A reconcile that claims to be in sync has written every entry it was to write and released every
      key the spec dropped. */
  ghost predicate InSync(spec: seq<Entry>, owned: set<string>, results: seq<EntryStatus>, released: set<string>) {
    && |results| == |spec| && (forall i | 0 <= i < |spec| && "error: " <= results[i].status :: spec[i].key == "")
    && released == owned - Keys(spec) - {""}
  }

  lemma SyncedMeans(was: seq<Step>, mid: seq<Step>, ours: seq<Step>, decided: map<string, bool>, start: nat, log: seq<Step>,
                    spec: seq<Entry>, status: seq<EntryStatus>, owned: map<string, bool>, done: nat,
                    results: seq<EntryStatus>, released: set<string>, freed: seq<seq<string>>)
    requires BatchClaimed(was, mid, decided, Winners(spec), OwnedKeys(status), owned, done) && done == NumChunks(|Winners(spec)|)
    requires BatchReleased(mid, ours, start, log, KeysToDrop(status, spec), released, freed) && |freed| == NumChunks(|KeysToDrop(status, spec)|)
    requires |results| == |spec| && forall i | 0 <= i < |spec| :: Reports(spec, i, OwnedKeys(status), owned, results[i])
    ensures InSync(spec, OwnedKeys(status), results, released)
  {
    hide ReleaseSteps, FreedChunks, KeysToDrop, FirstKeys, NumChunks, Winners;
    WinnersAreLastEntries(spec);
    AllEntries(Winners(spec));
    AllChunks(KeysToDrop(status, spec));
    KeysToDropAre(status, spec);
    assert forall i | 0 <= i < |spec| :: spec[i].key in Keys(spec);
  }

  lemma AllEntries(entries: seq<Entry>)
    ensures entries[..Covered(|entries|, NumChunks(|entries|))] == entries
  {}

  class KvResource {
    var spec: seq<Entry>
    var status: seq<EntryStatus>
    var deleting: bool
    var finalizer: bool

    /** The resource as the protocol machine knows it between two reconciles. */
    ghost function Shadow(): P.Cr
      reads this
    {
      P.Cr(spec, status, deleting, P.Idle)
    }

    /** The machine knows the recorded status; the spec may have been edited since. */
    ghost predicate Known(consul: Client)
      reads this, consul
    {
      consul.cr.pc.Idle? && consul.cr.status == status
    }

    /** Writes the spec, releases what it dropped and records both. If the status write is
        lost, the recorded status stays as it was. */
    method Apply(consul: Client, statusWritten: bool) returns (synced: bool, ghost results: seq<EntryStatus>, ghost released: set<string>)
      requires consul.Valid() && Known(consul) && !deleting
      modifies this`status, consul
      ensures consul.Valid() && old(consul.log) <= consul.log && consul.cr == Shadow()
      ensures Applied(old(consul.ours), consul.ours, consul.decided, |old(consul.log)|, consul.log, spec, old(status), results, released)
      ensures status == if statusWritten then Merge(old(status), results, released) else old(status)
      ensures Calm(old(consul.turns)) && statusWritten ==> synced
      ensures synced ==> statusWritten && InSync(spec, OwnedKeys(old(status)), results, released)
      ensures Calm(old(consul.turns)) ==> Synchronized(old(consul.state), consul.state, spec, OwnedKeys(old(status)))
    {
      hide P.BeginAfter, P.BeginRelease, P.StoreAfter, P.Ops;
      hide BatchClaimed, BatchReleased, NumChunks, ApplyStatuses, Merge, Winners, KeysToDrop, Accounts, Tracks, Calm, Values, Fold, Relieved, Reports, InSync;
      consul.Reading(spec, deleting);
      consul.Move(P.Begin);
      var before: set<string> := set i | 0 <= i < |status| && status[i].owned :: status[i].key;
      assert before == OwnedKeys(status);
      var statuses, applyErr;
      ghost var owned, done;
      statuses, applyErr, owned, done := ApplyKVEntries(consul, spec, before, old(Shadow()));
      ghost var mid, since, decided, written := consul.ours, |consul.log|, consul.decided, consul.state;
      var cleaned, removeErr;
      ghost var freed;
      cleaned, removeErr, freed := DeleteRemovedEntries(consul, status, spec, old(Shadow()), P.Update(spec, statuses));
      results, released := statuses, cleaned;
      assert Calm(old(consul.turns)) ==> Synchronized(old(consul.state), consul.state, spec, OwnedKeys(status)) by {
        assert Calm(old(consul.turns)) ==> Values(written) == Fold(Values(old(consul.state)), spec);
      }
      assert Applied(old(consul.ours), consul.ours, consul.decided, |old(consul.log)|, consul.log, spec, status, results, released) by {
        assert BatchClaimed(old(consul.ours), mid, decided, Winners(spec), OwnedKeys(status), owned, done);
      }
      if applyErr.None? && removeErr.None? {
        SyncedMeans(old(consul.ours), mid, consul.ours, decided, since, consul.log, spec, status, owned, done, statuses, cleaned, freed);
      }
      if statusWritten {
        status := MergeKVStatuses(status, statuses, cleaned);
        consul.Move(P.Record);
      } else {
        consul.Move(P.Abort);
      }
      synced := applyErr.None? && removeErr.None? && statusWritten;
    }

    /** Releases everything the resource owns. A complete release lets the resource go; a
        partial one records the released keys so that the retry does not release them again. */
    method Finalize(consul: Client, statusWritten: bool, finalizerWritten: bool)
      returns (ghost released: set<string>, ghost complete: bool, ghost freed: seq<seq<string>>)
      requires consul.Valid() && Known(consul) && deleting && finalizer
      modifies this`status, this`finalizer, consul
      ensures consul.Valid() && old(consul.log) <= consul.log
      ensures consul.cr == if finalizer then Shadow() else P.Cr(spec, [], deleting, P.Gone)
      ensures BatchReleased(old(consul.ours), consul.ours, |old(consul.log)|, consul.log, OwnedStatusKeys(old(status)), released, freed)
      ensures complete <==> |freed| == NumChunks(|OwnedStatusKeys(old(status))|)
      ensures complete ==> status == old(status) && finalizer == (old(finalizer) && !finalizerWritten)
      ensures !complete ==> finalizer == old(finalizer)
      ensures !complete ==> status == if statusWritten then MarkReleased(old(status), released) else old(status)
      ensures Calm(old(consul.turns)) ==> complete && Relieved(old(consul.state), consul.state, OwnedKeys(old(status)) - {""})
    {
      hide P.StoreAfter, P.Ops;
      hide BatchReleased, NumChunks, OwnedStatusKeys, Accounts, Tracks, Calm, Relieved;
      consul.Reading(spec, deleting);
      consul.Move(P.Begin);
      var keys := CollectOwnedKeys(status);
      OwnedStatusKeysAre(status);
      assert (set k | k in keys) == OwnedKeys(status) - {""};
      var done, err;
      done, err, freed := DeleteKVBatch(consul, keys, old(Shadow()), P.Finalize);
      released, complete := done, err.None?;
      if err.Some? {
        if done != {} && statusWritten {
          status := MarkAsReleased(status, done);
          consul.Move(P.Record);
        } else {
          assert MarkReleased(status, {}) == status;
          consul.Move(P.Abort);
        }
        return;
      }
      if finalizerWritten {
        finalizer := false;
        consul.Move(P.Record);
      } else {
        consul.Move(P.Abort);
      }
    }

    /** One reconcile. Nothing is written before the finalizer is in place, and nothing at all
        once it is gone. */
    method Reconcile(consul: Client, statusWritten: bool, finalizerWritten: bool)
      requires consul.Valid() && Known(consul)
      modifies this`status, this`finalizer, consul
      ensures consul.Valid() && old(consul.log) <= consul.log
      ensures if deleting && old(finalizer) && !finalizer then consul.cr == P.Cr(spec, [], deleting, P.Gone) else Known(consul)
      ensures !deleting ==> finalizer == (old(finalizer) || finalizerWritten)
      ensures !deleting && !finalizer ==> status == old(status) && consul.log == old(consul.log)
      ensures !deleting && finalizer ==>
                exists results, released ::
                  && Applied(old(consul.ours), consul.ours, consul.decided, |old(consul.log)|, consul.log, spec, old(status), results, released)
                  && status == if statusWritten then Merge(old(status), results, released) else old(status)
      ensures deleting && !old(finalizer) ==> !finalizer && status == old(status) && consul.log == old(consul.log)
      ensures deleting && old(finalizer) ==>
                exists released, freed ::
                  && BatchReleased(old(consul.ours), consul.ours, |old(consul.log)|, consul.log, OwnedStatusKeys(old(status)), released, freed)
                  && finalizer == !(finalizerWritten && |freed| == NumChunks(|OwnedStatusKeys(old(status))|))
                  && status == if statusWritten && |freed| < NumChunks(|OwnedStatusKeys(old(status))|)
                               then MarkReleased(old(status), released) else old(status)
    {
      hide Applied, NumChunks, ReleaseSteps, FirstKeys, FreedChunks, OwnedStatusKeys, MarkReleased, Merge, Accounts, Tracks, Calm;
      if !deleting {
        if !finalizer {
          if !finalizerWritten {
            return;
          }
          finalizer := true;
        }
        var synced;
        ghost var results, released;
        synced, results, released := Apply(consul, statusWritten);
      } else if finalizer {
        ghost var released, complete, freed;
        released, complete, freed := Finalize(consul, statusWritten, finalizerWritten);
      }
    }
  }
}
