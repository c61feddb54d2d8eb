/** Deleting a ConsulKV resource with purgeOnDelete: each declared key is treated as a directory. */
module KvPurge {
  import opened ConsulStore
  import opened KvStatus

  predicate EndsWithSlash(key: string) {
    key != "" && key[|key| - 1] == '/'
  }

  /** `k` is the declared key itself or lies in the directory it names. */
  predicate Under(declared: string, k: string) {
    if EndsWithSlash(declared) then declared <= k else k == declared || declared + "/" <= k
  }

  /** `k` is under one of the declared non-empty keys. */
  predicate Doomed(declared: set<string>, k: string) {
    exists d | d in declared :: d != "" && Under(d, k)
  }

  function Without(pairs: map<string, Pair>, declared: set<string>): map<string, Pair> {
    map k | k in pairs && !Doomed(declared, k) :: pairs[k]
  }

  /** The key is the declared one, or one in the directory of that name; a declared key with a slash at
      its end names the directory itself. */
  ghost predicate InDirectory(declared: string, k: string) {
    || k == declared
    || (exists rest :: k == declared + "/" + rest)
    || (declared != "" && declared[|declared| - 1] == '/' && exists rest :: k == declared + rest)
  }

  lemma UnderIs(declared: string, k: string)
    ensures Under(declared, k) <==> InDirectory(declared, k)
  {
    if declared <= k {
      assert k == declared + k[|declared|..];
    }
    if declared + "/" <= k {
      assert k == declared + "/" + k[|declared| + 1..];
    }
    if rest :| k == declared + "/" + rest {
      assert k == declared + ("/" + rest);
      assert declared <= k && declared + "/" <= k;
    }
  }

  /** A successful purge removes exactly the keys in the directories of the declared keys. */
  ghost predicate PurgedExactly(before: map<string, Pair>, after: map<string, Pair>, declared: set<string>) {
    && (forall k :: k in after <==> k in before && !exists d | d in declared :: d != "" && InDirectory(d, k))
    && (forall k | k in after :: after[k] == before[k])
  }

  lemma WithoutIs(pairs: map<string, Pair>, declared: set<string>)
    ensures PurgedExactly(pairs, Without(pairs, declared), declared)
  {
    forall d, k ensures Under(d, k) <==> InDirectory(d, k) {
      UnderIs(d, k);
    }
    hide Under, InDirectory;
  }

  /** The unconditional deletes of the KV API; the script says which calls fail. */
  class Admin {
    var pairs: map<string, Pair>
    var fails: seq<bool>

    method Next() returns (failed: bool)
      modifies this`fails
      ensures failed == (old(fails) != [] && old(fails)[0])
      ensures fails == if old(fails) == [] then [] else old(fails)[1..]
    {
      failed := fails != [] && fails[0];
      fails := if fails == [] then [] else fails[1..];
    }

    method Delete(key: string) returns (ok: bool)
      modifies this
      ensures ok == !(old(fails) != [] && old(fails)[0]) && fails == if old(fails) == [] then [] else old(fails)[1..]
      ensures pairs == if ok then map k | k in old(pairs) && k != key :: old(pairs)[k] else old(pairs)
    {
      var failed := Next();
      ok := !failed;
      if ok {
        pairs := map k | k in pairs && k != key :: pairs[k];
      }
    }

    /** Consul deletes a tree by raw string prefix. */
    method DeleteTree(prefix: string) returns (ok: bool)
      modifies this
      ensures ok == !(old(fails) != [] && old(fails)[0]) && fails == if old(fails) == [] then [] else old(fails)[1..]
      ensures pairs == if ok then map k | k in old(pairs) && !(prefix <= k) :: old(pairs)[k] else old(pairs)
    {
      var failed := Next();
      ok := !failed;
      if ok {
        pairs := map k | k in pairs && !(prefix <= k) :: pairs[k];
      }
    }

    /** Purges the directory of one declared key. */
    method PurgeKey(key: string) returns (ok: bool)
      requires key != ""
      modifies this
      ensures ok ==> pairs == map k | k in old(pairs) && !Under(key, k) :: old(pairs)[k]
      ensures !ok ==> pairs.Keys <= old(pairs).Keys
      ensures !ok ==> forall k | k in old(pairs) && !Under(key, k) :: k in pairs
      ensures forall k | k in pairs && k in old(pairs) :: pairs[k] == old(pairs)[k]
      ensures true !in old(fails) ==> ok && true !in fails
    {
      var treePrefix := key;
      if !EndsWithSlash(key) {
        ok := Delete(key);
        if !ok {
          return;
        }
        treePrefix := treePrefix + "/";
      }
      ok := DeleteTree(treePrefix);
    }

    /** Purges every declared key once. If all calls succeed, exactly the declared keys and
        the keys below them are gone, whatever the order or repetition of the statuses; if some
        call fails, still nothing else has been removed. */
    method DeleteKVTree(statuses: seq<EntryStatus>) returns (ok: bool)
      modifies this
      ensures ok ==> pairs == Without(old(pairs), StatusKeys(statuses)) && PurgedExactly(old(pairs), pairs, StatusKeys(statuses))
      ensures pairs.Keys <= old(pairs).Keys
      ensures forall k | k in old(pairs) && !Doomed(StatusKeys(statuses), k) :: k in pairs
      ensures forall k | k in pairs :: pairs[k] == old(pairs)[k]
      ensures true !in old(fails) ==> ok
    {
      hide PurgedExactly;
      ok := true;
      var seen: set<string> := {};
      for i := 0 to |statuses|
        invariant seen == StatusKeys(statuses[..i]) - {""}
        invariant ok ==> pairs == Without(old(pairs), seen)
        invariant pairs.Keys <= old(pairs).Keys
        invariant forall k | k in old(pairs) && !Doomed(seen, k) :: k in pairs
        invariant forall k | k in pairs :: pairs[k] == old(pairs)[k]
        invariant true !in old(fails) ==> ok && true !in fails
      {
        var key := statuses[i].key;
        assert StatusKeys(statuses[..i + 1]) == StatusKeys(statuses[..i]) + {key} by {
          forall j | 0 <= j < i ensures statuses[..i + 1][j] == statuses[..i][j] {}
          assert statuses[..i + 1][i] == statuses[i];
        }
        if key != "" && key !in seen {
          DoomedMore(seen, key);
          seen := seen + {key};
          var done := PurgeKey(key);
          ok := ok && done;
        }
      }
      assert statuses[..|statuses|] == statuses;
      forall k ensures Doomed(StatusKeys(statuses), k) <==> Doomed(StatusKeys(statuses) - {""}, k) {
        if Doomed(StatusKeys(statuses), k) {
          var d :| d in StatusKeys(statuses) && d != "" && Under(d, k);
          assert d in StatusKeys(statuses) - {""};
        }
      }
      WithoutIs(old(pairs), StatusKeys(statuses));
    }
  }

  lemma DoomedMore(declared: set<string>, key: string)
    requires key != ""
    ensures forall k :: Doomed(declared + {key}, k) <==> Doomed(declared, k) || Under(key, k)
  {}

  /** A key that merely shares the characters of a declared key survives: after them comes
      neither the end nor a slash. */
  lemma SiblingDirectorySurvives(declared: string, k: string)
    requires !EndsWithSlash(declared) && declared <= k && |declared| < |k| && k[|declared|] != '/'
    ensures !Under(declared, k)
  {}
}
