/** The Consul key-value store as its clients see it: pairs with a `Flags` field and a
    `ModifyIndex`, all-or-nothing compare-and-set transactions, and writes by other clients
    that may happen between any two calls. */
module ConsulStore {
  import opened Wrappers

  /** One stored pair; `index` is its ModifyIndex, never 0 for a stored pair. */
  datatype Pair = Pair(value: string, flags: nat, index: nat)

  /** `index` is the last index handed out; every write takes a fresh one. */
  datatype Store = Store(pairs: map<string, Pair>, index: nat)

  predicate ValidStore(s: Store) {
    forall k | k in s.pairs :: 0 < s.pairs[k].index <= s.index
  }

  function Lookup(s: Store, key: string): Option<Pair> {
    if key in s.pairs then Some(s.pairs[key]) else None
  }

  /** The index a compare-and-set operation carries for a key that was read as `found`. */
  function IndexOf(found: Option<Pair>): nat {
    if found.Some? then found.value.index else 0
  }

  /** The owner counter of a key; an absent key counts no owner. */
  function Flags(s: Store, key: string): nat {
    if key in s.pairs then s.pairs[key].flags else 0
  }

  // ---------------------------------------------------------------- transactions

  datatype Op =
    | Cas(key: string, value: string, flags: nat, index: nat)
    | DeleteCas(key: string, index: nat)

  /** A transaction is accepted when every operation names the current index of its key
      (0 for an absent key) and no key is named twice. */
  predicate Accepts(s: Store, ops: seq<Op>) {
    && (forall i | 0 <= i < |ops| :: ops[i].index == IndexOf(Lookup(s, ops[i].key)))
    && (forall i, j | 0 <= i < j < |ops| :: ops[i].key != ops[j].key)
  }

  function Write(pairs: map<string, Pair>, op: Op, index: nat): map<string, Pair> {
    match op
    case Cas(key, value, flags, _) => pairs[key := Pair(value, flags, index)]
    case DeleteCas(key, _) => pairs - {key}
  }

  function WriteAll(pairs: map<string, Pair>, ops: seq<Op>, index: nat): map<string, Pair> {
    if ops == [] then pairs
    else Write(WriteAll(pairs, ops[..|ops| - 1], index), ops[|ops| - 1], index)
  }

  /** The store after an accepted transaction: one fresh index for all its writes. */
  function Commit(s: Store, ops: seq<Op>): Store {
    Store(WriteAll(s.pairs, ops, s.index + 1), s.index + 1)
  }

  function OpKeys(ops: seq<Op>): set<string> {
    set i | 0 <= i < |ops| :: ops[i].key
  }

  /** The effect of a transaction on one key: untouched unless some operation names it. */
  ghost predicate WrittenBy(before: map<string, Pair>, after: map<string, Pair>, ops: seq<Op>, index: nat) {
    && (forall k | k !in OpKeys(ops) :: (k in after <==> k in before) && (k in after ==> after[k] == before[k]))
    && (forall i | 0 <= i < |ops| ::
          match ops[i]
          case Cas(k, v, f, _) => k in after && after[k] == Pair(v, f, index)
          case DeleteCas(k, _) => k !in after)
  }

  lemma {:induction false} WriteAllPointwise(pairs: map<string, Pair>, ops: seq<Op>, index: nat)
    requires forall i, j | 0 <= i < j < |ops| :: ops[i].key != ops[j].key
    ensures WrittenBy(pairs, WriteAll(pairs, ops, index), ops, index)
  {
    if ops != [] {
      var n := |ops| - 1;
      var init := ops[..n];
      WriteAllPointwise(pairs, init, index);
      assert OpKeys(ops) == OpKeys(init) + {ops[n].key};
      forall i | 0 <= i < n ensures ops[i] == init[i] && ops[i].key != ops[n].key {}
    }
  }

  // ---------------------------------------------------------------- the passage of time

  /** `b` is a later state of `a`: a pair whose index is not newer than `a` has not been
      touched since. This is what a fresh index on every write buys. */
  ghost predicate Later(a: Store, b: Store) {
    && a.index <= b.index
    && forall k | k in b.pairs && b.pairs[k].index <= a.index :: k in a.pairs && a.pairs[k] == b.pairs[k]
  }

  lemma LaterTransitive(a: Store, b: Store, c: Store)
    requires Later(a, b) && Later(b, c)
    ensures Later(a, c)
  {}

  lemma CommitIsLater(s: Store, ops: seq<Op>)
    requires ValidStore(s)
    requires forall i, j | 0 <= i < j < |ops| :: ops[i].key != ops[j].key
    ensures ValidStore(Commit(s, ops)) && Later(s, Commit(s, ops))
  {
    WriteAllPointwise(s.pairs, ops, s.index + 1);
    var after := Commit(s, ops);
    forall k | k in after.pairs
      ensures 0 < after.pairs[k].index <= after.index
      ensures after.pairs[k].index <= s.index ==> k in s.pairs && s.pairs[k] == after.pairs[k]
    {
      if k in OpKeys(ops) {
        var i :| 0 <= i < |ops| && ops[i].key == k;
        assert ops[i].Cas?;
      }
    }
  }

  /** What a read told us is still true of the store if the index has not moved. */
  ghost predicate Fresh(s: Store, key: string, found: Option<Pair>) {
    found.Some? ==>
      && 0 < found.value.index <= s.index
      && (key in s.pairs && s.pairs[key].index == found.value.index ==> s.pairs[key] == found.value)
  }

  /** Optimistic locking works: an equal index means an unchanged pair. */
  lemma EqualIndexMeansUnchanged(s: Store, key: string, found: Option<Pair>)
    requires ValidStore(s) && Fresh(s, key, found)
    ensures IndexOf(found) == IndexOf(Lookup(s, key)) <==> found == Lookup(s, key)
  {}

  // ---------------------------------------------------------------- other clients

  /** A write by another client: one key, or a transaction that takes effect if it is accepted. */
  datatype Foreign = Put(key: string, value: string, flags: nat) | Remove(key: string) | Batch(ops: seq<Op>)

  function Interfere(s: Store, w: Foreign): Store {
    match w
    case Put(key, value, flags) => Store(s.pairs[key := Pair(value, flags, s.index + 1)], s.index + 1)
    case Remove(key) => Store(s.pairs - {key}, s.index + 1)
    case Batch(ops) => if Accepts(s, ops) then Commit(s, ops) else s
  }

  lemma InterfereIsLater(s: Store, w: Foreign)
    requires ValidStore(s)
    ensures ValidStore(Interfere(s, w)) && Later(s, Interfere(s, w))
  {
    if w.Batch? && Accepts(s, w.ops) {
      CommitIsLater(s, w.ops);
    }
  }
}
