/** A client of the store that runs among other clients.

    What the others do is an input: before each call the next `Turn` of the script says which
    foreign writes happen and whether the call itself fails. The ghost `log` lists, in order,
    the foreign writes, the steps of this client, each step being one atomic chunk, and the reads
    that found a key absent; the store is at all times the replay of that log. A second ghost
    record, `trace`, lists the moves of the protocol machine that the calls amount to: the ghost
    `cr` is at all times the resource of that machine. */
module KvClient {
  import opened ConsulStore
  import opened Wrappers
  import opened KvFlags
  import P = KvProtocol

  datatype Step =
    | Other(w: Foreign)
    | Claimed(entries: seq<Entry>, before: set<string>)
    | Released(keys: seq<string>)
    | Missed(key: string)

  function Perform(s: Store, step: Step): Store {
    match step
    case Other(w) => Interfere(s, w)
    case Claimed(entries, before) => ClaimAll(s, entries, before)
    case Released(keys) => ReleaseAll(s, keys)
    case Missed(_) => s
  }

  function Replay(s: Store, log: seq<Step>): Store {
    if log == [] then s else Perform(Replay(s, log[..|log| - 1]), log[|log| - 1])
  }

  /** Every read that is logged as having missed a key happened when the key was absent. */
  ghost predicate Truthful(s: Store, log: seq<Step>) {
    forall n | 0 <= n < |log| && log[n].Missed? :: log[n].key !in Replay(s, log[..n]).pairs
  }

  predicate IsWrite(step: Step) {
    step.Claimed? || step.Released?
  }

  /** The writes of this client, in order. */
  function Ours(log: seq<Step>): seq<Step> {
    if log == [] then []
    else
      var last := log[|log| - 1];
      Ours(log[..|log| - 1]) + (if IsWrite(last) then [last] else [])
  }

  /** Ownership as decided by each claim at the instant it committed. */
  function Decided(s: Store, log: seq<Step>): map<string, bool> {
    if log == [] then map[]
    else
      var init, last := log[..|log| - 1], log[|log| - 1];
      if last.Claimed? then Decided(s, init) + Decisions(Replay(s, init), last.entries, last.before)
      else Decided(s, init)
  }

  /** One more step at the end of a log. */
  lemma Append(s: Store, log: seq<Step>, step: Step)
    ensures Replay(s, log + [step]) == Perform(Replay(s, log), step)
    ensures Ours(log + [step]) == Ours(log) + (if IsWrite(step) then [step] else [])
    ensures Decided(s, log + [step])
            == if step.Claimed? then Decided(s, log) + Decisions(Replay(s, log), step.entries, step.before) else Decided(s, log)
  {}

  datatype Turn = Turn(writes: seq<Foreign>, fails: bool)

  function NextTurn(turns: seq<Turn>): Turn {
    if turns == [] then Turn([], false) else turns[0]
  }

  function LaterTurns(turns: seq<Turn>): seq<Turn> {
    if turns == [] then [] else turns[1..]
  }

  function Others(writes: seq<Foreign>): seq<Step> {
    seq(|writes|, i requires 0 <= i < |writes| => Other(writes[i]))
  }

  lemma OthersMore(writes: seq<Foreign>, i: nat)
    requires i < |writes|
    ensures Others(writes)[..i + 1] == Others(writes)[..i] + [Other(writes[i])]
  {}

  lemma NoneHeard(writes: seq<Foreign>)
    ensures |Others(writes)| == |writes| && Others(writes)[..0] == [] && Others(writes)[..|writes|] == Others(writes)
  {}

  /** The ghost summaries of a log agree with the log. */
  ghost predicate Accounts(origin: Store, log: seq<Step>, now: Store, ours: seq<Step>, decided: map<string, bool>) {
    && now == Replay(origin, log)
    && ours == Ours(log)
    && decided == Decided(origin, log)
    && Truthful(origin, log)
  }

  lemma AccountsAppend(origin: Store, log: seq<Step>, now: Store, ours: seq<Step>, decided: map<string, bool>, step: Step)
    requires Accounts(origin, log, now, ours, decided)
    requires step.Missed? ==> step.key !in now.pairs
    ensures Accounts(origin, log + [step], Perform(now, step),
                     if IsWrite(step) then ours + [step] else ours,
                     if step.Claimed? then decided + Decisions(now, step.entries, step.before) else decided)
  {
    Append(origin, log, step);
    var more := log + [step];
    forall n | 0 <= n < |more| && more[n].Missed? ensures more[n].key !in Replay(origin, more[..n]).pairs {
      assert more[..n] == log[..n];
      assert n == |log| ==> log[..n] == log;
    }
  }

  // ---------------------------------------------------------------- the protocol machine

  /** One event of the machine as one resource sees it: another client writes, it moves, its
      reconcile reads the resource again, or the resource is created. */
  datatype Happening =
    | They(w: Foreign)
    | We(m: P.Move)
    | Reread(spec: seq<Entry>, deleting: bool)
    | Born(newSpec: seq<Entry>)

  datatype Situation = Situation(store: Store, cr: P.Cr)

  /** Where the machine is after the events of `trace`, if each move was enabled. */
  function Along(s: Store, cr: P.Cr, trace: seq<Happening>): Option<Situation> {
    if trace == [] then Some(Situation(s, cr))
    else
      match Along(s, cr, trace[..|trace| - 1])
      case None => None
      case Some(at) => Happens(at, trace[|trace| - 1])
  }

  function Happens(at: Situation, h: Happening): Option<Situation> {
    match h
    case They(w) => Some(Situation(Interfere(at.store, w), at.cr))
    case We(m) =>
      if P.Enabled(at.cr, m) then Some(Situation(P.StoreAfter(at.store, at.cr, m), P.CrAfter(at.store, at.cr, m)))
      else None
    case Reread(spec, deleting) =>
      if at.cr.pc.Idle? then Some(Situation(at.store, P.Cr(spec, at.cr.status, deleting, P.Idle))) else None
    case Born(spec) =>
      if at.cr.pc.Gone? then Some(Situation(at.store, P.Cr(spec, [], false, P.Idle))) else None
  }

  ghost predicate Tracks(origin: Store, first: P.Cr, trace: seq<Happening>, now: Store, cr: P.Cr) {
    Along(origin, first, trace) == Some(Situation(now, cr))
  }

  lemma TracksThem(origin: Store, first: P.Cr, trace: seq<Happening>, now: Store, cr: P.Cr, w: Foreign)
    requires Tracks(origin, first, trace, now, cr)
    ensures Tracks(origin, first, trace + [They(w)], Interfere(now, w), cr)
  {}

  lemma TracksUs(origin: Store, first: P.Cr, trace: seq<Happening>, now: Store, cr: P.Cr, m: P.Move)
    requires Tracks(origin, first, trace, now, cr) && P.Enabled(cr, m)
    ensures Tracks(origin, first, trace + [We(m)], P.StoreAfter(now, cr, m), P.CrAfter(now, cr, m))
  {}

  lemma TracksReread(origin: Store, first: P.Cr, trace: seq<Happening>, now: Store, cr: P.Cr, spec: seq<Entry>, deleting: bool)
    requires Tracks(origin, first, trace, now, cr) && cr.pc.Idle?
    ensures Tracks(origin, first, trace + [Reread(spec, deleting)], now, P.Cr(spec, cr.status, deleting, P.Idle))
  {
    assert (trace + [Reread(spec, deleting)])[..|trace|] == trace;
  }

  class Client {
    var state: Store
    var turns: seq<Turn>
    ghost const origin: Store
    ghost var log: seq<Step>
    /** The writes of this client. */
    ghost var ours: seq<Step>
    /** The ownership each claimed key got when it was last claimed. */
    ghost var decided: map<string, bool>
    /** The resource of the protocol machine, and how it got here. */
    ghost var cr: P.Cr
    ghost const first: P.Cr
    ghost var trace: seq<Happening>

    ghost predicate Valid()
      reads this
    {
      && ValidStore(state) && Accounts(origin, log, state, ours, decided)
      && Tracks(origin, first, trace, state, cr)
    }

    constructor (s: Store, script: seq<Turn>, ghost resource: P.Cr)
      requires ValidStore(s)
      ensures Valid() && state == s && origin == s && turns == script && log == []
      ensures cr == resource && first == resource && trace == []
    {
      state, turns := s, script;
      origin, log, ours, decided := s, [], [], map[];
      cr, first, trace := resource, resource, [];
    }

    /** A move of the machine that does not touch the store. */
    ghost method Move(m: P.Move)
      requires Valid() && P.Enabled(cr, m) && !P.Commits(state, cr, m)
      modifies this`cr, this`trace
      ensures Valid() && cr == P.CrAfter(state, old(cr), m)
      ensures trace == old(trace) + [We(m)]
    {
      TracksUs(origin, first, trace, state, cr, m);
      cr, trace := P.CrAfter(state, cr, m), trace + [We(m)];
    }

    /** A reconcile begins by reading the resource. */
    ghost method Reading(spec: seq<Entry>, deleting: bool)
      requires Valid() && cr.pc.Idle?
      modifies this`cr, this`trace
      ensures Valid() && cr == P.Cr(spec, old(cr).status, deleting, P.Idle)
      ensures trace == old(trace) + [Reread(spec, deleting)]
    {
      TracksReread(origin, first, trace, state, cr, spec, deleting);
      cr, trace := P.Cr(spec, cr.status, deleting, P.Idle), trace + [Reread(spec, deleting)];
    }

    /** Another client writes. */
    method Hear(w: Foreign)
      requires Valid()
      modifies this`state, this`log, this`trace
      ensures Valid() && Later(old(state), state)
      ensures log == old(log) + [Other(w)] && trace == old(trace) + [They(w)]
    {
      hide Interfere, Accounts, Tracks, Later, ValidStore;
      InterfereIsLater(state, w);
      TracksThem(origin, first, trace, state, cr, w);
      trace := trace + [They(w)];
      AccountsAppend(origin, log, state, ours, decided, Other(w));
      state := Interfere(state, w);
      log := log + [Other(w)];
    }

    /** The other clients take their turn. */
    method Pause() returns (fails: bool)
      requires Valid()
      modifies this`state, this`log, this`turns, this`trace
      ensures Valid() && Later(old(state), state) && old(trace) <= trace
      ensures fails == NextTurn(old(turns)).fails && turns == LaterTurns(old(turns))
      ensures log == old(log) + Others(NextTurn(old(turns)).writes)
      ensures NextTurn(old(turns)).writes == [] ==> state == old(state)
    {
      hide Accounts, Tracks, ValidStore, Others, NextTurn, LaterTurns;
      var turn := NextTurn(turns);
      NoneHeard(turn.writes);
      for i := 0 to |turn.writes|
        invariant Valid() && Later(old(state), state) && turns == old(turns) && old(trace) <= trace
        invariant log == old(log) + Others(turn.writes)[..i]
        invariant i == 0 ==> state == old(state)
      {
        ghost var mid := state;
        OthersMore(turn.writes, i);
        Hear(turn.writes[i]);
        LaterTransitive(old(state), mid, state);
      }
      turns := LaterTurns(turns);
      fails := turn.fails;
    }

    /** Reads the key that the protocol is to read next. */
    method Get(key: string) returns (r: Result<Option<Pair>>)
      requires Valid() && P.Enabled(cr, P.Read(false)) && key == P.NextKey(cr)
      modifies this`state, this`log, this`turns, this`cr, this`trace
      ensures Valid() && Later(old(state), state) && old(trace) <= trace
      ensures cr == P.CrAfter(state, old(cr), P.Read(r.Err?))
      ensures turns == LaterTurns(old(turns))
      ensures log == old(log) + Others(NextTurn(old(turns)).writes) + (if r == Ok(None) then [Missed(key)] else [])
      ensures NextTurn(old(turns)).writes == [] ==> state == old(state)
      ensures r.Err? <==> NextTurn(old(turns)).fails
      ensures r.Ok? ==> r.value == Lookup(state, key) && Fresh(state, key, r.value)
    {
      var fails := Pause();
      r := if fails then Err("no answer") else Ok(Lookup(state, key));
      Move(P.Read(fails));
      if r == Ok(None) {
        Note(key);
      }
    }

    /** Notes that the key is absent now. */
    ghost method Note(key: string)
      requires Valid() && key !in state.pairs
      modifies this`log
      ensures Valid() && log == old(log) + [Missed(key)]
    {
      AccountsAppend(origin, log, state, ours, decided, Missed(key));
      log := log + [Missed(key)];
    }

    /** Submits a transaction that, if it is accepted by any later store, performs `step`.
        A failed or rejected transaction changes nothing; an accepted one is that step. */
    method Txn(ops: seq<Op>, ghost step: Step) returns (r: Result<bool>, ghost instant: Store)
      requires Valid() && IsWrite(step)
      requires P.Enabled(cr, P.Submit(false)) && ops == P.Ops(cr.pc) && ops != []
      requires forall s | ValidStore(s) && Later(state, s) && Accepts(s, ops) :: Commit(s, ops) == Perform(s, step)
      modifies this
      ensures Valid() && turns == LaterTurns(old(turns)) && old(trace) <= trace
      ensures ValidStore(instant) && Later(old(state), instant)
      ensures cr == P.CrAfter(instant, old(cr), P.Submit(r.Err?))
      ensures r.Err? <==> NextTurn(old(turns)).fails
      ensures r.Ok? ==> r.value == Accepts(instant, ops)
      ensures NextTurn(old(turns)).writes == [] ==> instant == old(state)
      ensures log == old(log) + Others(NextTurn(old(turns)).writes) + (if r.Ok? && r.value then [step] else [])
      ensures r.Ok? && r.value ==>
                && state == Commit(instant, ops) && ours == old(ours) + [step]
                && decided == if step.Claimed? then old(decided) + Decisions(instant, step.entries, step.before) else old(decided)
      ensures !(r.Ok? && r.value) ==> state == instant && ours == old(ours) && decided == old(decided)
    {
      var fails := Pause();
      instant := state;
      if fails {
        Move(P.Submit(true));
        r := Err("no answer");
      } else if Accepts(state, ops) {
        Land(ops, step);
        r := Ok(true);
      } else {
        Move(P.Submit(false));
        r := Ok(false);
      }
    }

    /** The store applies an accepted transaction. */
    method Land(ops: seq<Op>, ghost step: Step)
      requires Valid() && IsWrite(step) && Accepts(state, ops) && Commit(state, ops) == Perform(state, step)
      requires P.Enabled(cr, P.Submit(false)) && ops == P.Ops(cr.pc) && ops != []
      modifies this`state, this`log, this`ours, this`decided, this`cr, this`trace
      ensures Valid() && old(trace) <= trace
      ensures state == Commit(old(state), ops) && cr == P.CrAfter(old(state), old(cr), P.Submit(false))
      ensures log == old(log) + [step] && ours == old(ours) + [step]
      ensures decided == if step.Claimed? then old(decided) + Decisions(old(state), step.entries, step.before) else old(decided)
    {
      hide P.CrAfter, P.Ops, Commit, Perform, Accounts, Tracks, Later, ValidStore;
      CommitIsLater(state, ops);
      AccountsAppend(origin, log, state, ours, decided, step);
      TracksUs(origin, first, trace, state, cr, P.Submit(false));
      decided := if step.Claimed? then decided + Decisions(state, step.entries, step.before) else decided;
      log, ours, trace := log + [step], ours + [step], trace + [We(P.Submit(false))];
      cr := P.CrAfter(state, cr, P.Submit(false));
      state := Commit(state, ops);
    }
  }
}
