/** The imperative reconciler and the protocol machine are the same thing: when any number of
    reconcilers run at once, each hearing the writes of the others between its own calls, the
    system makes a run of the machine, so what holds over every run holds of them. */
module KvRefinement {
  import opened ConsulStore
  import opened Wrappers
  import opened KvClient
  import P = KvProtocol
  import S = KvSafety

  /** The trace of a client in two parts. */
  lemma {:induction false} AlongConcat(s: Store, cr: P.Cr, a: seq<Happening>, b: seq<Happening>)
    ensures Along(s, cr, a + b)
            == match Along(s, cr, a) { case None => None case Some(at) => Along(at.store, at.cr, b) }
  {
    if b == [] {
      assert a + b == a;
    } else {
      AlongConcat(s, cr, a, b[..|b| - 1]);
      assert (a + b)[..|a + b| - 1] == a + b[..|b| - 1];
    }
  }

  lemma AlongOne(s: Store, cr: P.Cr, h: Happening)
    ensures Along(s, cr, [h]) == Happens(Situation(s, cr), h)
  {}

  // ---------------------------------------------------------------- what a client knows

  function CrOf(w: P.World, c: string): P.Cr {
    if c in w.crs then w.crs[c] else P.Cr([], [], false, P.Gone)
  }

  /** The view a client has of its resource: status and progress are current, spec and deletion
      mark are those it read last. */
  predicate Same(view: P.Cr, cr: P.Cr) {
    view.status == cr.status && view.pc == cr.pc
  }

  /** Once begun, a reconcile does not depend on what happens to the spec. */
  lemma SameMove(s: Store, view: P.Cr, cr: P.Cr, m: P.Move)
    requires Same(view, cr) && !m.Begin?
    ensures P.Enabled(view, m) <==> P.Enabled(cr, m)
    ensures P.Enabled(cr, m) ==> P.StoreAfter(s, view, m) == P.StoreAfter(s, cr, m) && Same(P.CrAfter(s, view, m), P.CrAfter(s, cr, m))
  {
    hide P.Ops, P.ReleaseKeys, P.WillOwn, P.Head, P.Tail, P.KeySet, P.BeginAfter, Accepts, Commit;
  }

  // ---------------------------------------------------------------- what a client notices

  /** The assumptions of the protocol on its environment: other writers leave counted keys
      alone, no record is lost once a key was released, and resources are edited, deleted and
      created by name. */
  predicate Fair(w: P.World, e: P.Event) {
    match e
    case Step(c, m) => c in w.crs && (m.Abort? ==> P.ReleasedSoFar(w.crs[c].pc) == {})
    case External(f) => !f.Batch? && Flags(w.store, f.key) == 0
    case Edit(c, _) => c in w.crs && !w.crs[c].pc.Gone?
    case Delete(c) => c in w.crs && !w.crs[c].pc.Gone?
    case Create(c, _) => c in w.crs ==> w.crs[c].pc.Gone?
  }

  /** The world after the event, if it can happen. */
  function Next(w: P.World, e: P.Event): P.World {
    if P.Allowed(w, e) then P.After(w, e) else w
  }

  /** What the client of resource `c` notices of an event: its own moves, with a look at the resource
      when a reconcile begins, the writes of others, and its creation; an edit goes unnoticed. */
  function Notices(w: P.World, e: P.Event, c: string): seq<Happening> {
    match e
    case Step(d, m) =>
      if d == c then (if m.Begin? then [Reread(CrOf(w, c).spec, CrOf(w, c).deleting)] else []) + [We(m)]
      else if d in w.crs && P.Enabled(w.crs[d], m) && P.Commits(w.store, w.crs[d], m) then [They(Batch(P.Ops(w.crs[d].pc)))]
      else []
    case External(f) => [They(f)]
    case Create(d, spec) => if d == c then [Born(spec)] else []
    case _ => []
  }

  function Noticed(w: P.World, events: seq<P.Event>, c: string): seq<Happening>
    decreases |events|
  {
    if events == [] then [] else Notices(w, events[0], c) + Noticed(Next(w, events[0]), events[1..], c)
  }

  ghost predicate AllFair(w: P.World, events: seq<P.Event>)
    decreases |events|
  {
    events != [] ==> Fair(w, events[0]) && AllFair(Next(w, events[0]), events[1..])
  }

  /** Every resource that moves has a client, its view is current, and its trace is a trace of the
      machine, as `Client.Valid` says of it. */
  ghost predicate AllTracked(w: P.World, events: seq<P.Event>, views: map<string, P.Cr>) {
    && (forall e | e in events && e.Step? :: e.c in views)
    && forall c | c in views :: Same(views[c], CrOf(w, c)) && Along(w.store, views[c], Noticed(w, events, c)).Some?
  }

  lemma TwoHappenings(s: Store, view: P.Cr, g: Happening, h: Happening)
    ensures Along(s, view, [g] + [h])
            == match Happens(Situation(s, view), g) { case None => None case Some(at) => Happens(at, h) }
  {
    AlongConcat(s, view, [g], [h]);
    AlongOne(s, view, g);
    if Happens(Situation(s, view), g).Some? {
      var at := Happens(Situation(s, view), g).value;
      AlongOne(at.store, at.cr, h);
    }
  }

  /** What the client of a moving resource notices of its move. */
  lemma OwnMove(w: P.World, c: string, m: P.Move, view: P.Cr)
    requires c in w.crs && Same(view, w.crs[c])
    ensures var r := Along(w.store, view, Notices(w, P.Step(c, m), c));
            if P.Enabled(w.crs[c], m)
            then r.Some? && r.value.store == P.StoreAfter(w.store, w.crs[c], m) && Same(r.value.cr, P.CrAfter(w.store, w.crs[c], m))
            else r.None?
  {
    var cr := w.crs[c];
    if m.Begin? {
      TwoHappenings(w.store, view, Reread(cr.spec, cr.deleting), We(m));
      assert cr.pc.Idle? ==> P.Cr(cr.spec, view.status, cr.deleting, P.Idle) == cr;
      hide P.StoreAfter, P.CrAfter;
    } else {
      assert [] + [We(m)] == [We(m)];
      AlongOne(w.store, view, We(m));
      SameMove(w.store, view, cr, m);
      hide P.StoreAfter, P.CrAfter, P.Enabled;
    }
  }

  /** What any client notices takes its view of the system to the next one. */
  lemma NoticesMove(w: P.World, e: P.Event, c: string, view: P.Cr)
    requires Same(view, CrOf(w, c)) && P.Allowed(w, e)
    ensures var r := Along(w.store, view, Notices(w, e, c));
            r.Some? && r.value.store == Next(w, e).store && Same(r.value.cr, CrOf(Next(w, e), c))
  {
    if e.Step? && e.c == c {
      OwnMove(w, c, e.m, view);
    } else {
      hide P.CrAfter;
      var seen := Notices(w, e, c);
      if seen != [] {
        assert seen == [seen[0]];
        AlongOne(w.store, view, seen[0]);
      }
    }
  }

  lemma EnabledByTrace(w: P.World, e: P.Event, view: P.Cr, rest: seq<Happening>)
    requires e.Step? && e.c in w.crs && Same(view, w.crs[e.c])
    requires Along(w.store, view, Notices(w, e, e.c) + rest).Some?
    ensures P.Enabled(w.crs[e.c], e.m)
  {
    hide P.Enabled, P.StoreAfter, P.CrAfter, Notices;
    AlongConcat(w.store, view, Notices(w, e, e.c), rest);
    OwnMove(w, e.c, e.m, view);
  }

  /** The view of `c` after the event. */
  ghost function Moved(w: P.World, e: P.Event, c: string, view: P.Cr): P.Cr {
    var r := Along(w.store, view, Notices(w, e, c));
    if r.Some? then r.value.cr else view
  }

  ghost function AllMoved(w: P.World, e: P.Event, views: map<string, P.Cr>): map<string, P.Cr> {
    map c | c in views :: Moved(w, e, c, views[c])
  }

  lemma RestTracked(w: P.World, events: seq<P.Event>, views: map<string, P.Cr>)
    requires events != [] && AllTracked(w, events, views) && P.Allowed(w, events[0])
    ensures AllTracked(Next(w, events[0]), events[1..], AllMoved(w, events[0], views))
    ensures forall c | c in views ::
              Along(w.store, views[c], Noticed(w, events, c))
              == Along(Next(w, events[0]).store, Moved(w, events[0], c, views[c]), Noticed(Next(w, events[0]), events[1..], c))
  {
    hide P.Allowed, P.After, Notices, Same;
    var e, w' := events[0], Next(w, events[0]);
    forall c | c in views
      ensures Same(Moved(w, e, c, views[c]), CrOf(w', c))
      ensures Along(w.store, views[c], Noticed(w, events, c)) == Along(w'.store, Moved(w, e, c, views[c]), Noticed(w', events[1..], c))
    {
      NoticesMove(w, e, c, views[c]);
      AlongConcat(w.store, views[c], Notices(w, e, c), Noticed(w', events[1..], c));
    }
  }

  /** Where the clients are: one store, and views that agree with the world. */
  ghost predicate Arrived(w: P.World, events: seq<P.Event>, views: map<string, P.Cr>, w': P.World) {
    forall c | c in views ::
      var r := Along(w.store, views[c], Noticed(w, events, c));
      r.Some? && r.value.store == w'.store && Same(r.value.cr, CrOf(w', c))
  }

  lemma ArrivedEarlier(w: P.World, events: seq<P.Event>, views: map<string, P.Cr>, w': P.World)
    requires events != [] && AllTracked(w, events, views) && P.Allowed(w, events[0])
    requires Arrived(Next(w, events[0]), events[1..], AllMoved(w, events[0], views), w')
    ensures Arrived(w, events, views, w')
  {
    hide P.Allowed, Notices, Same, Noticed, Along, AllTracked;
    RestTracked(w, events, views);
    forall c | c in views
      ensures var r := Along(w.store, views[c], Noticed(w, events, c));
              r.Some? && r.value.store == w'.store && Same(r.value.cr, CrOf(w', c))
    {
      assert c in AllMoved(w, events[0], views);
    }
  }

  /** Reconcilers that run at once, while resources are created, edited and deleted, make a run of
      the protocol, and each ends where its own trace says. */
  lemma {:induction false} ReconcilersRun(w: P.World, events: seq<P.Event>, views: map<string, P.Cr>) returns (w': P.World)
    requires AllFair(w, events) && AllTracked(w, events, views)
    ensures P.Runs(w, events, w') && Arrived(w, events, views, w')
    decreases |events|
  {
    if events == [] {
      w' := w;
    } else {
      var e, next := events[0], Next(w, events[0]);
      if e.Step? {
        assert e in events;
        EnabledByTrace(w, e, views[e.c], Noticed(next, events[1..], e.c));
      }
      assert P.Allowed(w, e) && next == P.After(w, e);
      hide P.Allowed, P.After, Notices, Noticed, Along, Arrived, P.Enabled, AllMoved;
      RestTracked(w, events, views);
      w' := ReconcilersRun(next, events[1..], AllMoved(w, e, views));
      ArrivedEarlier(w, events, views, w');
    }
  }

  // ---------------------------------------------------------------- the clients

  /** The clients of all the resources that move, each with what it noticed. */
  ghost predicate Reconciling(w: P.World, events: seq<P.Event>, clients: map<string, Client>)
    reads set c | c in clients :: clients[c]
  {
    && (forall e | e in events && e.Step? :: e.c in clients)
    && forall c | c in clients ::
         && clients[c].Valid() && clients[c].origin == w.store && Same(clients[c].first, CrOf(w, c))
         && clients[c].trace == Noticed(w, events, c)
  }

  ghost predicate Agree(clients: map<string, Client>, w: P.World)
    reads set c | c in clients :: clients[c]
  {
    forall c | c in clients :: clients[c].state == w.store && Same(clients[c].cr, CrOf(w, c))
  }

  lemma ClientsRun(w: P.World, events: seq<P.Event>, clients: map<string, Client>) returns (w': P.World)
    requires AllFair(w, events) && Reconciling(w, events, clients)
    ensures P.Runs(w, events, w') && Agree(clients, w')
  {
    hide Same, Noticed, Along, AllFair, P.Runs, Accounts;
    var views := map c | c in clients :: clients[c].first;
    forall c | c in clients
      ensures Along(w.store, views[c], Noticed(w, events, c)) == Some(Situation(clients[c].state, clients[c].cr))
    {
      assert Tracks(w.store, clients[c].first, clients[c].trace, clients[c].state, clients[c].cr);
    }
    w' := ReconcilersRun(w, events, views);
    forall c | c in clients ensures clients[c].state == w'.store && Same(clients[c].cr, CrOf(w', c)) {
      assert c in views;
    }
  }

  /** The main theorem of the imperative reconcilers: from a safe state, whatever they do at once,
      whatever fails and whatever happens to the specs meanwhile, they agree on one store, and in
      it every key is counted at least once for each resource that holds it. */
  lemma ReconcilersAreSafe(w: P.World, events: seq<P.Event>, clients: map<string, Client>) returns (w': P.World)
    requires P.Inv(w) && P.Safe(w) && AllFair(w, events) && Reconciling(w, events, clients)
    ensures P.Inv(w') && P.Safe(w') && Agree(clients, w')
  {
    hide P.Inv, P.Safe, AllFair, Reconciling, P.Runs, Agree;
    w' := ClientsRun(w, events, clients);
    S.SafeOverEveryRun(w, events, w');
  }

  /** And exactly once if no record is lost and none hides ownership. */
  lemma ReconcilersAreExact(w: P.World, events: seq<P.Event>, clients: map<string, Client>) returns (w': P.World)
    requires P.Inv(w) && P.Exact(w) && AllFair(w, events) && Reconciling(w, events, clients) && S.FaithfulRun(w, events)
    ensures P.Inv(w') && P.Exact(w') && Agree(clients, w')
  {
    hide P.Inv, P.Exact, AllFair, Reconciling, P.Runs, Agree, S.FaithfulRun;
    w' := ClientsRun(w, events, clients);
    S.ExactOverEveryRun(w, events, w');
  }
}
