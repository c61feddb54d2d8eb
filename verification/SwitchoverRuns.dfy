/** Several sites over one bucket: the calls of drFunction on each of them, interleaved step by step
    with backups that start and finish. A promotion never undoes a demotion. */
module SwitchoverRuns {
  import opened Wrappers
  import opened Switchover

  /** `saved` is the backup a demotion of the site has finished and not yet acted on. */
  datatype World = World(bucket: seq<Backup>, saved: map<string, string>, handovers: seq<Handover>)

  /** A site went down in favour of its backup `id`. */
  datatype Handover = Handover(region: string, id: string)

  datatype Act = Nobody | Do(region: string, step: Step)

  /** An action, and the bucket when it is over; backups come and finish meanwhile. */
  datatype Event = Event(act: Act, after: seq<Backup>)

  /** The bucket holds a finished full backup `id` of `region` at `k`. */
  predicate Holds(b: seq<Backup>, region: string, id: string, k: nat) {
    && k < |b| && b[k].id == id && b[k].info.dbList == Text("full backup") && b[k].info.valid && b[k].info.vars != map[]
    && (if "region" in b[k].info.vars then b[k].info.vars["region"] == region else region == "")
  }

  ghost predicate Secured(b: seq<Backup>, region: string, id: string) {
    exists k :: Holds(b, region, id, k)
  }

  /** What is assumed of the daemons: finished backups stay, polls answer truthfully, and a job
      reported successful is a finished full backup of its site. */
  ghost predicate Truthful(b: seq<Backup>, e: Event) {
    && Evolves(b, e.after)
    && (e.act.Do? && e.act.step.Asked? ==> Answers(e.act.step.poll, b, e.after))
    && (e.act.Do? && e.act.step.Saved? ==> Secured(e.after, e.act.region, e.act.step.id))
  }

  /** What the sites are to add: requests name what was found, and a site that is not disabled goes
      down only with a backup saved. */
  ghost predicate Allowed(w: World, e: Event) {
    && Truthful(w.bucket, e)
    && (e.act.Do? && e.act.step.Asked? ==>
          e.act.step.id != "" && LastFullBackup(e.act.step.poll, e.act.region) == Ok(e.act.step.id))
    && (e.act.Do? && e.act.step == Closed(false) ==> e.act.region in w.saved)
  }

  function After(w: World, e: Event): World {
    match e.act
    case Nobody => World(e.after, w.saved, w.handovers)
    case Do(region, step) =>
      match step {
        case Opened => World(e.after, w.saved - {region}, w.handovers)
        case Asked(_, _) => World(e.after, w.saved, w.handovers)
        case Saved(id) => World(e.after, w.saved[region := id], w.handovers)
        case Closed(disabling) =>
          World(e.after, w.saved - {region},
            if !disabling && region in w.saved then w.handovers + [Handover(region, w.saved[region])] else w.handovers)
      }
  }

  function AfterAll(w: World, run: seq<Event>): World {
    if run == [] then w else After(AfterAll(w, run[..|run| - 1]), run[|run| - 1])
  }

  ghost predicate Runs(w: World, run: seq<Event>) {
    run != [] ==> Runs(w, run[..|run| - 1]) && Allowed(AfterAll(w, run[..|run| - 1]), run[|run| - 1])
  }

  ghost predicate TruthfulRun(w: World, run: seq<Event>) {
    run != [] ==> TruthfulRun(w, run[..|run| - 1]) && Truthful(AfterAll(w, run[..|run| - 1]).bucket, run[|run| - 1])
  }

  ghost predicate Init(w: World) {
    Ordered(w.bucket) && w.saved == map[] && w.handovers == []
  }

  // ---------------------------------------------------------------- the sites make such runs

  /** What the site of `region` did in the run. */
  function Deeds(run: seq<Event>, region: string): seq<Step> {
    if run == [] then []
    else
      var last := run[|run| - 1].act;
      Deeds(run[..|run| - 1], region) + (if last.Do? && last.region == region then [last.step] else [])
  }

  lemma {:induction false} DeedsGrow(run: seq<Event>, region: string, n: nat)
    requires n <= |run|
    ensures Deeds(run[..n], region) <= Deeds(run, region)
  {
    if n == |run| {
      assert run[..n] == run;
    } else {
      assert run[..|run| - 1][..n] == run[..n];
      DeedsGrow(run[..|run| - 1], region, n);
    }
  }

  lemma LawfulPrefix(region: string, a: seq<Step>, b: seq<Step>)
    requires a <= b && Lawful(region, b)
    ensures Lawful(region, a)
  {
    hide LastFullBackup;
    forall i | 0 <= i < |a| ensures LawfulAt(region, a, i) {
      assert LawfulAt(region, b, i) && a[i] == b[i];
    }
  }

  /** A site whose last deed was to save a backup has it saved. */
  lemma {:induction false} SavedByDeed(w: World, run: seq<Event>, region: string)
    requires var deeds := Deeds(run, region); deeds != [] && deeds[|deeds| - 1].Saved?
    ensures var deeds := Deeds(run, region);
            region in AfterAll(w, run).saved && AfterAll(w, run).saved[region] == deeds[|deeds| - 1].id
  {
    var last := run[|run| - 1].act;
    if !(last.Do? && last.region == region) {
      SavedByDeed(w, run[..|run| - 1], region);
    }
  }

  /** Sites whose deeds are lawful, with truthful daemons, make a run of the machine. */
  lemma {:induction false} LawfulSitesRun(w: World, run: seq<Event>)
    requires TruthfulRun(w, run) && forall r :: Lawful(r, Deeds(run, r))
    ensures Runs(w, run)
  {
    if run != [] {
      hide Lawful, LastFullBackup, Truthful, After;
      var n := |run| - 1;
      forall r ensures Lawful(r, Deeds(run[..n], r)) {
        DeedsGrow(run, r, n);
        LawfulPrefix(r, Deeds(run[..n], r), Deeds(run, r));
      }
      LawfulSitesRun(w, run[..n]);
      if run[n].act.Do? {
        LastDeedAllowed(w, run);
      }
    }
  }

  lemma LastDeedAllowed(w: World, run: seq<Event>)
    requires run != [] && run[|run| - 1].act.Do?
    requires Lawful(run[|run| - 1].act.region, Deeds(run, run[|run| - 1].act.region))
    ensures var act := run[|run| - 1].act;
            && (act.step.Asked? ==> act.step.id != "" && LastFullBackup(act.step.poll, act.region) == Ok(act.step.id))
            && (act.step == Closed(false) ==> act.region in AfterAll(w, run[..|run| - 1]).saved)
  {
    hide LastFullBackup, After;
    var n, act := |run| - 1, run[|run| - 1].act;
    var before, deeds := Deeds(run[..n], act.region), Deeds(run, act.region);
    assert deeds == before + [act.step];
    assert LawfulAt(act.region, deeds, |before|);
    if act.step == Closed(false) {
      assert before != [] && before[|before| - 1] == deeds[|before| - 1];
      SavedByDeed(w, run[..n], act.region);
    }
  }

  /** The calls of drFunction on each site. */
  type History = map<string, seq<Call>>

  function CallsOf(h: History, region: string): seq<Call> {
    if region in h then h[region] else []
  }

  /** Every call did what drFunction does. */
  ghost predicate Conforming(h: History) {
    forall r | r in h :: forall c | c in h[r] :: Conforms(r, c)
  }

  /** The run is made of the steps of those calls, in the order of each site, interleaved. */
  ghost predicate Woven(run: seq<Event>, h: History) {
    forall r :: Deeds(run, r) == Flat(CallsOf(h, r))
  }

  lemma CallsAreLawfulIn(run: seq<Event>, h: History, region: string)
    requires Conforming(h) && Woven(run, h)
    ensures Lawful(region, Deeds(run, region))
  {
    hide Conforms, Lawful;
    CallsAreLawful(region, CallsOf(h, region));
  }

  /** Whatever drFunction is called for on several sites, and however its steps interleave, the
      sites make a run of the machine: in particular they never go down without a saved backup. */
  lemma CallsRun(w: World, run: seq<Event>, h: History)
    requires TruthfulRun(w, run) && Conforming(h) && Woven(run, h)
    ensures Runs(w, run)
  {
    hide Lawful;
    forall r ensures Lawful(r, Deeds(run, r)) {
      CallsAreLawfulIn(run, h, r);
    }
    LawfulSitesRun(w, run);
  }

  // ---------------------------------------------------------------- what every run keeps

  lemma StaysSecured(b: seq<Backup>, c: seq<Backup>, region: string, id: string)
    requires Secured(b, region, id) && Evolves(b, c)
    ensures Secured(c, region, id)
  {
    var k :| Holds(b, region, id, k);
    assert Holds(c, region, id, k);
  }

  /** Every backup a site relies on is in the bucket, finished and labelled with its region. */
  ghost predicate Kept(w: World) {
    && (forall r | r in w.saved :: Secured(w.bucket, r, w.saved[r]))
    && (forall h | h in w.handovers :: Secured(w.bucket, h.region, h.id))
  }

  lemma EventKeeps(w: World, e: Event)
    requires Kept(w) && Allowed(w, e)
    ensures Kept(After(w, e))
  {
    hide Secured, Evolves, LastFullBackup, Answers;
    var w' := After(w, e);
    forall r | r in w.saved ensures Secured(e.after, r, w.saved[r]) {
      StaysSecured(w.bucket, e.after, r, w.saved[r]);
    }
    forall h | h in w.handovers ensures Secured(e.after, h.region, h.id) {
      StaysSecured(w.bucket, e.after, h.region, h.id);
    }
    assert forall h | h in w'.handovers ::
      h in w.handovers || (h.region in w.saved && h.id == w.saved[h.region]);
  }

  lemma {:induction false} KeptOverEveryRun(w: World, run: seq<Event>)
    requires Init(w) && Runs(w, run)
    ensures Kept(AfterAll(w, run))
  {
    if run != [] {
      hide Allowed, After;
      KeptOverEveryRun(w, run[..|run| - 1]);
      EventKeeps(AfterAll(w, run[..|run| - 1]), run[|run| - 1]);
    }
  }

  lemma {:induction false} RunPrefix(w: World, run: seq<Event>, n: nat)
    requires Runs(w, run) && n < |run|
    ensures Runs(w, run[..n]) && Allowed(AfterAll(w, run[..n]), run[n])
  {
    hide Allowed, After;
    var init := run[..|run| - 1];
    if n < |run| - 1 {
      assert init[..n] == run[..n] && init[n] == run[n];
      RunPrefix(w, init, n);
    }
  }

  /** Over every run: a restore request names a valid full backup of another region that was
      started no earlier than the backup of any other site that has handed over before. */
  lemma NoRollback(w: World, run: seq<Event>, e: Event, hand: Handover) returns (d: nat, k: nat)
    requires Init(w) && Runs(w, run) && Allowed(AfterAll(w, run), e)
    requires e.act.Do? && e.act.step.Asked?
    requires hand in AfterAll(w, run).handovers && hand.region != e.act.region
    ensures d <= k < |e.after| && Holds(e.after, hand.region, hand.id, d)
    ensures e.after[k].id == e.act.step.id && FromElsewhere(e.after[k].info, e.act.region)
  {
    hide LastFullBackup;
    var now := AfterAll(w, run);
    KeptOverEveryRun(w, run);
    assert Secured(now.bucket, hand.region, hand.id);
    d :| Holds(now.bucket, hand.region, hand.id, d);
    k := FoundIsNotOlder(e.act.step.poll, e.act.region, now.bucket, e.after, d);
  }

  /** Once a site has closed right after saving a backup, it has handed over with it for good. */
  lemma {:induction false} HandedOver(w: World, run: seq<Event>, region: string, p: nat)
    requires Runs(w, run) && p + 1 < |Deeds(run, region)|
    requires Deeds(run, region)[p].Saved? && Deeds(run, region)[p + 1] == Closed(false)
    ensures Handover(region, Deeds(run, region)[p].id) in AfterAll(w, run).handovers
  {
    var n := |run| - 1;
    var init, last := Deeds(run[..n], region), run[n].act;
    hide Allowed;
    if last.Do? && last.region == region && |init| == p + 1 {
      assert init[p] == Deeds(run, region)[p];
      SavedByDeed(w, run[..n], region);
    } else {
      assert init[p] == Deeds(run, region)[p] && init[p + 1] == Deeds(run, region)[p + 1];
      HandedOver(w, run[..n], region, p);
    }
  }

  /** The event at which the site does its deed number `t`. */
  lemma {:induction false} DeedAt(run: seq<Event>, region: string, t: nat) returns (n: nat)
    requires t < |Deeds(run, region)|
    ensures n < |run| && run[n].act == Do(region, Deeds(run, region)[t]) && |Deeds(run[..n], region)| == t
  {
    var last := |run| - 1;
    var init := Deeds(run[..last], region);
    if t < |init| {
      n := DeedAt(run[..last], region, t);
      assert run[..last][..n] == run[..n] && run[..last][n] == run[n];
    } else {
      n := last;
    }
  }

  lemma {:induction false} FlatSplit(calls: seq<Call>, i: nat)
    requires i < |calls|
    ensures Flat(calls[..i]) + calls[i].steps == Flat(calls[..i + 1]) <= Flat(calls)
  {
    assert calls[..i + 1][..i] == calls[..i];
    if i + 1 == |calls| {
      assert calls[..i + 1] == calls;
    } else {
      assert calls[..|calls| - 1][..i] == calls[..i] && calls[..|calls| - 1][..i + 1] == calls[..i + 1];
      FlatSplit(calls[..|calls| - 1], i);
    }
  }

  /** The steps of a demotion that is DONE and found the daemon running, among the deeds of its site. */
  lemma DemotionDeeds(h: History, a: string, i: nat) returns (id: string, p: nat)
    requires Conforming(h) && a in h && i < |h[a]|
    requires AsksFor(h[a][i].demand, "standby") && ToLower(h[a][i].demand.configMode) != "disabled" && h[a][i].done && h[a][i].wasUp
    ensures p + 2 == |Flat(h[a][..i + 1])| <= |Flat(h[a])|
    ensures Flat(h[a])[p] == Saved(id) && Flat(h[a])[p + 1] == Closed(false) && h[a][i].steps == [Saved(id), Closed(false)]
    ensures FirstJob(h[a][i].outcomes.jobs, id) && BackupGood(h[a][i].outcomes.backup)
  {
    hide Conforms, FirstJob, BackupGood;
    var c := h[a][i];
    assert c in h[a];
    id := DoneDemotion(a, c);
    FlatSplit(h[a], i);
    p := |Flat(h[a][..i])|;
    assert Flat(h[a][..i + 1])[p] == c.steps[0] && Flat(h[a][..i + 1])[p + 1] == c.steps[1];
  }

  /** The last step of a promotion that is DONE, among the deeds of its site. */
  lemma PromotionDeed(h: History, b: string, j: nat) returns (id: string, last: Poll, t: nat)
    requires Conforming(h) && b in h && j < |h[b]|
    requires AsksFor(h[b][j].demand, "active") && h[b][j].done && !h[b][j].demand.noWait && h[b][j].demand.statusMode != "disabled"
    ensures |Flat(h[b][..j])| <= t < |Flat(h[b])| && Flat(h[b])[t] == Asked(id, last)
    ensures 0 < h[b][j].made <= |h[b][j].outcomes.polls| && last == h[b][j].outcomes.polls[h[b][j].made - 1]
    ensures last.job.Some? && (last.job.value != "" ==> RestoreGood(h[b][j].outcomes.restore) && h[b][j].outcomes.readyAgain)
  {
    hide Conforms, RestoreGood;
    var c := h[b][j];
    assert c in h[b];
    id, last := DonePromotion(b, c);
    FlatSplit(h[b], j);
    t := |Flat(h[b][..j])| + |c.steps| - 1;
    assert Flat(h[b][..j + 1])[t] == c.steps[|c.steps| - 1];
  }

  /** The event is a request of `b` for a valid full backup of another region, which is at `k` in the
      bucket, no earlier than the backup `id` of `a` at `d`. */
  ghost predicate NotOlder(e: Event, a: string, id: string, d: nat, b: string, k: nat) {
    && e.act.Do? && e.act.region == b && e.act.step.Asked?
    && Holds(e.after, a, id, d) && d <= k < |e.after|
    && e.after[k].id == e.act.step.id && FromElsewhere(e.after[k].info, b)
  }

  /** A request that follows a handover by another site. */
  lemma RequestAfterHandover(w: World, run: seq<Event>, m: nat, a: string, p: nat, b: string, t: nat)
    returns (n: nat, d: nat, k: nat)
    requires Init(w) && Runs(w, run) && m <= |run| && a != b
    requires p + 1 < |Deeds(run[..m], a)| <= |Deeds(run, a)|
    requires Deeds(run, a)[p].Saved? && Deeds(run, a)[p + 1] == Closed(false)
    requires |Deeds(run[..m], b)| <= t < |Deeds(run, b)| && Deeds(run, b)[t].Asked?
    ensures m <= n < |run| && run[n].act == Do(b, Deeds(run, b)[t])
    ensures NotOlder(run[n], a, Deeds(run, a)[p].id, d, b, k)
  {
    hide Runs, AfterAll, FromElsewhere, Holds, Init, Allowed;
    n := DeedAt(run, b, t);
    if n < m {
      LaterDeeds(run, b, n, m);
      assert false;
    }
    assert run[..n][..m] == run[..m];
    DeedsGrow(run[..n], a, m);
    DeedsGrow(run, a, n);
    RunPrefix(w, run, n);
    HandedOver(w, run[..n], a, p);
    d, k := NoRollback(w, run[..n], run[n], Handover(a, Deeds(run, a)[p].id));
  }

  /** A switchover does not roll back. Over every interleaving of calls of drFunction on several
      sites: if a demotion of site `a` that found its daemon running was DONE, and after that a
      promotion of another site `b`, not from disabled and without noWait, was DONE, then the last
      request of the promotion was sent after the demotion, names a valid full backup of another
      region that was started no earlier than the backup of the demotion, and the daemon took
      it; its job, if it has a name, was seen to complete. */
  lemma SwitchoverDoesNotRollBack(w: World, before: seq<Event>, after: seq<Event>, h: History, a: string, i: nat, b: string, j: nat)
    returns (id: string, last: Poll, n: nat, d: nat, k: nat)
    requires Init(w) && TruthfulRun(w, before + after) && Conforming(h) && Woven(before + after, h)
    requires a in h && i < |h[a]| && b in h && j < |h[b]| && a != b
    requires AsksFor(h[a][i].demand, "standby") && ToLower(h[a][i].demand.configMode) != "disabled" && h[a][i].done && h[a][i].wasUp
    requires AsksFor(h[b][j].demand, "active") && h[b][j].done && !h[b][j].demand.noWait && h[b][j].demand.statusMode != "disabled"
    requires |Flat(h[a][..i + 1])| <= |Deeds(before, a)| && |Deeds(before, b)| <= |Flat(h[b][..j])|
    ensures h[a][i].steps == [Saved(id), Closed(false)]
    ensures FirstJob(h[a][i].outcomes.jobs, id) && BackupGood(h[a][i].outcomes.backup)
    ensures 0 < h[b][j].made <= |h[b][j].outcomes.polls| && last == h[b][j].outcomes.polls[h[b][j].made - 1]
    ensures |before| <= n < |before + after| && NotOlder((before + after)[n], a, id, d, b, k)
    ensures (before + after)[n].act.step.poll == last && last.job.Some?
    ensures last.job.value != "" ==> RestoreGood(h[b][j].outcomes.restore) && h[b][j].outcomes.readyAgain
  {
    var run := before + after;
    assert run[..|before|] == before;
    CallsRun(w, run, h);
    var p, t, asked;
    id, p := DemotionDeeds(h, a, i);
    asked, last, t := PromotionDeed(h, b, j);
    assert Deeds(run, a) == Flat(h[a]) && Deeds(run, b) == Flat(h[b]);
    hide FirstJob, BackupGood, Conforming, Woven, Flat, RestoreGood, Runs, NotOlder, Init, TruthfulRun, AsksFor, Deeds;
    DeedsGrow(run, a, |before|);
    n, d, k := RequestAfterHandover(w, run, |before|, a, p, b, t);
  }

  /** A deed done at event `n` is among the deeds from then on. */
  lemma LaterDeeds(run: seq<Event>, region: string, n: nat, m: nat)
    requires n < m <= |run| && run[n].act.Do? && run[n].act.region == region
    ensures |Deeds(run[..n], region)| < |Deeds(run[..m], region)|
  {
    assert run[..m][..n + 1] == run[..n + 1] && run[..n + 1][..n] == run[..n];
    DeedsGrow(run[..m], region, n + 1);
  }

  /** Over every interleaving: at the moment a site that is not being disabled goes down, a
      backup of its own that it finished in the step before is in the bucket. */
  lemma ClosedOnlyAfterBackup(w: World, run: seq<Event>, h: History, n: nat) returns (id: string, i: nat)
    requires Init(w) && TruthfulRun(w, run) && Conforming(h) && Woven(run, h)
    requires n < |run| && run[n].act.Do? && run[n].act.step == Closed(false)
    ensures Secured(AfterAll(w, run[..n]).bucket, run[n].act.region, id)
    ensures i < n && run[i].act == Do(run[n].act.region, Saved(id))
    ensures forall j | i < j < n && run[j].act.Do? :: run[j].act.region != run[n].act.region
  {
    var region := run[n].act.region;
    hide Conforming, Woven, Runs, Init, TruthfulRun, Allowed, Secured, Deeds, AfterAll, Lawful;
    CallsRun(w, run, h);
    CallsAreLawfulIn(run, h, region);
    RunPrefix(w, run, n);
    KeptOverEveryRun(w, run[..n]);
    var deeds := Deeds(run[..n], region);
    DeedBefore(run, n);
    SavedByDeed(w, run[..n], region);
    id := deeds[|deeds| - 1].id;
    i := LastDeed(run, region, n);
  }

  /** The event of the last deed of a site before event `n`. */
  lemma LastDeed(run: seq<Event>, region: string, n: nat) returns (i: nat)
    requires n <= |run| && Deeds(run[..n], region) != []
    ensures i < n && run[i].act == Do(region, Deeds(run[..n], region)[|Deeds(run[..n], region)| - 1])
    ensures forall j | i < j < n && run[j].act.Do? :: run[j].act.region != region
  {
    i := DeedAt(run[..n], region, |Deeds(run[..n], region)| - 1);
    assert run[..n][..i] == run[..i];
    hide Deeds;
    forall j | i < j < n && run[j].act.Do? ensures run[j].act.region != region {
      if run[j].act.region == region {
        LaterDeeds(run, region, i, j);
        LaterDeeds(run, region, j, n);
      }
    }
  }

  /** Before a lawful site goes down its last deed was to save a backup. */
  lemma DeedBefore(run: seq<Event>, n: nat)
    requires n < |run| && run[n].act.Do? && run[n].act.step == Closed(false)
    requires Lawful(run[n].act.region, Deeds(run, run[n].act.region))
    ensures var deeds := Deeds(run[..n], run[n].act.region); deeds != [] && deeds[|deeds| - 1].Saved?
  {
    hide LastFullBackup;
    var deeds, all := Deeds(run[..n], run[n].act.region), Deeds(run, run[n].act.region);
    assert run[..n + 1][..n] == run[..n];
    DeedsGrow(run, run[n].act.region, n + 1);
    assert deeds + [Closed(false)] <= all;
    assert all[|deeds|] == Closed(false) && LawfulAt(run[n].act.region, all, |deeds|);
    assert deeds != [] && deeds[|deeds| - 1] == all[|deeds| - 1];
  }

  // ---------------------------------------------------------------- the sites themselves

  ghost function HistoryOf(sites: map<string, Site>): History
    reads set r | r in sites :: sites[r]
  {
    map r | r in sites :: sites[r].calls
  }

  /** The histories of sites on which drFunction was called any number of times are histories of
      the theorems above. */
  lemma SitesConform(sites: map<string, Site>)
    requires forall r | r in sites :: sites[r].region == r && sites[r].Valid()
    ensures Conforming(HistoryOf(sites))
    ensures forall r | r in sites :: Flat(CallsOf(HistoryOf(sites), r)) == sites[r].steps
  {
    hide Conforms, Flat;
  }
}
