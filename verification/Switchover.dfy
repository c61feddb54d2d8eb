/** The switchover of one site: which backup it restores when it is promoted, and what it does
    before its backup daemon is scaled down when it is demoted. The sites write their backups to
    one shared bucket. */
module Switchover {
  import opened Wrappers
  import Strings

  const ACTIVE := "active"
  const STANDBY := "standby"
  const DISABLED := "disabled"
  const RUNNING := "running"
  const FAILED := "failed"

  const FULL_BACKUP := "full backup"
  const REGION := "region"
  const SUCCESSFUL := "successful"
  const NOT_FOUND := 404

  function ToLower(s: string): (r: string)
    ensures |r| == |s|
    ensures forall i | 0 <= i < |s| :: r[i] == if 'A' <= s[i] <= 'Z' then s[i] - 'A' + 'a' else s[i]
  {
    seq(|s|, i requires 0 <= i < |s| => if 'A' <= s[i] <= 'Z' then s[i] - 'A' + 'a' else s[i])
  }

  // ---------------------------------------------------------------- choosing a backup

  /** The db_list of a backup: the text "full backup" or a list of databases. */
  datatype DbList = Text(text: string) | Listed

  datatype Info = Info(dbList: DbList, valid: bool, vars: map<string, string>)

  function Label(info: Info): string {
    if REGION in info.vars then info.vars[REGION] else ""
  }

  predicate Complete(info: Info) {
    info.dbList == Text(FULL_BACKUP) && info.valid && info.vars != map[]
  }

  /** A backup the site of `region` may restore: a valid full one that carries another region. */
  predicate Usable(info: Info, region: string) {
    Complete(info) && Label(info) != region
  }

  /** What one restore attempt hears from the daemon: the list of backups, what it says about
      each, and the job it starts; None stands for a failed request. */
  datatype Poll = Poll(listing: Option<seq<string>>, infos: map<string, Option<Info>>, job: Option<string>)

  function Told(poll: Poll, id: string): Option<Info> {
    if id in poll.infos then poll.infos[id] else None
  }

  /** The search goes no further than a backup it can use or cannot read. */
  predicate Stops(poll: Poll, region: string, id: string) {
    Told(poll, id).None? || Usable(Told(poll, id).value, region)
  }

  /** The search from the last of the sorted ids to the first. */
  function Search(poll: Poll, region: string, ids: seq<string>): Result<string> {
    if ids == [] then Ok("")
    else
      var id := ids[|ids| - 1];
      if Told(poll, id).None? then Err("cannot read " + id)
      else if Usable(Told(poll, id).value, region) then Ok(id)
      else Search(poll, region, ids[..|ids| - 1])
  }

  function LastFullBackup(poll: Poll, region: string): Result<string> {
    if poll.listing.None? then Err("cannot list backups") else Search(poll, region, Strings.Sort(poll.listing.value))
  }

  /** `id` is the greatest of `ids` at which the search stops. */
  ghost predicate Greatest(poll: Poll, region: string, ids: seq<string>, id: string) {
    && id in ids && Stops(poll, region, id)
    && forall v | v in ids && Stops(poll, region, v) :: Strings.Leq(v, id)
  }

  ghost predicate Nothing(poll: Poll, region: string, ids: seq<string>) {
    forall v | v in ids :: !Stops(poll, region, v)
  }

  lemma {:induction false} SearchFindsGreatest(poll: Poll, region: string, ids: seq<string>)
    requires Strings.Sorted(ids)
    ensures match Search(poll, region, ids)
            case Ok(id) => (id == "" && Nothing(poll, region, ids)) || (Greatest(poll, region, ids, id) && Told(poll, id).Some?)
            case Err(_) => exists id :: Greatest(poll, region, ids, id) && Told(poll, id).None?
  {
    if ids != [] {
      var id := ids[|ids| - 1];
      var rest := ids[..|ids| - 1];
      assert ids == rest + [id];
      if Stops(poll, region, id) {
        forall v | v in ids ensures Strings.Leq(v, id) {
          var i :| 0 <= i < |ids| && ids[i] == v;
          if i == |ids| - 1 {
            Strings.LeqTotal(id, id);
          }
        }
        assert Greatest(poll, region, ids, id);
      } else {
        SearchFindsGreatest(poll, region, rest);
        forall g | Greatest(poll, region, rest, g) ensures Greatest(poll, region, ids, g) {
        }
      }
    }
  }

  lemma SearchOfListing(poll: Poll, region: string)
    requires poll.listing.Some?
    ensures match LastFullBackup(poll, region)
            case Ok(id) =>
              || (id == "" && Nothing(poll, region, poll.listing.value))
              || (Greatest(poll, region, poll.listing.value, id) && Told(poll, id).Some?)
            case Err(_) => exists id :: Greatest(poll, region, poll.listing.value, id) && Told(poll, id).None?
  {
    var ids := poll.listing.value;
    var sorted := Strings.Sort(ids);
    Strings.SortSorts(ids);
    forall v ensures v in sorted <==> v in ids {
      assert v in multiset(sorted) <==> v in multiset(ids);
    }
    SearchFindsGreatest(poll, region, sorted);
    forall g ensures Greatest(poll, region, sorted, g) <==> Greatest(poll, region, ids, g) {
    }
  }

  /** A backup another site left for this one: full, valid, with variables, and its region, which is
      empty if it has none, is not that of this site. */
  ghost predicate FromElsewhere(info: Info, region: string) {
    && info.dbList == Text("full backup") && info.valid && info.vars != map[]
    && (if "region" in info.vars then info.vars["region"] != region else region != "")
  }

  /** The daemon told about the backup, and it is not one this site may restore. */
  ghost predicate Dismissed(poll: Poll, region: string, id: string) {
    id in poll.infos && poll.infos[id].Some? && !FromElsewhere(poll.infos[id].value, region)
  }

  /** Every listed backup with a greater id was read and dismissed. */
  ghost predicate DismissedAbove(poll: Poll, region: string, ids: seq<string>, id: string) {
    forall v | v in ids && v != id && Strings.Leq(id, v) :: Dismissed(poll, region, v)
  }

  lemma StopsUnlessDismissed(poll: Poll, region: string, id: string)
    ensures Stops(poll, region, id) <==> !Dismissed(poll, region, id)
  {}

  lemma GreatestDismissesAbove(poll: Poll, region: string, ids: seq<string>, id: string)
    requires Greatest(poll, region, ids, id)
    ensures id in ids && !Dismissed(poll, region, id) && DismissedAbove(poll, region, ids, id)
  {
    hide Stops, Dismissed;
    StopsUnlessDismissed(poll, region, id);
    forall v | v in ids && v != id && Strings.Leq(id, v) ensures Dismissed(poll, region, v) {
      StopsUnlessDismissed(poll, region, v);
      if Stops(poll, region, v) {
        Strings.LeqAntisymmetric(id, v);
      }
    }
  }

  /** What the search of the whole listing finds, whatever order the daemon lists in: the greatest
      backup of another region, or none if every listed one was read and dismissed; it fails
      if one that can not be read comes before it. */
  lemma LastFullBackupIsGreatest(poll: Poll, region: string)
    ensures LastFullBackup(poll, region).Ok? ==> poll.listing.Some?
    ensures poll.listing.Some? ==>
              var ids := poll.listing.value;
              match LastFullBackup(poll, region)
              case Ok(id) =>
                || (id == "" && forall v | v in ids :: Dismissed(poll, region, v))
                || (id in ids && id in poll.infos && poll.infos[id].Some? && FromElsewhere(poll.infos[id].value, region)
                    && DismissedAbove(poll, region, ids, id))
              case Err(_) => exists id | id in ids :: (id in poll.infos ==> poll.infos[id].None?) && DismissedAbove(poll, region, ids, id)
  {
    if poll.listing.Some? {
      var ids := poll.listing.value;
      SearchOfListing(poll, region);
      forall g | Greatest(poll, region, ids, g) ensures g in ids && !Dismissed(poll, region, g) && DismissedAbove(poll, region, ids, g) {
        GreatestDismissesAbove(poll, region, ids, g);
      }
      forall v ensures Stops(poll, region, v) <==> !Dismissed(poll, region, v) {
        StopsUnlessDismissed(poll, region, v);
      }
      hide LastFullBackup, DismissedAbove;
    }
  }

  /** Both directions: a backup is found if and only if it is listed, comes from another region and all
      above it are dismissed; none is found if and only if all are dismissed. An empty id names none. */
  lemma LastFullBackupIff(poll: Poll, region: string, id: string)
    requires poll.listing.Some?
    ensures id != "" ==>
              (LastFullBackup(poll, region) == Ok(id)
               <==> && id in poll.listing.value && id in poll.infos && poll.infos[id].Some?
                    && FromElsewhere(poll.infos[id].value, region) && DismissedAbove(poll, region, poll.listing.value, id))
    ensures LastFullBackup(poll, region) == Ok("")
            <==> forall v | v in poll.listing.value :: Dismissed(poll, region, v) || (v == "" && v in poll.infos && poll.infos[v].Some?)
  {
    var ids := poll.listing.value;
    LastFullBackupIsGreatest(poll, region);
    hide LastFullBackup, FromElsewhere;
    forall a, b | a in ids && b in ids && !Dismissed(poll, region, a) && !Dismissed(poll, region, b)
                  && DismissedAbove(poll, region, ids, a) && DismissedAbove(poll, region, ids, b)
      ensures a == b
    {
      Strings.LeqTotal(a, b);
    }
    if "" in ids && !Dismissed(poll, region, "") && LastFullBackup(poll, region) == Ok("") {
      forall v | v in ids && v != "" ensures Dismissed(poll, region, v) {
        assert Strings.Leq("", v);
      }
    }
  }

  /** The early-return loop over the ids in descending order. */
  method GetLastFullBackup(poll: Poll, region: string) returns (r: Result<string>)
    ensures r.Ok? == LastFullBackup(poll, region).Ok?
    ensures r.Ok? ==> r == LastFullBackup(poll, region)
    ensures r.Ok? && r.value != "" ==>
              r.value in poll.infos && poll.infos[r.value].Some? && FromElsewhere(poll.infos[r.value].value, region)
  {
    LastFullBackupIsGreatest(poll, region);
    hide DismissedAbove, Dismissed, FromElsewhere;
    if poll.listing.None? {
      return Err("cannot list backups");
    }
    var sorted := Strings.Sort(poll.listing.value);
    var i := |sorted|;
    assert sorted[..i] == sorted;
    while i > 0
      invariant 0 <= i <= |sorted|
      invariant Search(poll, region, sorted) == Search(poll, region, sorted[..i])
    {
      var id := sorted[i - 1];
      assert sorted[..i][..i - 1] == sorted[..i - 1];
      var info := Told(poll, id);
      if info.None? {
        return Err("cannot read backup");
      }
      if Usable(info.value, region) {
        return Ok(id);
      }
      i := i - 1;
    }
    return Ok("");
  }

  // ---------------------------------------------------------------- the shared bucket

  datatype Backup = Backup(id: string, info: Info)

  /** Backups in the order in which they were started; ids are not empty and increase. */
  predicate Ordered(b: seq<Backup>) {
    && (forall i | 0 <= i < |b| :: b[i].id != "")
    && (forall i, j | 0 <= i < j < |b| :: b[i].id != b[j].id && Strings.Leq(b[i].id, b[j].id))
  }

  /** Backups are added at the end and finish in any order; a finished one stays as it is. */
  ghost predicate Evolves(b: seq<Backup>, c: seq<Backup>) {
    && Ordered(c) && |b| <= |c|
    && forall i | 0 <= i < |b| :: c[i].id == b[i].id && (b[i].info.valid ==> c[i] == b[i])
  }

  /** Every answer of the poll was right at some moment between the bucket `b` and the bucket `c`. */
  ghost predicate Answers(poll: Poll, b: seq<Backup>, c: seq<Backup>) {
    && (poll.listing.Some? ==> Lists(poll.listing.value, b, c))
    && (forall i | 0 <= i < |c| && Told(poll, c[i].id).Some? :: Seen(Told(poll, c[i].id).value, i, b, c))
  }

  ghost predicate Lists(ids: seq<string>, b: seq<Backup>, c: seq<Backup>) {
    && (forall i | 0 <= i < |b| :: b[i].id in ids)
    && (forall id | id in ids :: exists i :: 0 <= i < |c| && c[i].id == id)
  }

  ghost predicate Seen(info: Info, i: nat, b: seq<Backup>, c: seq<Backup>)
    requires i < |c|
  {
    && (i < |b| && b[i].info.valid ==> info == b[i].info)
    && (info.valid ==> info == c[i].info)
  }

  /** With a usable backup `d` in the bucket, a search that reports no error finds a usable backup
      that was started no earlier than `d`. */
  lemma FoundIsNotOlder(poll: Poll, region: string, b: seq<Backup>, c: seq<Backup>, d: nat) returns (k: nat)
    requires Evolves(b, c) && Answers(poll, b, c)
    requires d < |b| && FromElsewhere(b[d].info, region)
    requires LastFullBackup(poll, region).Ok?
    ensures d <= k < |c| && c[k].id == LastFullBackup(poll, region).value && FromElsewhere(c[k].info, region)
  {
    var id := LastFullBackup(poll, region).value;
    SearchOfListing(poll, region);
    assert c[d].id == b[d].id;
    assert Stops(poll, region, b[d].id) by {
      if Told(poll, b[d].id).Some? {
        assert Seen(Told(poll, c[d].id).value, d, b, c);
      }
    }
    assert b[d].id in poll.listing.value;
    assert Greatest(poll, region, poll.listing.value, id);
    k :| 0 <= k < |c| && c[k].id == id;
    assert Seen(Told(poll, c[k].id).value, k, b, c);
    if k < d {
      assert Strings.Leq(c[k].id, c[d].id);
      Strings.LeqAntisymmetric(c[k].id, c[d].id);
    }
  }

  // ---------------------------------------------------------------- one site

  /** What a site does to the outside: scale its daemon up, send a restore request for what the
      poll told it, finish a backup, scale its daemon down. */
  datatype Step = Opened | Asked(id: string, poll: Poll) | Saved(id: string) | Closed(disabling: bool)

  /** How a scale request ends: the update failed, the pods were not ready in time, or it worked. */
  datatype Scale = Refused | Unready | Scaled

  datatype Reply = Reply(status: string, code: nat)

  predicate Succeeded(reply: Option<Reply>) {
    reply.Some? && ToLower(reply.value.status) == SUCCESSFUL
  }

  /** A restore job that is no longer known counts as completed. */
  predicate Restored(reply: Option<Reply>) {
    Succeeded(reply) || (reply.Some? && reply.value.code == NOT_FOUND)
  }

  /** The restore request an attempt sends, if any. */
  function Request(poll: Poll, region: string): seq<Step> {
    match LastFullBackup(poll, region)
    case Ok(id) => if id == "" then [] else [Asked(id, poll)]
    case Err(_) => []
  }

  function Requests(polls: seq<Poll>, region: string): seq<Step> {
    if polls == [] then []
    else Requests(polls[..|polls| - 1], region) + Request(polls[|polls| - 1], region)
  }

  /** An attempt ends the wait with a job, or with no job when there is no backup and `noWait` is set. */
  predicate Ends(poll: Poll, region: string, noWait: bool) {
    match LastFullBackup(poll, region)
    case Ok(id) => if id == "" then noWait else poll.job.Some?
    case Err(_) => false
  }

  /** The wait for a restore made the attempts `polls`: only the last one, if any, ended it. */
  predicate Waited(polls: seq<Poll>, region: string, noWait: bool, ended: bool) {
    && (ended ==> polls != [] && Ends(polls[|polls| - 1], region, noWait))
    && (forall i | 0 <= i < |polls| && (ended ==> i < |polls| - 1) :: !Ends(polls[i], region, noWait))
  }

  /** The job the ending attempt reports: that of its request, or none when it sent none. */
  predicate Answered(poll: Poll, region: string, job: string) {
    match LastFullBackup(poll, region)
    case Ok(id) => if id == "" then job == "" else poll.job == Some(job)
    case Err(_) => false
  }

  lemma NoRequests(polls: seq<Poll>, region: string)
    ensures Requests(polls[..0], region) == []
  {}

  lemma RequestsMore(polls: seq<Poll>, k: nat, region: string)
    requires k < |polls|
    ensures Requests(polls[..k + 1], region) == Requests(polls[..k], region) + Request(polls[k], region)
  {
    assert polls[..k + 1][..k] == polls[..k];
  }

  datatype Demand = Demand(mode: string, statusMode: string, status: string, configMode: string, noWait: bool)

  /** The guard of the whole switchover. */
  predicate Switching(d: Demand) {
    (d.statusMode != "" && d.statusMode != d.mode) || d.status == RUNNING || d.status == FAILED
  }

  predicate Promotion(d: Demand) {
    Switching(d) && ToLower(d.mode) == ACTIVE
  }

  predicate Demotion(d: Demand) {
    Switching(d) && ToLower(d.mode) == STANDBY && ToLower(d.configMode) != DISABLED
  }

  predicate Disabling(d: Demand) {
    Switching(d) && ToLower(d.mode) == DISABLED
  }

  /** The outcomes of the calls one switchover makes. */
  datatype Outcomes = Outcomes(
    ready: bool, scale: Scale, scaleRead: bool,
    polls: seq<Poll>, restore: seq<Option<Reply>>, readyAgain: bool,
    jobs: seq<Option<string>>, backup: seq<Option<Reply>>)

  ghost predicate JobStarted(jobs: seq<Option<string>>) {
    exists k :: 0 <= k < |jobs| && jobs[k].Some?
  }

  ghost predicate FirstJob(jobs: seq<Option<string>>, id: string) {
    exists k :: 0 <= k < |jobs| && jobs[k] == Some(id) && forall i | 0 <= i < k :: jobs[i].None?
  }

  /** Some poll reports the job as successful, in whatever case. */
  ghost predicate BackupGood(replies: seq<Option<Reply>>) {
    exists k :: 0 <= k < |replies| && replies[k].Some? && ToLower(replies[k].value.status) == "successful"
  }

  /** Some poll reports the job as successful or does not know it any more. */
  ghost predicate RestoreGood(replies: seq<Option<Reply>>) {
    exists k :: 0 <= k < |replies| && replies[k].Some? && (ToLower(replies[k].value.status) == "successful" || replies[k].value.code == 404)
  }

  method PerformBackup(jobs: seq<Option<string>>) returns (r: Result<string>)
    ensures r.Ok? <==> JobStarted(jobs)
    ensures r.Ok? ==> FirstJob(jobs, r.value)
  {
    for k := 0 to |jobs|
      invariant forall i | 0 <= i < k :: jobs[i].None?
    {
      if jobs[k].Some? {
        return Ok(jobs[k].value);
      }
    }
    return Err("timed out waiting for a backup job");
  }

  method CheckBackupStatus(replies: seq<Option<Reply>>) returns (ok: bool)
    ensures ok <==> BackupGood(replies)
  {
    for k := 0 to |replies|
      invariant forall i | 0 <= i < k :: !Succeeded(replies[i])
    {
      if Succeeded(replies[k]) {
        return true;
      }
    }
    return false;
  }

  method CheckRestoreStatus(replies: seq<Option<Reply>>) returns (ok: bool)
    ensures ok <==> RestoreGood(replies)
  {
    for k := 0 to |replies|
      invariant forall i | 0 <= i < k :: !Restored(replies[i])
    {
      if Restored(replies[k]) {
        return true;
      }
    }
    return false;
  }

  // ---------------------------------------------------------------- what a call promises

  /** One call of drFunction: what it was asked, how the calls it made ended, whether the daemon was
      up before and is up after, whether it answered DONE, what it did, and how many restore
      attempts it made. */
  datatype Call = Call(demand: Demand, outcomes: Outcomes, wasUp: bool, isUp: bool, done: bool, steps: seq<Step>, made: nat)

  /** The wait for a restore ended, and the job it reported, if any, was completed. */
  ghost predicate Recovered(region: string, d: Demand, o: Outcomes, made: nat) {
    && 0 < made <= |o.polls| && Waited(o.polls[..made], region, d.noWait, true)
    && (Answered(o.polls[made - 1], region, "") || (RestoreGood(o.restore) && o.readyAgain))
  }

  /** The attempts went on until one ended the wait or the time was up. */
  ghost predicate Attempted(polls: seq<Poll>, region: string, noWait: bool, made: nat) {
    && made <= |polls| && (forall i | 0 <= i < made - 1 :: !Ends(polls[i], region, noWait))
    && (made < |polls| ==> 0 < made && Ends(polls[made - 1], region, noWait))
  }

  ghost predicate Promoted(region: string, c: Call) {
    var restoring := c.outcomes.scale.Scaled? && c.demand.statusMode != DISABLED;
    && c.made <= |c.outcomes.polls| && (restoring ==> Attempted(c.outcomes.polls, region, c.demand.noWait, c.made))
    && c.isUp == (c.wasUp || !c.outcomes.scale.Refused?)
    && c.steps == (if c.outcomes.scale.Refused? then [] else [Opened])
                  + (if restoring then Requests(c.outcomes.polls[..c.made], region) else [])
    && (c.done <==> c.outcomes.scale.Scaled? && (restoring ==> Recovered(region, c.demand, c.outcomes, c.made)))
  }

  /** Backed up if the daemon ran, and scaled down only when the backup was known to be good. */
  ghost predicate Demoted(c: Call) {
    var o := c.outcomes;
    var saving := o.scaleRead && c.wasUp && JobStarted(o.jobs) && BackupGood(o.backup);
    && (if saving
        then && 0 < |c.steps| && c.steps[0].Saved? && FirstJob(o.jobs, c.steps[0].id)
             && c.steps[1..] == (if o.scale.Refused? then [] else [Closed(false)])
        else c.steps == [])
    && c.isUp == (c.wasUp && !(saving && !o.scale.Refused?))
    && (c.done <==> o.scaleRead && (c.wasUp ==> saving && o.scale.Scaled?))
  }

  ghost predicate SwitchedOff(c: Call) {
    && c.steps == (if c.outcomes.scale.Refused? then [] else [Closed(true)])
    && c.isUp == (c.wasUp && c.outcomes.scale.Refused?)
    && (c.done <==> c.outcomes.scale.Scaled?)
  }

  predicate Idled(c: Call, done: bool) {
    c.steps == [] && c.isUp == c.wasUp && c.done == done
  }

  /** What every call of drFunction does, mode by mode. */
  ghost predicate Conforms(region: string, c: Call) {
    if !Switching(c.demand) then Idled(c, true)
    else if !c.outcomes.ready then Idled(c, false)
    else if Promotion(c.demand) then Promoted(region, c)
    else if Demotion(c.demand) then Demoted(c)
    else if Disabling(c.demand) then SwitchedOff(c)
    else Idled(c, true)
  }

  /** The steps of several calls, in order. */
  function Flat(calls: seq<Call>): seq<Step> {
    if calls == [] then [] else Flat(calls[..|calls| - 1]) + calls[|calls| - 1].steps
  }

  lemma FlatMore(calls: seq<Call>, c: Call)
    ensures Flat(calls + [c]) == Flat(calls) + c.steps
  {
    assert (calls + [c])[..|calls|] == calls;
  }

  class Site {
    const region: string
    /** The backup daemon has a replica. */
    var up: bool
    var steps: seq<Step>
    ghost var calls: seq<Call>

    /** The site has done what its calls promise, in order, and nothing else. */
    ghost predicate Valid()
      reads this
    {
      steps == Flat(calls) && forall c | c in calls :: Conforms(region, c)
    }

    constructor (region: string, up: bool)
      ensures Valid() && this.region == region && this.up == up && calls == []
    {
      this.region, this.up, steps, calls := region, up, [], [];
    }

    method ScaleDaemon(replicas: bool, disabling: bool, outcome: Scale) returns (ok: bool)
      modifies this`up, this`steps
      ensures ok == outcome.Scaled?
      ensures up == if outcome.Refused? then old(up) else replicas
      ensures steps == old(steps) + if outcome.Refused? then [] else if replicas then [Opened] else [Closed(disabling)]
    {
      if outcome.Refused? {
        return false;
      }
      up := replicas;
      steps := steps + [if replicas then Opened else Closed(disabling)];
      return outcome.Scaled?;
    }

    /** One attempt: find the last full backup and ask for its restore. */
    method TryRestore(noWait: bool, poll: Poll) returns (done: bool, job: string)
      modifies this`steps
      ensures steps == old(steps) + Request(poll, region)
      ensures done == Ends(poll, region, noWait)
      ensures done ==> Answered(poll, region, job)
    {
      var found := GetLastFullBackup(poll, region);
      if found.Err? {
        return false, "";
      }
      if found.value == "" {
        return noWait, "";
      }
      steps := steps + [Asked(found.value, poll)];
      return poll.job.Some?, if poll.job.Some? then poll.job.value else "";
    }

    method RestoreLastFullBackup(noWait: bool, polls: seq<Poll>) returns (r: Result<string>, ghost made: nat)
      modifies this`steps
      ensures made <= |polls| && Waited(polls[..made], region, noWait, r.Ok?)
      ensures r.Err? ==> made == |polls|
      ensures steps == old(steps) + Requests(polls[..made], region)
      ensures r.Ok? ==> Answered(polls[made - 1], region, r.value)
      ensures Attempted(polls, region, noWait, made)
    {
      hide Ends, Request, Answered, Requests;
      NoRequests(polls, region);
      for k := 0 to |polls|
        invariant forall i | 0 <= i < k :: !Ends(polls[i], region, noWait)
        invariant steps == old(steps) + Requests(polls[..k], region)
      {
        var done, job := TryRestore(noWait, polls[k]);
        RequestsMore(polls, k, region);
        if done {
          return Ok(job), k + 1;
        }
      }
      assert polls[..|polls|] == polls;
      return Err("timed out waiting for a restore job"), |polls|;
    }

    /** Restore, wait for the job, wait for the servers. */
    method StartLastBackupRecovery(d: Demand, o: Outcomes) returns (ok: bool, ghost made: nat)
      modifies this`steps
      ensures made <= |o.polls| && steps == old(steps) + Requests(o.polls[..made], region)
      ensures ok <==> Recovered(region, d, o, made)
      ensures Attempted(o.polls, region, d.noWait, made)
    {
      hide Requests, Ends, RestoreGood, LastFullBackup;
      var job;
      job, made := RestoreLastFullBackup(d.noWait, o.polls);
      if job.Err? {
        assert made > 0 ==> !Ends(o.polls[..made][made - 1], region, d.noWait);
        return false, made;
      }
      if job.value != "" {
        var done := CheckRestoreStatus(o.restore);
        if !done || !o.readyAgain {
          return false, made;
        }
      }
      return true, made;
    }

    /** Back up if the daemon runs, and scale it down only when the backup is known to be good. */
    method Demote(o: Outcomes) returns (ok: bool, ghost did: seq<Step>)
      modifies this`up, this`steps
      ensures steps == old(steps) + did
      ensures forall d, made :: Demoted(Call(d, o, old(up), up, ok, did, made))
    {
      did := [];
      if !o.scaleRead {
        return false, did;
      }
      if up {
        var job := PerformBackup(o.jobs);
        if job.Err? {
          return false, did;
        }
        var good := CheckBackupStatus(o.backup);
        if !good {
          return false, did;
        }
        steps := steps + [Saved(job.value)];
        ok := ScaleDaemon(false, false, o.scale);
        did := [Saved(job.value)] + (if o.scale.Refused? then [] else [Closed(false)]);
        return ok, did;
      }
      return true, did;
    }

    /** Scale up and, unless the site was disabled, restore the last full backup. */
    method Promote(d: Demand, o: Outcomes) returns (ok: bool, ghost did: seq<Step>, ghost made: nat)
      modifies this`up, this`steps
      ensures steps == old(steps) + did
      ensures Promoted(region, Call(d, o, old(up), up, ok, did, made))
    {
      hide Requests, Recovered, Attempted;
      did, made := if o.scale.Refused? then [] else [Opened], 0;
      var scaled := ScaleDaemon(true, false, o.scale);
      if !scaled {
        return false, did, made;
      }
      if d.statusMode != DISABLED {
        ok, made := StartLastBackupRecovery(d, o);
        did := did + Requests(o.polls[..made], region);
        return ok, did, made;
      }
      return true, did, made;
    }

    /** One switchover request. The answer DONE carries the requested mode. */
    method DrFunction(d: Demand, o: Outcomes) returns (r: Result<string>, ghost call: Call)
      requires Valid()
      modifies this
      ensures Valid() && calls == old(calls) + [call] && steps == old(steps) + call.steps
      ensures call.demand == d && call.outcomes == o && call.wasUp == old(up) && call.isUp == up && call.done == r.Ok?
      ensures Conforms(region, call)
      ensures r.Ok? ==> r.value == d.mode
    {
      hide Promoted, Demoted, Flat, Conforms;
      var ok := true;
      ghost var did: seq<Step>, made: nat := [], 0;
      if Switching(d) {
        if !o.ready {
          ok := false;
        } else if ToLower(d.mode) == ACTIVE {
          ok, did, made := Promote(d, o);
        } else if ToLower(d.mode) == STANDBY && ToLower(d.configMode) != DISABLED {
          ok, did := Demote(o);
        } else if ToLower(d.mode) == DISABLED {
          ok := ScaleDaemon(false, true, o.scale);
          did := if o.scale.Refused? then [] else [Closed(true)];
        }
      }
      call := Call(d, o, old(up), up, ok, did, made);
      ConformsByMode(region, call);
      FlatMore(calls, call);
      calls := calls + [call];
      r := if ok then Ok(d.mode) else Err("switchover failed");
    }
  }

  lemma ConformsByMode(region: string, c: Call)
    requires !Switching(c.demand) ==> Idled(c, true)
    requires Switching(c.demand) && !c.outcomes.ready ==> Idled(c, false)
    requires Promotion(c.demand) && c.outcomes.ready ==> Promoted(region, c)
    requires Demotion(c.demand) && c.outcomes.ready ==> Demoted(c)
    requires Disabling(c.demand) && c.outcomes.ready ==> SwitchedOff(c)
    requires Switching(c.demand) && c.outcomes.ready && !Promotion(c.demand) && !Demotion(c.demand) && !Disabling(c.demand) ==>
               Idled(c, true)
    ensures Conforms(region, c)
  {
    hide Promoted, Demoted, SwitchedOff, Idled, Switching;
  }

  /** Without `noWait`, the wait that ended sent its last request for the backup found last,
      and the daemon took it. */
  lemma EndedMeansAccepted(polls: seq<Poll>, region: string) returns (id: string)
    requires Waited(polls, region, false, true)
    ensures polls != [] && LastFullBackup(polls[|polls| - 1], region) == Ok(id) && id != ""
    ensures polls[|polls| - 1].job.Some?
    ensures Requests(polls, region) != []
    ensures Requests(polls, region)[|Requests(polls, region)| - 1] == Asked(id, polls[|polls| - 1])
  {
    id := LastFullBackup(polls[|polls| - 1], region).value;
  }

  // ---------------------------------------------------------------- what a call answers

  /** There is something to do: the mode changed since the last status, or a switchover is unfinished. */
  ghost predicate Pending(d: Demand) {
    (d.statusMode != "" && d.statusMode != d.mode) || d.status == "running" || d.status == "failed"
  }

  ghost predicate AsksFor(d: Demand, mode: string) {
    Pending(d) && ToLower(d.mode) == mode
  }

  /** Nothing is touched when there is nothing to do, or the servers are not ready, or a site that is
      configured as disabled is asked to stand by, or the mode is unknown. */
  lemma QuietCall(region: string, c: Call)
    requires Conforms(region, c)
    requires || !Pending(c.demand) || !c.outcomes.ready
             || (AsksFor(c.demand, "standby") && ToLower(c.demand.configMode) == "disabled")
             || (ToLower(c.demand.mode) != "active" && ToLower(c.demand.mode) != "standby" && ToLower(c.demand.mode) != "disabled")
    ensures c.steps == [] && c.isUp == c.wasUp && (c.done <==> !Pending(c.demand) || c.outcomes.ready)
  {
    hide ToLower, Promoted, Demoted, SwitchedOff;
    ModesDiffer();
  }

  lemma ModesDiffer()
    ensures "active" != "standby" && "standby" != "disabled" && "active" != "disabled"
  {
    assert "active"[0] == 'a' && "standby"[0] == 's' && "disabled"[0] == 'd';
  }

  /** A demotion is DONE if and only if the scale could be read and, if the daemon runs, a backup was
      started, reported successful, and the daemon went down. */
  lemma DemotionAnswers(region: string, c: Call)
    requires Conforms(region, c) && c.outcomes.ready
    requires AsksFor(c.demand, "standby") && ToLower(c.demand.configMode) != "disabled"
    ensures var saved := JobStarted(c.outcomes.jobs) && BackupGood(c.outcomes.backup);
            && (c.done <==> c.outcomes.scaleRead && (c.wasUp ==> saved && c.outcomes.scale.Scaled?))
            && (c.isUp <==> c.wasUp && !(c.outcomes.scaleRead && saved && !c.outcomes.scale.Refused?))
  {
    ModesDiffer();
    hide ToLower, JobStarted, BackupGood;
  }

  lemma DisablingAnswers(region: string, c: Call)
    requires Conforms(region, c) && c.outcomes.ready && AsksFor(c.demand, "disabled")
    ensures c.done <==> c.outcomes.scale.Scaled?
    ensures c.isUp <==> c.wasUp && c.outcomes.scale.Refused?
    ensures c.steps == [] || c.steps == [Closed(true)]
  {
    ModesDiffer();
    hide ToLower;
  }

  /** The attempt ends the wait: its request was taken, or there is nothing to restore and nobody waits. */
  ghost predicate Concludes(poll: Poll, region: string, noWait: bool) {
    LastFullBackup(poll, region).Ok? && if LastFullBackup(poll, region) == Ok("") then noWait else poll.job.Some?
  }

  /** Attempt `n` was the first to end the wait, and its job, if it has one, completed. */
  ghost predicate Completes(o: Outcomes, region: string, noWait: bool, n: nat) {
    && n < |o.polls| && Concludes(o.polls[n], region, noWait) && (forall i | 0 <= i < n :: !Concludes(o.polls[i], region, noWait))
    && (LastFullBackup(o.polls[n], region) == Ok("") || o.polls[n].job == Some("") || (RestoreGood(o.restore) && o.readyAgain))
  }

  /** A promotion is DONE if and only if the daemon came up and, unless the site was disabled, some
      attempt ended the wait and its job completed. */
  lemma PromotionAnswers(region: string, c: Call)
    requires Conforms(region, c) && c.outcomes.ready && AsksFor(c.demand, "active")
    ensures c.done <==> c.outcomes.scale.Scaled?
                        && (c.demand.statusMode == "disabled" || exists n :: Completes(c.outcomes, region, c.demand.noWait, n))
    ensures c.isUp <==> c.wasUp || !c.outcomes.scale.Refused?
    ensures c.demand.statusMode == "disabled" ==> c.steps == [] || c.steps == [Opened]
  {
    ModesDiffer();
    hide ToLower, Requests;
    assert Promotion(c.demand) && Promoted(region, c);
    if c.outcomes.scale.Scaled? && c.demand.statusMode != "disabled" {
      RecoveredIff(region, c.demand, c.outcomes, c.made);
    }
  }

  lemma RecoveredIff(region: string, d: Demand, o: Outcomes, made: nat)
    requires Attempted(o.polls, region, d.noWait, made)
    ensures Recovered(region, d, o, made) <==> exists n :: Completes(o, region, d.noWait, n)
  {
    hide LastFullBackup, RestoreGood;
    forall p ensures Concludes(p, region, d.noWait) <==> Ends(p, region, d.noWait) {}
    if Recovered(region, d, o, made) {
      forall i | 0 <= i < made - 1 ensures !Ends(o.polls[i], region, d.noWait) {}
      assert o.polls[..made][made - 1] == o.polls[made - 1];
      assert Completes(o, region, d.noWait, made - 1);
    }
    if n :| Completes(o, region, d.noWait, n) {
      assert n == made - 1;
      forall i | 0 <= i < made - 1 ensures !Ends(o.polls[..made][i], region, d.noWait) {}
    }
  }

  // ---------------------------------------------------------------- the steps of a site

  /** Every request names the last full backup the poll told of, and a daemon that is not disabled
      is scaled down right after a finished backup. */
  predicate Lawful(region: string, steps: seq<Step>) {
    forall i | 0 <= i < |steps| :: LawfulAt(region, steps, i)
  }

  predicate LawfulAt(region: string, steps: seq<Step>, i: nat)
    requires i < |steps|
  {
    match steps[i]
    case Asked(id, poll) => id != "" && LastFullBackup(poll, region) == Ok(id)
    case Closed(disabling) => disabling || (i > 0 && steps[i - 1].Saved?)
    case _ => true
  }

  lemma {:induction false} RequestsAreLawful(polls: seq<Poll>, region: string)
    ensures Lawful(region, Requests(polls, region))
    ensures forall s | s in Requests(polls, region) :: s.Asked?
  {
    hide LastFullBackup;
    if polls != [] {
      RequestsAreLawful(polls[..|polls| - 1], region);
      LawfulConcat(region, Requests(polls[..|polls| - 1], region), Request(polls[|polls| - 1], region));
    }
  }

  lemma LawfulConcat(region: string, a: seq<Step>, b: seq<Step>)
    requires Lawful(region, a) && Lawful(region, b)
    ensures Lawful(region, a + b)
  {
    hide LastFullBackup;
    forall i | 0 <= i < |a + b| ensures LawfulAt(region, a + b, i) {
      if i < |a| {
        assert LawfulAt(region, a, i);
      } else {
        assert LawfulAt(region, b, i - |a|);
      }
    }
  }

  lemma CallIsLawful(region: string, c: Call)
    requires Conforms(region, c)
    ensures Lawful(region, c.steps)
  {
    hide Requests, Recovered, LastFullBackup;
    RequestsAreLawful(c.outcomes.polls[..if c.made <= |c.outcomes.polls| then c.made else 0], region);
    if Switching(c.demand) && c.outcomes.ready && Promotion(c.demand) {
      LawfulConcat(region, [Opened], Requests(c.outcomes.polls[..c.made], region));
      LawfulConcat(region, [], Requests(c.outcomes.polls[..c.made], region));
      assert Lawful(region, [Opened] + []) && Lawful(region, []);
    }
  }

  lemma {:induction false} CallsAreLawful(region: string, calls: seq<Call>)
    requires forall c | c in calls :: Conforms(region, c)
    ensures Lawful(region, Flat(calls))
  {
    hide Conforms, LastFullBackup;
    if calls != [] {
      CallsAreLawful(region, calls[..|calls| - 1]);
      CallIsLawful(region, calls[|calls| - 1]);
      LawfulConcat(region, Flat(calls[..|calls| - 1]), calls[|calls| - 1].steps);
    }
  }

  /** A demotion that is DONE and found the daemon running has saved a backup and then scaled the
      daemon down. */
  lemma DoneDemotion(region: string, c: Call) returns (id: string)
    requires Conforms(region, c) && Demotion(c.demand) && c.done && c.wasUp
    ensures c.steps == [Saved(id), Closed(false)] && FirstJob(c.outcomes.jobs, id) && BackupGood(c.outcomes.backup)
  {
    hide JobStarted, FirstJob, BackupGood;
    id := c.steps[0].id;
    assert c.steps == [c.steps[0]] + c.steps[1..];
  }

  /** A promotion that is DONE, not from disabled and without `noWait`, ended with a request for the
      backup found last, which the daemon took and whose job, if it has a name, completed. */
  lemma DonePromotion(region: string, c: Call) returns (id: string, last: Poll)
    requires Conforms(region, c) && Promotion(c.demand) && c.done && !c.demand.noWait && c.demand.statusMode != DISABLED
    ensures c.steps != [] && c.steps[|c.steps| - 1] == Asked(id, last)
    ensures 0 < c.made <= |c.outcomes.polls| && last == c.outcomes.polls[c.made - 1]
    ensures last.job.Some? && (last.job.value != "" ==> RestoreGood(c.outcomes.restore) && c.outcomes.readyAgain)
  {
    var polls := c.outcomes.polls[..c.made];
    id := EndedMeansAccepted(polls, region);
    last := polls[|polls| - 1];
    hide Requests, LastFullBackup, RestoreGood;
    assert Requests(polls, region)[|Requests(polls, region)| - 1] == Asked(id, last);
  }
}
