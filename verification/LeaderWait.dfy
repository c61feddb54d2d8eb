/** The bounded wait for a Consul leader: polls with exponential backoff until a leader is
    reported or the next pause would end after the deadline. Times are in seconds. */
module LeaderWait {

  const LEADER_WAIT_MAX := 180.0
  const LEADER_WAIT_INITIAL := 5.0
  const LEADER_WAIT_MAX_DELAY := 30.0

  /** The answer to one poll and how long it took. */
  datatype Poll = Poll(took: real, leader: bool)

  /** The script of answers; after its end the answer is an immediate no. */
  function Answer(script: seq<Poll>, n: nat): Poll {
    if n < |script| then script[n] else Poll(0.0, false)
  }

  function Pow2(n: nat): real {
    if n == 0 then 1.0 else 2.0 * Pow2(n - 1)
  }

  /** The pause after poll `n`: 5 * 2^n seconds, at most 30. */
  function Delay(n: nat): real {
    if LEADER_WAIT_INITIAL * Pow2(n) > LEADER_WAIT_MAX_DELAY then LEADER_WAIT_MAX_DELAY else LEADER_WAIT_INITIAL * Pow2(n)
  }

  /** The sum of the first `n` pauses. */
  function Paused(n: nat): real {
    if n == 0 then 0.0 else Paused(n - 1) + Delay(n - 1)
  }

  lemma {:induction false} Pow2AtLeastOne(n: nat)
    ensures Pow2(n) >= 1.0
  {
    if n > 0 {
      Pow2AtLeastOne(n - 1);
    }
  }

  /** Doubling and capping step by step gives the capped power. */
  lemma NextDelay(n: nat)
    ensures Delay(0) == 5.0
    ensures Delay(n + 1) == if 2.0 * Delay(n) > 30.0 then 30.0 else 2.0 * Delay(n)
    ensures 5.0 <= Delay(n) <= 30.0
  {
    Pow2AtLeastOne(n);
    assert Pow2(n + 1) == 2.0 * Pow2(n);
  }

  /** When the pauses end: each follows its poll and lasts the capped power of two. */
  ghost predicate Schedule(script: seq<Poll>, wokenAt: seq<real>) {
    forall i | 0 <= i < |wokenAt| :: wokenAt[i] == Woken(script, wokenAt, i)
  }

  /** Pause `i` ends this long after the previous one. */
  function Woken(script: seq<Poll>, wokenAt: seq<real>, i: nat): real
    requires i <= |wokenAt|
  {
    (if i == 0 then 0.0 else wokenAt[i - 1]) + Answer(script, i).took + Delay(i)
  }

  /** The first `n` polls saw no leader. */
  ghost predicate Silent(script: seq<Poll>, n: nat) {
    forall i | 0 <= i < n :: !Answer(script, i).leader
  }

  ghost predicate InTime(wokenAt: seq<real>) {
    forall i | 0 <= i < |wokenAt| :: wokenAt[i] <= 180.0
  }

  lemma FirstDelay()
    ensures Delay(0) == LEADER_WAIT_INITIAL && Paused(0) == 0.0
  {}

  lemma StartSchedule(script: seq<Poll>)
    ensures Schedule(script, []) && InTime([])
  {}

  lemma ScheduleMore(script: seq<Poll>, wokenAt: seq<real>, now: real)
    requires Schedule(script, wokenAt) && InTime(wokenAt) && now <= LEADER_WAIT_MAX
    requires now == Woken(script, wokenAt, |wokenAt|)
    ensures Schedule(script, wokenAt + [now]) && InTime(wokenAt + [now])
  {
    var more := wokenAt + [now];
    forall i | 0 <= i < |more| ensures more[i] == Woken(script, more, i) {
      assert i > 0 ==> more[i - 1] == wokenAt[i - 1];
      assert Woken(script, more, i) == Woken(script, wokenAt, i);
    }
  }

  lemma OneMorePause(n: nat)
    ensures Paused(n + 1) == Paused(n) + Delay(n)
  {}

  lemma AfterSevenPausesItIsTooLate(n: nat, now: real)
    requires n <= 7 && now >= Paused(n) && now + Delay(n) <= LEADER_WAIT_MAX
    ensures n < 7
  {}

  lemma TookIsNonNegative(script: seq<Poll>, n: nat)
    requires forall p | p in script :: p.took >= 0.0
    ensures Answer(script, n).took >= 0.0
  {}

  /** Waits for a leader. Whatever the polls take, no pause ends after the deadline, the
      pauses double from 5 up to 30 seconds, and there are at most 8 polls. It gives up only when
      the next pause would end too late, and reports a leader exactly if the last poll saw one. */
  method WaitForLeader(script: seq<Poll>) returns (found: bool, polls: nat, wokenAt: seq<real>, now: real)
    requires forall p | p in script :: p.took >= 0.0
    ensures 1 <= polls <= 8 && |wokenAt| == polls - 1
    ensures InTime(wokenAt) && Schedule(script, wokenAt)
    ensures Silent(script, polls - 1) && found == Answer(script, polls - 1).leader
    ensures now == (if polls == 1 then 0.0 else wokenAt[polls - 2]) + Answer(script, polls - 1).took
    ensures !found ==> now + Delay(polls - 1) > 180.0
  {
    hide Delay, Paused, Answer, Pow2, Schedule, InTime;
    StartSchedule(script);
    now, polls, wokenAt := 0.0, 0, [];
    FirstDelay();
    var delay := LEADER_WAIT_INITIAL;
    while true
      invariant polls <= 7 && |wokenAt| == polls && delay == Delay(polls) && now >= Paused(polls)
      invariant now == if polls == 0 then 0.0 else wokenAt[polls - 1]
      invariant InTime(wokenAt) && Schedule(script, wokenAt) && Silent(script, polls)
      decreases LEADER_WAIT_MAX - now
    {
      var answer := Answer(script, polls);
      TookIsNonNegative(script, polls);
      now := now + answer.took;
      polls := polls + 1;
      if answer.leader {
        found := true;
        return;
      }
      if now + delay > LEADER_WAIT_MAX {
        found := false;
        return;
      }
      AfterSevenPausesItIsTooLate(polls - 1, now);
      NextDelay(polls - 1);
      OneMorePause(polls - 1);
      now := now + delay;
      ScheduleMore(script, wokenAt, now);
      wokenAt := wokenAt + [now];
      delay := delay * 2.0;
      if delay > LEADER_WAIT_MAX_DELAY {
        delay := LEADER_WAIT_MAX_DELAY;
      }
    }
  }
}
