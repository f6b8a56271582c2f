/**
 How long a lone test waits for a lock whose owner has crashed.

 The polling closure is run without interference: its API calls take no time, and
 the clock moves only between polls.
 */
module LockProgress {
  import opened GoStrings
  import opened RepoLock

  const POLL: nat := 30 * SECOND

  // ----- One poll -----

  /** The API calls of one run of the polling closure that nothing interrupts. */
  function PollSteps(s: State, t: TestId): seq<Step> {
    if s.cm.None? then [Get(t), Stamp(t), Create(t)]
    else if IsStale(s.now, s.cm.value.stamp) then [Get(t), Inspect(t), DeleteStale(t)]
    else [Get(t), Inspect(t)]
  }

  function Polled(s: State, t: TestId): State {
    if s.cm.None? then Acquired(s, t)
    else if IsStale(s.now, s.cm.value.stamp) then Move(Started(s, t).(cm := None), t, Waiting)
    else Looked(s, t)
  }

  /** The poll is a run of the lock protocol. */
  lemma PollIsRun(s: State, t: TestId)
    requires PhaseOf(s, t).Waiting? && InTime(s, t)
    ensures Valid(s, PollSteps(s, t))
    ensures States(s, PollSteps(s, t))[|PollSteps(s, t)|] == Polled(s, t)
  {
    if s.cm.None? {
      AcquireSteps(s, t);
      TwoMore(s, Get(t), Stamp(t), Create(t));
    } else {
      LookSteps(s, t);
      if IsStale(s.now, s.cm.value.stamp) {
        assert Apply(Looked(s, t), DeleteStale(t)).phases == Polled(s, t).phases;
        TwoMore(s, Get(t), Inspect(t), DeleteStale(t));
      } else {
        OneMore(s, Get(t), Inspect(t));
      }
    }
  }

  // ----- Polling until the lock is held -----

  class Cluster {
    var s: State

    constructor (s: State)
      ensures this.s == s
    {
      this.s := s;
    }

    /** The polling closure; it returns an error unless it has made the lock. */
    method Poll(t: TestId) returns (ok: bool)
      requires PhaseOf(s, t).Waiting?
      modifies this
      ensures s == Polled(old(s), t) && (ok <==> IsHolding(s, t))
    {
      s := Started(s, t);
      match s.cm
      case Some(existing) =>
        if s.now > existing.stamp + STALE {
          s := Move(s.(cm := None), t, Waiting);
          return false;
        }
        s := Move(s, t, Waiting);
        return false;
      case None =>
        var stamp := Truncated(s.now);
        s := Move(s.(cm := Some(Lock(t, stamp))), t, Holding(stamp));
        return true;
    }

    /**
     `Eventually(..., 60 minutes, 30 seconds)` for a lone test: whenever the lock
     was taken, and however old it is when the test starts, the test holds the
     lock within 46 minutes.
     */
    method AcquireAlone(t: TestId) returns (ok: bool)
      requires PhaseOf(s, t).Waiting? && t !in s.started
      requires s.cm.Some? ==> s.cm.value.stamp <= s.now
      modifies this
      ensures ok && IsHolding(s, t) && s.cm.Some? && s.cm.value.owner == t
      ensures s.started == old(s).started[t := old(s).now]
      ensures s.now == old(s).now + WaitTime(old(s)) && WaitTime(old(s)) <= 46 * MINUTE < LIMIT
    {
      var start := s.now;
      ghost var s0 := s;
      ok := false;
      ghost var polls := 0;
      WaitBound(s0);
      while true
        invariant PhaseOf(s, t).Waiting?
        invariant s.now == start + polls * POLL <= start + WaitTime(s0)
        invariant s.started == if polls == 0 then s0.started else s0.started[t := start]
        invariant if polls < StalePolls(s0) then s.cm == s0.cm else s.cm.None?
        decreases StalePolls(s0) + 1 - polls
      {
        if s0.cm.Some? { StalePoll(s0, polls); }
        ok := Poll(t);
        if ok {
          return;
        }
        if s.now - start + POLL > LIMIT {
          return;
        }
        s := s.(now := s.now + POLL);
        polls := polls + 1;
      }
    }
  }

  /** How many polls it takes until the lock has been deleted. */
  ghost function StalePolls(s: State): nat {
    if s.cm.None? then 0
    else
      var age := s.now - s.cm.value.stamp;
      if age > STALE then 1 else (STALE - age) / POLL + 2
  }

  /** The time from the first poll to the one that makes the lock. */
  ghost function WaitTime(s: State): nat {
    StalePolls(s) * POLL
  }

  lemma WaitBound(s: State)
    requires s.cm.Some? ==> s.cm.value.stamp <= s.now
    ensures WaitTime(s) <= 46 * MINUTE
  {
    if s.cm.Some? && s.now - s.cm.value.stamp <= STALE {
      var left := STALE - (s.now - s.cm.value.stamp);
      assert left / POLL <= STALE / POLL;
      assert STALE / POLL == 90;
    }
  }

  /** The lock is found stale by the last of those polls and by none before. */
  lemma StalePoll(s: State, n: nat)
    requires s.cm.Some? && s.cm.value.stamp <= s.now
    ensures n < StalePolls(s) ==> (IsStale(s.now + n * POLL, s.cm.value.stamp) <==> n == StalePolls(s) - 1)
  {
    var age := s.now - s.cm.value.stamp;
    if age <= STALE {
      var left := STALE - age;
      assert left == left / POLL * POLL + left % POLL;
    }
  }

  /** The bound is tight: a lock taken as the test starts costs the full 46 minutes. */
  lemma WaitBoundTight(now: nat, owner: TestId)
    ensures WaitTime(State(now, Some(Lock(owner, now)), map[], map[])) == 46 * MINUTE
  {
    assert STALE / POLL == 90;
  }
}
