/**
 Waiting for a component's pipeline run and retriggering it when it fails
 (`WaitForComponentPipelineToBeFinished` in pkg/clients/has/components.go).
 */
module Retrigger {
  import opened GoStrings

  /** The `Succeeded` condition of a pipeline run; a run is done once it is not Unknown. */
  datatype Status = Unknown | Succeeded | Failed

  datatype Run = Run(name: string, status: Status, reason: string)

  /** One poll, `at` seconds after the round began: the lookup fails or finds a run. */
  datatype Poll = Missing(at: nat) | Got(at: nat, run: Run)

  datatype DeleteReply = Deleted | NotFound | DeleteFailed

  /**
   What the cluster answers during one round: the polls until the 30 minutes are
   over, and the replies to the finalizer removal, the deletion and the retrigger (the
   new sha) should the code get there.
   */
  datatype Round = Round(polls: seq<Poll>, finalizerRemoved: bool, deleted: DeleteReply, newSha: Option<string>)

  /** The calls that matter, in order. */
  datatype Call =
    | Lookup(sha: string, eventType: string)
    | RemoveFinalizer(run: Run)
    | Delete(run: Run)
    | Trigger(run: Run, sha: string)

  /** `Waiting` means that the answers given so far do not settle the matter; `NilRun` is the nil dereference. */
  datatype Outcome =
    | Finished(run: Run)
    | NotCreated
    | RunError(run: Run)
    | TimedOut
    | FinalizerError
    | DeleteError
    | TriggerError
    | NilRun
    | Waiting

  datatype Options = Options(retries: int, always: bool)

  const CREATION_TIMEOUT := 5 * 60
  const COULDNT_GET_TASK := "CouldntGetTask"
  const IMAGE_PULL_FAILED := "TaskRunImagePullFailed"

  // ----- One round of polling -----

  /** How a round ends; `Expired` carries the run of the last poll and whether any poll found one. */
  datatype Ending = Good(run: Run) | Bad(run: Run) | Absent | Expired(last: Option<Run>, found: bool)

  predicate Finds(p: Poll) {
    p.Got?
  }

  /** A poll that ends the round: a run that is done, or no run yet and the creation deadline is past. */
  predicate Decides(polls: seq<Poll>, i: nat)
    requires i < |polls|
  {
    match polls[i]
    case Got(_, run) => run.status != Unknown
    case Missing(at) => at > CREATION_TIMEOUT && forall j :: 0 <= j < i ==> !Finds(polls[j])
  }

  /** The ending that the first `n` polls amount to, if none before the last of them decides. */
  predicate EndsAs(polls: seq<Poll>, n: nat, e: Ending) {
    && n <= |polls|
    && (forall i: nat :: i < n - 1 ==> !Decides(polls, i))
    && match e
       case Good(run) => n > 0 && polls[n - 1].Got? && polls[n - 1].run == run && run.status == Succeeded
       case Bad(run) => n > 0 && polls[n - 1].Got? && polls[n - 1].run == run && run.status == Failed
       case Absent => n > 0 && polls[n - 1].Missing? && Decides(polls, n - 1)
       case Expired(last, found) =>
         && n == |polls| && (n > 0 ==> !Decides(polls, n - 1))
         && last == (if n > 0 && polls[n - 1].Got? then Some(polls[n - 1].run) else None)
         && (found <==> exists j :: 0 <= j < n && Finds(polls[j]))
  }

  predicate SomeFinds(polls: seq<Poll>, n: nat)
    requires n <= |polls|
  {
    exists j :: 0 <= j < n && Finds(polls[j])
  }

  /** The ending of a round and the number of lookups, given that the first `n` polls decide nothing. */
  function EndFrom(polls: seq<Poll>, n: nat): (r: (Ending, nat))
    requires n <= |polls|
    decreases |polls| - n
  {
    if n == |polls| then
      (Expired(if n > 0 && polls[n - 1].Got? then Some(polls[n - 1].run) else None, SomeFinds(polls, n)), n)
    else if !Decides(polls, n) then EndFrom(polls, n + 1)
    else if polls[n].Missing? then (Absent, n + 1)
    else (if polls[n].run.status == Succeeded then Good(polls[n].run) else Bad(polls[n].run), n + 1)
  }

  function EndOf(polls: seq<Poll>): (r: (Ending, nat)) {
    EndFrom(polls, 0)
  }

  lemma {:induction false} EndFromEnds(polls: seq<Poll>, n: nat)
    requires n <= |polls| && forall i: nat :: i < n ==> !Decides(polls, i)
    ensures EndsAs(polls, EndFrom(polls, n).1, EndFrom(polls, n).0)
    decreases |polls| - n
  {
    if n < |polls| && !Decides(polls, n) { EndFromEnds(polls, n + 1); }
  }

  lemma EndOfEnds(polls: seq<Poll>)
    ensures EndsAs(polls, EndOf(polls).1, EndOf(polls).0)
  {
    EndFromEnds(polls, 0);
  }

  /** A round has one ending. */
  lemma EndingUnique(polls: seq<Poll>, m: nat, e: Ending, n: nat, f: Ending)
    requires EndsAs(polls, m, e) && EndsAs(polls, n, f)
    ensures m == n && e == f
  {
    assert m > 0 && !e.Expired? ==> Decides(polls, m - 1);
    assert n > 0 && !f.Expired? ==> Decides(polls, n - 1);
  }

  /** The closure handed to `PollUntilContextTimeout`, called until it is done or fails. */
  method PollRun(polls: seq<Poll>) returns (ending: Ending, lookups: nat)
    ensures EndsAs(polls, lookups, ending)
  {
    var found, pr := false, None;
    lookups := 0;
    while lookups < |polls|
      invariant lookups <= |polls|
      invariant forall i: nat :: i < lookups ==> !Decides(polls, i)
      invariant found <==> SomeFinds(polls, lookups)
      invariant pr == if lookups > 0 && polls[lookups - 1].Got? then Some(polls[lookups - 1].run) else None
    {
      var p := polls[lookups];
      lookups := lookups + 1;
      if p.Missing? {
        pr := None;
        if !found && p.at > CREATION_TIMEOUT { return Absent, lookups; }
      } else {
        pr := Some(p.run);
        assert Finds(polls[lookups - 1]);
        found := true;
        if p.run.status == Succeeded { return Good(p.run), lookups; }
        if p.run.status == Failed { return Bad(p.run), lookups; }
      }
    }
    ending := Expired(pr, found);
  }

  // ----- A round and what follows it -----

  predicate Retryable(run: Run, o: Options) {
    o.always || run.reason == COULDNT_GET_TASK || run.reason == IMAGE_PULL_FAILED
  }

  function Lookups(n: nat, sha: string, eventType: string): (r: seq<Call>)
    ensures |r| == n && forall i :: 0 <= i < n ==> r[i] == Lookup(sha, eventType)
  {
    seq(n, _ => Lookup(sha, eventType))
  }

  /** The run that a round without success is about. */
  function Blamed(e: Ending): Option<Run> {
    match e
    case Bad(run) => Some(run)
    case Expired(last, found) => if found then last else None
    case _ => None
  }

  /** A round settles the outcome, or the wait goes on with a new sha. */
  datatype Verdict = Settled(outcome: Outcome) | Again(sha: string)

  /** What a round comes to, and the calls made after its lookups. */
  function Settle(r: Round, o: Options, lastAttempt: bool): (Verdict, seq<Call>) {
    var e := EndOf(r.polls).0;
    if e.Good? then (Settled(Finished(e.run)), [])
    else if e.Absent? || (e.Expired? && !e.found) then (Settled(NotCreated), [])
    else if Blamed(e).None? then (Settled(NilRun), [])
    else
      var pr := Blamed(e).value;
      if lastAttempt || !Retryable(pr, o) then (Settled(if e.Bad? then RunError(pr) else TimedOut), [])
      else if !r.finalizerRemoved then (Settled(FinalizerError), [RemoveFinalizer(pr)])
      else if r.deleted.DeleteFailed? then (Settled(DeleteError), [RemoveFinalizer(pr), Delete(pr)])
      else if r.newSha.None? then (Settled(TriggerError), [RemoveFinalizer(pr), Delete(pr)])
      else (Again(r.newSha.value), [RemoveFinalizer(pr), Delete(pr), Trigger(pr, r.newSha.value)])
  }

  /** All calls of a round. */
  function RoundLog(r: Round, o: Options, lastAttempt: bool, sha: string, eventType: string): seq<Call> {
    Lookups(EndOf(r.polls).1, sha, eventType) + Settle(r, o, lastAttempt).1
  }

  /** The whole wait from attempt number `attempts` on: its outcome and its calls. */
  function Wait(rounds: seq<Round>, o: Options, attempts: int, sha: string, eventType: string): (Outcome, seq<Call>)
    decreases |rounds|
  {
    if rounds == [] then (Waiting, [])
    else
      var log := RoundLog(rounds[0], o, attempts == o.retries + 1, sha, eventType);
      match Settle(rounds[0], o, attempts == o.retries + 1).0
      case Settled(outcome) => (outcome, log)
      case Again(newSha) =>
        var rest := Wait(rounds[1..], o, attempts + 1, newSha, "");
        (rest.0, log + rest.1)
  }

  class RunObject {
    var run: Run

    constructor (run: Run)
      ensures this.run == run
    {
      this.run := run;
    }
  }

  /** The body of the loop: one round of polling and the reaction to its failure. */
  method PlayRound(r: Round, o: Options, attempts: int, sha: string, eventType: string)
    returns (verdict: Verdict, log: seq<Call>)
    ensures verdict == Settle(r, o, attempts == o.retries + 1).0
    ensures log == RoundLog(r, o, attempts == o.retries + 1, sha, eventType)
  {
    var ending, lookups := PollRun(r.polls);
    EndOfEnds(r.polls);
    EndingUnique(r.polls, lookups, ending, EndOf(r.polls).1, EndOf(r.polls).0);
    log := Lookups(lookups, sha, eventType);
    if ending.Good? { return Settled(Finished(ending.run)), log; }
    if ending.Absent? || (ending.Expired? && !ending.found) { return Settled(NotCreated), log; }
    if ending.Expired? && ending.last.None? { return Settled(NilRun), log; }
    var pr := if ending.Bad? then ending.run else ending.last.value;
    if attempts == o.retries + 1 || (!o.always && pr.reason != COULDNT_GET_TASK && pr.reason != IMAGE_PULL_FAILED) {
      return Settled(if ending.Bad? then RunError(pr) else TimedOut), log;
    }
    log := log + [RemoveFinalizer(pr)];
    if !r.finalizerRemoved { return Settled(FinalizerError), log; }
    log := log + [Delete(pr)];
    if r.deleted.DeleteFailed? { return Settled(DeleteError), log; }
    if r.newSha.None? { return Settled(TriggerError), log; }
    log := log + [Trigger(pr, r.newSha.value)];
    verdict := Again(r.newSha.value);
  }

  /** `WaitForComponentPipelineToBeFinished`, on the answers of the given rounds. */
  method WaitForPipeline(rounds: seq<Round>, o: Options, firstSha: string, firstEventType: string, prToUpdate: RunObject?)
    returns (outcome: Outcome, log: seq<Call>)
    modifies prToUpdate
    ensures (outcome, log) == Wait(rounds, o, 1, firstSha, firstEventType)
    ensures prToUpdate != null ==> prToUpdate.run == if outcome.Finished? then outcome.run else old(prToUpdate.run)
  {
    var attempts, sha, eventType, k := 1, firstSha, firstEventType, 0;
    log := [];
    ghost var whole := Wait(rounds, o, 1, firstSha, firstEventType);
    assert rounds[0..] == rounds && [] + whole.1 == whole.1;
    while k < |rounds|
      invariant 0 <= k <= |rounds|
      invariant whole.0 == Wait(rounds[k..], o, attempts, sha, eventType).0
      invariant whole.1 == log + Wait(rounds[k..], o, attempts, sha, eventType).1
      invariant prToUpdate != null ==> prToUpdate.run == old(prToUpdate.run)
    {
      assert rounds[k..][0] == rounds[k] && rounds[k..][1..] == rounds[k + 1..];
      var verdict, calls := PlayRound(rounds[k], o, attempts, sha, eventType);
      ghost var before := log;
      log := log + calls;
      if verdict.Settled? {
        if verdict.outcome.Finished? && prToUpdate != null { prToUpdate.run := verdict.outcome.run; }
        return verdict.outcome, log;
      }
      sha, eventType, attempts, k := verdict.sha, "", attempts + 1, k + 1;
      Regroup(before, calls, Wait(rounds[k..], o, attempts, sha, eventType).1);
    }
    assert log + [] == log;
    outcome := Waiting;
  }

  lemma Regroup(a: seq<Call>, b: seq<Call>, c: seq<Call>)
    ensures a + (b + c) == a + b + c
  {
  }

  // ----- Retriggers -----

  /** Whether a round ends in a retrigger when attempts are left. */
  predicate Retried(r: Round, o: Options) {
    var blamed := Blamed(EndOf(r.polls).0);
    blamed.Some? && Retryable(blamed.value, o) && r.finalizerRemoved && !r.deleted.DeleteFailed? && r.newSha.Some?
  }

  lemma SettleRetried(r: Round, o: Options, lastAttempt: bool)
    ensures Settle(r, o, lastAttempt).0.Again? <==> Retried(r, o) && !lastAttempt
    ensures Retried(r, o) && !lastAttempt ==>
              var pr := Blamed(EndOf(r.polls).0).value;
              Settle(r, o, false).1 == Reaction(pr, r.newSha.value)
  {
  }

  /** The retriggers in a log: which runs, and the shas they led to. */
  function Triggers(log: seq<Call>): (r: seq<(Run, string)>) {
    if log == [] then []
    else Triggers(log[..|log| - 1]) + var c := log[|log| - 1]; if c.Trigger? then [(c.run, c.sha)] else []
  }

  lemma {:induction false} TriggersConcat(a: seq<Call>, b: seq<Call>)
    ensures Triggers(a + b) == Triggers(a) + Triggers(b)
  {
    if b == [] {
      assert a + b == a;
    } else {
      assert (a + b)[..|a + b| - 1] == a + b[..|b| - 1];
      TriggersConcat(a, b[..|b| - 1]);
    }
  }

  lemma {:induction false} NoTriggers(log: seq<Call>)
    requires forall i :: 0 <= i < |log| ==> !log[i].Trigger?
    ensures Triggers(log) == []
  {
    if log != [] { NoTriggers(log[..|log| - 1]); }
  }

  /** The run that a retried round is about and the sha that its retrigger led to. */
  function Retrigger(r: Round, o: Options): (Run, string)
    requires Retried(r, o)
  {
    (Blamed(EndOf(r.polls).0).value, r.newSha.value)
  }

  function Retriggers(rounds: seq<Round>, o: Options): (r: seq<(Run, string)>)
    requires forall i :: 0 <= i < |rounds| ==> Retried(rounds[i], o)
    ensures |r| == |rounds|
  {
    if rounds == [] then [] else [Retrigger(rounds[0], o)] + Retriggers(rounds[1..], o)
  }

  /** The calls that answer a failed run when nothing goes wrong. */
  function Reaction(pr: Run, sha: string): seq<Call> {
    [RemoveFinalizer(pr), Delete(pr), Trigger(pr, sha)]
  }

  lemma ReactionTriggers(pr: Run, sha: string)
    ensures Triggers(Reaction(pr, sha)) == [(pr, sha)]
  {
    var two := [RemoveFinalizer(pr), Delete(pr)];
    assert Reaction(pr, sha)[..2] == two;
    NoTriggers(two);
  }

  /** The calls after the lookups hold the round's retrigger, if it has one, and no other. */
  lemma SettleTriggers(r: Round, o: Options, lastAttempt: bool)
    ensures Triggers(Settle(r, o, lastAttempt).1) == if Retried(r, o) && !lastAttempt then [Retrigger(r, o)] else []
  {
    SettleRetried(r, o, lastAttempt);
    if Retried(r, o) && !lastAttempt {
      ReactionTriggers(Blamed(EndOf(r.polls).0).value, r.newSha.value);
    } else {
      NoTriggers(Settle(r, o, lastAttempt).1);
    }
  }

  lemma RoundTriggers(r: Round, o: Options, lastAttempt: bool, sha: string, eventType: string)
    ensures Triggers(RoundLog(r, o, lastAttempt, sha, eventType))
         == if Retried(r, o) && !lastAttempt then [Retrigger(r, o)] else []
  {
    var looks := Lookups(EndOf(r.polls).1, sha, eventType);
    NoTriggers(looks);
    SettleTriggers(r, o, lastAttempt);
    TriggersConcat(looks, Settle(r, o, lastAttempt).1);
  }

  /** The wait, one round at a time. */
  lemma WaitUnfolds(rounds: seq<Round>, o: Options, attempts: int, sha: string, eventType: string)
    requires rounds != []
    ensures var r, lastAttempt := rounds[0], attempts == o.retries + 1;
            var here := RoundLog(r, o, lastAttempt, sha, eventType);
            var (outcome, log) := Wait(rounds, o, attempts, sha, eventType);
            if Retried(r, o) && !lastAttempt then
              var rest := Wait(rounds[1..], o, attempts + 1, r.newSha.value, "");
              outcome == rest.0 && log == here + rest.1
            else
              Settle(r, o, lastAttempt).0 == Settled(outcome) && outcome != Waiting && log == here
  {
    SettleRetried(rounds[0], o, attempts == o.retries + 1);
  }

  lemma WaitStep(rounds: seq<Round>, o: Options, attempts: int, sha: string, eventType: string)
    requires rounds != []
    ensures var r, lastAttempt := rounds[0], attempts == o.retries + 1;
            var (outcome, log) := Wait(rounds, o, attempts, sha, eventType);
            if Retried(r, o) && !lastAttempt then
              var rest := Wait(rounds[1..], o, attempts + 1, r.newSha.value, "");
              outcome == rest.0 && Triggers(log) == [Retrigger(r, o)] + Triggers(rest.1)
            else
              Settle(r, o, lastAttempt).0 == Settled(outcome) && outcome != Waiting && Triggers(log) == []
  {
    var r, lastAttempt := rounds[0], attempts == o.retries + 1;
    WaitUnfolds(rounds, o, attempts, sha, eventType);
    RoundTriggers(r, o, lastAttempt, sha, eventType);
    if Retried(r, o) && !lastAttempt {
      var rest := Wait(rounds[1..], o, attempts + 1, r.newSha.value, "");
      TriggersConcat(RoundLog(r, o, lastAttempt, sha, eventType), rest.1);
    }
  }

  /** Outcome and retriggers of the wait, without its calls. */
  function Fate(rounds: seq<Round>, o: Options, attempts: int): (Outcome, seq<(Run, string)>)
    decreases |rounds|
  {
    if rounds == [] then (Waiting, [])
    else if Retried(rounds[0], o) && attempts != o.retries + 1 then
      var rest := Fate(rounds[1..], o, attempts + 1);
      (rest.0, [Retrigger(rounds[0], o)] + rest.1)
    else
      var verdict := Settle(rounds[0], o, attempts == o.retries + 1).0;
      (if verdict.Settled? then verdict.outcome else Waiting, [])
  }

  lemma {:induction false} WaitFate(rounds: seq<Round>, o: Options, attempts: int, sha: string, eventType: string)
    ensures var (outcome, log) := Wait(rounds, o, attempts, sha, eventType);
            (outcome, Triggers(log)) == Fate(rounds, o, attempts)
    decreases |rounds|
  {
    if rounds != [] {
      WaitStep(rounds, o, attempts, sha, eventType);
      if Retried(rounds[0], o) && attempts != o.retries + 1 {
        WaitFate(rounds[1..], o, attempts + 1, rounds[0].newSha.value, "");
      }
    }
  }

  lemma {:induction false} FateDecided(rounds: seq<Round>, o: Options, attempts: int, k: nat)
    requires k < |rounds| && forall i :: 0 <= i < k ==> Retried(rounds[i], o)
    requires attempts > o.retries + 1 || attempts + k <= o.retries + 1
    requires attempts + k == o.retries + 1 || !Retried(rounds[k], o)
    ensures Settle(rounds[k], o, attempts + k == o.retries + 1).0 == Settled(Fate(rounds, o, attempts).0)
    ensures Fate(rounds, o, attempts).1 == Retriggers(rounds[..k], o)
    decreases k
  {
    if k == 0 {
      SettleRetried(rounds[0], o, attempts == o.retries + 1);
    } else {
      FateDecided(rounds[1..], o, attempts + 1, k - 1);
      assert rounds[..k][1..] == rounds[1..][..k - 1];
    }
  }

  lemma {:induction false} FateOpen(rounds: seq<Round>, o: Options, attempts: int)
    requires forall i :: 0 <= i < |rounds| ==> Retried(rounds[i], o)
    requires attempts > o.retries + 1 || attempts + |rounds| <= o.retries + 1
    ensures Fate(rounds, o, attempts) == (Waiting, Retriggers(rounds, o))
    decreases |rounds|
  {
    if rounds != [] { FateOpen(rounds[1..], o, attempts + 1); }
  }

  /**
   The first round that is not retried, or the one after the last retry, settles the
   outcome; the retriggers are those of the rounds before it, one each.
   */
  lemma FirstSettledDecides(rounds: seq<Round>, o: Options, attempts: int, sha: string, eventType: string, k: nat)
    requires k < |rounds| && forall i :: 0 <= i < k ==> Retried(rounds[i], o)
    requires attempts > o.retries + 1 || attempts + k <= o.retries + 1
    requires attempts + k == o.retries + 1 || !Retried(rounds[k], o)
    ensures var (outcome, log) := Wait(rounds, o, attempts, sha, eventType);
            && Settle(rounds[k], o, attempts + k == o.retries + 1).0 == Settled(outcome)
            && Triggers(log) == Retriggers(rounds[..k], o)
  {
    WaitFate(rounds, o, attempts, sha, eventType);
    FateDecided(rounds, o, attempts, k);
  }

  /** As long as every round is retried the wait goes on. */
  lemma StillWaiting(rounds: seq<Round>, o: Options, attempts: int, sha: string, eventType: string)
    requires forall i :: 0 <= i < |rounds| ==> Retried(rounds[i], o)
    requires attempts > o.retries + 1 || attempts + |rounds| <= o.retries + 1
    ensures var (outcome, log) := Wait(rounds, o, attempts, sha, eventType);
            outcome == Waiting && Triggers(log) == Retriggers(rounds, o)
  {
    WaitFate(rounds, o, attempts, sha, eventType);
    FateOpen(rounds, o, attempts);
  }

  /** With `Retries >= 0` there are at most `Retries` retriggers, and `Retries + 1` rounds settle the outcome. */
  lemma BoundedRetriggers(rounds: seq<Round>, o: Options, attempts: int, sha: string, eventType: string)
    requires attempts <= o.retries + 1
    ensures var (outcome, log) := Wait(rounds, o, attempts, sha, eventType);
            && |Triggers(log)| <= o.retries + 1 - attempts
            && (|rounds| > o.retries + 1 - attempts ==> outcome != Waiting)
  {
    var k := FirstStop(rounds, o, o.retries + 1 - attempts);
    if k == |rounds| {
      StillWaiting(rounds, o, attempts, sha, eventType);
    } else {
      FirstSettledDecides(rounds, o, attempts, sha, eventType, k);
    }
  }

  /** The first of the rounds that is not retried, `n` being the one that may not be. */
  lemma {:induction false} FirstStop(rounds: seq<Round>, o: Options, n: nat) returns (k: nat)
    ensures k <= |rounds| && k <= n && forall i :: 0 <= i < k ==> Retried(rounds[i], o)
    ensures k < |rounds| && k < n ==> !Retried(rounds[k], o)
    decreases n
  {
    k := 0;
    if n > 0 && rounds != [] && Retried(rounds[0], o) {
      var j := FirstStop(rounds[1..], o, n - 1);
      k := j + 1;
    }
  }

  /** With negative `Retries` nothing bounds them: any number of failing rounds is retriggered. */
  lemma UnboundedRetriggers(rounds: seq<Round>, o: Options, sha: string, eventType: string)
    requires o.retries < 0 && forall i :: 0 <= i < |rounds| ==> Retried(rounds[i], o)
    ensures var (outcome, log) := Wait(rounds, o, 1, sha, eventType);
            outcome == Waiting && |Triggers(log)| == |rounds|
  {
    StillWaiting(rounds, o, 1, sha, eventType);
  }

  // ----- The order of the calls -----

  /**
   A run is deleted right after its finalizer is removed, and retriggered right after
   it is deleted; only runs that did not succeed are, and without `Always` only those
   with one of the two reasons.
   */
  predicate Disciplined(log: seq<Call>, o: Options) {
    forall i :: 0 <= i < |log| ==> Allowed(log, i, o)
  }

  predicate Allowed(log: seq<Call>, i: nat, o: Options)
    requires i < |log|
  {
    match log[i]
    case Lookup(_, _) => true
    case RemoveFinalizer(run) => i >= 1 && log[i - 1].Lookup? && run.status != Succeeded && Retryable(run, o)
    case Delete(run) => i >= 2 && log[i - 1] == RemoveFinalizer(run)
    case Trigger(run, _) => i >= 3 && log[i - 1] == Delete(run) && log[i - 2] == RemoveFinalizer(run)
  }

  lemma DisciplinedConcat(a: seq<Call>, b: seq<Call>, o: Options)
    requires Disciplined(a, o) && Disciplined(b, o)
    ensures Disciplined(a + b, o)
  {
    var c := a + b;
    forall i | 0 <= i < |c| ensures Allowed(c, i, o) {
      if i < |a| {
        assert Allowed(a, i, o);
      } else {
        assert Allowed(b, i - |a|, o);
      }
    }
  }

  /** What is called after the lookups: nothing, or some of three calls about the run to blame. */
  lemma SettleCalls(r: Round, o: Options, lastAttempt: bool)
    ensures var (e, n) := EndOf(r.polls);
            var calls := Settle(r, o, lastAttempt).1;
            calls != [] ==>
              && n > 0 && Blamed(e).Some? && Retryable(Blamed(e).value, o) && Blamed(e).value.status != Succeeded
              && exists sha :: calls <= Reaction(Blamed(e).value, sha)
  {
    EndOfEnds(r.polls);
    var calls := Settle(r, o, lastAttempt).1;
    if calls != [] {
      var sha := if r.newSha.Some? then r.newSha.value else "";
      assert calls <= Reaction(Blamed(EndOf(r.polls).0).value, sha);
    }
  }

  lemma ReactionDisciplined(n: nat, sha: string, eventType: string, calls: seq<Call>, pr: Run, newSha: string, o: Options)
    requires n > 0 && calls <= Reaction(pr, newSha) && pr.status != Succeeded && Retryable(pr, o)
    ensures Disciplined(Lookups(n, sha, eventType) + calls, o)
  {
    var log := Lookups(n, sha, eventType) + calls;
    forall i | 0 <= i < |log| ensures Allowed(log, i, o) {
      assert log[n - 1].Lookup?;
      assert i >= n ==> log[i] == Reaction(pr, newSha)[i - n];
    }
  }

  lemma RoundDisciplined(r: Round, o: Options, lastAttempt: bool, sha: string, eventType: string)
    ensures Disciplined(RoundLog(r, o, lastAttempt, sha, eventType), o)
  {
    var (e, n) := EndOf(r.polls);
    var calls := Settle(r, o, lastAttempt).1;
    SettleCalls(r, o, lastAttempt);
    if calls != [] {
      var newSha :| calls <= Reaction(Blamed(e).value, newSha);
      ReactionDisciplined(n, sha, eventType, calls, Blamed(e).value, newSha, o);
    }
  }

  lemma {:induction false} CallsDisciplined(rounds: seq<Round>, o: Options, attempts: int, sha: string, eventType: string)
    ensures Disciplined(Wait(rounds, o, attempts, sha, eventType).1, o)
    decreases |rounds|
  {
    if rounds != [] {
      var r := rounds[0];
      var lastAttempt := attempts == o.retries + 1;
      RoundDisciplined(r, o, lastAttempt, sha, eventType);
      if Settle(r, o, lastAttempt).0.Again? {
        CallsDisciplined(rounds[1..], o, attempts + 1, r.newSha.value, "");
        DisciplinedConcat(RoundLog(r, o, lastAttempt, sha, eventType),
                          Wait(rounds[1..], o, attempts + 1, r.newSha.value, "").1, o);
      }
    }
  }

  /** What a lookup must ask for after the calls of a log: the newest sha, and no event type once there was a retrigger. */
  function Query(log: seq<Call>, sha: string, eventType: string): (string, string) {
    var ts := Triggers(log);
    if ts == [] then (sha, eventType) else (ts[|ts| - 1].1, "")
  }

  predicate Asks(log: seq<Call>, sha: string, eventType: string) {
    forall i :: 0 <= i < |log| && log[i].Lookup? ==> (log[i].sha, log[i].eventType) == Query(log[..i], sha, eventType)
  }

  lemma AsksConcat(a: seq<Call>, b: seq<Call>, sha: string, eventType: string)
    requires Asks(a, sha, eventType) && Asks(b, Query(a, sha, eventType).0, Query(a, sha, eventType).1)
    ensures Asks(a + b, sha, eventType)
  {
    var c := a + b;
    forall i | 0 <= i < |c| && c[i].Lookup? ensures (c[i].sha, c[i].eventType) == Query(c[..i], sha, eventType) {
      if i < |a| {
        assert c[..i] == a[..i];
      } else {
        var j := i - |a|;
        assert b[j].Lookup? && c[..i] == a + b[..j];
        TriggersConcat(a, b[..j]);
      }
    }
  }

  lemma RoundAsks(r: Round, o: Options, lastAttempt: bool, sha: string, eventType: string)
    ensures Asks(RoundLog(r, o, lastAttempt, sha, eventType), sha, eventType)
  {
    var looks, calls := Lookups(EndOf(r.polls).1, sha, eventType), Settle(r, o, lastAttempt).1;
    var log := looks + calls;
    forall i | 0 <= i < |log| && log[i].Lookup? ensures (log[i].sha, log[i].eventType) == Query(log[..i], sha, eventType) {
      assert i < |looks|;
      NoTriggers(log[..i]);
    }
  }

  /** After a retrigger the lookups of the next rounds ask for its sha. */
  lemma RetriggerAsks(r: Round, o: Options, sha: string, eventType: string, rest: seq<Call>)
    requires Retried(r, o) && Asks(rest, r.newSha.value, "")
    ensures Asks(RoundLog(r, o, false, sha, eventType) + rest, sha, eventType)
  {
    RoundAsks(r, o, false, sha, eventType);
    RoundTriggers(r, o, false, sha, eventType);
    AsksConcat(RoundLog(r, o, false, sha, eventType), rest, sha, eventType);
  }

  /** Every lookup asks for the sha of the latest retrigger and, from then on, for any event type. */
  lemma {:induction false} LookupsFollow(rounds: seq<Round>, o: Options, attempts: int, sha: string, eventType: string)
    ensures Asks(Wait(rounds, o, attempts, sha, eventType).1, sha, eventType)
    decreases |rounds|
  {
    if rounds != [] {
      var r := rounds[0];
      var lastAttempt := attempts == o.retries + 1;
      WaitUnfolds(rounds, o, attempts, sha, eventType);
      if Retried(r, o) && !lastAttempt {
        LookupsFollow(rounds[1..], o, attempts + 1, r.newSha.value, "");
        RetriggerAsks(r, o, sha, eventType, Wait(rounds[1..], o, attempts + 1, r.newSha.value, "").1);
      } else {
        RoundAsks(r, o, lastAttempt, sha, eventType);
      }
    }
  }

  // ----- Outcomes -----

  /** Success comes from a succeeded run, found by the last poll of the round after the last retrigger. */
  lemma {:induction false} SuccessIsReal(rounds: seq<Round>, o: Options, attempts: int, sha: string, eventType: string)
    ensures var (outcome, log) := Wait(rounds, o, attempts, sha, eventType);
            outcome.Finished? ==>
              var k := |Triggers(log)|;
              && k < |rounds| && outcome.run.status == Succeeded
              && exists n: nat :: EndsAs(rounds[k].polls, n, Good(outcome.run))
    decreases |rounds|
  {
    if rounds != [] {
      var r := rounds[0];
      WaitStep(rounds, o, attempts, sha, eventType);
      if Retried(r, o) && attempts != o.retries + 1 {
        SuccessIsReal(rounds[1..], o, attempts + 1, r.newSha.value, "");
      } else {
        EndOfEnds(r.polls);
      }
    }
  }

  /**
   The code dereferences a missing run exactly when a round runs out of time, its last
   lookup failed and an earlier one had found a run.
   */
  lemma NilRunExactly(r: Round, o: Options, lastAttempt: bool)
    ensures Settle(r, o, lastAttempt).0 == Settled(NilRun) <==>
              var n := |r.polls|;
              && n > 0 && r.polls[n - 1].Missing? && SomeFinds(r.polls, n)
              && forall i: nat :: i < n ==> !Decides(r.polls, i)
  {
    var (e, m) := EndOf(r.polls);
    var n := |r.polls|;
    EndOfEnds(r.polls);
    if n > 0 && r.polls[n - 1].Missing? && SomeFinds(r.polls, n) && forall i: nat :: i < n ==> !Decides(r.polls, i) {
      EndingUnique(r.polls, n, Expired(None, true), m, e);
    }
  }

  // ----- Which polls lead to which outcome -----

  /** None of the first `n` polls found a run that is done, or no run at all more than 300 seconds into the round. */
  predicate Undecided(polls: seq<Poll>, n: nat)
    requires n <= |polls|
  {
    forall i: nat :: i < n ==>
      match polls[i]
      case Got(_, run) => run.status == Unknown
      case Missing(at) => at <= 300 || SomeFinds(polls, i)
  }

  /** Poll `n` is the first to find the run done. */
  predicate DoneAt(polls: seq<Poll>, n: nat, run: Run) {
    n < |polls| && Undecided(polls, n) && polls[n].Got? && polls[n].run == run && run.status != Unknown
  }

  /** Poll `n` is the first to give up on a run that was never there. */
  predicate AbsentAt(polls: seq<Poll>, n: nat) {
    n < |polls| && Undecided(polls, n) && polls[n].Missing? && polls[n].at > 300 && !SomeFinds(polls, n)
  }

  /** The run is not retriggered: no attempt is left, or it failed for a reason that is not retried. */
  predicate NoRetry(run: Run, o: Options, lastAttempt: bool) {
    lastAttempt || (!o.always && run.reason != "CouldntGetTask" && run.reason != "TaskRunImagePullFailed")
  }

  lemma UndecidedMeans(polls: seq<Poll>, n: nat)
    requires n <= |polls|
    ensures Undecided(polls, n) <==> forall i: nat :: i < n ==> !Decides(polls, i)
  {
    forall i: nat | i < n
      ensures Decides(polls, i) <==> match polls[i] case Got(_, run) => run.status != Unknown case Missing(at) => at > 300 && !SomeFinds(polls, i)
    {
    }
  }

  lemma EndIs(polls: seq<Poll>, n: nat, e: Ending)
    requires EndsAs(polls, n, e)
    ensures EndOf(polls) == (e, n)
  {
    EndOfEnds(polls);
    EndingUnique(polls, n, e, EndOf(polls).1, EndOf(polls).0);
  }

  /** The endings of a round, in terms of its polls alone. */
  lemma EndsWhen(polls: seq<Poll>)
    ensures forall run :: EndOf(polls).0 == Good(run) <==> exists n: nat :: DoneAt(polls, n, run) && run.status == Succeeded
    ensures forall run :: EndOf(polls).0 == Bad(run) <==> exists n: nat :: DoneAt(polls, n, run) && run.status == Failed
    ensures EndOf(polls).0 == Absent <==> exists n: nat :: AbsentAt(polls, n)
    ensures EndOf(polls).0.Expired? <==> Undecided(polls, |polls|)
  {
    var (e, m) := EndOf(polls);
    EndOfEnds(polls);
    UndecidedMeans(polls, |polls|);
    if m > 0 { UndecidedMeans(polls, m - 1); }
    if Undecided(polls, |polls|) {
      var n := |polls|;
      EndIs(polls, n, Expired(if n > 0 && polls[n - 1].Got? then Some(polls[n - 1].run) else None, SomeFinds(polls, n)));
    }
    forall run, n: nat | DoneAt(polls, n, run) ensures e == if run.status == Succeeded then Good(run) else Bad(run) {
      UndecidedMeans(polls, n);
      EndIs(polls, n + 1, if run.status == Succeeded then Good(run) else Bad(run));
    }
    forall n: nat | AbsentAt(polls, n) ensures e == Absent {
      UndecidedMeans(polls, n);
      EndIs(polls, n + 1, Absent);
    }
    if e.Good? || e.Bad? { assert DoneAt(polls, m - 1, e.run); }
    if e.Absent? { assert AbsentAt(polls, m - 1); }
  }

  /** A round without a retrigger: what the polls must have been for each outcome. */
  lemma OutcomeExactly(r: Round, o: Options, lastAttempt: bool)
    ensures var verdict, polls := Settle(r, o, lastAttempt).0, r.polls;
            var n := |polls|;
            && (forall run :: verdict == Settled(Finished(run)) <==>
                  exists k: nat :: DoneAt(polls, k, run) && run.status == Succeeded)
            && (forall run :: verdict == Settled(RunError(run)) <==>
                  NoRetry(run, o, lastAttempt) && exists k: nat :: DoneAt(polls, k, run) && run.status == Failed)
            && (verdict == Settled(TimedOut) <==>
                  n > 0 && Undecided(polls, n) && polls[n - 1].Got? && NoRetry(polls[n - 1].run, o, lastAttempt))
            && (verdict == Settled(NotCreated) <==>
                  (exists k: nat :: AbsentAt(polls, k)) || (Undecided(polls, n) && !SomeFinds(polls, n)))
  {
    EndOfEnds(r.polls);
    EndsWhen(r.polls);
    var e := EndOf(r.polls).0;
    if e.Expired? && |r.polls| > 0 && r.polls[|r.polls| - 1].Got? { assert Finds(r.polls[|r.polls| - 1]); }
  }
}
