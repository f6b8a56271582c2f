/**
 The cluster-wide repository lock (tests/integration-service/group-snapshots-tests.go):
 one ConfigMap that any number of concurrent tests read, delete and create.

 Each API call of the polling closure is a step of its own, so tests interleave
 between any two calls; they may also crash, and calls may fail. Time is in
 nanoseconds on one clock.
 */
module RepoLock {
  import opened GoStrings

  type TestId = nat

  const SECOND: nat := 1_000_000_000
  const MINUTE: nat := 60 * SECOND
  const STALE: nat := 45 * MINUTE
  const LIMIT: nat := 60 * MINUTE

  /** The ConfigMap: who made it, and the time it was made, in whole seconds. */
  datatype Lock = Lock(owner: TestId, stamp: nat)

  datatype Phase =
    | Waiting                // between two polls
    | Found(stamp: nat)      // Get returned a lock with this timestamp
    | FoundStale             // and it was judged stale: Delete comes next
    | FoundNone              // Get returned an error: the lock is made next
    | Stamped(stamp: nat)    // the new lock is ready: Create comes next
    | Holding(stamp: nat)
    | Finished
    | Crashed

  /** `started` has the time of each test's first poll. */
  datatype State = State(now: nat, cm: Option<Lock>, phases: map<TestId, Phase>, started: map<TestId, nat>)

  datatype Step =
    | Tick(d: nat)
    | Get(t: TestId)
    | GetFails(t: TestId)
    | Inspect(t: TestId)
    | DeleteStale(t: TestId)
    | DeleteStaleFails(t: TestId)
    | Stamp(t: TestId)
    | Create(t: TestId)
    | CreateFails(t: TestId)
    | Release(t: TestId)
    | ReleaseFails(t: TestId)
    | GiveUp(t: TestId)      // no lock within the limit: AfterAll deletes it all the same
    | Crash(t: TestId)
    | TakeOver(t: TestId)    // not in the source: Get, Inspect and DeleteStale as one step

  function PhaseOf(s: State, t: TestId): Phase {
    if t in s.phases then s.phases[t] else Waiting
  }

  predicate IsHolding(s: State, t: TestId) {
    PhaseOf(s, t).Holding?
  }

  function Truncated(now: nat): nat {
    now - now % SECOND
  }

  predicate IsStale(now: nat, stamp: nat) {
    now > stamp + STALE
  }

  /** The test may still poll: its waiting time is not over. */
  predicate InTime(s: State, t: TestId) {
    t in s.started ==> s.now <= s.started[t] + LIMIT
  }

  /** The test has polled for as long as it may. */
  predicate TimedOut(s: State, t: TestId) {
    t in s.started && s.now >= s.started[t] + LIMIT
  }

  predicate Enabled(s: State, e: Step) {
    match e
    case Tick(_) => true
    case Get(t) => PhaseOf(s, t).Waiting? && InTime(s, t)
    case GetFails(t) => PhaseOf(s, t).Waiting? && InTime(s, t)
    case Inspect(t) => PhaseOf(s, t).Found?
    case DeleteStale(t) => PhaseOf(s, t).FoundStale?
    case DeleteStaleFails(t) => PhaseOf(s, t).FoundStale?
    case Stamp(t) => PhaseOf(s, t).FoundNone?
    case Create(t) => PhaseOf(s, t).Stamped?
    case CreateFails(t) => PhaseOf(s, t).Stamped?
    case Release(t) => IsHolding(s, t)
    case ReleaseFails(t) => IsHolding(s, t)
    case GiveUp(t) => PhaseOf(s, t).Waiting? && TimedOut(s, t)
    case Crash(t) => true
    case TakeOver(t) =>
      PhaseOf(s, t).Waiting? && InTime(s, t) && s.cm.Some? && IsStale(s.now, s.cm.value.stamp)
  }

  function Move(s: State, t: TestId, p: Phase): State {
    s.(phases := s.phases[t := p])
  }

  /** A test's first poll starts its waiting time. */
  function Started(s: State, t: TestId): State {
    if t in s.started then s else s.(started := s.started[t := s.now])
  }

  function Apply(s: State, e: Step): State
    requires Enabled(s, e)
  {
    match e
    case Tick(d) => s.(now := s.now + d)
    case Get(t) => Move(Started(s, t), t, if s.cm.Some? then Found(s.cm.value.stamp) else FoundNone)
    case GetFails(t) => Move(Started(s, t), t, FoundNone)
    case Inspect(t) => Move(s, t, if IsStale(s.now, PhaseOf(s, t).stamp) then FoundStale else Waiting)
    case DeleteStale(t) => Move(s.(cm := None), t, Waiting)
    case DeleteStaleFails(t) => Move(s, t, Waiting)
    case Stamp(t) => Move(s, t, Stamped(Truncated(s.now)))
    case Create(t) =>
      var stamp := PhaseOf(s, t).stamp;
      if s.cm.None? then Move(s.(cm := Some(Lock(t, stamp))), t, Holding(stamp)) else Move(s, t, Waiting)
    case CreateFails(t) => Move(s, t, Waiting)
    case Release(t) => Move(s.(cm := None), t, Finished)
    case ReleaseFails(t) => Move(s, t, Finished)
    case GiveUp(t) => Move(s.(cm := None), t, Finished)
    case Crash(t) => Move(s, t, Crashed)
    case TakeOver(t) => Started(s.(cm := None), t)
  }

  /** Every step of the run is enabled when its turn comes. */
  predicate Valid(s: State, run: seq<Step>)
    decreases run
  {
    run != [] ==> Enabled(s, run[0]) && Valid(Apply(s, run[0]), run[1..])
  }

  /** The states a run goes through, the first and the last included. */
  function States(s: State, run: seq<Step>): (r: seq<State>)
    requires Valid(s, run)
    ensures |r| == |run| + 1 && r[0] == s
    decreases run
  {
    [s] + if run == [] then [] else States(Apply(s, run[0]), run[1..])
  }

  const INIT := State(0, None, map[], map[])

  lemma OneMore(s: State, a: Step, b: Step)
    requires Enabled(s, a) && Enabled(Apply(s, a), b)
    ensures Valid(s, [a, b]) && States(s, [a, b])[2] == Apply(Apply(s, a), b)
  {
    var s1 := Apply(s, a);
    assert [a, b][1..] == [b] && [b][1..] == [];
    assert Valid(Apply(s1, b), []) && Valid(s1, [b]);
    assert States(s1, [b]) == [s1] + States(Apply(s1, b), []);
    assert States(s, [a, b]) == [s] + States(s1, [b]);
  }

  lemma TwoMore(s: State, a: Step, b: Step, c: Step)
    requires Enabled(s, a) && Enabled(Apply(s, a), b) && Enabled(Apply(Apply(s, a), b), c)
    ensures Valid(s, [a, b, c]) && States(s, [a, b, c])[3] == Apply(Apply(Apply(s, a), b), c)
  {
    var s1 := Apply(s, a);
    assert [a, b, c][1..] == [b, c];
    OneMore(s1, b, c);
    assert States(s, [a, b, c]) == [s] + States(s1, [b, c]);
  }

  /** The state after a test found no lock and made its own. */
  function Acquired(s: State, t: TestId): State {
    var stamp := Truncated(s.now);
    Move(Started(s, t).(cm := Some(Lock(t, stamp))), t, Holding(stamp))
  }

  lemma AcquireSteps(s: State, t: TestId)
    requires PhaseOf(s, t).Waiting? && InTime(s, t) && s.cm.None?
    ensures Enabled(s, Get(t)) && Enabled(Apply(s, Get(t)), Stamp(t))
    ensures Enabled(Apply(Apply(s, Get(t)), Stamp(t)), Create(t))
    ensures Apply(Apply(Apply(s, Get(t)), Stamp(t)), Create(t)) == Acquired(s, t)
  {
    var s1 := Apply(s, Get(t));
    var s2 := Apply(s1, Stamp(t));
    assert Apply(s2, Create(t)).phases == s.phases[t := Holding(Truncated(s.now))];
  }

  /** The state after a test looked at a lock: about to delete a stale one, waiting otherwise. */
  function Looked(s: State, t: TestId): State
    requires s.cm.Some?
  {
    Move(Started(s, t), t, if IsStale(s.now, s.cm.value.stamp) then FoundStale else Waiting)
  }

  lemma LookSteps(s: State, t: TestId)
    requires PhaseOf(s, t).Waiting? && InTime(s, t) && s.cm.Some?
    ensures Enabled(s, Get(t)) && Enabled(Apply(s, Get(t)), Inspect(t))
    ensures Apply(Apply(s, Get(t)), Inspect(t)) == Looked(s, t)
  {
    assert Apply(Apply(s, Get(t)), Inspect(t)).phases == Looked(s, t).phases;
  }

  // ----- What mutual exclusion rests on -----

  /** At most one live test holds the lock. */
  predicate MutuallyExclusive(s: State) {
    forall t, u | t in s.phases && u in s.phases :: IsHolding(s, t) && IsHolding(s, u) ==> t == u
  }

  /** The lock of every live holder is the one in the cluster. */
  predicate Intact(s: State) {
    forall t | t in s.phases :: IsHolding(s, t) ==> s.cm == Some(Lock(t, s.phases[t].stamp))
  }

  /** The lock in the cluster belongs to a live holder. */
  predicate Live(s: State) {
    s.cm.Some? && IsHolding(s, s.cm.value.owner)
  }

  /** Steps that delete a lock without holding it. */
  predicate DeletesBlindly(e: Step) {
    e.DeleteStale? || e.GiveUp? || e.TakeOver?
  }

  lemma IntactExcludes(s: State)
    requires Intact(s)
    ensures MutuallyExclusive(s)
  {
  }

  /** One step keeps every holder's lock in place exactly when it does not delete a live one blindly. */
  lemma StepIntact(s: State, e: Step)
    requires Enabled(s, e) && Intact(s)
    ensures Intact(Apply(s, e)) <==> !(DeletesBlindly(e) && Live(s))
  {
    var s' := Apply(s, e);
    if DeletesBlindly(e) && Live(s) {
      var owner := s.cm.value.owner;
      assert owner in s.phases;
      assert IsHolding(s', owner) && s'.cm.None?;
    }
  }

  /** The run deletes no lock of a live holder blindly. */
  predicate Respectful(s: State, run: seq<Step>)
    requires Valid(s, run)
    decreases run
  {
    run != [] ==>
      !(DeletesBlindly(run[0]) && Live(s)) && Respectful(Apply(s, run[0]), run[1..])
  }

  predicate AlwaysIntact(s: State, run: seq<Step>)
    requires Valid(s, run)
  {
    forall r <- States(s, run) :: Intact(r)
  }

  /** Holders' locks stay in place throughout iff no live lock is deleted blindly. */
  lemma {:induction false} IntactIffRespectful(s: State, run: seq<Step>)
    requires Valid(s, run) && Intact(s)
    ensures AlwaysIntact(s, run) <==> Respectful(s, run)
    decreases run
  {
    if run != [] {
      var s', rest := Apply(s, run[0]), run[1..];
      StepIntact(s, run[0]);
      assert States(s, run) == [s] + States(s', rest);
      assert s' == States(s', rest)[0];
      assert s' in States(s, run);
      if Intact(s') {
        IntactIffRespectful(s', rest);
        assert forall r :: r in States(s, run) <==> r == s || r in States(s', rest);
      }
    }
  }

  predicate AlwaysExclusive(s: State, run: seq<Step>)
    requires Valid(s, run)
  {
    forall r <- States(s, run) :: MutuallyExclusive(r)
  }

  lemma RespectfulExcludes(s: State, run: seq<Step>)
    requires Valid(s, run) && Intact(s) && Respectful(s, run)
    ensures AlwaysExclusive(s, run)
  {
    IntactIffRespectful(s, run);
    forall r <- States(s, run) ensures MutuallyExclusive(r) { IntactExcludes(r); }
  }

  predicate NothingBlind(run: seq<Step>) {
    forall e <- run :: !DeletesBlindly(e)
  }

  /** Exclusion holds, and goes on holding for as long as nobody deletes blindly. */
  ghost predicate Secure(s: State) {
    forall more | Valid(s, more) && NothingBlind(more) :: AlwaysExclusive(s, more)
  }

  lemma {:induction false} NothingBlindRespectful(s: State, run: seq<Step>)
    requires Valid(s, run) && NothingBlind(run)
    ensures Respectful(s, run)
    decreases run
  {
    if run != [] {
      assert run[0] in run;
      NothingBlindRespectful(Apply(s, run[0]), run[1..]);
    }
  }

  lemma IntactSecure(s: State)
    requires Intact(s)
    ensures Secure(s)
  {
    forall more | Valid(s, more) && NothingBlind(more) ensures AlwaysExclusive(s, more) {
      NothingBlindRespectful(s, more);
      RespectfulExcludes(s, more);
    }
  }

  lemma {:induction false} Unused(ids: set<TestId>) returns (n: TestId)
    ensures forall id <- ids :: id < n
    decreases |ids|
  {
    if ids == {} {
      n := 0;
    } else {
      var id :| id in ids;
      var m := Unused(ids - {id});
      assert ids == ids - {id} + {id};
      n := if id < m then m else id + 1;
    }
  }

  /** Once a live holder's lock is gone, the next test to come along holds it too. */
  lemma RobbedNotSecure(s: State, owner: TestId)
    requires IsHolding(s, owner) && s.cm.None?
    ensures !Secure(s)
  {
    var n := Unused(s.phases.Keys + s.started.Keys);
    assert owner in s.phases.Keys + s.started.Keys;
    assert n !in s.phases.Keys + s.started.Keys;
    var run := [Get(n), Stamp(n), Create(n)];
    TwoMore(s, Get(n), Stamp(n), Create(n));
    var r := States(s, run)[3];
    assert r in States(s, run) && IsHolding(r, owner) && IsHolding(r, n);
    assert NothingBlind(run);
  }

  /**
   The exact condition for mutual exclusion: it holds in every state of a run, and
   however the run goes on from there without blind deletions, if and only if the
   run deletes no lock of a live holder blindly.
   */
  lemma {:induction false} ExclusionIffRespectful(s: State, run: seq<Step>)
    requires Valid(s, run) && Intact(s)
    ensures (forall r <- States(s, run) :: Secure(r)) <==> Respectful(s, run)
    decreases run
  {
    IntactSecure(s);
    if run != [] {
      var s', rest := Apply(s, run[0]), run[1..];
      assert States(s, run) == [s] + States(s', rest);
      assert s' == States(s', rest)[0] && s' in States(s, run);
      StepIntact(s, run[0]);
      if Intact(s') {
        ExclusionIffRespectful(s', rest);
        assert forall r :: r in States(s, run) <==> r == s || r in States(s', rest);
      } else {
        RobbedNotSecure(s', s.cm.value.owner);
      }
    }
  }

  // ----- As coded: while no lock is ever seen stale -----

  /** No poll of the run judges a lock stale, nobody releases without holding, and each call is its own step. */
  predicate NeverStale(s: State, run: seq<Step>)
    requires Valid(s, run)
    decreases run
  {
    run != [] ==>
      && !run[0].GiveUp? && !run[0].TakeOver?
      && (run[0].Inspect? ==> !IsStale(s.now, PhaseOf(s, run[0].t).stamp))
      && NeverStale(Apply(s, run[0]), run[1..])
  }

  predicate NobodyDeleting(s: State) {
    forall t | t in s.phases :: !s.phases[t].FoundStale?
  }

  lemma {:induction false} NeverStaleRespectful(s: State, run: seq<Step>)
    requires Valid(s, run) && NeverStale(s, run) && NobodyDeleting(s)
    ensures Respectful(s, run)
    decreases run
  {
    if run != [] {
      NeverStaleRespectful(Apply(s, run[0]), run[1..]);
    }
  }

  /** Any number of tests, any interleaving, any crashes and failing calls: no two live holders. */
  lemma ExclusionWhileFresh(run: seq<Step>)
    requires Valid(INIT, run) && NeverStale(INIT, run)
    ensures AlwaysExclusive(INIT, run)
  {
    NeverStaleRespectful(INIT, run);
    RespectfulExcludes(INIT, run);
  }

  // ----- With an atomic take-over -----

  /** No live holder's lock is older than the limit. */
  predicate Prompt(s: State) {
    forall t | t in s.phases :: IsHolding(s, t) ==> !IsStale(s.now, s.phases[t].stamp)
  }

  /** Stale locks are deleted in one step with their Get; only holders release, and in time. */
  predicate AtomicAndPrompt(s: State, run: seq<Step>)
    requires Valid(s, run)
    decreases run
  {
    && Prompt(s)
    && (run != [] ==>
          && !run[0].GiveUp? && !run[0].DeleteStale?
          && AtomicAndPrompt(Apply(s, run[0]), run[1..]))
  }

  lemma PromptNotTakenOver(s: State, e: Step)
    requires Enabled(s, e) && Intact(s) && Prompt(s) && !e.GiveUp? && !e.DeleteStale?
    ensures !(DeletesBlindly(e) && Live(s)) && Intact(Apply(s, e))
  {
    StepIntact(s, e);
  }

  lemma {:induction false} AtomicRespectful(s: State, run: seq<Step>)
    requires Valid(s, run) && Intact(s) && AtomicAndPrompt(s, run)
    ensures Respectful(s, run)
    decreases run
  {
    if run != [] {
      PromptNotTakenOver(s, run[0]);
      AtomicRespectful(Apply(s, run[0]), run[1..]);
    }
  }

  /** With Get and the deletion of a stale lock as one step, exclusion holds whenever holders are prompt. */
  lemma ExclusionWhenAtomic(run: seq<Step>)
    requires Valid(INIT, run) && AtomicAndPrompt(INIT, run)
    ensures AlwaysExclusive(INIT, run)
  {
    AtomicRespectful(INIT, run);
    RespectfulExcludes(INIT, run);
  }

  // ----- As coded, a stale lock breaks exclusion -----

  /** The run takes only steps of the source, and nobody releases what they do not hold. */
  predicate AsCoded(run: seq<Step>) {
    forall e <- run :: !e.GiveUp? && !e.TakeOver?
  }

  /** The run leads from `s` to `t`, through states in which every holder is prompt. */
  predicate Leads(s: State, run: seq<Step>, t: State)
    decreases run
  {
    && Prompt(s)
    && if run == [] then s == t
       else Enabled(s, run[0]) && Leads(Apply(s, run[0]), run[1..], t)
  }

  lemma {:induction false} LeadsMeans(s: State, run: seq<Step>, t: State)
    requires Leads(s, run, t)
    ensures Valid(s, run) && States(s, run)[|run|] == t
    ensures forall r <- States(s, run) :: Prompt(r)
    decreases run
  {
    if run != [] {
      LeadsMeans(Apply(s, run[0]), run[1..], t);
    }
  }

  lemma {:induction false} LeadsConcat(s: State, a: seq<Step>, t: State, b: seq<Step>, u: State)
    requires Leads(s, a, t) && Leads(t, b, u)
    ensures Leads(s, a + b, u)
    decreases a
  {
    if a == [] {
      assert a + b == b;
    } else {
      assert (a + b)[0] == a[0] && (a + b)[1..] == a[1..] + b;
      LeadsConcat(Apply(s, a[0]), a[1..], t, b, u);
    }
  }

  lemma LeadsStep(s: State, e: Step)
    requires Enabled(s, e) && Prompt(s) && Prompt(Apply(s, e))
    ensures Leads(s, [e], Apply(s, e))
  {
    assert [e][1..] == [];
  }

  lemma LeadsThen(s: State, a: seq<Step>, t: State, e: Step) returns (run: seq<Step>, u: State)
    requires Leads(s, a, t) && Enabled(t, e) && Prompt(t) && Prompt(Apply(t, e))
    ensures run == a + [e] && u == Apply(t, e) && Leads(s, run, u)
  {
    LeadsStep(t, e);
    run, u := a + [e], Apply(t, e);
    LeadsConcat(s, a, t, [e], u);
  }

  /** A test that finds no lock makes one. */
  lemma LeadsAcquire(s: State, a: seq<Step>, t: State, id: TestId) returns (run: seq<Step>, u: State)
    requires Leads(s, a, t) && Prompt(t) && PhaseOf(t, id).Waiting? && InTime(t, id) && t.cm.None?
    ensures run == a + [Get(id)] + [Stamp(id)] + [Create(id)] && Leads(s, run, u) && u == Acquired(t, id)
  {
    AcquireSteps(t, id);
    run, u := LeadsThen(s, a, t, Get(id));
    run, u := LeadsThen(s, run, u, Stamp(id));
    run, u := LeadsThen(s, run, u, Create(id));
  }

  /** A test that finds a lock looks at its age. */
  lemma LeadsLook(s: State, a: seq<Step>, t: State, id: TestId) returns (run: seq<Step>, u: State)
    requires Leads(s, a, t) && Prompt(t) && PhaseOf(t, id).Waiting? && InTime(t, id) && t.cm.Some?
    ensures run == a + [Get(id)] + [Inspect(id)] && Leads(s, run, u) && u == Looked(t, id)
  {
    LookSteps(t, id);
    run, u := LeadsThen(s, a, t, Get(id));
    run, u := LeadsThen(s, run, u, Inspect(id));
  }

  /** Test 0 takes the lock and crashes, and its lock becomes stale. */
  lemma LeadsToStaleLock() returns (run: seq<Step>, s: State)
    ensures Leads(INIT, run, s) && AsCoded(run)
    ensures s == State(STALE + 1, Some(Lock(0, 0)), map[0 := Crashed], map[0 := 0])
  {
    assert Leads(INIT, [], INIT);
    run, s := LeadsAcquire(INIT, [], INIT, 0);
    run, s := LeadsThen(INIT, run, s, Crash(0));
    run, s := LeadsThen(INIT, run, s, Tick(STALE + 1));
    assert s.phases == map[0 := Crashed];
  }

  /** Tests 1 and 2 both see that lock stale. */
  lemma LeadsToTwoDeletes() returns (run: seq<Step>, s: State)
    ensures Leads(INIT, run, s) && AsCoded(run)
    ensures s.now == STALE + 1 && s.cm.Some? && s.started == map[0 := 0, 1 := STALE + 1, 2 := STALE + 1]
    ensures s.phases == map[0 := Crashed, 1 := FoundStale, 2 := FoundStale]
  {
    run, s := LeadsToStaleLock();
    run, s := LeadsLook(INIT, run, s, 1);
    run, s := LeadsLook(INIT, run, s, 2);
    assert s.phases == map[0 := Crashed, 1 := FoundStale, 2 := FoundStale];
    assert s.started == map[0 := 0, 1 := STALE + 1, 2 := STALE + 1];
  }

  /** Test 1 deletes it and takes the lock; test 2 has not come to its Delete yet. */
  lemma LeadsToNewHolder() returns (run: seq<Step>, s: State)
    ensures Leads(INIT, run, s) && AsCoded(run)
    ensures s.now == STALE + 1 && s.started == map[0 := 0, 1 := STALE + 1, 2 := STALE + 1]
    ensures s.phases == map[0 := Crashed, 1 := Holding(STALE), 2 := FoundStale]
  {
    run, s := LeadsToTwoDeletes();
    run, s := LeadsThen(INIT, run, s, DeleteStale(1));
    run, s := LeadsAcquire(INIT, run, s, 1);
    assert Truncated(STALE + 1) == STALE;
    assert s.phases == map[0 := Crashed, 1 := Holding(STALE), 2 := FoundStale];
  }

  lemma LeadsToSecondHolder() returns (run: seq<Step>, s: State)
    ensures Leads(INIT, run, s) && AsCoded(run) && IsHolding(s, 1) && IsHolding(s, 2)
  {
    run, s := LeadsToNewHolder();
    run, s := LeadsThen(INIT, run, s, DeleteStale(2));
    run, s := LeadsAcquire(INIT, run, s, 2);
  }

  /**
   Test 0 crashes holding the lock. Tests 1 and 2 both see it stale; 1 deletes it
   and makes its own, which 2 then deletes: its Delete does not look at what it
   deletes. All holders are prompt, and yet two tests hold the lock.
   */
  lemma StaleRace() returns (run: seq<Step>, s: State)
    ensures AsCoded(run) && Valid(INIT, run) && States(INIT, run)[|run|] == s
    ensures forall r <- States(INIT, run) :: Prompt(r)
    ensures IsHolding(s, 1) && IsHolding(s, 2) && !MutuallyExclusive(s)
  {
    run, s := LeadsToSecondHolder();
    LeadsMeans(INIT, run, s);
  }

  // ----- A test that waited in vain breaks it too -----

  predicate NoTakeover(run: seq<Step>) {
    forall e <- run :: !e.DeleteStale? && !e.TakeOver?
  }

  /** Test 1 starts to wait while test 0 holds the lock. */
  lemma LeadsToWaiting() returns (run: seq<Step>, s: State)
    ensures Leads(INIT, run, s) && NoTakeover(run)
    ensures s == State(0, Some(Lock(0, 0)), map[0 := Holding(0), 1 := Waiting], map[0 := 0, 1 := 0])
  {
    assert Leads(INIT, [], INIT);
    run, s := LeadsAcquire(INIT, [], INIT, 0);
    run, s := LeadsLook(INIT, run, s, 1);
    assert s.phases == map[0 := Holding(0), 1 := Waiting] && s.started == map[0 := 0, 1 := 0];
  }

  /** Test 0 releases it after 40 minutes. */
  lemma LeadsToRelease() returns (run: seq<Step>, s: State)
    ensures Leads(INIT, run, s) && NoTakeover(run)
    ensures s == State(40 * MINUTE, None, map[0 := Finished, 1 := Waiting], map[0 := 0, 1 := 0])
  {
    run, s := LeadsToWaiting();
    run, s := LeadsThen(INIT, run, s, Tick(40 * MINUTE));
    run, s := LeadsThen(INIT, run, s, Release(0));
    assert s.phases == map[0 := Finished, 1 := Waiting];
  }

  /** Test 3 gets the lock before test 1 polls again; 20 minutes later test 1 has waited for its 60. */
  lemma LeadsToTimeout() returns (run: seq<Step>, s: State)
    ensures Leads(INIT, run, s) && NoTakeover(run)
    ensures s.now == LIMIT && s.cm.Some? && s.started == map[0 := 0, 1 := 0, 3 := 40 * MINUTE]
    ensures s.phases == map[0 := Finished, 1 := Waiting, 3 := Holding(40 * MINUTE)]
  {
    run, s := LeadsToRelease();
    run, s := LeadsAcquire(INIT, run, s, 3);
    run, s := LeadsThen(INIT, run, s, Tick(20 * MINUTE));
    assert Truncated(40 * MINUTE) == 40 * MINUTE;
    assert s.phases == map[0 := Finished, 1 := Waiting, 3 := Holding(40 * MINUTE)];
  }

  lemma LeadsToThirdHolder() returns (run: seq<Step>, s: State)
    ensures Leads(INIT, run, s) && NoTakeover(run) && IsHolding(s, 2) && IsHolding(s, 3)
  {
    run, s := LeadsToTimeout();
    run, s := LeadsThen(INIT, run, s, GiveUp(1));
    run, s := LeadsAcquire(INIT, run, s, 2);
  }

  /**
   A test that polled for 60 minutes and never got the lock deletes it all the
   same when it gives up. All holders are prompt and no lock is taken over, and
   yet two tests hold the lock.
   */
  lemma GiveUpBreaksExclusion() returns (run: seq<Step>, s: State)
    ensures Valid(INIT, run) && States(INIT, run)[|run|] == s && NoTakeover(run)
    ensures forall r <- States(INIT, run) :: Prompt(r)
    ensures IsHolding(s, 2) && IsHolding(s, 3) && !MutuallyExclusive(s)
  {
    run, s := LeadsToThirdHolder();
    LeadsMeans(INIT, run, s);
  }
}
