/**
 Cleaning up old image tags (`cleanupQuayTags` in magefiles/utils.go): the page
 loop, and the workers that share the fetched tags by striding over them.
 */
module TagCleanup {
  import opened GoStrings

  datatype Tag = Tag(name: string, start: int)

  // ----- Pages -----

  datatype Page = PageFailed | Page(tags: seq<Tag>, hasAdditional: bool)

  /** An error: a page that could not be read, by the number reported for it, or a tag that could not be deleted. */
  datatype Error = PageError(reported: nat) | DeleteError(name: string)

  predicate IsLast(p: Page) {
    p.Page? && !p.hasAdditional
  }

  /** The tags of the pages that did not fail, in page order. */
  function TagsOf(pages: seq<Page>): seq<Tag> {
    if pages == [] then []
    else TagsOf(pages[..|pages| - 1]) + var p := pages[|pages| - 1]; if p.Page? then p.tags else []
  }

  /** One error per failed page; the number in it is one more than that of the page requested. */
  function PageErrors(pages: seq<Page>): seq<Error> {
    if pages == [] then []
    else PageErrors(pages[..|pages| - 1]) + if pages[|pages| - 1].PageFailed? then [PageError(|pages| + 1)] else []
  }

  /** How many tags the pages before page `n` hold, and how many of those pages failed. */
  function TagsBefore(pages: seq<Page>, n: nat): nat
    requires n <= |pages|
  {
    if n == 0 then 0 else TagsBefore(pages, n - 1) + match pages[n - 1] case Page(tags, _) => |tags| case PageFailed => 0
  }

  function FailedBefore(pages: seq<Page>, n: nat): nat
    requires n <= |pages|
  {
    if n == 0 then 0 else FailedBefore(pages, n - 1) + match pages[n - 1] case Page(_, _) => 0 case PageFailed => 1
  }

  /** Tag `j` of page `i` stands `j` places after the tags of the pages before. */
  predicate TagAt(all: seq<Tag>, pages: seq<Page>, i: nat, j: nat)
    requires i < |pages| && pages[i].Page? && j < |pages[i].tags|
  {
    var at := TagsBefore(pages, i) + j;
    at < |all| && all[at] == pages[i].tags[j]
  }

  /** The tags of every page that was read, each page's where the pages before it end, and no others. */
  ghost predicate HoldsTags(all: seq<Tag>, pages: seq<Page>, n: nat)
    requires n <= |pages|
  {
    && |all| == TagsBefore(pages, n)
    && forall i: nat, j: nat :: i < n && pages[i].Page? && j < |pages[i].tags| ==> TagAt(all, pages, i, j)
  }

  /** One error for every page that failed, in order; it reports the number of the next page. */
  ghost predicate HoldsErrors(all: seq<Error>, pages: seq<Page>, n: nat)
    requires n <= |pages|
  {
    && |all| == FailedBefore(pages, n)
    && forall i :: 0 <= i < n && pages[i].PageFailed? ==>
         FailedBefore(pages, i) < |all| && all[FailedBefore(pages, i)] == PageError(i + 2)
  }

  lemma TagsMeanNext(pages: seq<Page>, n: nat, tags: seq<Tag>)
    requires n < |pages| && HoldsTags(tags, pages, n)
    ensures HoldsTags(tags + if pages[n].Page? then pages[n].tags else [], pages, n + 1)
  {
    var all := tags + if pages[n].Page? then pages[n].tags else [];
    forall i: nat, j: nat | i < n + 1 && pages[i].Page? && j < |pages[i].tags| ensures TagAt(all, pages, i, j) {
      if i < n { assert TagAt(tags, pages, i, j); }
    }
  }

  lemma ErrorsMeanNext(pages: seq<Page>, n: nat, errors: seq<Error>)
    requires n < |pages| && HoldsErrors(errors, pages, n)
    ensures HoldsErrors(errors + if pages[n].PageFailed? then [PageError(n + 2)] else [], pages, n + 1)
  {
  }

  /** What `TagsOf` and `PageErrors` compute. */
  lemma {:induction false} PagesMean(pages: seq<Page>, n: nat)
    requires n <= |pages|
    ensures HoldsTags(TagsOf(pages[..n]), pages, n) && HoldsErrors(PageErrors(pages[..n]), pages, n)
  {
    if n > 0 {
      PagesMean(pages, n - 1);
      assert pages[..n][..n - 1] == pages[..n - 1];
      TagsMeanNext(pages, n - 1, TagsOf(pages[..n - 1]));
      ErrorsMeanNext(pages, n - 1, PageErrors(pages[..n - 1]));
    }
  }

  /**
   The page loop, on the answers the server gives. `done` says whether the loop
   ended, which takes a last page among them; otherwise it is still asking.
   */
  method FetchTags(answers: seq<Page>) returns (done: bool, allTags: seq<Tag>, errors: seq<Error>, asked: nat)
    ensures asked <= |answers|
    ensures allTags == TagsOf(answers[..asked]) && errors == PageErrors(answers[..asked])
    ensures HoldsTags(allTags, answers, asked) && HoldsErrors(errors, answers, asked)
    ensures done ==> asked > 0 && IsLast(answers[asked - 1]) && forall i :: 0 <= i < asked - 1 ==> !IsLast(answers[i])
    ensures !done ==> asked == |answers| && forall i :: 0 <= i < |answers| ==> !IsLast(answers[i])
  {
    done, allTags, errors := false, [], [];
    var page := 1;
    while page - 1 < |answers|
      invariant 1 <= page <= |answers| + 1
      invariant allTags == TagsOf(answers[..page - 1]) && errors == PageErrors(answers[..page - 1])
      invariant forall i :: 0 <= i < page - 1 ==> !IsLast(answers[i])
    {
      var answer := answers[page - 1];
      assert answers[..page][..page - 1] == answers[..page - 1];
      page := page + 1;
      if answer.PageFailed? {
        errors := errors + [PageError(page)];
        continue;
      }
      allTags := allTags + answer.tags;
      if !answer.hasAdditional {
        done := true;
        break;
      }
    }
    asked := page - 1;
    PagesMean(answers, asked);
  }

  lemma {:induction false} TagsOfConcat(a: seq<Page>, b: seq<Page>)
    ensures TagsOf(a + b) == TagsOf(a) + TagsOf(b)
  {
    if b == [] {
      assert a + b == a;
    } else {
      assert (a + b)[..|a + b| - 1] == a + b[..|b| - 1];
      TagsOfConcat(a, b[..|b| - 1]);
    }
  }

  /** A failed page contributes nothing, wherever it comes; its tags are skipped for good. */
  lemma FailedPageSkipped(a: seq<Page>, b: seq<Page>)
    ensures TagsOf(a + [PageFailed] + b) == TagsOf(a + b)
  {
    TagsOfConcat(a + [PageFailed], b);
    TagsOfConcat(a, [PageFailed]);
    TagsOfConcat(a, b);
  }

  // ----- Workers -----

  datatype DeleteReply = Deleted | NotDeleted | DeleteFailed

  /** A worker's turn: it handles its next tag at time `now`. */
  datatype Turn = Turn(worker: nat, now: int, reply: DeleteReply)

  datatype Visit = Visit(worker: nat, idx: nat, now: int, requested: bool)

  /**
   A worker's copy of the error slice: it starts as a view of the caller's backing
   array and moves to an array of its own when an append finds no room.
   */
  datatype Slice = Shared(length: nat) | Own(items: seq<Error>)

  /** `next` is where each worker's index stands, `backing` the array behind the caller's slice. */
  datatype State = State(next: seq<nat>, slices: seq<Slice>, backing: seq<Error>, visits: seq<Visit>)

  /** What all workers are given. `cutoff(now)` is the time seven days before. */
  datatype Job = Job(tags: seq<Tag>, workers: nat, cutoff: int -> int)

  predicate Enabled(job: Job, s: State, t: Turn) {
    t.worker < |s.next| && |s.slices| == |s.next| && s.next[t.worker] < |job.tags|
  }

  /** Go's `append` of one element. */
  function Append(backing: seq<Error>, s: Slice, e: Error): (seq<Error>, Slice) {
    match s
    case Own(items) => (backing, Own(items + [e]))
    case Shared(n) =>
      if n < |backing| then (backing[n := e], Shared(n + 1))
      else (backing, Own(backing + [e]))
  }

  function Step(job: Job, s: State, t: Turn): State
    requires Enabled(job, s, t)
  {
    var idx := s.next[t.worker];
    var tag := job.tags[idx];
    var isOld := tag.start < job.cutoff(t.now);
    var (backing, slice) :=
      if isOld && t.reply.DeleteFailed? then Append(s.backing, s.slices[t.worker], DeleteError(tag.name))
      else (s.backing, s.slices[t.worker]);
    State(s.next[t.worker := idx + job.workers], s.slices[t.worker := slice], backing,
          s.visits + [Visit(t.worker, idx, t.now, isOld)])
  }

  /** The workers as they start: worker `i` at index `i`, each with a copy of the caller's slice. */
  function Start(job: Job, errors: seq<Error>, spare: seq<Error>): (s: State)
    ensures |s.next| == |s.slices| == job.workers
  {
    State(seq(job.workers, i => i), seq(job.workers, _ => Shared(|errors|)), errors + spare, [])
  }

  /** A run of the workers in the order of `turns`. */
  predicate IsRun(job: Job, s: State, turns: seq<Turn>)
    decreases |turns|
  {
    turns == [] || (Enabled(job, s, turns[0]) && IsRun(job, Step(job, s, turns[0]), turns[1..]))
  }

  function After(job: Job, s: State, turns: seq<Turn>): State
    requires IsRun(job, s, turns)
    decreases |turns|
  {
    if turns == [] then s else After(job, Step(job, s, turns[0]), turns[1..])
  }

  /** All workers have left their loop, which is what the wait group waits for. */
  predicate Finished(job: Job, s: State) {
    forall w :: 0 <= w < |s.next| ==> s.next[w] >= |job.tags|
  }

  // ----- Every tag once -----

  predicate Visited(s: State, i: nat) {
    exists k :: 0 <= k < |s.visits| && s.visits[k].idx == i
  }

  /** The remainder of `i` by `n`, as the index at which the stride over `i` starts. */
  function Residue(i: nat, n: nat): (r: nat)
    requires n > 0
    ensures r < n && r <= i
  {
    if i < n then i else Residue(i - n, n)
  }

  predicate GoodVisit(job: Job, v: Visit) {
    && job.workers > 0 && v.idx < |job.tags|
    && v.worker == Residue(v.idx, job.workers)
    && v.requested == (job.tags[v.idx].start < job.cutoff(v.now))
  }

  /** The tags visited are those that the strides have passed. */
  predicate Passed(job: Job, s: State)
    requires job.workers > 0 && |s.next| == job.workers
  {
    forall i: nat :: i < |job.tags| ==> (Visited(s, i) <==> i < s.next[Residue(i, job.workers)])
  }

  /** The invariant of the workers: they keep to their strides and visit nothing twice. */
  predicate Strided(job: Job, s: State) {
    && job.workers > 0 && |s.next| == |s.slices| == job.workers
    && (forall w :: 0 <= w < job.workers ==> Residue(s.next[w], job.workers) == w)
    && Passed(job, s)
    && (forall k :: 0 <= k < |s.visits| ==> GoodVisit(job, s.visits[k]))
    && (forall k, l :: 0 <= k < l < |s.visits| ==> s.visits[k].idx != s.visits[l].idx)
  }

  lemma {:induction false} StrideUnique(i: nat, idx: nat, n: nat)
    requires n > 0 && Residue(i, n) == Residue(idx, n) && idx <= i < idx + n
    ensures i == idx
  {
    if idx >= n { StrideUnique(i - n, idx - n, n); }
  }

  lemma StartStrided(job: Job, errors: seq<Error>, spare: seq<Error>)
    requires job.workers > 0
    ensures Strided(job, Start(job, errors, spare))
  {
    var s := Start(job, errors, spare);
    assert forall i: nat :: i < |job.tags| ==> s.next[Residue(i, job.workers)] <= i;
  }

  lemma VisitedAfter(job: Job, s: State, t: Turn, i: nat)
    requires Enabled(job, s, t)
    ensures Visited(Step(job, s, t), i) <==> Visited(s, i) || i == s.next[t.worker]
  {
    var s' := Step(job, s, t);
    assert forall k :: 0 <= k < |s.visits| ==> s'.visits[k] == s.visits[k];
    assert s'.visits[|s.visits|].idx == s.next[t.worker];
  }

  lemma StepPassed(job: Job, s: State, t: Turn)
    requires job.workers > 0 && |s.next| == job.workers && Enabled(job, s, t)
    requires Residue(s.next[t.worker], job.workers) == t.worker && Passed(job, s)
    ensures Passed(job, Step(job, s, t))
  {
    var s', n, idx := Step(job, s, t), job.workers, s.next[t.worker];
    forall i: nat | i < |job.tags| ensures Visited(s', i) <==> i < s'.next[Residue(i, n)] {
      VisitedAfter(job, s, t, i);
      if Residue(i, n) == t.worker && idx <= i < idx + n { StrideUnique(i, idx, n); }
    }
  }

  lemma StepStrided(job: Job, s: State, t: Turn)
    requires Strided(job, s) && Enabled(job, s, t)
    ensures Strided(job, Step(job, s, t))
  {
    StepPassed(job, s, t);
    var idx := s.next[t.worker];
    assert !Visited(s, idx);
  }

  lemma {:induction false} RunStrided(job: Job, s: State, turns: seq<Turn>)
    requires Strided(job, s) && IsRun(job, s, turns)
    ensures Strided(job, After(job, s, turns))
    ensures |After(job, s, turns).visits| == |s.visits| + |turns|
    decreases |turns|
  {
    if turns != [] {
      StepStrided(job, s, turns[0]);
      RunStrided(job, Step(job, s, turns[0]), turns[1..]);
    }
  }

  function VisitIndices(visits: seq<Visit>): set<nat> {
    set k | 0 <= k < |visits| :: visits[k].idx
  }

  lemma {:induction false} DistinctVisits(visits: seq<Visit>)
    requires forall k, l :: 0 <= k < l < |visits| ==> visits[k].idx != visits[l].idx
    ensures |VisitIndices(visits)| == |visits|
  {
    if visits != [] {
      var n := |visits| - 1;
      DistinctVisits(visits[..n]);
      assert VisitIndices(visits) == VisitIndices(visits[..n]) + {visits[n].idx};
    }
  }

  function Upto(n: nat): (r: set<nat>)
    ensures forall i: nat :: i in r <==> i < n
    ensures |r| == n
  {
    if n == 0 then {} else Upto(n - 1) + {n - 1}
  }

  /** No run is longer than the list of tags, whatever the interleaving. */
  lemma RunsEnd(job: Job, errors: seq<Error>, spare: seq<Error>, turns: seq<Turn>)
    requires job.workers > 0 && IsRun(job, Start(job, errors, spare), turns)
    ensures |turns| <= |job.tags|
  {
    StartStrided(job, errors, spare);
    RunStrided(job, Start(job, errors, spare), turns);
    var s := After(job, Start(job, errors, spare), turns);
    DistinctVisits(s.visits);
    SubsetSize(VisitIndices(s.visits), Upto(|job.tags|));
  }

  lemma {:induction false} SubsetSize(a: set<nat>, b: set<nat>)
    requires a <= b
    ensures |a| <= |b|
    decreases |a|
  {
    if a != {} {
      var x :| x in a;
      SubsetSize(a - {x}, b - {x});
    }
  }

  lemma AllVisited(job: Job, s: State)
    requires job.workers > 0 && |s.next| == job.workers && Passed(job, s) && Finished(job, s)
    requires forall k :: 0 <= k < |s.visits| ==> s.visits[k].idx < |job.tags|
    ensures forall i: nat :: i < |job.tags| ==> Visited(s, i)
    ensures VisitIndices(s.visits) == Upto(|job.tags|)
  {
    forall i: nat | i < |job.tags| ensures Visited(s, i) && i in VisitIndices(s.visits) {
      assert s.next[Residue(i, job.workers)] >= |job.tags|;
    }
  }

  /**
   Under every interleaving of any number of workers, when all have finished each
   fetched tag has been visited exactly once, by the worker of its residue, and its
   deletion was requested exactly if it was past the cutoff at that moment.
   */
  lemma EachTagOnce(job: Job, errors: seq<Error>, spare: seq<Error>, turns: seq<Turn>)
    requires job.workers > 0 && IsRun(job, Start(job, errors, spare), turns)
    requires Finished(job, After(job, Start(job, errors, spare), turns))
    ensures var s := After(job, Start(job, errors, spare), turns);
            && |s.visits| == |job.tags| == |turns|
            && (forall i: nat :: i < |job.tags| ==> Visited(s, i))
            && (forall k :: 0 <= k < |s.visits| ==> GoodVisit(job, s.visits[k]))
            && (forall k, l :: 0 <= k < l < |s.visits| ==> s.visits[k].idx != s.visits[l].idx)
  {
    StartStrided(job, errors, spare);
    RunStrided(job, Start(job, errors, spare), turns);
    var s := After(job, Start(job, errors, spare), turns);
    AllVisited(job, s);
    DistinctVisits(s.visits);
  }

  lemma {:induction false} VisitTimes(job: Job, s: State, turns: seq<Turn>, from: int, to: int)
    requires IsRun(job, s, turns)
    requires forall k :: 0 <= k < |turns| ==> from <= turns[k].now <= to
    requires forall k :: 0 <= k < |s.visits| ==> from <= s.visits[k].now <= to
    ensures forall k :: 0 <= k < |After(job, s, turns).visits| ==> from <= After(job, s, turns).visits[k].now <= to
    decreases |turns|
  {
    if turns != [] { VisitTimes(job, Step(job, s, turns[0]), turns[1..], from, to); }
  }

  /** Whether the deletion of tag `i` was requested. */
  predicate Requested(s: State, i: nat) {
    exists k :: 0 <= k < |s.visits| && s.visits[k].idx == i && s.visits[k].requested
  }

  /**
   In a cleanup that lasts from `from` to `to`, tags that are old at its start are
   always deleted, and tags that are not old at its end never are; the schedule
   decides only about those that age in between.
   */
  lemma {:induction false} OldTagsGo(job: Job, errors: seq<Error>, spare: seq<Error>, turns: seq<Turn>, from: int, to: int, i: nat)
    requires job.workers > 0 && IsRun(job, Start(job, errors, spare), turns) && i < |job.tags|
    requires Finished(job, After(job, Start(job, errors, spare), turns))
    requires forall k :: 0 <= k < |turns| ==> from <= turns[k].now <= to
    requires forall x, y :: x <= y ==> job.cutoff(x) <= job.cutoff(y)
    ensures var s := After(job, Start(job, errors, spare), turns);
            && (job.tags[i].start < job.cutoff(from) ==> Requested(s, i))
            && (job.tags[i].start >= job.cutoff(to) ==> !Requested(s, i))
  {
    EachTagOnce(job, errors, spare, turns);
    VisitTimes(job, Start(job, errors, spare), turns, from, to);
    var s := After(job, Start(job, errors, spare), turns);
    assert Visited(s, i);
    forall k | 0 <= k < |s.visits| && s.visits[k].idx == i
      ensures s.visits[k].requested == (job.tags[i].start < job.cutoff(s.visits[k].now))
    {
      assert GoodVisit(job, s.visits[k]);
    }
  }

  // ----- Errors -----

  /** Every slice that still shares the caller's array reaches past the caller's part of it. */
  predicate Apart(s: State, errors: seq<Error>) {
    && |errors| <= |s.backing| && s.backing[..|errors|] == errors
    && forall w :: 0 <= w < |s.slices| && s.slices[w].Shared? ==> |errors| <= s.slices[w].length
  }

  lemma {:induction false} RunApart(job: Job, s: State, turns: seq<Turn>, errors: seq<Error>)
    requires Apart(s, errors) && IsRun(job, s, turns)
    ensures Apart(After(job, s, turns), errors)
    decreases |turns|
  {
    if turns != [] {
      var s' := Step(job, s, turns[0]);
      assert s'.backing[..|errors|] == errors;
      RunApart(job, s', turns[1..], errors);
    }
  }

  /** What `cleanupQuayTags` returns: the errors in the caller's slice, or none. */
  function Reported(s: State, length: nat): (r: Option<seq<Error>>)
    requires length <= |s.backing|
  {
    if length == 0 then None else Some(s.backing[..length])
  }

  /**
   However many deletions fail, and however the workers' appends run over each other
   in the shared array, the caller reports the page errors and nothing else.
   */
  lemma WorkerErrorsLost(job: Job, errors: seq<Error>, spare: seq<Error>, turns: seq<Turn>)
    requires IsRun(job, Start(job, errors, spare), turns)
    ensures |errors| <= |After(job, Start(job, errors, spare), turns).backing|
    ensures Reported(After(job, Start(job, errors, spare), turns), |errors|) == if errors == [] then None else Some(errors)
  {
    var s := Start(job, errors, spare);
    assert s.backing[..|errors|] == errors;
    RunApart(job, s, turns, errors);
  }
}
