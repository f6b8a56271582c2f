/**
 The retrying HTTP transport (pkg/utils/retry_transport.go): how often the base
 transport is called, with which request bodies, how long the waits add up to,
 and which response bodies are closed.
 */
module RetryTransport {
  import opened GoStrings

  // ----- 64-bit durations -----

  const TWO63: int := 0x8000_0000_0000_0000
  const SECOND: int := 1_000_000_000

  /** Two's complement wrap-around of an int64. */
  function Wrap64(x: int): (r: int)
    ensures -TWO63 <= r < TWO63
    ensures -TWO63 <= x < TWO63 ==> r == x
  {
    (x + TWO63) % (2 * TWO63) - TWO63
  }

  function Pow2(n: nat): (r: nat)
    ensures r >= 1
  {
    if n == 0 then 1 else 2 * Pow2(n - 1)
  }

  /** `BaseDelay * (1 << attempt)`; both the shift and the product wrap. */
  function Delay(base: int, attempt: nat): int {
    Wrap64(base * Wrap64(Pow2(attempt)))
  }

  /** What `time.Sleep` waits: nothing for a delay that is not positive. */
  function Sleep(delay: int): nat {
    if delay > 0 then delay else 0
  }

  function Slept(base: int, retries: nat): nat {
    if retries == 0 then 0 else Slept(base, retries - 1) + Sleep(Delay(base, retries - 1))
  }

  // ----- The exchange -----

  datatype Reply = Broken(error: string) | Response(status: int, hasBody: bool)

  /** A request body that can still be read, or one that a transport has read. */
  datatype Body = Unread | Spent

  class Request {
    var body: Option<Body>
    const canRewind: bool  // whether `GetBody` is set

    constructor (body: Option<Body>, canRewind: bool)
      ensures this.body == body && this.canRewind == canRewind
    {
      this.body := body;
      this.canRewind := canRewind;
    }

    /** Takes a fresh copy of the body if there is one to copy, and sends the request, which uses the body up. */
    method Send(rewinds: bool) returns (sent: Option<Body>)
      modifies this
      ensures sent == BodyToSend(old(body), canRewind, rewinds) && body == Consumed(sent)
    {
      if body.Some? && canRewind {
        body := if rewinds then Some(Unread) else None;
      }
      sent := body;
      body := Consumed(body);
    }
  }

  /** A failing `GetBody` is ignored and leaves the request without a body. */
  function BodyToSend(body: Option<Body>, canRewind: bool, rewinds: bool): Option<Body> {
    if body.Some? && canRewind then (if rewinds then Some(Unread) else None) else body
  }

  function Consumed(body: Option<Body>): Option<Body> {
    if body.Some? then Some(Spent) else None
  }

  datatype Settings = Settings(maxRetries: int, baseDelay: int)

  const DEFAULTS := Settings(5, 2 * SECOND)

  /** The code retries every status from 500 up. */
  predicate Transient(reply: Reply) {
    reply.Response? && reply.status >= 500
  }

  /** Attempt `m` is the last one: only transient responses before it, and it is not one or no retry is left. */
  predicate StopsAt(replies: nat -> Reply, maxRetries: int, m: nat) {
    && m <= maxRetries
    && (forall i: nat :: i < m ==> Transient(replies(i)))
    && (m == maxRetries || !Transient(replies(m)))
  }

  /** The request body as attempt `i` sends it; `rewind(i)` says whether the `GetBody` call of that attempt succeeds. */
  function SentBody(body: Option<Body>, canRewind: bool, rewind: nat -> bool, i: nat): Option<Body> {
    var before := if i == 0 then body else Consumed(SentBody(body, canRewind, rewind, i - 1));
    BodyToSend(before, canRewind, rewind(i))
  }

  /** The attempts whose response carried a body, among the first `n`. */
  function WithBody(replies: nat -> Reply, n: nat): seq<nat> {
    if n == 0 then []
    else WithBody(replies, n - 1) + if replies(n - 1).Response? && replies(n - 1).hasBody then [n - 1] else []
  }

  /**
   `RetryTransport.RoundTrip`. The base transport answers attempt `i` with
   `replies(i)`. The results are the answer (None if the base was never called), the
   bodies sent, the time slept and the attempts whose response body was closed.
   */
  method RoundTrip(t: Settings, req: Request, rewind: nat -> bool, replies: nat -> Reply)
    returns (answer: Option<Reply>, sent: seq<Option<Body>>, slept: nat, closed: seq<nat>)
    modifies req
    ensures forall i {:trigger sent[i]} :: 0 <= i < |sent| ==> sent[i] == SentBody(old(req.body), req.canRewind, rewind, i)
    ensures t.maxRetries < 0 <==> answer.None?
    ensures answer.None? ==> sent == [] && slept == 0 && closed == [] && req.body == old(req.body)
    ensures answer.Some? ==>
              && sent != []
              && StopsAt(replies, t.maxRetries, |sent| - 1)
              && answer == Some(replies(|sent| - 1))
              && slept == Slept(t.baseDelay, |sent| - 1)
              && closed == WithBody(replies, |sent| - 1)
  {
    answer, sent, slept, closed := None, [], 0, [];
    var attempt: nat := 0;
    while attempt <= t.maxRetries
      invariant attempt == |sent| && (attempt > 0 ==> attempt <= t.maxRetries)
      invariant forall i {:trigger sent[i]} :: 0 <= i < |sent| ==> sent[i] == SentBody(old(req.body), req.canRewind, rewind, i)
      invariant req.body == if attempt == 0 then old(req.body) else Consumed(sent[attempt - 1])
      invariant answer == if attempt == 0 then None else Some(replies(attempt - 1))
      invariant forall i: nat :: i < attempt ==> Transient(replies(i))
      invariant slept == Slept(t.baseDelay, attempt) && closed == WithBody(replies, attempt)
    {
      var body := req.Send(rewind(attempt));
      sent := sent + [body];
      var resp := replies(attempt);
      answer := Some(resp);
      if resp.Broken? { return; }
      if resp.status < 500 || attempt == t.maxRetries { return; }
      if resp.hasBody { closed := closed + [attempt]; }
      slept := slept + Sleep(Delay(t.baseDelay, attempt));
      attempt := attempt + 1;
    }
  }

  // ----- Calls -----

  /** With `k` leading transient responses there are `min(k, MaxRetries) + 1` calls. */
  lemma CallsMade(replies: nat -> Reply, maxRetries: int, k: nat, m: nat)
    requires maxRetries >= 0
    requires forall i: nat :: i < k ==> Transient(replies(i))
    requires !Transient(replies(k))
    ensures StopsAt(replies, maxRetries, m) <==> m == if k < maxRetries then k else maxRetries
  {
    if StopsAt(replies, maxRetries, m) {
      if m < k { assert Transient(replies(m)); }
    }
  }

  /** A response that makes the code try again: an HTTP status of 500 or more. */
  predicate ServerError(reply: Reply) {
    match reply
    case Broken(_) => false
    case Response(status, _) => 500 <= status
  }

  /** The last attempt: the first that is not answered by a server error, or the one after the last retry. */
  lemma LastAttempt(replies: nat -> Reply, maxRetries: int, m: nat)
    ensures StopsAt(replies, maxRetries, m) <==>
              && m <= maxRetries && (forall i: nat :: i < m ==> ServerError(replies(i)))
              && (m < maxRetries ==> !ServerError(replies(m)))
    ensures maxRetries >= 0 && !ServerError(replies(0)) ==> (StopsAt(replies, maxRetries, m) <==> m == 0)
  {
    assert forall i: nat :: Transient(replies(i)) == ServerError(replies(i));
    if maxRetries >= 0 && !ServerError(replies(0)) && m > 0 { assert !Transient(replies(0)); }
  }

  lemma {:induction false} WithBodyMeans(replies: nat -> Reply, n: nat)
    ensures forall i: nat :: i in WithBody(replies, n) <==> i < n && replies(i).Response? && replies(i).hasBody
    ensures forall i, j :: 0 <= i < j < |WithBody(replies, n)| ==> WithBody(replies, n)[i] < WithBody(replies, n)[j]
  {
    if n > 0 {
      var before := WithBody(replies, n - 1);
      WithBodyMeans(replies, n - 1);
      assert forall i :: 0 <= i < |before| ==> before[i] in before;
    }
  }

  /** Every discarded response body is closed, once, and the returned one is not. */
  lemma BodiesClosed(replies: nat -> Reply, maxRetries: int, m: nat)
    requires StopsAt(replies, maxRetries, m)
    ensures forall i: nat :: i in WithBody(replies, m) <==> i < m && replies(i).hasBody
    ensures forall i, j :: 0 <= i < j < |WithBody(replies, m)| ==> WithBody(replies, m)[i] < WithBody(replies, m)[j]
  {
    WithBodyMeans(replies, m);
    assert forall i: nat :: i < m ==> Transient(replies(i));
  }

  // ----- Waiting -----

  lemma GrowsBy(base: int, p: nat)
    requires base >= 1
    ensures base * p >= p
  {
    assert (base - 1) * p >= 0;
  }

  lemma SleepAtMost(base: int, attempt: nat)
    requires base >= 0
    ensures base * Pow2(attempt) < TWO63 ==> Sleep(Delay(base, attempt)) == base * Pow2(attempt)
    ensures base * Pow2(attempt) >= TWO63 ==> Sleep(Delay(base, attempt)) < base * Pow2(attempt)
  {
    var p := Pow2(attempt);
    if base > 0 {
      GrowsBy(base, p);
      if p < TWO63 { assert Wrap64(p) == p; }
    }
  }

  lemma Doubled(base: int, p: nat)
    ensures base * (2 * p - 1) == base * (p - 1) + base * p
  {
  }

  lemma Halved(base: int, p: nat)
    requires base >= 0
    ensures base * p <= base * (2 * p)
  {
    assert base * (2 * p) == base * p + base * p && base * p >= 0;
  }

  lemma {:induction false} SleptAtMost(base: int, m: nat)
    requires base >= 0
    ensures Slept(base, m) <= base * (Pow2(m) - 1)
    ensures m > 0 && base * Pow2(m - 1) >= TWO63 ==> Slept(base, m) < base * (Pow2(m) - 1)
  {
    if m > 0 {
      var p := Pow2(m - 1);
      SleptAtMost(base, m - 1);
      SleepAtMost(base, m - 1);
      Doubled(base, p);
    }
  }

  lemma {:induction false} SleptExact(base: int, m: nat)
    requires base >= 0 && (m == 0 || base * Pow2(m - 1) < TWO63)
    ensures Slept(base, m) == base * (Pow2(m) - 1)
  {
    if m > 0 {
      var p := Pow2(m - 1);
      if m > 1 { Halved(base, Pow2(m - 2)); }
      SleptExact(base, m - 1);
      SleepAtMost(base, m - 1);
      Doubled(base, p);
    }
  }

  /**
   The waits before `m` retries add up to `BaseDelay * (2^m - 1)` exactly when the
   last of them fits an int64.
   */
  lemma TotalSleep(base: int, m: nat)
    requires base >= 0
    ensures Slept(base, m) == base * (Pow2(m) - 1) <==> m == 0 || base * Pow2(m - 1) < TWO63
  {
    SleptAtMost(base, m);
    if m == 0 || base * Pow2(m - 1) < TWO63 { SleptExact(base, m); }
  }

  lemma PowersUpTo5()
    ensures Pow2(0) == 1 && Pow2(1) == 2 && Pow2(2) == 4 && Pow2(3) == 8 && Pow2(4) == 16 && Pow2(5) == 32
  {
  }

  lemma {:induction false} SleptMonotone(base: int, m: nat, n: nat)
    requires m <= n
    ensures Slept(base, m) <= Slept(base, n)
  {
    if m < n { SleptMonotone(base, m, n - 1); }
  }

  /** With the default settings a call never waits more than 62 seconds, and a server that keeps failing costs all of them. */
  lemma DefaultSleep(replies: nat -> Reply, m: nat)
    requires StopsAt(replies, DEFAULTS.maxRetries, m)
    ensures Slept(DEFAULTS.baseDelay, m) <= 62 * SECOND
    ensures (forall i: nat :: i < 5 ==> Transient(replies(i))) ==> Slept(DEFAULTS.baseDelay, m) == 62 * SECOND
  {
    PowersUpTo5();
    SleptExact(DEFAULTS.baseDelay, 5);
    SleptMonotone(DEFAULTS.baseDelay, m, 5);
    if m < 5 { assert !Transient(replies(m)); }
  }

  // ----- Request bodies -----

  /** Whether the first `n` attempts all send the request body as it was given. */
  predicate Faithful(body: Option<Body>, canRewind: bool, rewind: nat -> bool, n: nat) {
    forall i: nat :: i < n ==> SentBody(body, canRewind, rewind, i) == body
  }

  lemma {:induction false} RewoundBodies(rewind: nat -> bool, n: nat, i: nat)
    requires i < n && forall j: nat :: j < n ==> rewind(j)
    ensures SentBody(Some(Unread), true, rewind, i) == Some(Unread)
  {
    if i > 0 { RewoundBodies(rewind, n, i - 1); }
  }

  lemma {:induction false} NoBodies(canRewind: bool, rewind: nat -> bool, i: nat)
    ensures SentBody(None, canRewind, rewind, i) == None
  {
    if i > 0 { NoBodies(canRewind, rewind, i - 1); }
  }

  lemma Rewound(rewind: nat -> bool, n: nat, j: nat)
    requires Faithful(Some(Unread), true, rewind, n) && j < n
    ensures rewind(j)
  {
    assert SentBody(Some(Unread), true, rewind, j) == Some(Unread);
    if j > 0 { assert SentBody(Some(Unread), true, rewind, j - 1) == Some(Unread); }
  }

  /**
   All `n` attempts send the original request body exactly when there is none, or
   when it can be rewound and every `GetBody` succeeds, or when a body that cannot
   be rewound is sent once only.
   */
  lemma BodiesSent(body: Option<Body>, canRewind: bool, rewind: nat -> bool, n: nat)
    requires body.Some? ==> body.value.Unread?
    ensures Faithful(body, canRewind, rewind, n) <==>
              (body.None? || (if canRewind then forall j: nat :: j < n ==> rewind(j) else n <= 1))
  {
    if body.None? {
      forall i: nat | i < n ensures SentBody(body, canRewind, rewind, i) == body { NoBodies(canRewind, rewind, i); }
    } else if canRewind {
      assert body == Some(Unread);
      if Faithful(body, true, rewind, n) {
        forall j: nat | j < n ensures rewind(j) { Rewound(rewind, n, j); }
      } else if forall j: nat :: j < n ==> rewind(j) {
        RewoundAll(rewind, n);
      }
    } else if n > 1 {
      assert SentBody(body, false, rewind, 1) == Some(Spent);
    }
  }

  lemma RewoundAll(rewind: nat -> bool, n: nat)
    requires forall j: nat :: j < n ==> rewind(j)
    ensures Faithful(Some(Unread), true, rewind, n)
  {
    forall i: nat | i < n ensures SentBody(Some(Unread), true, rewind, i) == Some(Unread) { RewoundBodies(rewind, n, i); }
  }
}
