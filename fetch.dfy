/** The bounded retry policy of `fetchWithRetry`. The network is a parameter: `reply(k)`
    is what the k-th attempt (counting from 0) receives, either a response with a status
    and a body or a rejected promise. */
module Fetching {

  datatype Reply<B> = Response(status: int, body: B) | NetworkError

  /** How a call ends: the body of a 200 response, the error thrown with the last
      status once the retries are used up, or the rejection of `fetch` itself. */
  datatype Outcome<B> = Body(value: B) | FailedStatus(status: int) | Rejected

  /** The outcome and, per attempt in order, whether it asked for `force-cache`. */
  datatype Fetched<B> = Fetched(outcome: Outcome<B>, forceCache: seq<bool>)

  /** A reply that ends the call at once: a 200 response or a rejection. */
  predicate Decisive<B>(r: Reply<B>) {
    r.NetworkError? || r.status == 200
  }

  /** `fetchWithRetry(url, retries, cache)` when its first attempt is attempt `from`.
      A non-200 status retries with the cache turned off until `retries` reaches 0. */
  function FetchFrom<B>(reply: nat -> Reply<B>, from: nat, retries: nat, cache: bool): (f: Fetched<B>)
    ensures 1 <= |f.forceCache| <= retries + 1
    ensures f.forceCache[0] == cache
    ensures forall k | 1 <= k < |f.forceCache| :: !f.forceCache[k]
    decreases retries
  {
    match reply(from)
    case NetworkError => Fetched(Rejected, [cache])
    case Response(status, body) =>
      if status != 200 then
        if retries == 0 then Fetched(FailedStatus(status), [cache])
        else
          var later := FetchFrom(reply, from + 1, retries - 1, false);
          Fetched(later.outcome, [cache] + later.forceCache)
      else Fetched(Body(body), [cache])
  }

  /** A call from the component: the first attempt is attempt 0. Only the first
      attempt may use the cache; the call ends with the body of a 200 response, with
      the rejection of the last attempt, or with the status of attempt `retries`. */
  function FetchWithRetry<B>(reply: nat -> Reply<B>, retries: nat, cache: bool): (f: Fetched<B>)
    ensures 1 <= |f.forceCache| <= retries + 1 && f.forceCache[0] == cache
    ensures forall k | 1 <= k < |f.forceCache| :: !f.forceCache[k]
    ensures forall k | 0 <= k < |f.forceCache| - 1 :: !Decisive(reply(k))
    ensures f.outcome.Body? ==> reply(|f.forceCache| - 1) == Response(200, f.outcome.value)
    ensures f.outcome.Rejected? <==> reply(|f.forceCache| - 1).NetworkError?
    ensures f.outcome.FailedStatus? ==>
      |f.forceCache| == retries + 1 && reply(retries) == Response(f.outcome.status, reply(retries).body)
      && f.outcome.status != 200
  {
    OutcomeFromReplies(reply, 0, retries, cache);
    FetchFrom(reply, 0, retries, cache)
  }

  /** When the j-th attempt is the first decisive one and it is within the budget, the
      call makes exactly j + 1 attempts and ends as that reply says. */
  lemma {:induction false} FirstDecisiveFrom<B>(reply: nat -> Reply<B>, from: nat, retries: nat, cache: bool, j: nat)
    requires j <= retries
    requires forall k | from <= k < from + j :: !Decisive(reply(k))
    requires Decisive(reply(from + j))
    ensures var f := FetchFrom(reply, from, retries, cache);
      && |f.forceCache| == j + 1
      && f.outcome == (if reply(from + j).NetworkError? then Rejected else Body(reply(from + j).body))
    decreases j
  {
    if j > 0 {
      assert !Decisive(reply(from));
      FirstDecisiveFrom(reply, from + 1, retries - 1, false, j - 1);
    }
  }

  /** When no attempt within the budget is decisive, the call makes retries + 1 attempts
      and throws with the status of the last one. */
  lemma {:induction false} NoneDecisiveFrom<B>(reply: nat -> Reply<B>, from: nat, retries: nat, cache: bool)
    requires forall k | from <= k <= from + retries :: !Decisive(reply(k))
    ensures var f := FetchFrom(reply, from, retries, cache);
      && |f.forceCache| == retries + 1
      && reply(from + retries).Response?
      && f.outcome == FailedStatus(reply(from + retries).status)
    decreases retries
  {
    assert !Decisive(reply(from));
    if retries > 0 {
      NoneDecisiveFrom(reply, from + 1, retries - 1, false);
    }
  }

  /** The body of the first 200 response is returned, after as many attempts as it took
      to get it. */
  lemma FirstSuccessReturned<B>(reply: nat -> Reply<B>, retries: nat, cache: bool, j: nat, b: B)
    requires j <= retries
    requires forall k | 0 <= k < j :: reply(k).Response? && reply(k).status != 200
    requires reply(j) == Response(200, b)
    ensures FetchWithRetry(reply, retries, cache).outcome == Body(b)
    ensures |FetchWithRetry(reply, retries, cache).forceCache| == j + 1
  {
    FirstDecisiveFrom(reply, 0, retries, cache, j);
  }

  /** A rejected `fetch` ends the call at once, without a retry. */
  lemma RejectionNotRetried<B>(reply: nat -> Reply<B>, retries: nat, cache: bool, j: nat)
    requires j <= retries
    requires forall k | 0 <= k < j :: reply(k).Response? && reply(k).status != 200
    requires reply(j).NetworkError?
    ensures FetchWithRetry(reply, retries, cache).outcome == Rejected
    ensures |FetchWithRetry(reply, retries, cache).forceCache| == j + 1
  {
    FirstDecisiveFrom(reply, 0, retries, cache, j);
  }

  /** When every attempt gets a non-200 status, the call gives up after retries + 1
      attempts with the last status. */
  lemma AllFailuresReported<B>(reply: nat -> Reply<B>, retries: nat, cache: bool)
    requires forall k | 0 <= k <= retries :: reply(k).Response? && reply(k).status != 200
    ensures FetchWithRetry(reply, retries, cache).outcome == FailedStatus(reply(retries).status)
    ensures |FetchWithRetry(reply, retries, cache).forceCache| == retries + 1
  {
    NoneDecisiveFrom(reply, 0, retries, cache);
  }

  /** The outcome is always one of the replies received: a body comes from a 200
      response, a failure carries a non-200 status that was received. */
  lemma {:induction false} OutcomeFromReplies<B>(reply: nat -> Reply<B>, from: nat, retries: nat, cache: bool)
    ensures var f := FetchFrom(reply, from, retries, cache);
      var last := reply(from + |f.forceCache| - 1);
      && (forall k | from <= k < from + |f.forceCache| - 1 :: !Decisive(reply(k)))
      && (f.outcome.Body? ==> last == Response(200, f.outcome.value))
      && (f.outcome.FailedStatus? ==> last.Response? && last.status == f.outcome.status != 200
                                      && |f.forceCache| == retries + 1)
      && (f.outcome.Rejected? <==> last.NetworkError?)
    decreases retries
  {
    var f := FetchFrom(reply, from, retries, cache);
    match reply(from)
    case NetworkError =>
    case Response(status, body) =>
      if status != 200 && retries > 0 {
        OutcomeFromReplies(reply, from + 1, retries - 1, false);
        var later := FetchFrom(reply, from + 1, retries - 1, false);
        assert f.forceCache == [cache] + later.forceCache;
        assert from + |f.forceCache| - 1 == from + 1 + |later.forceCache| - 1;
      }
  }

  /** Four replies of status 500 with the default three retries: four attempts, only
      the first with force-cache, and an error carrying 500. */
  lemma FourServerErrors()
    ensures var reply: nat -> Reply<()> := _ => Response(500, ());
      FetchWithRetry(reply, 3, true) == Fetched(FailedStatus(500), [true, false, false, false])
  {
  }
}
