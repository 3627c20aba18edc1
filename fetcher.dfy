/**
 * SegmentFetcher: the retry loop of `_try_request` and what `_request`
 * followed by a dereference of its result yields.
 */
module Fetcher {
  import opened Base
  import opened Io

  /** The number of attempts when all fail: `retry_count + 1`, and at least one. */
  function Budget(retryCount: int): nat
  {
    if retryCount >= 0 then retryCount + 1 else 1
  }

  /**
   * The `while True` loop of `_try_request` after `n` failures: the result
   * (None once the retries are spent) and the total number of attempts.
   * `ask(i)` is the outcome of attempt number i.
   */
  function Try(ask: nat -> HttpOutcome, retryCount: int, n: nat): (r: (Option<Response>, nat))
    ensures n < r.1
    ensures forall i :: n <= i < r.1 - 1 ==> ask(i).HttpError?
    ensures r.0.Some? <==> ask(r.1 - 1).Success?
    ensures r.0.Some? ==> r.0.value == ask(r.1 - 1).response
    ensures r.0.None? ==> r.1 == (if n < Budget(retryCount) then Budget(retryCount) else n + 1)
    ensures r.1 <= (if n < Budget(retryCount) then Budget(retryCount) else n + 1)
    decreases if retryCount > n then retryCount - n else 0
  {
    match ask(n)
    case Success(res) => (Some(res), n + 1)
    case HttpError =>
      if n + 1 > retryCount then (None, n + 1)
      else Try(ask, retryCount, n + 1)
  }

  /** Attempts made by `_try_request` from the start. */
  function Attempts(ask: nat -> HttpOutcome, retryCount: int): nat
  {
    Try(ask, retryCount, 0).1
  }

  /** When every attempt raises, exactly `Budget(retryCount)` attempts are made and None comes back. */
  lemma AllFailures(ask: nat -> HttpOutcome, retryCount: int)
    requires forall i :: ask(i).HttpError?
    ensures Try(ask, retryCount, 0) == (None, Budget(retryCount))
  {
  }

  /** The first success within the budget stops the loop and is returned. */
  lemma FirstSuccess(ask: nat -> HttpOutcome, retryCount: int, k: nat)
    requires k < Budget(retryCount)
    requires ask(k).Success?
    requires forall i :: 0 <= i < k ==> ask(i).HttpError?
    ensures Try(ask, retryCount, 0) == (Some(ask(k).response), k + 1)
  {
  }

  /**
   * `_request(client, url)` with its result dereferenced, as both callers
   * do: an error when the retries ran out or the body is empty.
   */
  function Fetch(ask: nat -> HttpOutcome, retryCount: int): (r: Result<Response>)
    ensures r.Ok? ==> |r.value.content| > 0
    ensures r.Err? ==> r.error == NoResponse || r.error == EmptyContent
    ensures r == Err(NoResponse) <==> Try(ask, retryCount, 0).0.None?
  {
    match Try(ask, retryCount, 0).0
    case None => Err(NoResponse)
    case Some(res) => if |res.content| == 0 then Err(EmptyContent) else Ok(res)
  }

  /** `_read_url`: the text of a fetched, non-empty response. */
  function FetchText(ask: nat -> HttpOutcome, retryCount: int): Result<string>
  {
    match Fetch(ask, retryCount)
    case Err(e) => Err(e)
    case Ok(res) => Ok(res.text)
  }

  /**
   * The error cases of a fetch: retries all spent give NoResponse; a first
   * success with an empty body gives EmptyContent; otherwise the response.
   */
  lemma FetchOutcomes(ask: nat -> HttpOutcome, retryCount: int)
    ensures (forall i :: ask(i).HttpError?) ==> Fetch(ask, retryCount) == Err(NoResponse)
    ensures forall k: nat :: k < Budget(retryCount) && ask(k).Success? && (forall i :: 0 <= i < k ==> ask(i).HttpError?) ==>
      Fetch(ask, retryCount) == (if |ask(k).response.content| == 0 then Err(EmptyContent) else Ok(ask(k).response))
  {
    forall k: nat | k < Budget(retryCount) && ask(k).Success? && (forall i :: 0 <= i < k ==> ask(i).HttpError?)
      ensures Fetch(ask, retryCount) == (if |ask(k).response.content| == 0 then Err(EmptyContent) else Ok(ask(k).response))
    {
      FirstSuccess(ask, retryCount, k);
    }
  }
}
