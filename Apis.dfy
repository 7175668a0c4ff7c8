/**
 * The client API's use of the cache: the key each endpoint is cached under, its time to live,
 * and the polling loop that waits for distilled content to be ready. A server response is a
 * status code and a JSON body; `respond(i)` is the response to the i-th request of a poll.
 */
module Apis {
  import opened Wrappers
  import opened Text
  import opened Json
  import opened CacheModel
  import opened CacheController

  const BOOK_TTL_MS := 1
  const DAY_MS := 24 * 60 * 60 * 1000
  const FIVE_MINUTES_MS := 5 * 60 * 1000
  const DEFAULT_CONFIG_TTL_MS := 60 * 1000
  const MAX_ATTEMPTS := 60
  const POLL_INTERVAL_MS := 1000

  // ---------------------------------------------------------------- cache keys

  function BookKey(bookId: string): string {
    "book_" + bookId
  }

  function DistilledKey(bookId: string, startPage: int, endPage: int): string {
    "distilled_content_" + bookId + "_" + IntToString(startPage) + "_" + IntToString(endPage)
  }

  function ContentSectionKey(bookId: string, pageNum: int): string {
    "content_section_" + bookId + "_" + IntToString(pageNum)
  }

  function AllContentSectionsKey(bookId: string): string {
    "all_content_sections_" + bookId
  }

  function AppConfigKey(key: string): string {
    "app_config_" + key
  }

  const BOOKS_KEY := "all_books"

  function CheckInsKey(n: int): string {
    "last_" + IntToString(n) + "_check_ins"
  }

  /** Different (book, start, end) triples are cached under different keys, even when the book id holds '_'. */
  lemma {:induction false} DistilledKeyInjective(b1: string, s1: int, e1: int, b2: string, s2: int, e2: int)
    requires DistilledKey(b1, s1, e1) == DistilledKey(b2, s2, e2)
    ensures b1 == b2 && s1 == s2 && e1 == e2
  {
    var p := "distilled_content_";
    IntToStringHasNoUnderscore(s1);
    IntToStringHasNoUnderscore(s2);
    IntToStringHasNoUnderscore(e1);
    IntToStringHasNoUnderscore(e2);
    assert (p + b1 + "_" + IntToString(s1)) + ['_'] + IntToString(e1)
        == (p + b2 + "_" + IntToString(s2)) + ['_'] + IntToString(e2);
    SplitAtLastSeparator(p + b1 + "_" + IntToString(s1), IntToString(e1), p + b2 + "_" + IntToString(s2), IntToString(e2), '_');
    assert (p + b1) + ['_'] + IntToString(s1) == (p + b2) + ['_'] + IntToString(s2);
    SplitAtLastSeparator(p + b1, IntToString(s1), p + b2, IntToString(s2), '_');
    assert b1 == (p + b1)[|p|..] == (p + b2)[|p|..] == b2;
    IntToStringInjective(s1, s2);
    IntToStringInjective(e1, e2);
  }

  /** Different (book, page) pairs are cached under different content-section keys. */
  lemma {:induction false} ContentSectionKeyInjective(b1: string, n1: int, b2: string, n2: int)
    requires ContentSectionKey(b1, n1) == ContentSectionKey(b2, n2)
    ensures b1 == b2 && n1 == n2
  {
    var p := "content_section_";
    IntToStringHasNoUnderscore(n1);
    IntToStringHasNoUnderscore(n2);
    assert (p + b1) + ['_'] + IntToString(n1) == (p + b2) + ['_'] + IntToString(n2);
    SplitAtLastSeparator(p + b1, IntToString(n1), p + b2, IntToString(n2), '_');
    assert b1 == (p + b1)[|p|..] == (p + b2)[|p|..] == b2;
    IntToStringInjective(n1, n2);
  }

  /** `expiration || 60000`: a missing or zero expiration becomes one minute. */
  function ConfigExpiration(expiration: Option<int>): (ms: int)
    ensures ms != 0
    ensures expiration.Some? && expiration.value != 0 ==> ms == expiration.value
    ensures expiration.None? || expiration.value == 0 ==> ms == DEFAULT_CONFIG_TTL_MS
  {
    if expiration.Some? && expiration.value != 0 then expiration.value else DEFAULT_CONFIG_TTL_MS
  }

  /** Unlike the settings service, a setting written through the API always gets an expiration. */
  lemma AppConfigAlwaysExpires(expiration: Option<int>, now: int)
    ensures AbsoluteExpiration(Some(ConfigExpiration(expiration)), now).Some?
  {
  }

  /** A book entry expires one millisecond after it is written. */
  lemma BookEntryLivesOneMillisecond(rows: Table, bookId: string, text: string, now: int)
    ensures Lookup(Store(rows, BookKey(bookId), text, Some(BOOK_TTL_MS), now), BookKey(bookId), now) == Some(text)
    ensures Lookup(Store(rows, BookKey(bookId), text, Some(BOOK_TTL_MS), now), BookKey(bookId), now + 1) == None
  {
  }

  /** Distilled content stays cached for exactly 24 hours. */
  lemma DistilledEntryLivesOneDay(rows: Table, key: string, text: string, now: int, t: int)
    ensures Lookup(Store(rows, key, text, Some(DAY_MS), now), key, t).Some? <==> t < now + 86400000
  {
  }

  // ---------------------------------------------------------------- polling

  datatype Reply = Reply(status: int, data: Json)

  /** `response.ok`: a 2xx status. */
  predicate Ok(status: int) {
    200 <= status < 300
  }

  /** A reply that makes the poll wait and ask again: successful, but not 200 (e.g. 202 while processing). */
  predicate Retried(reply: Reply) {
    Ok(reply.status) && reply.status != 200
  }

  datatype PollResult = Delivered(data: Json) | RequestFailed(status: int) | GaveUp

  /** The reply that ends a poll: a 200 delivers its body, a non-2xx makes the request throw. */
  function Stop(reply: Reply): PollResult {
    if Ok(reply.status) then Delivered(reply.data) else RequestFailed(reply.status)
  }

  /** The result of polling from attempt `attempt` on, and the number of requests made. */
  function PollFrom(respond: nat -> Reply, attempt: nat): (r: (PollResult, nat))
    requires attempt <= MAX_ATTEMPTS
    ensures r.1 <= MAX_ATTEMPTS - attempt
    ensures r.0.GaveUp? <==> r.1 == MAX_ATTEMPTS - attempt && forall i :: attempt <= i < MAX_ATTEMPTS ==> Retried(respond(i))
    decreases MAX_ATTEMPTS - attempt
  {
    if attempt == MAX_ATTEMPTS then (GaveUp, 0)
    else if !Retried(respond(attempt)) then (Stop(respond(attempt)), 1)
    else
      var next := PollFrom(respond, attempt + 1);
      (next.0, next.1 + 1)
  }

  /** The poll stops at the first reply that is not a retry, and makes no request after it. */
  lemma {:induction false} PollStopsAtFirstNonRetry(respond: nat -> Reply, attempt: nat, k: nat)
    requires attempt <= k < MAX_ATTEMPTS
    requires forall i :: attempt <= i < k ==> Retried(respond(i))
    requires !Retried(respond(k))
    ensures PollFrom(respond, attempt) == (Stop(respond(k)), k + 1 - attempt)
    decreases k - attempt
  {
    if attempt < k {
      PollStopsAtFirstNonRetry(respond, attempt + 1, k);
    }
  }

  /**
   * Polling from `attempt` makes at least one request; every reply before the last one was a
   * retry, and the last one either ends the poll or, when the poll gives up, was a retry too.
   */
  lemma {:induction false} PollFromShape(respond: nat -> Reply, attempt: nat)
    requires attempt < MAX_ATTEMPTS
    ensures 1 <= PollFrom(respond, attempt).1
    ensures forall i :: attempt <= i < attempt + PollFrom(respond, attempt).1 - 1 ==> Retried(respond(i))
    ensures !PollFrom(respond, attempt).0.GaveUp? ==>
      && PollFrom(respond, attempt).0 == Stop(respond(attempt + PollFrom(respond, attempt).1 - 1))
      && !Retried(respond(attempt + PollFrom(respond, attempt).1 - 1))
    ensures PollFrom(respond, attempt).0.GaveUp? ==> Retried(respond(MAX_ATTEMPTS - 1))
    decreases MAX_ATTEMPTS - attempt
  {
    if Retried(respond(attempt)) && attempt + 1 < MAX_ATTEMPTS {
      PollFromShape(respond, attempt + 1);
    }
  }

  /**
   * `getDistilledContent`'s fetch function: polls at most 60 times, returns the body of the first
   * 200, throws on a non-2xx reply, waits 1000 ms after every other reply, and throws after 60.
   */
  method Poll(respond: nat -> Reply) returns (result: PollResult, requests: nat, waitedMs: nat)
    ensures (result, requests) == PollFrom(respond, 0)
    ensures 1 <= requests <= MAX_ATTEMPTS
    ensures forall i :: 0 <= i < requests - 1 ==> Retried(respond(i))
    ensures !result.GaveUp? ==> result == Stop(respond(requests - 1)) && !Retried(respond(requests - 1))
    ensures result.GaveUp? ==> requests == MAX_ATTEMPTS && Retried(respond(MAX_ATTEMPTS - 1))
    ensures waitedMs == POLL_INTERVAL_MS * (if result.GaveUp? then requests else requests - 1)
  {
    PollFromShape(respond, 0);
    var attempts: nat := 0;
    waitedMs := 0;
    while attempts < MAX_ATTEMPTS
      invariant attempts <= MAX_ATTEMPTS
      invariant waitedMs == POLL_INTERVAL_MS * attempts
      invariant forall i :: 0 <= i < attempts ==> Retried(respond(i))
      invariant PollFrom(respond, 0) == (PollFrom(respond, attempts).0, PollFrom(respond, attempts).1 + attempts)
    {
      var reply := respond(attempts);
      if !Ok(reply.status) {
        return RequestFailed(reply.status), attempts + 1, waitedMs;
      }
      if reply.status == 200 {
        return Delivered(reply.data), attempts + 1, waitedMs;
      }
      waitedMs := waitedMs + POLL_INTERVAL_MS;
      attempts := attempts + 1;
    }
    return GaveUp, attempts, waitedMs;
  }

  /** What the fetch function hands to the cache: the delivered body, or the error it throws. */
  function PollOutcome(result: PollResult): (r: Result<Json, string>)
    ensures r.Success? <==> result.Delivered?
    ensures r.Success? ==> r.value == result.data
  {
    match result
    case Delivered(data) => Success(data)
    case RequestFailed(_) => Failure("API request failed")
    case GaveUp => Failure("Failed to get distilled content after 60 attempts")
  }

  class Apis {
    const controller: CacheController

    constructor(controller: CacheController)
      ensures this.controller == controller
    {
      this.controller := controller;
    }

    method GetBook(bookId: string, fetch: Result<Json, string>, now: int)
      returns (r: Result<Json, ControllerError>, fetched: bool)
      modifies controller, controller.service.model
      ensures controller.GetDataSpec(BookKey(bookId), Some(fetch), Some(BOOK_TTL_MS), now, r, fetched)
    {
      r, fetched := controller.GetData(BookKey(bookId), Some(fetch), Some(BOOK_TTL_MS), now);
    }

    /**
     * Distilled content of a page range: a cache hit is returned as is; on a miss the poll runs
     * and only a delivered body is cached, for 24 hours. `requests` is zero when nothing was fetched.
     */
    method GetDistilledContent(bookId: string, startPage: int, endPage: int, respond: nat -> Reply, now: int)
      returns (r: Result<Json, ControllerError>, fetched: bool, requests: nat)
      modifies controller, controller.service.model
      ensures controller.GetDataSpec(DistilledKey(bookId, startPage, endPage), Some(PollOutcome(PollFrom(respond, 0).0)),
                                     Some(DAY_MS), now, r, fetched)
      ensures requests == if fetched then PollFrom(respond, 0).1 else 0
    {
      var result, n, _ := Poll(respond);
      r, fetched := controller.GetData(DistilledKey(bookId, startPage, endPage), Some(PollOutcome(result)), Some(DAY_MS), now);
      requests := if fetched then n else 0;
    }

    method GetContentSection(bookId: string, pageNum: int, fetch: Result<Json, string>, now: int)
      returns (r: Result<Json, ControllerError>, fetched: bool)
      modifies controller, controller.service.model
      ensures controller.GetDataSpec(ContentSectionKey(bookId, pageNum), Some(fetch), Some(DAY_MS), now, r, fetched)
    {
      r, fetched := controller.GetData(ContentSectionKey(bookId, pageNum), Some(fetch), Some(DAY_MS), now);
    }

    method GetAllContentSections(bookId: string, fetch: Result<Json, string>, now: int)
      returns (r: Result<Json, ControllerError>, fetched: bool)
      modifies controller, controller.service.model
      ensures controller.GetDataSpec(AllContentSectionsKey(bookId), Some(fetch), Some(DAY_MS), now, r, fetched)
    {
      r, fetched := controller.GetData(AllContentSectionsKey(bookId), Some(fetch), Some(DAY_MS), now);
    }

    method GetBooks(fetch: Result<Json, string>, now: int)
      returns (r: Result<Json, ControllerError>, fetched: bool)
      modifies controller, controller.service.model
      ensures controller.GetDataSpec(BOOKS_KEY, Some(fetch), Some(FIVE_MINUTES_MS), now, r, fetched)
    {
      r, fetched := controller.GetData(BOOKS_KEY, Some(fetch), Some(FIVE_MINUTES_MS), now);
    }

    method GetLastNCheckIns(n: int, fetch: Result<Json, string>, now: int)
      returns (r: Result<Json, ControllerError>, fetched: bool)
      modifies controller, controller.service.model
      ensures controller.GetDataSpec(CheckInsKey(n), Some(fetch), Some(FIVE_MINUTES_MS), now, r, fetched)
    {
      r, fetched := controller.GetData(CheckInsKey(n), Some(fetch), Some(FIVE_MINUTES_MS), now);
    }

    method SetAppConfig(key: string, value: Json, expiration: Option<int>, now: int)
      modifies controller, controller.service.model
      ensures controller.service.model.rows ==
        Store(old(controller.service.model.rows), AppConfigKey(key), Encode(value), Some(ConfigExpiration(expiration)), now)
      ensures controller.flushes == old(controller.flushes) + FlushCount(controller.isWeb)
    {
      controller.Set(AppConfigKey(key), value, Some(ConfigExpiration(expiration)), now);
    }

    /** A read-only probe: no fetch function, so nothing is ever written. */
    method GetAppConfig(key: string, now: int)
      returns (r: Result<Json, ControllerError>, fetched: bool)
      modifies controller, controller.service.model
      ensures controller.GetDataSpec(AppConfigKey(key), None, Some(0), now, r, fetched)
      ensures !fetched && controller.service.model.rows == old(controller.service.model.rows)
    {
      r, fetched := controller.GetData(AppConfigKey(key), None, Some(0), now);
    }

    method RemoveAppConfig(key: string)
      modifies controller.service.model
      ensures controller.service.model.rows == old(controller.service.model.rows) - {AppConfigKey(key)}
    {
      controller.InvalidateCache(AppConfigKey(key));
    }

    method ClearCache()
      modifies controller, controller.service.model
      ensures controller.service.model.rows == map[]
    {
      controller.ClearCache();
    }
  }
}
