/** The fetch stage of `scrapeWebsite` (server.js): up to three GET
    requests, the first with a full browser header set and the others with
    the user agent only, a linear back-off after every failed attempt, and
    the error raised when no attempt returns status 200. The network is an
    input: `replies[k]` is what attempt k + 1 would get back. */
module Fetch {
  import opened Js

  /** What the network gives back for one request. */
  datatype Transport = NetworkError(message: string) | HttpReply(status: nat, body: string)

  /** One attempt as the retry loop sees it: the shared HTTP client resolves
      for statuses 200..499 and rejects for everything else. */
  datatype Attempt = Threw(message: string) | Returned(status: nat, body: string)

  /** The HTTP header list sent with a request. */
  type Headers = seq<(string, string)>

  /** Which of the two header sets a request carries. */
  datatype HeaderSet = BrowserHeaders | UserAgentOnly

  datatype Request = Request(headers: HeaderSet, timeoutMs: nat, maxRedirects: nat)

  datatype Fetched = Page(body: string) | Failed(message: string)

  const MaxAttempts: nat := 3
  const TimeoutMs: nat := 15000
  const MaxRedirects: nat := 5
  const UserAgent := "Mozilla/5.0 (Windows NT 10.0; Win64; x64) Chrome/120.0.0.0 Safari/537.36"

  const DefaultHeaders: Headers := [
    ("User-Agent", UserAgent),
    ("Accept", "text/html,application/xhtml+xml,application/xml;q=0.9,image/webp,*/*;q=0.8"),
    ("Accept-Language", "en-US,en;q=0.5"),
    ("Accept-Encoding", "gzip, deflate, br"),
    ("Connection", "keep-alive"),
    ("Upgrade-Insecure-Requests", "1")
  ]

  /** The client's `validateStatus`: statuses 200..499 resolve, every other
      status rejects with the client's standard message. */
  function Classify(t: Transport): (a: Attempt)
    ensures a.Returned? <==> t.HttpReply? && 200 <= t.status < 500
    ensures a.Returned? ==> a.status == t.status && a.body == t.body
    ensures t.NetworkError? ==> a == Threw(t.message)
  {
    match t
    case NetworkError(msg) => Threw(msg)
    case HttpReply(status, body) =>
      if 200 <= status < 500 then Returned(status, body)
      else Threw("Request failed with status code " + Decimal(status))
  }

  function Outcomes(replies: seq<Transport>): (os: seq<Attempt>)
    ensures |os| == |replies| && forall k :: 0 <= k < |os| ==> os[k] == Classify(replies[k])
  {
    seq(|replies|, k requires 0 <= k < |replies| => Classify(replies[k]))
  }

  /** The request made by attempt number `attempt` (counting from 1). */
  function RequestFor(attempt: nat): (r: Request)
    ensures r.timeoutMs == TimeoutMs && r.maxRedirects == MaxRedirects
    ensures r.headers == BrowserHeaders <==> attempt == 1
  {
    Request(if attempt == 1 then BrowserHeaders else UserAgentOnly, TimeoutMs, MaxRedirects)
  }

  /** The headers sent: the full browser set, or only its user agent. */
  function HeaderList(h: HeaderSet): (r: Headers)
    ensures h.BrowserHeaders? ==> r == DefaultHeaders
    ensures h.UserAgentOnly? ==> r == [("User-Agent", UserAgent)] && r == DefaultHeaders[..1]
  {
    match h
    case BrowserHeaders => DefaultHeaders
    case UserAgentOnly => [("User-Agent", DefaultHeaders[0].1)]
  }

  predicate IsSuccess(a: Attempt) {
    a.Returned? && a.status == 200
  }

  /** The most recent attempt that returned a response. */
  function LastReturned(os: seq<Attempt>): (r: Option<nat>)
    ensures r.Some? ==> r.value < |os| && os[r.value].Returned?
    ensures r.Some? ==> forall j :: r.value < j < |os| ==> os[j].Threw?
    ensures r.None? ==> forall j :: 0 <= j < |os| ==> os[j].Threw?
  {
    if os == [] then None
    else if os[|os| - 1].Returned? then Some(|os| - 1)
    else LastReturned(os[..|os| - 1])
  }

  /** The most recent attempt that threw. */
  function LastThrown(os: seq<Attempt>): (r: Option<nat>)
    ensures r.Some? ==> r.value < |os| && os[r.value].Threw?
    ensures r.Some? ==> forall j :: r.value < j < |os| ==> os[j].Returned?
    ensures r.None? ==> forall j :: 0 <= j < |os| ==> os[j].Returned?
  {
    if os == [] then None
    else if os[|os| - 1].Threw? then Some(|os| - 1)
    else LastThrown(os[..|os| - 1])
  }

  /** The error raised after all attempts failed: a generic message naming
      the status of the most recent response, even when later attempts
      threw; only when no attempt returned at all is the last thrown error
      raised again. */
  function FinalError(os: seq<Attempt>): string
    requires os != []
  {
    match LastReturned(os)
    case Some(k) => "Failed to fetch page: " + Decimal(os[k].status)
    case None => os[|os| - 1].message
  }

  /** The response the loop keeps: `response` is overwritten by every
      attempt that returns one. */
  function LastResponse(os: seq<Attempt>): (r: Option<Attempt>)
    ensures r.Some? ==> r.value.Returned?
  {
    if os == [] then None
    else if os[|os| - 1].Returned? then Some(os[|os| - 1])
    else LastResponse(os[..|os| - 1])
  }

  /** The error the loop keeps: `error` is overwritten by every attempt
      that throws. */
  function LastError(os: seq<Attempt>): Option<string> {
    if os == [] then None
    else if os[|os| - 1].Threw? then Some(os[|os| - 1].message)
    else LastError(os[..|os| - 1])
  }

  /** One more attempt replaces the kept response or the kept error. */
  lemma AttemptStep(os: seq<Attempt>, a: Attempt)
    ensures LastResponse(os + [a]) == if a.Returned? then Some(a) else LastResponse(os)
    ensures LastError(os + [a]) == if a.Threw? then Some(a.message) else LastError(os)
  {
    assert (os + [a])[..|os|] == os;
  }

  /** The kept response and error are those of the most recent attempt
      that returned and of the most recent attempt that threw. */
  lemma {:induction false} KeptAreLast(os: seq<Attempt>)
    ensures LastResponse(os) == match LastReturned(os) case Some(k) => Some(os[k]) case None => None
    ensures LastError(os) == match LastThrown(os) case Some(k) => Some(os[k].message) case None => None
  {
    if os != [] {
      KeptAreLast(os[..|os| - 1]);
    }
  }

  /** What follows the loop: the kept error is raised again when no
      response was kept, a generic error names the kept response's status
      when it is not 200, and otherwise the page is the response body. */
  function Settle(response: Option<Attempt>, error: Option<string>): Fetched
    requires response.Some? ==> response.value.Returned?
  {
    if response.None? && error.Some? then Failed(error.value)
    else if response.None? || response.value.status != 200 then
      Failed("Failed to fetch page: " + if response.Some? then Decimal(response.value.status) else "No response")
    else Page(response.value.body)
  }

  /** After three failed attempts, what follows the loop raises exactly
      `FinalError` of the attempts. */
  lemma ExhaustedError(os: seq<Attempt>)
    requires |os| == MaxAttempts
    requires forall k :: 0 <= k < |os| ==> !IsSuccess(os[k])
    ensures Settle(LastResponse(os), LastError(os)) == Failed(FinalError(os))
  {
    KeptAreLast(os);
    if LastReturned(os).None? {
      assert os[2].Threw?;
    }
  }

  /** `scrapeWebsite`'s fetch: the retry loop, then the checks after it.
      It makes at most three attempts, stops at the first whose status is
      exactly 200, waits 1000 × attempt ms after every other attempt (also
      after the last), and on failure raises `FinalError` of the attempts
      made. */
  method FetchPage(replies: seq<Transport>) returns (r: Fetched, requests: seq<Request>, delays: seq<nat>)
    requires |replies| == MaxAttempts
    ensures 1 <= |requests| <= MaxAttempts
    ensures forall k :: 0 <= k < |requests| ==> requests[k] == RequestFor(k + 1)
    ensures forall k :: 0 <= k < |requests| - 1 ==> !IsSuccess(Classify(replies[k]))
    ensures |requests| < MaxAttempts ==> IsSuccess(Classify(replies[|requests| - 1]))
    ensures r.Page? <==> IsSuccess(Classify(replies[|requests| - 1]))
    ensures r.Page? ==> r.body == replies[|requests| - 1].body
    ensures |delays| == if r.Page? then |requests| - 1 else |requests|
    ensures forall k :: 0 <= k < |delays| ==> delays[k] == 1000 * (k + 1)
    ensures r.Failed? ==> r.message == FinalError(Outcomes(replies))
    ensures r.Failed? ==> |requests| == MaxAttempts && delays == [1000, 2000, 3000]
  {
    var response, error, succeeded;
    response, error, succeeded, requests, delays := RetryLoop(replies);
    if !succeeded {
      ExhaustedError(Outcomes(replies));
    }
    r := Settle(response, error);
  }

  /** The `for` loop over the attempts: the response and the error it
      leaves behind, whether it broke off on status 200, and the requests
      and delays it made. */
  method RetryLoop(replies: seq<Transport>)
    returns (response: Option<Attempt>, error: Option<string>, succeeded: bool, requests: seq<Request>, delays: seq<nat>)
    requires |replies| == MaxAttempts
    ensures 1 <= |requests| <= MaxAttempts
    ensures forall k :: 0 <= k < |requests| ==> requests[k] == RequestFor(k + 1)
    ensures forall k :: 0 <= k < |requests| - 1 ==> !IsSuccess(Classify(replies[k]))
    ensures succeeded <==> IsSuccess(Classify(replies[|requests| - 1]))
    ensures succeeded ==> response == Some(Classify(replies[|requests| - 1]))
    ensures !succeeded ==> |requests| == MaxAttempts
    ensures !succeeded ==> response == LastResponse(Outcomes(replies)) && error == LastError(Outcomes(replies))
    ensures |delays| == if succeeded then |requests| - 1 else |requests|
    ensures forall k :: 0 <= k < |delays| ==> delays[k] == 1000 * (k + 1)
  {
    ghost var seen: seq<Attempt> := [];
    response, error, succeeded := None, None, false;
    requests, delays := [], [];
    var attempt := 1;
    while attempt <= MaxAttempts
      invariant 1 <= attempt <= MaxAttempts + 1
      invariant |requests| == |seen| == |delays| == attempt - 1
      invariant forall k :: 0 <= k < |seen| ==>
        && requests[k] == RequestFor(k + 1)
        && delays[k] == 1000 * (k + 1)
        && seen[k] == Classify(replies[k])
        && !IsSuccess(seen[k])
      invariant response == LastResponse(seen) && error == LastError(seen)
    {
      var outcome := Classify(replies[attempt - 1]);
      AttemptStep(seen, outcome);
      requests, seen := requests + [RequestFor(attempt)], seen + [outcome];
      if outcome.Returned? {
        response := Some(outcome);
        if outcome.status == 200 {
          succeeded := true;
          return;
        }
      } else {
        error := Some(outcome.message);
      }
      delays := delays + [1000 * attempt];
      attempt := attempt + 1;
    }
    assert seen == Outcomes(replies);
  }

  /** When every attempt throws, the third attempt's error is raised, not
      the first one's. */
  lemma AllThrownRaisesLast(os: seq<Attempt>)
    requires |os| == MaxAttempts && forall k :: 0 <= k < |os| ==> os[k].Threw?
    ensures FinalError(os) == os[2].message
  {
  }

  /** A response from an earlier attempt outlives later thrown attempts: the
      error names its status, not the last network error. */
  lemma StaleResponseNamesStatus(os: seq<Attempt>, k: nat)
    requires |os| == MaxAttempts && k < |os| && os[k].Returned?
    requires forall j :: k < j < |os| ==> os[j].Threw?
    ensures FinalError(os) == "Failed to fetch page: " + Decimal(os[k].status)
  {
  }
}
