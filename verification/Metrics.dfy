/** The process-wide counters that all streams share. */
module Metrics {
  import opened Stream
  import opened Sums

  /** One finished request; the status category is the status divided by 100. */
  datatype RequestRecord = RequestRecord(attributes: Attributes, reqSize: int, respSize: int)

  datatype Attributes = Attributes(httpMethod: string, statusCategory: int)

  /** A counter with one value for each attribute it has been given. */
  function Count<K>(counter: map<K, int>, k: K): int {
    if k in counter then counter[k] else 0
  }

  function Bump<K(!new)>(counter: map<K, int>, k: K, n: int): (r: map<K, int>)
    ensures forall j :: Count(r, j) == Count(counter, j) + if j == k then n else 0
  {
    counter[k := Count(counter, k) + n]
  }

  /** Under each attribute the counter is the total of what the records contribute to it. */
  ghost predicate Totals<K(!new), T>(counter: map<K, int>, f: K -> T -> int, log: seq<T>) {
    forall k :: Count(counter, k) == Sum(f(k), log)
  }

  lemma TotalsSnoc<K(!new), T>(counter: map<K, int>, f: K -> T -> int, log: seq<T>, k: K, n: int, x: T)
    requires Totals(counter, f, log) && forall j :: f(j)(x) == if j == k then n else 0
    ensures Totals(Bump(counter, k, n), f, log + [x])
  {
    forall j ensures Count(Bump(counter, k, n), j) == Sum(f(j), log + [x]) {
      SumSnoc(f(j), log, x);
    }
  }

  // What one record contributes to the counters.

  function OneOf(a: Attributes): RequestRecord -> int {
    (r: RequestRecord) => if r.attributes == a then 1 else 0
  }

  function ReqSizeOf(a: Attributes): RequestRecord -> int {
    (r: RequestRecord) => if r.attributes == a then r.reqSize else 0
  }

  function RespSizeOf(a: Attributes): RequestRecord -> int {
    (r: RequestRecord) => if r.attributes == a then r.respSize else 0
  }

  function ErrorOf(kind: string): string -> int {
    (e: string) => if e == kind then 1 else 0
  }

  function InOf(host: string): Traffic -> int {
    (t: Traffic) => if t.host == host then t.bytesIn else 0
  }

  function OutOf(host: string): Traffic -> int {
    (t: Traffic) => if t.host == host then t.bytesOut else 0
  }

  class Counters {
    var activeRequests: int
    var requestsTotal: map<Attributes, int>      // also the number of values in each size histogram
    var requestSizeBytes: map<Attributes, int>   // the sum of each histogram
    var responseSizeBytes: map<Attributes, int>
    var errorsTotal: map<string, int>
    var bytesIn: map<string, int>
    var bytesOut: map<string, int>

    // Everything recorded so far.
    ghost var requests: seq<RequestRecord>
    ghost var errors: seq<string>
    ghost var log: seq<Traffic>

    /** Every counter is the total of what was recorded under its attributes. */
    ghost predicate Valid()
      reads this
    {
      && Totals(requestsTotal, OneOf, requests)
      && Totals(requestSizeBytes, ReqSizeOf, requests)
      && Totals(responseSizeBytes, RespSizeOf, requests)
      && Totals(errorsTotal, ErrorOf, errors)
      && Totals(bytesIn, InOf, log)
      && Totals(bytesOut, OutOf, log)
    }

    constructor ()
      ensures Valid() && activeRequests == 0 && requests == [] && errors == [] && log == []
    {
      activeRequests, errorsTotal, bytesIn, bytesOut := 0, map[], map[], map[];
      requestsTotal, requestSizeBytes, responseSizeBytes := map[], map[], map[];
      requests, errors, log := [], [], [];
    }

    method AddActive(n: int)
      requires Valid()
      modifies this`activeRequests
      ensures Valid() && activeRequests == old(activeRequests) + n
    {
      activeRequests := activeRequests + n;
    }

    method RecordRequest(httpMethod: string, statusCategory: int, reqSize: int, respSize: int)
      requires Valid()
      modifies this`requestsTotal, this`requestSizeBytes, this`responseSizeBytes, this`requests
      ensures Valid()
      ensures requests == old(requests) + [RequestRecord(Attributes(httpMethod, statusCategory), reqSize, respSize)]
      ensures forall a ::
                var mine := a == Attributes(httpMethod, statusCategory);
                && Count(requestsTotal, a) == Count(old(requestsTotal), a) + (if mine then 1 else 0)
                && Count(requestSizeBytes, a) == Count(old(requestSizeBytes), a) + (if mine then reqSize else 0)
                && Count(responseSizeBytes, a) == Count(old(responseSizeBytes), a) + (if mine then respSize else 0)
    {
      var a := Attributes(httpMethod, statusCategory);
      ghost var r := RequestRecord(a, reqSize, respSize);
      TotalsSnoc(requestsTotal, OneOf, requests, a, 1, r);
      TotalsSnoc(requestSizeBytes, ReqSizeOf, requests, a, reqSize, r);
      TotalsSnoc(responseSizeBytes, RespSizeOf, requests, a, respSize, r);
      requestsTotal := Bump(requestsTotal, a, 1);
      requestSizeBytes := Bump(requestSizeBytes, a, reqSize);
      responseSizeBytes := Bump(responseSizeBytes, a, respSize);
      requests := requests + [r];
    }

    method RecordError(errorType: string)
      requires Valid()
      modifies this`errorsTotal, this`errors
      ensures Valid() && errors == old(errors) + [errorType]
      ensures forall e :: Count(errorsTotal, e) == Count(old(errorsTotal), e) + if e == errorType then 1 else 0
    {
      TotalsSnoc(errorsTotal, ErrorOf, errors, errorType, 1, errorType);
      errorsTotal := Bump(errorsTotal, errorType, 1);
      errors := errors + [errorType];
    }

    method RecordTrafficIO(host: string, received: int, returned: int)
      requires Valid()
      modifies this`bytesIn, this`bytesOut, this`log
      ensures Valid() && log == old(log) + [Traffic(host, received, returned)]
      ensures forall h ::
                && Count(bytesIn, h) == Count(old(bytesIn), h) + (if h == host then received else 0)
                && Count(bytesOut, h) == Count(old(bytesOut), h) + (if h == host then returned else 0)
    {
      ghost var t := Traffic(host, received, returned);
      TotalsSnoc(bytesIn, InOf, log, host, received, t);
      TotalsSnoc(bytesOut, OutOf, log, host, returned, t);
      bytesIn := Bump(bytesIn, host, received);
      bytesOut := Bump(bytesOut, host, returned);
      log := log + [t];
    }
  }
}
