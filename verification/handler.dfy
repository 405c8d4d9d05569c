/** The two HTTP handlers of gvlcacheV2/handler.go. A request runs the
    cache lookup, fetches on a miss, and answers either with `http.Error`
    and status 500 or with status 200 and the JSON encoding of the vendor
    list. The bust handler does nothing. A run is described by the calls it
    makes on its collaborators and the operations it performs on the
    `ResponseWriter`. */
module Handler {
  import opened Strings
  import opened Http
  import opened Gvlcache

  /** A call on a collaborator: the cache lookup, the upstream fetch, or the
      store step. */
  datatype Call = CacheLookup | UpstreamFetch | CacheStore

  /** One handler run: collaborator calls in order, and what was written. */
  datatype Served = Served(calls: seq<Call>, response: seq<WriterOp<Document>>)

  const UpstreamErrorMessage: string := "There was an error returning the vendor list from IAB's server."

  /** The success reply: JSON content type, status 200, then the document. */
  function JsonReply(doc: Document): (ops: seq<WriterOp<Document>>)
    ensures StatusOf(ops) == StatusOK
    ensures Written(ops) == [JsonEncoded(doc)]
    ensures HeaderAtCommit(ops, "Content-Type") == ["application/json"]
  {
    var body: seq<WriterOp<Document>> := [Write(JsonEncoded(doc))];
    var sent := [WriteHeader(StatusOK)] + body;
    var ops := [AddHeader("Content-Type", "application/json")] + sent;
    ViewsOfCons(body[0], [], "Content-Type", []);
    assert body == [body[0]] + [];
    ViewsOfCons(sent[0], body, "Content-Type", ["application/json"]);
    ViewsOfCons(ops[0], sent, "Content-Type", []);
    ops
  }

  /** The control flow of `HandleRequestForGVLVersion2` for a given lookup
      answer and the fetch outcome the upstream would give. The fetch runs
      once on a miss and never on a hit; a failed fetch ends in a 500 with
      the fixed message and no JSON; otherwise the reply is a 200 whose
      content type was set before the status line, carrying the found or
      fetched document. The store step is never called. */
  function Serve(lookup: Lookup, upstream: FetchResult): (r: Served)
    ensures Occurrences(r.calls, UpstreamFetch) == (if lookup.Miss? then 1 else 0)
    ensures Occurrences(r.calls, CacheLookup) == 1 && r.calls[0] == CacheLookup
    ensures CacheStore !in r.calls
    ensures StatusOf(r.response) == (if lookup.Miss? && upstream.FetchFailed? then StatusInternalServerError else StatusOK)
    ensures lookup.Miss? && upstream.FetchFailed? ==> Written(r.response) == [Text(UpstreamErrorMessage + "\n")]
    ensures lookup.Miss? && upstream.Fetched? ==> Written(r.response) == [JsonEncoded(upstream.doc)]
    ensures lookup.Hit? ==> Written(r.response) == [JsonEncoded(lookup.found)]
    ensures StatusOf(r.response) == StatusOK ==> HeaderAtCommit(r.response, "Content-Type") == ["application/json"]
  {
    if lookup.Hit? then
      Served([CacheLookup], JsonReply(lookup.found))
    else
      var calls := [CacheLookup, UpstreamFetch];
      assert calls[1..][1..] == [];
      match upstream
      case FetchFailed(_) => Served(calls, Error(UpstreamErrorMessage, StatusInternalServerError))
      case Fetched(doc) => Served(calls, JsonReply(doc))
  }

  /** One handler run and the cache it leaves behind. */
  datatype Outcome = Outcome(served: Served, cache: Cache)

  /** `HandleRequestForGVLVersion2` with the stubs of gvlcache.go: the lookup
      misses whatever the cache holds, so every request fetches exactly once,
      the fetch always fails, and every request ends in a 500 carrying the
      fixed message. The store step is never called, so the cache is left as
      it was. */
  function HandleRequestForGVLVersion2(cache: Cache, ex: Exchange): (r: Outcome)
    ensures Occurrences(r.served.calls, UpstreamFetch) == 1
    ensures CacheStore !in r.served.calls && r.cache == cache
    ensures StatusOf(r.served.response) == StatusInternalServerError
    ensures Written(r.served.response) == [Text(UpstreamErrorMessage + "\n")]
    ensures HeaderAtCommit(r.served.response, "Content-Type") == ["text/plain; charset=utf-8"]
  {
    Outcome(Serve(LookupFromCache(cache), FetchFromSource(ex)), cache)
  }

  /** `HandleRequestForBustingCache`: an empty body. It calls nothing, writes
      nothing (so the client gets a bare 200), and leaves the cache as it was. */
  function HandleRequestForBustingCache(cache: Cache): (r: Outcome)
    ensures r.cache == cache
    ensures r.served.calls == [] && Written(r.served.response) == []
    ensures StatusOf(r.served.response) == StatusOK
  {
    Outcome(Served([], []), cache)
  }

  /** Busting twice is the same as busting once. */
  lemma BustIsIdempotent(cache: Cache)
    ensures HandleRequestForBustingCache(HandleRequestForBustingCache(cache).cache)
         == HandleRequestForBustingCache(cache)
  {
  }

  /** After a bust the next request takes the miss path: it fetches upstream. */
  lemma RequestAfterBustFetches(cache: Cache, ex: Exchange)
    ensures Occurrences(HandleRequestForGVLVersion2(HandleRequestForBustingCache(cache).cache, ex).served.calls, UpstreamFetch) == 1
  {
  }

  /** The responses to a series of requests, each served against the cache
      the one before it left, and the cache after the last. */
  datatype Session = Session(responses: seq<Served>, cache: Cache)

  function HandleAll(cache: Cache, exchanges: seq<Exchange>): (s: Session)
    ensures |s.responses| == |exchanges|
  {
    if |exchanges| == 0 then Session([], cache)
    else
      var first := HandleRequestForGVLVersion2(cache, exchanges[0]);
      var rest := HandleAll(first.cache, exchanges[1..]);
      Session([first.served] + rest.responses, rest.cache)
  }

  /** However many requests arrive, each fetches upstream, each ends in a
      500, none calls the store step, and the cache ends as it began: the
      service never serves or keeps a vendor list. */
  lemma {:induction false} EveryRequestFails(cache: Cache, exchanges: seq<Exchange>)
    ensures HandleAll(cache, exchanges).cache == cache
    ensures forall i :: 0 <= i < |exchanges| ==>
      && StatusOf(HandleAll(cache, exchanges).responses[i].response) == StatusInternalServerError
      && Occurrences(HandleAll(cache, exchanges).responses[i].calls, UpstreamFetch) == 1
      && CacheStore !in HandleAll(cache, exchanges).responses[i].calls
  {
    if |exchanges| > 0 {
      var first := HandleRequestForGVLVersion2(cache, exchanges[0]);
      EveryRequestFails(first.cache, exchanges[1..]);
      var rs := HandleAll(cache, exchanges).responses;
      forall i | 0 <= i < |exchanges|
        ensures StatusOf(rs[i].response) == StatusInternalServerError
        ensures Occurrences(rs[i].calls, UpstreamFetch) == 1
        ensures CacheStore !in rs[i].calls
      {
        if i > 0 {
          assert rs[i] == HandleAll(first.cache, exchanges[1..]).responses[i - 1];
        }
      }
    }
  }
}
