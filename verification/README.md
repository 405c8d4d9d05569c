# gvlcache in Dafny

A model of the get-or-fetch path of the IAB Global Vendor List (GVL)
version 2 cache, the Go package `gvlcachev2`. The GVL is the vendor registry
described in the IAB Tech Lab document "Consent string and vendor list
formats v2" of the Transparency and Consent Framework. The package serves it
over HTTP and is meant to keep a copy in memcached.

What the code does, and what the model states:

- `GET /GVLV2` (`HandleRequestForGVLVersion2`) looks the list up in the cache. On a miss it fetches it from the
  fixed address `http://127.0.0.1/8085/v2/vendor-list.json`, which both branches of the `utils.IsLocal` test
  choose, so the real IAB server is never contacted. A failed fetch ends in `http.Error` with status 500. Otherwise it
  sets `Content-Type: application/json`, sends 200 and writes the JSON encoding of the list.
- The lookup (`getGVLVersionTwoValueFromCache`) is a stub that always reports a miss.
- The malformed-body check (`isIABResponseBodyMalformed`) is a stub that always
  reports malformed.
- Together, these stubs mean that every request fetches once, every fetch fails,
  and every request whose upstream exchange completes ends in a 500, leaving the cache as it was.
- The store step (`storeGVLVersion2ValueIntoCache`) derives a lifetime from the `Cache-Control`
  response header and replaces the one cache key with it. The handler never calls it.
- The lifetime parser (`getCachingPeriodOfGVLInSeconds`) splits the header value on `=` and runs `strconv.Atoi` on
  piece 1. The directive name is never checked, negative numbers are accepted,
  and a value without `=` makes the indexing panic.
- The bust handler (`HandleRequestForBustingCache`) has an empty body.

Modules, one per concern:

- `Go` (go.dfy): `Option` and `Run` (a call returns or panics), the bounds of 64-bit `int` and of `int32`, and the
  `int32(x)` conversion.
- `Strings` (strings.dfy): `strings.Split` on one character, with `Join` as its inverse and the second field
  described by position.
- `Strconv` (strconv.dfy): `strconv.Atoi` as Go's digit loop. Its reference reading is `DecimalValue`, and
  `Itoa` is its inverse.
- `Http` (http.dfy): `http.Header` lookup, a `ResponseWriter` seen as the list of calls made on it, the
  client's view of that list (status, headers when the status went out, body), and `http.Error`.
- `Gvlcache` (gvlcache.dfy): gvlcacheV2/gvlcache.go, plus the cache key constant from handler.go.
- `Handler` (handler.dfy): gvlcacheV2/handler.go.

Inputs stand in for I/O. An `Exchange` stands for the HTTP exchange with the IAB
server. It is a request-building error, a transport error, a read error, or the
bytes read, with `None` for a nil slice. A boolean stands for the answer of
`ezcache.ReplaceKeyObject`. A `Lookup` stands for the answer a cache read would give.

Where the design stated in the source's own comments and the code differ, the model follows the code.
Those comments are at handler.go:54 ("Bust the cache and remove all content from it"), at gvlcache.go:133-134
(the body is to be checked against the documented constraints), and at gvlcache.go:227 (the value is expected to be
`max-age=<some integer amount>`).

- Nothing is ever cached by a request.
- Bodies are never validated; every body is rejected.
- Busting the cache removes nothing.
- A lifetime is accepted from any `name=value` text, negative values included.
- A Cache-Control value without `=`, such as `no-cache`, panics instead of
  returning an error.

## Model

| member | source | states |
|---|---|---|
| Gvlcache.CachingPeriod | gvlcacheV2/gvlcache.go:221-235 | An empty or absent Cache-Control value gives 0 and the header error. A non-empty value without `=` panics, and that is the only way to panic. Otherwise the outcome is decided by the text between the first `=` and the next `=` (or the end): its value if it is an optionally signed decimal literal within `int`, else 0 and the integer error. |
| Gvlcache.CachingPeriodOfDirective | gvlcacheV2/gvlcache.go:228-234 | For every directive name without `=` and every `int` n, negative included, `name=n` gives n with no error. This still holds when further `=`-separated text follows. |
| Gvlcache.CachingPeriodRejectsField | gvlcacheV2/gvlcache.go:228-233 | When the text between the first `=` and the next `=` (or the end) is not an optionally signed run of digits, the result is 0 with the integer error. |
| Gvlcache.SecondFieldOf | gvlcacheV2/gvlcache.go:228 | In `name=field` or `name=field=…`, with no `=` in name or field, the text the parser reads is exactly `field`. |
| Gvlcache.MaxAgeOneDay | gvlcacheV2/gvlcache.go:227-234 | `max-age=86400` gives 86400 seconds and no error. |
| Gvlcache.MaxAgeNegative | gvlcacheV2/gvlcache.go:229-234 | `max-age=-5` gives -5 and no error: negative lifetimes are not rejected. |
| Gvlcache.MaxAgeWithExtraText | gvlcacheV2/gvlcache.go:229-233 | `max-age= 60`, `max-age=60, public` and `max-age=abc` give 0 and the integer error. |
| Gvlcache.NoCachePanics | gvlcacheV2/gvlcache.go:228 | `no-cache`, a value with no `=`, panics with index out of range. |
| Gvlcache.StoreIntoCache | gvlcacheV2/gvlcache.go:202-219 | Panics exactly when the lifetime parser panics. It returns true exactly when a lifetime was derived and the replace succeeded. The replace is called once when a lifetime was derived and never otherwise. On false the cache is unchanged. On true the GVL slot holds the document with expiry `int32(ttl)`. No other slot changes. |
| Gvlcache.StoreWithMaxAge | gvlcacheV2/gvlcache.go:211-212 | With `Cache-Control: name=n`, a successful store leaves the cache updated at exactly pool `middleton`, key `gvl-version2-key`, with expiry `int32(n)`. |
| Gvlcache.LookupMissesAfterStore | gvlcacheV2/gvlcache.go:120-130 | The lookup reports a miss even right after a successful store has filled the GVL slot. |
| Gvlcache.LookupFromCache | gvlcacheV2/gvlcache.go:120-130 | The lookup always reports a miss, whatever the cache holds. |
| Gvlcache.IsMalformed | gvlcacheV2/gvlcache.go:132-137 | Every body is malformed, the empty body included. |
| Gvlcache.FetchWith | gvlcacheV2/gvlcache.go:152-199 | The fetch yields a document exactly when a non-nil body was read and passes the malformed test, and the document is decoded from that body. Request, transport and read errors are returned unchanged. A nil body gives "Response body is not returned in call". A malformed body gives "Server response body is malformed". |
| Gvlcache.FetchConsultsTestOnlyOnBody | gvlcacheV2/gvlcache.go:179-195 | On every exchange without a body, the fetch's outcome does not depend on the malformed test. |
| Gvlcache.FetchFromSource | gvlcacheV2/gvlcache.go:132-199 | With the stubbed malformed test, no exchange produces a document. Every body that is read, even an empty one, ends in "Server response body is malformed". |
| Go.Int32Of | gvlcacheV2/gvlcache.go:212 | `int32(x)` lies in the int32 range and is congruent to x modulo 2^32. It is x itself when x fits. |
| Strings.Split | gvlcacheV2/gvlcache.go:228 | `strings.Split(v, "=")` yields at least one piece, even for an empty value, and no piece contains `=`. |
| Strings.SplitSecondField | gvlcacheV2/gvlcache.go:228 | `strings.Split(v, "=")` is exactly `[v]` when v has no `=`, so index 1 is out of range. Otherwise piece 1 exists and is the text between the first and second `=`. |
| Strings.SplitCount | gvlcacheV2/gvlcache.go:228 | Split yields one more piece than the value has `=` characters. |
| Strings.JoinSplit | gvlcacheV2/gvlcache.go:228 | Joining the pieces of the split with `=` gives back the header value. |
| Strings.SplitJoin | gvlcacheV2/gvlcache.go:228 | Splitting the join of a non-empty list of `=`-free pieces gives back those pieces. |
| Strconv.Atoi | gvlcacheV2/gvlcache.go:229 | Atoi succeeds exactly on an optional sign followed by one or more ASCII digits whose value fits in a 64-bit `int`, and the result is that value. |
| Strconv.AccumulateValue | gvlcacheV2/gvlcache.go:229 | Go's left-to-right digit loop computes the reference decimal value, and it fails exactly when some character is not a digit. |
| Strconv.ItoaRoundTrip | gvlcacheV2/gvlcache.go:229 | Atoi reads back every `int` that Itoa formats. |
| Http.HeaderGet | gvlcacheV2/gvlcache.go:223 | `Header.Get` gives the first value stored under the name. It gives "" when the name is absent or has no values. |
| Http.Error | gvlcacheV2/handler.go:32 | `http.Error` sends the given status and a plain-text content type, and its body is the message followed by a newline. |
| Handler.JsonReply | gvlcacheV2/handler.go:38-44 | The success reply sends status 200. Its content type at the time the status goes out is `application/json`. Its body is the JSON encoding of the document and nothing else. |
| Handler.Serve | gvlcacheV2/handler.go:19-50 | The cache lookup comes first. The fetch runs once on a miss and never on a hit. The store step is never called. The status is 500 exactly on a miss whose fetch failed, and then the body is the fixed message with no JSON. Otherwise the status is 200 with `application/json`, and the body is the encoding of the found or fetched document. |
| Handler.HandleRequestForGVLVersion2 | gvlcacheV2/handler.go:19-33 | With the stubs, every request, whatever the cache holds, fetches exactly once and never calls the store step. It leaves the cache as it was, and it ends in status 500 with the plain-text fixed message. |
| Handler.EveryRequestFails | gvlcacheV2/handler.go:24-33 | In any series of requests, each served against the cache the previous one left, each request fetches once, ends in 500 and calls no store, and the cache after the last request is the cache before the first. |
| Handler.HandleRequestForBustingCache | gvlcacheV2/handler.go:53-55 | The bust handler calls nothing and writes nothing, so the client gets a bare 200. It leaves the cache unchanged. |
| Handler.BustIsIdempotent | gvlcacheV2/handler.go:53-55 | Busting twice gives the same result as busting once. |
| Handler.RequestAfterBustFetches | gvlcacheV2/handler.go:24-30 | A request that follows a bust takes the miss path and fetches upstream. |

## Left out

- IAB-server/ (the sample server and its embedded JSON) and main.go (router, memcached start-up, root handler): these are
  process and HTTP plumbing with no decision logic.
- The HTTP client is left out: the `utils.IsLocal` test (both branches assign the same local URL), the `Accept-Encoding` request header, and closing the body.
  The exchange is an input (`Exchange`) and not a computation.
- A nil `resp.Body` is not modelled. `ioutil.ReadAll` of a nil reader would panic, but Go's client always supplies a body.
  A nil slice from ReadAll is kept as its own case because the code checks for it. With Go's standard library an empty body
  is a non-nil empty slice, so it reaches the malformed check.
- memcached is left out. `ezcache.ReplaceKeyObject` is an input boolean, and a failed replace is taken to leave the cache as it was.
  The commented-out `LoadKeyObject` read is not code and is not modelled.
- JSON is left out. The document decoded by `json.Unmarshal`, whose error the code ignores, is opaque (`Decoded(body)`). Distinct bodies may decode to the same value under `json.Unmarshal` (whitespace,
  key order, unknown fields), and no statement of the model relies on `Decoded` being one-to-one. The
  encoding written by `json.NewEncoder` is the opaque payload `JsonEncoded(doc)`.
- The GVL struct layouts and the vendor constraints in the comment at gvlcache.go:80-92 are left out: nothing enforces them.
- Logging calls have no observable effect in the model.
- The write-error branch at handler.go:45-48 is left out. It calls `http.Error` after the status was sent, which is a
  `ResponseWriter` matter.
- Header names are left out. `Header.Get("cache-control")` is modelled as a lookup of the canonical name `Cache-Control`
  in a map whose keys are already canonical.
- `int` is taken to be 64 bits wide. This fixes the range `strconv.Atoi` accepts.
- Strconv.Atoi: does not distinguish Go's syntax errors from range errors. The caller discards the error and returns 0 either way.
- The HTTP client is built as `&http.Client{}` (gvlcache.go:151), which has no time-out. A stalled upstream would leave
  `client.Do` or `ioutil.ReadAll` blocked forever. `Exchange` has no case for that. What the model states about requests
  covers only requests whose exchange with the IAB server ends.
- Go header values are byte strings, while the model uses `string`, a sequence of Unicode characters. This changes nothing
  here: `=`, the signs and the digits the parser looks at are all ASCII.
- Concurrent requests are left out. Each request is modelled on its own.
- Handler.HandleAll is a helper that serves a series of requests, passing each one the cache the previous one left. It
  exists for `EveryRequestFails`.
