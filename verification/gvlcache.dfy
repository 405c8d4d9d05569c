/** The get-or-fetch path of the IAB Global Vendor List (GVL) version 2
    cache, as written in gvlcacheV2/gvlcache.go: the cache lookup, the
    upstream fetch with its early-return error checks, the TTL parsed from
    the `Cache-Control` response header, and the store step. The HTTP
    exchange and the memcached store are inputs; the decoded vendor list is
    opaque. */
module Gvlcache {
  import opened Go
  import opened Strings
  import opened Strconv
  import opened Http

  /** A `GVLVersionTwoValue` as `json.Unmarshal` fills it in from a
      response body; the decoding itself is opaque, and nothing here relies
      on distinct bodies giving distinct documents. */
  datatype Document = Decoded(source: seq<byte>)

  /** The one cache key of the service (declared in handler.go). */
  const GvlCacheKey: string := "gvl-version2-key"
  /** The memcached pool the store step writes into. */
  const CacheNamespace: string := "middleton"

  /** A memcached location: pool and key. */
  datatype Slot = Slot(namespace: string, key: string)

  const GvlSlot: Slot := Slot(CacheNamespace, GvlCacheKey)

  /** A stored object and its memcached expiry, an `int32` in seconds. */
  datatype Entry = Entry(value: Document, expiry: int)

  type Cache = map<Slot, Entry>

  // ---------------------------------------------------------------------
  // Cache lookup

  /** What a cache read reports: nothing usable, or the stored document. */
  datatype Lookup = Miss | Hit(found: Document)

  /** `getGVLVersionTwoValueFromCache`: the read of the store is commented
      out in the source, so the lookup ignores the cache and misses, even
      when the GVL slot holds a document. */
  function LookupFromCache(cache: Cache): (r: Lookup)
    ensures r == Miss
  {
    Miss
  }

  // ---------------------------------------------------------------------
  // Upstream fetch

  /** How the upstream exchange went, stage by stage: building the request
      (`http.NewRequest`), sending it (`client.Do`), reading the body
      (`ioutil.ReadAll`), and the bytes read, where `None` is a nil slice. */
  datatype Exchange =
    | RequestFailed(err: string)
    | TransportFailed(err: string)
    | ReadFailed(err: string)
    | Delivered(body: Option<seq<byte>>)

  /** Outcome of the fetch: the document it filled in, or the returned error. */
  datatype FetchResult = Fetched(doc: Document) | FetchFailed(err: string)

  const NilBodyError: string := "Response body is not returned in call"
  const MalformedBodyError: string := "Server response body is malformed"

  /** `isIABResponseBodyMalformed`: a stub that calls every body malformed,
      the empty one included. */
  function IsMalformed(body: seq<byte>): (malformed: bool)
    ensures malformed
  {
    true
  }

  /** The check sequence of `getGVLVersionTwoValueFromIABSource` for a given
      malformed-body test: collaborator errors are returned as they are, then
      a nil body, then a malformed body; what passes every check is decoded. */
  function FetchWith(ex: Exchange, malformed: seq<byte> -> bool): (r: FetchResult)
    ensures r.Fetched? <==> ex.Delivered? && ex.body.Some? && !malformed(ex.body.value)
    ensures r.Fetched? ==> r.doc == Decoded(ex.body.value)
    ensures !ex.Delivered? ==> r == FetchFailed(ex.err)
    ensures ex == Delivered(None) ==> r == FetchFailed(NilBodyError)
    ensures ex.Delivered? && ex.body.Some? && malformed(ex.body.value) ==> r == FetchFailed(MalformedBodyError)
  {
    match ex
    case RequestFailed(e) => FetchFailed(e)
    case TransportFailed(e) => FetchFailed(e)
    case ReadFailed(e) => FetchFailed(e)
    case Delivered(None) => FetchFailed(NilBodyError)
    case Delivered(Some(body)) =>
      if malformed(body) then FetchFailed(MalformedBodyError) else Fetched(Decoded(body))
  }

  /** The malformed test is consulted only for a body that was actually read:
      on every other exchange the fetch ends the same whatever the test says. */
  lemma FetchConsultsTestOnlyOnBody(ex: Exchange, m1: seq<byte> -> bool, m2: seq<byte> -> bool)
    requires !(ex.Delivered? && ex.body.Some?)
    ensures FetchWith(ex, m1) == FetchWith(ex, m2)
  {
  }

  /** `getGVLVersionTwoValueFromIABSource` with the stubbed malformed test:
      no exchange leads to a document. A body that was read, empty or not,
      is reported as malformed. */
  function FetchFromSource(ex: Exchange): (r: FetchResult)
    ensures r.FetchFailed?
    ensures ex.Delivered? && ex.body.Some? ==> r.err == MalformedBodyError
    ensures ex == Delivered(None) ==> r.err == NilBodyError
    ensures !ex.Delivered? ==> r.err == ex.err
  {
    FetchWith(ex, IsMalformed)
  }

  // ---------------------------------------------------------------------
  // Cache lifetime

  /** The `(int, error)` pair `getCachingPeriodOfGVLInSeconds` returns. */
  datatype Period = Period(seconds: int, err: Option<string>)

  /** The canonical form of the "cache-control" name the source asks for. */
  const CacheControlHeader: string := "Cache-Control"
  const CacheControlError: string := "returned error for cache-control header"
  const ExpiryError: string := "can't set expiry time to an integer"
  /** Go's runtime error for `strings.Split(v, "=")[1]` on a one-piece split. */
  const IndexPanic: string := "runtime error: index out of range [1] with length 1"

  /** Period a header field yields under `strconv.Atoi`: its value when it is
      a decimal literal that fits in `int`, otherwise 0 with an error. */
  function FieldPeriod(field: string): Period {
    if IsDecimalLiteral(field) && InIntRange(LiteralValue(field))
    then Period(LiteralValue(field), None)
    else Period(0, Some(ExpiryError))
  }

  /** `getCachingPeriodOfGVLInSeconds`: the text between the first `=` of the
      `Cache-Control` value and the next `=` (or the end), read by Atoi. The
      directive name before `=` is never looked at, negative values pass,
      and a non-empty value without `=` makes the indexing panic. */
  function CachingPeriod(header: Header): (r: Run<Period>)
    ensures HeaderGet(header, CacheControlHeader) == "" ==> r == Returned(Period(0, Some(CacheControlError)))
    ensures r.Panicked? <==> HeaderGet(header, CacheControlHeader) != "" && '=' !in HeaderGet(header, CacheControlHeader)
    ensures var v := HeaderGet(header, CacheControlHeader);
      v != "" && '=' in v ==> r == Returned(FieldPeriod(SecondField(v, '=')))
  {
    var value := HeaderGet(header, CacheControlHeader);
    if value == "" then Returned(Period(0, Some(CacheControlError)))
    else
      var fields := Split(value, '=');
      SplitSecondField(value, '=');
      if |fields| < 2 then Panicked(IndexPanic)
      else
        match Atoi(fields[1])
        case None => Returned(Period(0, Some(ExpiryError)))
        case Some(n) => Returned(Period(n, None))
  }

  /** A field cut out of `name=field` or `name=field=...`: the characterization
      the Cache-Control examples below rest on. */
  lemma SecondFieldOf(s: string, name: string, field: string, rest: string)
    requires s == name + "=" + field + rest
    requires '=' !in name && '=' !in field
    requires rest == "" || rest[0] == '='
    ensures '=' in s && SecondField(s, '=') == field
  {
    assert s[|name|] == '=';
    assert s[..|name|] == name;
    assert s[|name| + 1..|name| + 1 + |field|] == field;
    assert s[|name| + 1 + |field|..] == rest;
    SplitSecondPiece(s, |name|, |name| + 1 + |field|, '=');
    SplitSecondField(s, '=');
  }

  /** `<name>=<n>` yields `n` for every `int` n, whatever the directive name,
      negative values included, and also when another `=` follows. */
  lemma CachingPeriodOfDirective(header: Header, name: string, n: int, rest: string)
    requires HeaderGet(header, CacheControlHeader) == name + "=" + Itoa(n) + rest
    requires '=' !in name && InIntRange(n)
    requires rest == "" || rest[0] == '='
    ensures CachingPeriod(header) == Returned(Period(n, None))
  {
    ItoaRoundTrip(n);
    var digits := Itoa(n);
    assert '=' !in digits by {
      forall i | 0 <= i < |digits| ensures digits[i] != '=' {
        if HasSign(digits) && i > 0 {
          assert digits[i] == Magnitude(digits)[i - 1];
        }
      }
    }
    SecondFieldOf(HeaderGet(header, CacheControlHeader), name, digits, rest);
  }

  /** A field that is not an optionally signed run of digits, such as one
      with a space, a comma or a second directive in it, is an error with 0. */
  lemma CachingPeriodRejectsField(header: Header, name: string, field: string, rest: string)
    requires HeaderGet(header, CacheControlHeader) == name + "=" + field + rest
    requires '=' !in name && '=' !in field
    requires rest == "" || rest[0] == '='
    requires !IsDecimalLiteral(field)
    ensures CachingPeriod(header) == Returned(Period(0, Some(ExpiryError)))
  {
    SecondFieldOf(HeaderGet(header, CacheControlHeader), name, field, rest);
  }

  /** "86400" reads as one day. */
  lemma OneDayLiteral(s: string)
    requires s == "86400"
    ensures IsDecimalLiteral(s) && LiteralValue(s) == 86400
  {
    var s0: string := [];
    var s1 := s0 + ['8'];
    DecimalValueSnoc(s0, '8');
    var s2 := s1 + ['6'];
    DecimalValueSnoc(s1, '6');
    var s3 := s2 + ['4'];
    DecimalValueSnoc(s2, '4');
    var s4 := s3 + ['0'];
    DecimalValueSnoc(s3, '0');
    var s5 := s4 + ['0'];
    DecimalValueSnoc(s4, '0');
    assert s5 == s;
    assert Magnitude(s) == s;
  }

  /** `max-age=86400`, the IAB's one-day lifetime, gives 86400 seconds. */
  lemma MaxAgeOneDay(header: Header)
    requires HeaderGet(header, CacheControlHeader) == "max-age=86400"
    ensures CachingPeriod(header) == Returned(Period(86400, None))
  {
    OneDayLiteral("86400");
    SecondFieldOf(HeaderGet(header, CacheControlHeader), "max-age", "86400", "");
  }

  /** `max-age=-5` gives -5: nothing rejects a negative lifetime. */
  lemma MaxAgeNegative(header: Header)
    requires HeaderGet(header, CacheControlHeader) == "max-age=-5"
    ensures CachingPeriod(header) == Returned(Period(-5, None))
  {
    SecondFieldOf(HeaderGet(header, CacheControlHeader), "max-age", "-5", "");
    assert Magnitude("-5") == "5";
    assert "5"[..0] == "";
  }

  /** `max-age= 60` and `max-age=60, public` are errors: Atoi sees a
      leading space or trailing text. */
  lemma MaxAgeWithExtraText(header: Header)
    requires HeaderGet(header, CacheControlHeader) in {"max-age= 60", "max-age=60, public", "max-age=abc"}
    ensures CachingPeriod(header) == Returned(Period(0, Some(ExpiryError)))
  {
    var v := HeaderGet(header, CacheControlHeader);
    if v == "max-age= 60" {
      assert !IsDigit(" 60"[0]);
      CachingPeriodRejectsField(header, "max-age", " 60", "");
    } else if v == "max-age=60, public" {
      assert !IsDigit("60, public"[2]);
      CachingPeriodRejectsField(header, "max-age", "60, public", "");
    } else {
      assert !IsDigit("abc"[0]);
      CachingPeriodRejectsField(header, "max-age", "abc", "");
    }
  }

  /** `no-cache`, a valid Cache-Control value without `=`, makes the parser panic. */
  lemma NoCachePanics(header: Header)
    requires HeaderGet(header, CacheControlHeader) == "no-cache"
    ensures CachingPeriod(header) == Panicked(IndexPanic)
  {
    assert forall i :: 0 <= i < |"no-cache"| ==> "no-cache"[i] != '=';
  }

  // ---------------------------------------------------------------------
  // Store step

  /** What `storeGVLVersion2ValueIntoCache` returns, how many times it called
      `ezcache.ReplaceKeyObject`, and the cache afterwards. */
  datatype StoreRun = StoreRun(stored: bool, replaceCalls: nat, cache: Cache)

  /** `storeGVLVersion2ValueIntoCache`: derive the TTL; on an error return
      false without touching the store; otherwise replace the GVL slot with
      the document and expiry `int32(ttl)`. `replaceFails` is the store's
      answer to that call; a failed replace leaves the cache as it was. */
  function StoreIntoCache(cache: Cache, doc: Document, header: Header, replaceFails: bool): (r: Run<StoreRun>)
    ensures r.Panicked? <==> CachingPeriod(header).Panicked?
    ensures r.Returned? ==> var ttl := CachingPeriod(header).value;
      && (r.value.stored <==> ttl.err.None? && !replaceFails)
      && r.value.replaceCalls == (if ttl.err.None? then 1 else 0)
      && (!r.value.stored ==> r.value.cache == cache)
      && (r.value.stored ==> GvlSlot in r.value.cache && r.value.cache[GvlSlot] == Entry(doc, Int32Of(ttl.seconds)))
    ensures r.Returned? ==> r.value.cache.Keys <= cache.Keys + {GvlSlot}
    ensures r.Returned? ==> forall s :: s in cache && s != GvlSlot ==> s in r.value.cache && r.value.cache[s] == cache[s]
  {
    match CachingPeriod(header)
    case Panicked(reason) => Panicked(reason)
    case Returned(Period(seconds, err)) =>
      if err.Some? then Returned(StoreRun(false, 0, cache))
      else if replaceFails then Returned(StoreRun(false, 1, cache))
      else Returned(StoreRun(true, 1, cache[GvlSlot := Entry(doc, Int32Of(seconds))]))
  }

  /** A response carrying `Cache-Control: <name>=<n>` is stored under the one
      fixed slot with expiry `int32(n)`, which wraps for `n` beyond 32 bits. */
  lemma StoreWithMaxAge(cache: Cache, doc: Document, header: Header, name: string, n: int)
    requires HeaderGet(header, CacheControlHeader) == name + "=" + Itoa(n)
    requires '=' !in name && InIntRange(n)
    ensures StoreIntoCache(cache, doc, header, false)
         == Returned(StoreRun(true, 1, cache[Slot("middleton", "gvl-version2-key") := Entry(doc, Int32Of(n))]))
  {
    assert name + "=" + Itoa(n) == name + "=" + Itoa(n) + "";
    CachingPeriodOfDirective(header, name, n, "");
  }

  /** Even right after a successful store the lookup misses: nothing the
      store step writes is ever read back. */
  lemma LookupMissesAfterStore(cache: Cache, doc: Document, header: Header)
    requires StoreIntoCache(cache, doc, header, false).Returned?
    requires StoreIntoCache(cache, doc, header, false).value.stored
    ensures GvlSlot in StoreIntoCache(cache, doc, header, false).value.cache
    ensures LookupFromCache(StoreIntoCache(cache, doc, header, false).value.cache) == Miss
  {
  }
}
