/**
 * The request pipeline of the Product Advertising API client: the parameters of a call
 * are merged with the fixed ones, encoded into a query, timestamped, canonicalised
 * (commas and colons escaped, the '&'-separated pairs sorted as whole strings),
 * signed over "GET\n<host>\n<path>\n<canonical query>" and sent.
 */
module Amazon {
  import opened Wrappers
  import opened Text
  import opened Sorting
  import opened Escape
  import opened UrlValues
  import opened Urls
  import opened Strconv
  import opened Clock

  // ----- Response values, as xml.Unmarshal leaves them -----

  type Uint16 = x: int | 0 <= x < 0x1_0000

  datatype Image = Image(url: Str, height: Uint16, width: Uint16)

  datatype ItemAttributes = ItemAttributes(
    author: Str, binding: Str, brand: Str, ean: Str, title: Str,
    manufacturer: Str, publisher: Str, releaseDate: Str, upc: Str)

  /** A product; a field the response leaves nil is None. */
  datatype Item = Item(
    asin: Str, url: Str, detailPageURL: Str,
    itemAttributes: Option<ItemAttributes>,
    salesRank: int,
    smallImage: Option<Image>, mediumImage: Option<Image>, largeImage: Option<Image>)

  datatype ItemSearchRequest = ItemSearchRequest(keywords: Str, searchIndex: Str, responseGroup: Str)

  datatype SearchRequestEcho = SearchRequestEcho(isValid: bool, itemSearchRequest: ItemSearchRequest)

  datatype SearchItems = SearchItems(
    request: SearchRequestEcho, items: seq<Item>,
    totalResults: int, totalPages: int, moreSearchResultsUrl: Str)

  datatype ItemSearchResponse = ItemSearchResponse(requestId: Str, items: SearchItems)

  // ----- Configuration and collaborators -----

  datatype AmazonProductAPI = AmazonProductAPI(accessKey: Str, secretKey: Str, associateTag: Str, host: Str)

  /** Library code the pipeline calls but the model does not look inside. */
  datatype Collaborators = Collaborators(
    parseUrl: Str -> Result<UrlParts, Error>,             // url.Parse
    hmacSha256: (Str, Str) -> Result<Str, Error>,         // hmac.New(sha256.New, key), Write(msg), Sum(nil)
    base64: Str -> Str,                                   // base64.StdEncoding.EncodeToString
    httpGet: Str -> Result<Str, Error>,                   // Client.Get(url) and ioutil.ReadAll of the body
    unmarshal: Str -> Result<ItemSearchResponse, Error>)  // xml.Unmarshal into an ItemSearchResponse

  const Service: Str := "AWSECommerceService"
  const ApiVersion: Str := "2013-08-01"
  const HttpScheme: Str := "http"
  const RequestPath: Str := "/onca/xml"
  const TimestampKey: Str := "Timestamp"
  const SearchResponseGroup: Str := "Images,ItemAttributes,Small,EditorialReview"

  const OperationKey: Str := "Operation"
  const ServiceKey: Str := "Service"
  const AccessKeyIdKey: Str := "AWSAccessKeyId"
  const VersionKey: Str := "Version"
  const AssociateTagKey: Str := "AssociateTag"
  const KeywordsKey: Str := "Keywords"
  const ResponseGroupKey: Str := "ResponseGroup"
  const ItemPageKey: Str := "ItemPage"
  const SearchIndexKey: Str := "SearchIndex"
  const ItemSearchOperation: Str := "ItemSearch"

  /** The keys every request carries. */
  const FixedKeys: set<Str> := {OperationKey, ServiceKey, AccessKeyIdKey, VersionKey, AssociateTagKey}

  // ----- generateAmazonURL -----

  /** The five values added before the caller's parameters. */
  function FixedParameters(api: AmazonProductAPI, operation: Str): Values
  {
    var v0: Values := map[];
    var v1 := Add(v0, OperationKey, operation);
    var v2 := Add(v1, ServiceKey, Service);
    var v3 := Add(v2, AccessKeyIdKey, api.accessKey);
    var v4 := Add(v3, VersionKey, ApiVersion);
    Add(v4, AssociateTagKey, api.associateTag)
  }

  /** The fixed values with every caller parameter Set over them. */
  function MergedParameters(api: AmazonProductAPI, operation: Str, parameters: map<Str, Str>): Values
  {
    FixedParameters(api, operation) + map k | k in parameters :: [parameters[k]]
  }

  /** The merged set holds the five fixed keys and every caller key, one value each; a caller
      value replaces the fixed one, and a fixed key the caller leaves alone keeps its value. */
  lemma MergedParametersContents(api: AmazonProductAPI, operation: Str, parameters: map<Str, Str>)
    ensures var m := MergedParameters(api, operation, parameters);
      && m.Keys == FixedKeys + parameters.Keys
      && (forall k | k in m :: |m[k]| == 1)
      && (forall k | k in parameters :: m[k] == [parameters[k]])
      && (forall k | k in FixedKeys && k !in parameters :: m[k] == FixedParameters(api, operation)[k])
  {
    var f := FixedParameters(api, operation);
    FixedParametersContents(api, operation);
    assert f.Keys == FixedKeys;
    assert forall k | k in f :: |f[k]| == 1;
  }

  /** The five fixed values, one per key. */
  lemma FixedParametersContents(api: AmazonProductAPI, operation: Str)
    ensures FixedParameters(api, operation) == map[
      OperationKey := [operation], ServiceKey := [Service], AccessKeyIdKey := [api.accessKey],
      VersionKey := [ApiVersion], AssociateTagKey := [api.associateTag]]
  {
    var v0: Values := map[];
    AddFresh(v0, OperationKey, operation);
    var v1 := Add(v0, OperationKey, operation);
    assert ServiceKey[0] != OperationKey[0];
    AddFresh(v1, ServiceKey, Service);
    var v2 := Add(v1, ServiceKey, Service);
    assert AccessKeyIdKey[0] !in {OperationKey[0], ServiceKey[0]};
    AddFresh(v2, AccessKeyIdKey, api.accessKey);
    var v3 := Add(v2, AccessKeyIdKey, api.accessKey);
    assert VersionKey[0] !in {OperationKey[0], ServiceKey[0], AccessKeyIdKey[0]};
    AddFresh(v3, VersionKey, ApiVersion);
    var v4 := Add(v3, VersionKey, ApiVersion);
    assert AssociateTagKey[1] != AccessKeyIdKey[1];
    assert AssociateTagKey[0] !in {OperationKey[0], ServiceKey[0], VersionKey[0]};
    AddFresh(v4, AssociateTagKey, api.associateTag);
  }

  /** Adding a value to a key that has none gives the key that one value. */
  lemma AddFresh(v: Values, k: Str, x: Str)
    requires k !in v
    ensures Add(v, k, x) == v[k := [x]]
  {
    assert [] + [x] == [x];
  }

  /** Sets every parameter over the given values, visiting the map in no particular order. */
  method SetAll(values: Values, parameters: map<Str, Str>) returns (merged: Values)
    ensures merged == values + map k | k in parameters :: [parameters[k]]
  {
    merged := values;
    var pending := parameters.Keys;
    ghost var done: set<Str> := {};
    while pending != {}
      invariant pending !! done && pending + done == parameters.Keys
      invariant merged == values + map k | k in done :: [parameters[k]]
      decreases pending
    {
      var k :| k in pending;
      SetStep(values, parameters, done, k);
      merged := Set(merged, k, parameters[k]);
      pending := pending - {k};
      done := done + {k};
    }
  }

  /** Setting one more parameter extends the set of parameters already applied. */
  lemma SetStep(values: Values, parameters: map<Str, Str>, done: set<Str>, k: Str)
    requires done <= parameters.Keys && k in parameters
    ensures Set(values + map j | j in done :: [parameters[j]], k, parameters[k]) ==
      values + map j | j in done + {k} :: [parameters[j]]
  {
    var l := Set(values + map j | j in done :: [parameters[j]], k, parameters[k]);
    var r := values + map j | j in done + {k} :: [parameters[j]];
    assert l.Keys == r.Keys;
    forall j | j in l ensures l[j] == r[j] {
    }
  }

  /** generateAmazonURL: the URL parsed from the configured host, redirected to
      http://<host>/onca/xml, with the merged parameters as its query. */
  method GenerateAmazonURL(api: AmazonProductAPI, env: Collaborators, operation: Str, parameters: map<Str, Str>)
    returns (finalURL: Url?, err: Option<Error>)
    ensures env.parseUrl(api.host).Failure? ==>
      finalURL == null && err == Some(env.parseUrl(api.host).error)
    ensures env.parseUrl(api.host).Success? ==>
      && err.None? && finalURL != null && fresh(finalURL)
      && finalURL.Parts() == Redirected(env.parseUrl(api.host).value, api, Encode(MergedParameters(api, operation, parameters)))
  {
    var parsed := env.parseUrl(api.host);
    if parsed.Failure? {
      return null, Some(parsed.error);
    }
    var result := new Url(parsed.value);
    result.host := api.host;
    result.scheme := HttpScheme;
    result.path := RequestPath;

    var values := FixedParameters(api, operation);
    values := SetAll(values, parameters);
    assert values == MergedParameters(api, operation, parameters);

    var query := Encode(values);
    result.rawQuery := query;
    assert result.Parts() == Redirected(parsed.value, api, query);
    return result, None;
  }

  // ----- setTimestamp -----

  /** The query setTimestamp leaves: the parsed values with Timestamp set, encoded again. */
  function TimestampedQuery(rawQuery: Str, now: Instant): Result<Str, Error>
  {
    match ParseQuery(rawQuery)
    case Failure(e) => Failure(e)
    case Success(v) => Success(Encode(Set(v, TimestampKey, FormatRFC3339(now))))
  }

  /** The query after setTimestamp, whether or not it succeeded. */
  function StampedOrKept(rawQuery: Str, now: Instant): Str
  {
    match TimestampedQuery(rawQuery, now)
    case Success(q) => q
    case Failure(_) => rawQuery
  }

  /** setTimestamp: parses the query, sets Timestamp to the RFC 3339 text of now and
      encodes the query again; a query that does not parse is left as it is. */
  method SetTimestamp(origURL: Url, now: Instant) returns (err: Option<Error>)
    modifies origURL`rawQuery
    ensures match ParseQuery(old(origURL.rawQuery))
      case Failure(e) => err == Some(e) && origURL.rawQuery == old(origURL.rawQuery)
      case Success(v) => err.None? && origURL.rawQuery == Encode(Set(v, TimestampKey, FormatRFC3339(now)))
    ensures origURL.rawQuery == StampedOrKept(old(origURL.rawQuery), now)
  {
    var values := ParseQuery(origURL.rawQuery);
    if values.Failure? {
      return Some(values.error);
    }
    origURL.rawQuery := Encode(Set(values.value, TimestampKey, FormatRFC3339(now)));
    return None;
  }

  lemma {:induction false} ParseTokensKeepsValues(ts: seq<Str>, m: Values, err: Option<Error>)
    requires NoEmptyLists(m)
    ensures NoEmptyLists(ParseTokens(ts, m, err).0)
    decreases |ts|
  {
    if |ts| > 0 {
      var (m', err') := ParsePiece(ts[0], m, err);
      ParseTokensKeepsValues(ts[1..], m', err');
    }
  }

  /** After setTimestamp the query holds exactly one Timestamp value, the new one, and
      every other key keeps its values. */
  lemma TimestampReplaces(rawQuery: Str, now: Instant)
    requires ParseQuery(rawQuery).Success?
    ensures var v := ParseQuery(rawQuery).value;
      && TimestampedQuery(rawQuery, now).Success?
      && ParseQuery(TimestampedQuery(rawQuery, now).value) == Success(v[TimestampKey := [FormatRFC3339(now)]])
  {
    ParseTokensKeepsValues(Split(rawQuery, '&'), map[], None);
    var v := ParseQuery(rawQuery).value;
    ParseEncodeRoundTrip(Set(v, TimestampKey, FormatRFC3339(now)));
  }

  // ----- signAmazonURL -----

  /** The pre-pass: every ',' becomes "%2C", then every ':' becomes "%3A". */
  function EscapeCommasAndColons(rawQuery: Str): Str
  {
    ReplaceAll(ReplaceAll(rawQuery, ',', "%2C"), ':', "%3A")
  }

  /** The canonical query: the '&'-separated pairs of the pre-passed query, sorted as whole strings. */
  function CanonicalQuery(rawQuery: Str): Str
  {
    Join(SortSeq(Split(EscapeCommasAndColons(rawQuery), '&')), '&')
  }

  /** The text that is signed. */
  function StringToSign(host: Str, path: Str, canonical: Str): Str
  {
    "GET" + "\n" + host + "\n" + path + "\n" + canonical
  }

  /** The query-escaped base64 of the HMAC-SHA256 of toSign, or the hash's write error. */
  function Signature(env: Collaborators, secretKey: Str, toSign: Str): Result<Str, Error>
  {
    match env.hmacSha256(secretKey, toSign)
    case Failure(e) => Failure(e)
    case Success(mac) => Success(QueryEscape(env.base64(mac)))
  }

  /** The signed query: the canonical query, then the signature pair. */
  function SignedQuery(canonical: Str, signature: Str): Str
  {
    canonical + "&Signature=" + signature
  }

  /** The canonicalising half of signAmazonURL: the pre-pass, then the pairs sorted in place. */
  method SortPairs(rawQuery: Str) returns (sortedParams: Str)
    ensures sortedParams == CanonicalQuery(rawQuery)
  {
    var escapeURL := ReplaceAll(rawQuery, ',', "%2C");
    escapeURL := ReplaceAll(escapeURL, ':', "%3A");

    var params := Split(escapeURL, '&');
    var pairs := new Str[|params|](i requires 0 <= i < |params| => params[i]);
    assert pairs[..] == params;
    SortStrings(pairs);
    sortedParams := Join(pairs[..], '&');
  }

  /** The parts of a URL after signing: the query replaced by the canonical query followed by the
      signature of "GET", host, path and canonical query; or the hash's error. */
  function SignedParts(parts: UrlParts, secretKey: Str, env: Collaborators): Result<UrlParts, Error>
  {
    var canonical := CanonicalQuery(parts.rawQuery);
    match Signature(env, secretKey, StringToSign(parts.host, parts.path, canonical))
    case Failure(e) => Failure(e)
    case Success(sig) => Success(parts.(rawQuery := SignedQuery(canonical, sig)))
  }

  /** signAmazonURL: the query is canonicalised, the string to sign built from the URL's host
      and path, and on success the query becomes the canonical query followed by the signature
      pair and the whole URL is returned; a hash error leaves the query untouched. */
  method SignAmazonURL(origURL: Url, api: AmazonProductAPI, env: Collaborators) returns (signedURL: Str, err: Option<Error>)
    modifies origURL`rawQuery
    ensures match SignedParts(old(origURL.Parts()), api.secretKey, env)
      case Failure(e) => signedURL == [] && err == Some(e) && origURL.Parts() == old(origURL.Parts())
      case Success(signed) => err.None? && origURL.Parts() == signed && signedURL == Render(signed)
  {
    var sortedParams := SortPairs(origURL.rawQuery);

    var toSign := StringToSign(origURL.host, origURL.path, sortedParams);

    var mac := env.hmacSha256(api.secretKey, toSign);
    if mac.Failure? {
      return [], Some(mac.error);
    }
    var hash := env.base64(mac.value);
    hash := QueryEscape(hash);
    origURL.rawQuery := sortedParams + "&Signature=" + hash;
    return origURL.String(), None;
  }

  lemma PrePassAvoids(rawQuery: Str)
    ensures ',' !in EscapeCommasAndColons(rawQuery) && ':' !in EscapeCommasAndColons(rawQuery)
  {
    var s1 := ReplaceAll(rawQuery, ',', "%2C");
    ReplaceAllAvoids(rawQuery, ',', "%2C", ',');
    ReplaceAllAvoids(s1, ':', "%3A", ',');
    ReplaceAllAvoids(s1, ':', "%3A", ':');
  }

  /** The canonical query has no raw ',' or ':', and its '&'-separated pairs are the pairs of
      the pre-passed query, sorted: in non-decreasing order and a permutation of them. */
  lemma CanonicalQueryProperties(rawQuery: Str)
    ensures var canonical := CanonicalQuery(rawQuery);
      var pairs := Split(EscapeCommasAndColons(rawQuery), '&');
      && ',' !in canonical && ':' !in canonical
      && Split(canonical, '&') == SortSeq(pairs)
      && Sorted(Split(canonical, '&'))
      && multiset(Split(canonical, '&')) == multiset(pairs)
  {
    var pre := EscapeCommasAndColons(rawQuery);
    var pairs := Split(pre, '&');
    PrePassAvoids(rawQuery);
    SplitPiecesFree(pre, '&');
    SplitPiecesAvoid(pre, '&', ',');
    SplitPiecesAvoid(pre, '&', ':');
    SortSeqAvoids(pairs, '&');
    SortSeqAvoids(pairs, ',');
    SortSeqAvoids(pairs, ':');
    var sorted := SortSeq(pairs);
    assert |sorted| == |pairs| by { assert |multiset(sorted)| == |multiset(pairs)|; }
    SplitJoin(sorted, '&');
    JoinBytes(sorted, '&', ',');
    JoinBytes(sorted, '&', ':');
  }

  /** Canonicalising a canonical query changes nothing. */
  lemma CanonicalIdempotent(rawQuery: Str)
    ensures CanonicalQuery(CanonicalQuery(rawQuery)) == CanonicalQuery(rawQuery)
  {
    var c := CanonicalQuery(rawQuery);
    CanonicalQueryProperties(rawQuery);
    ReplaceAllAbsent(c, ',', "%2C");
    ReplaceAllAbsent(c, ':', "%3A");
    assert EscapeCommasAndColons(c) == c;
    SortSorted(Split(c, '&'));
    JoinSplit(c, '&');
  }

  /** On a query that Encode produced the pre-pass changes nothing: QueryEscape has already
      written every ',' as "%2C" and every ':' as "%3A". */
  lemma PrePassKeepsEncoded(v: Values)
    ensures EscapeCommasAndColons(Encode(v)) == Encode(v)
  {
    EncodeHasNoCommaOrColon(v);
    ReplaceAllAbsent(Encode(v), ',', "%2C");
    ReplaceAllAbsent(Encode(v), ':', "%3A");
  }

  /** The string to sign determines host, path and query, when host and path hold no newline. */
  lemma StringToSignInjective(h1: Str, p1: Str, q1: Str, h2: Str, p2: Str, q2: Str)
    requires '\n' !in h1 && '\n' !in p1 && '\n' !in h2 && '\n' !in p2
    ensures StringToSign(h1, p1, q1) == StringToSign(h2, p2, q2) <==> h1 == h2 && p1 == p2 && q1 == q2
  {
    if StringToSign(h1, p1, q1) == StringToSign(h2, p2, q2) {
      SignedLines(h1, p1, q1);
      SignedLines(h2, p2, q2);
      var s1, s2 := Split(q1, '\n'), Split(q2, '\n');
      assert s1 == Split(StringToSign(h1, p1, q1), '\n')[3..];
      JoinSplit(q1, '\n');
      JoinSplit(q2, '\n');
    }
  }

  lemma SignedLines(h: Str, p: Str, q: Str)
    requires '\n' !in h && '\n' !in p
    ensures Split(StringToSign(h, p, q), '\n') == ["GET", h, p] + Split(q, '\n')
  {
    var nl: Str := "\n";
    assert nl == ['\n'];
    var l2 := "GET" + nl + h;
    var l3 := l2 + nl + p;
    assert StringToSign(h, p, q) == l3 + nl + q;
    assert '\n' !in "GET";
    SplitNoSeparator("GET", '\n');
    SplitNoSeparator(h, '\n');
    SplitNoSeparator(p, '\n');
    SplitConcat("GET", '\n', h);
    SplitConcat(l2, '\n', p);
    SplitConcat(l3, '\n', q);
  }

  /** The signature pair is the last '&'-separated pair of the signed query. */
  lemma SignatureIsLast(canonical: Str, env: Collaborators, secretKey: Str, toSign: Str)
    requires Signature(env, secretKey, toSign).Success?
    ensures var sig := Signature(env, secretKey, toSign).value;
      Split(SignedQuery(canonical, sig), '&') == Split(canonical, '&') + ["Signature=" + sig]
  {
    var sig := Signature(env, secretKey, toSign).value;
    var pair := "Signature=" + sig;
    EscapedHasNoReserved(env.base64(env.hmacSha256(secretKey, toSign).value));
    assert '&' !in pair;
    assert SignedQuery(canonical, sig) == canonical + ['&'] + pair;
    SplitConcat(canonical, '&', pair);
    SplitNoSeparator(pair, '&');
  }

  // ----- genSignAndFetch -----

  /** The fields generateAmazonURL overwrites in the parsed URL. */
  function Redirected(parts: UrlParts, api: AmazonProductAPI, rawQuery: Str): UrlParts
  {
    parts.(scheme := HttpScheme, host := api.host, path := RequestPath, rawQuery := rawQuery)
  }

  /** What signing a query for the parsed URL yields: the signed URL, or the hash's error. */
  function SignParts(parts: UrlParts, api: AmazonProductAPI, env: Collaborators, query: Str): Result<Str, Error>
  {
    match SignedParts(Redirected(parts, api, query), api.secretKey, env)
    case Failure(e) => Failure(e)
    case Success(signed) => Success(Render(signed))
  }

  /** The signed URL genSignAndFetch requests, or the error that stops it first. The error
      of setTimestamp is discarded: a query it cannot parse is signed without a timestamp. */
  function SignedRequest(api: AmazonProductAPI, env: Collaborators, operation: Str, parameters: map<Str, Str>, now: Instant): Result<Str, Error>
  {
    match env.parseUrl(api.host)
    case Failure(e) => Failure(e)
    case Success(parts) =>
      var generated := Encode(MergedParameters(api, operation, parameters));
      SignParts(parts, api, env, StampedOrKept(generated, now))
  }

  /** The body genSignAndFetch returns, or its error. */
  function FetchOutcome(api: AmazonProductAPI, env: Collaborators, operation: Str, parameters: map<Str, Str>, now: Instant): Result<Str, Error>
  {
    match SignedRequest(api, env, operation, parameters, now)
    case Failure(e) => Failure(e)
    case Success(u) => env.httpGet(u)
  }

  /** genSignAndFetch: generate, timestamp, sign, then fetch; the first error stops it. */
  method GenSignAndFetch(api: AmazonProductAPI, env: Collaborators, now: Instant, operation: Str, parameters: map<Str, Str>)
    returns (r: Result<Str, Error>)
    ensures r == FetchOutcome(api, env, operation, parameters, now)
  {
    var genURL, err := GenerateAmazonURL(api, env, operation, parameters);
    if err.Some? {
      return Failure(err.value);
    }
    ghost var parts := env.parseUrl(api.host).value;
    ghost var generated := Encode(MergedParameters(api, operation, parameters));
    ghost var query := StampedOrKept(generated, now);
    var ignored := SetTimestamp(genURL, now);
    assert genURL.Parts() == Redirected(parts, api, query);
    var signedURL, err2 := SignAmazonURL(genURL, api, env);
    if err2.Some? {
      return Failure(err2.value);
    }
    r := env.httpGet(signedURL);
  }

  /** The parse of a generated query never fails, so the discarded error of setTimestamp never
      occurs: the signed query is built from the merged parameters with Timestamp set. */
  lemma TimestampNeverFails(api: AmazonProductAPI, operation: Str, parameters: map<Str, Str>, now: Instant)
    ensures var merged := MergedParameters(api, operation, parameters);
      TimestampedQuery(Encode(merged), now) ==
        Success(Encode(merged[TimestampKey := [FormatRFC3339(now)]]))
  {
    MergedParametersContents(api, operation, parameters);
    ParseEncodeRoundTrip(MergedParameters(api, operation, parameters));
  }

  /** Canonicalising an encoded query sorts its pairs and changes nothing else. */
  lemma CanonicalOfEncoded(v: Values)
    requires NoEmptyLists(v) && |v| > 0
    ensures Split(CanonicalQuery(Encode(v)), '&') == SortSeq(EncodeTokens(v))
    ensures CanonicalQuery(Encode(v)) == Join(SortSeq(EncodeTokens(v)), '&')
  {
    PrePassKeepsEncoded(v);
    EncodeTokensNonEmpty(v);
    EncodeTokensShape(v);
    SplitJoin(EncodeTokens(v), '&');
    CanonicalQueryProperties(Encode(v));
  }

  /** End to end: when the host parses and the hash succeeds, the signed URL is the parsed URL
      redirected to http://<host>/onca/xml whose query's pairs are, in order, the encoded pairs
      of the merged parameters with Timestamp set, sorted as whole strings, and then the
      signature pair; the signature is computed over exactly that sorted query. */
  lemma SignedRequestShape(api: AmazonProductAPI, env: Collaborators, operation: Str, parameters: map<Str, Str>, now: Instant)
    requires env.parseUrl(api.host).Success?
    ensures var stamped := StampedParameters(api, operation, parameters, now);
      && SignedRequest(api, env, operation, parameters, now) == SignParts(env.parseUrl(api.host).value, api, env, Encode(stamped))
      && CanonicalQuery(Encode(stamped)) == Join(SortSeq(EncodeTokens(stamped)), '&')
      && Split(CanonicalQuery(Encode(stamped)), '&') == SortSeq(EncodeTokens(stamped))
  {
    var merged := MergedParameters(api, operation, parameters);
    var stamped := merged[TimestampKey := [FormatRFC3339(now)]];
    var generated := Encode(merged);
    TimestampNeverFails(api, operation, parameters, now);
    assert TimestampedQuery(generated, now) == Success(Encode(stamped));
    MergedParametersContents(api, operation, parameters);
    StampedCanonical(merged, FormatRFC3339(now));
  }

  lemma StampedCanonical(merged: Values, stamp: Str)
    requires forall k | k in merged :: |merged[k]| == 1
    ensures var stamped := merged[TimestampKey := [stamp]];
      && CanonicalQuery(Encode(stamped)) == Join(SortSeq(EncodeTokens(stamped)), '&')
      && Split(CanonicalQuery(Encode(stamped)), '&') == SortSeq(EncodeTokens(stamped))
  {
    var stamped := merged[TimestampKey := [stamp]];
    assert NoEmptyLists(stamped) && TimestampKey in stamped;
    CanonicalOfEncoded(stamped);
  }

  /** The parameters a request signs: the merged parameters with Timestamp set to the instant;
      every key carries one value. */
  function StampedParameters(api: AmazonProductAPI, operation: Str, parameters: map<Str, Str>, now: Instant): (r: Values)
    ensures OneValueEach(r) && r.Keys == FixedKeys + parameters.Keys + {TimestampKey}
  {
    MergedParametersContents(api, operation, parameters);
    MergedParameters(api, operation, parameters)[TimestampKey := [FormatRFC3339(now)]]
  }

  /** The pieces of the canonical query of an encoding with one value per key are its pairs in
      some order, none of them empty; the empty set of values leaves the single empty piece. */
  lemma CanonicalPairs(v: Values)
    requires OneValueEach(v)
    ensures multiset(Split(CanonicalQuery(Encode(v)), '&')) ==
      if v == map[] then multiset{[]} else multiset(EncodeTokens(v))
    ensures [] !in EncodeTokens(v)
  {
    EncodeTokensShape(v);
    if v == map[] {
      assert SortedKeys(v.Keys) == [];
      assert Encode(v) == [];
      assert SortSeq([[]]) == [[]];
    } else {
      CanonicalOfEncoded(v);
    }
  }

  /** For parameters with one value per key, as every signed request's are, the canonical query
      determines the parameters: two such sets share a canonical query exactly when they are equal. */
  lemma CanonicalDeterminesValues(v1: Values, v2: Values)
    requires OneValueEach(v1) && OneValueEach(v2)
    ensures CanonicalQuery(Encode(v1)) == CanonicalQuery(Encode(v2)) <==> v1 == v2
  {
    if CanonicalQuery(Encode(v1)) == CanonicalQuery(Encode(v2)) {
      CanonicalPairs(v1);
      CanonicalPairs(v2);
      if v1 != map[] && v2 != map[] {
        EncodeTokensDetermine(v1, v2);
      }
    }
  }

  lemma RequestPathOneLine()
    ensures '\n' !in RequestPath
  {
  }

  /** The string to sign determines the request: for hosts without a newline, two requests sign
      the same text exactly when they go to the same host with the same timestamped parameters,
      so a change to the host or to any parameter changes the signed text (and, with
      DistinctInstantsSignDistinctText, so does a change of instant). */
  lemma SignedTextDeterminesRequest(api1: AmazonProductAPI, operation1: Str, parameters1: map<Str, Str>, now1: Instant,
                                    api2: AmazonProductAPI, operation2: Str, parameters2: map<Str, Str>, now2: Instant)
    requires '\n' !in api1.host && '\n' !in api2.host
    ensures var stamped1 := StampedParameters(api1, operation1, parameters1, now1);
      var stamped2 := StampedParameters(api2, operation2, parameters2, now2);
      StringToSign(api1.host, RequestPath, CanonicalQuery(Encode(stamped1))) ==
        StringToSign(api2.host, RequestPath, CanonicalQuery(Encode(stamped2)))
      <==> api1.host == api2.host && stamped1 == stamped2
  {
    var stamped1 := StampedParameters(api1, operation1, parameters1, now1);
    var stamped2 := StampedParameters(api2, operation2, parameters2, now2);
    RequestPathOneLine();
    StringToSignInjective(api1.host, RequestPath, CanonicalQuery(Encode(stamped1)),
                          api2.host, RequestPath, CanonicalQuery(Encode(stamped2)));
    CanonicalDeterminesValues(stamped1, stamped2);
  }

  /** Each signed request is unique in time: the same request made at two distinct instants
      signs two distinct texts. */
  lemma DistinctInstantsSignDistinctText(api: AmazonProductAPI, operation: Str, parameters: map<Str, Str>,
                                         now1: Instant, now2: Instant)
    requires '\n' !in api.host && now1 != now2
    ensures StringToSign(api.host, RequestPath, CanonicalQuery(Encode(StampedParameters(api, operation, parameters, now1)))) !=
            StringToSign(api.host, RequestPath, CanonicalQuery(Encode(StampedParameters(api, operation, parameters, now2))))
  {
    SignedTextDeterminesRequest(api, operation, parameters, now1, api, operation, parameters, now2);
    var stamped1 := StampedParameters(api, operation, parameters, now1);
    var stamped2 := StampedParameters(api, operation, parameters, now2);
    assert stamped1[TimestampKey] == [FormatRFC3339(now1)];
    assert stamped2[TimestampKey] == [FormatRFC3339(now2)];
    FormatRFC3339Injective(now1, now2);
  }

  /** Two requests built from the same inputs at two instants differ only in their Timestamp
      pair: every other pair of one canonical query is a pair of the other. */
  lemma OnlyTimestampDiffers(api: AmazonProductAPI, operation: Str, parameters: map<Str, Str>,
                             now1: Instant, now2: Instant, t: Str)
    ensures var stamped1 := StampedParameters(api, operation, parameters, now1);
      var stamped2 := StampedParameters(api, operation, parameters, now2);
      (t in Split(CanonicalQuery(Encode(stamped1)), '&') && t != Token(TimestampKey, FormatRFC3339(now1))) <==>
      (t in Split(CanonicalQuery(Encode(stamped2)), '&') && t != Token(TimestampKey, FormatRFC3339(now2)))
  {
    var merged := MergedParameters(api, operation, parameters);
    MergedParametersContents(api, operation, parameters);
    assert OneValueEach(merged);
    var stamped1 := StampedParameters(api, operation, parameters, now1);
    var stamped2 := StampedParameters(api, operation, parameters, now2);
    assert TimestampKey in stamped1 && TimestampKey in stamped2;
    CanonicalPairs(stamped1);
    CanonicalPairs(stamped2);
    assert t in Split(CanonicalQuery(Encode(stamped1)), '&') <==> t in multiset(EncodeTokens(stamped1));
    assert t in Split(CanonicalQuery(Encode(stamped2)), '&') <==> t in multiset(EncodeTokens(stamped2));
    SetOnlyDiffers(merged, TimestampKey, FormatRFC3339(now1), FormatRFC3339(now2), t);
  }

  /** With no opaque part and no fragment left by the parse, the signed URL reads
      "http://" + host + "/onca/xml?" + query. */
  lemma RenderRedirected(parts: UrlParts, api: AmazonProductAPI, rawQuery: Str)
    requires parts.opaqueText == [] && parts.fragment == [] && rawQuery != []
    ensures Render(Redirected(parts, api, rawQuery)) == "http://" + api.host + "/onca/xml?" + rawQuery
  {
  }

  // ----- Search -----

  /** The parameters of an ItemSearch call. */
  function SearchParameters(index: Str, keywords: Str, page: Int64): map<Str, Str>
  {
    map[
      KeywordsKey := QueryEscape(keywords),
      ResponseGroupKey := SearchResponseGroup,
      ItemPageKey := FormatInt(page),
      SearchIndexKey := index]
  }

  /** ItemPage reads back as the page, negative pages included; Keywords unescapes to the
      keywords (Encode escapes it a second time); the index and response group are verbatim. */
  lemma SearchParametersContents(index: Str, keywords: Str, page: Int64)
    ensures var p := SearchParameters(index, keywords, page);
      && p.Keys == {KeywordsKey, ResponseGroupKey, ItemPageKey, SearchIndexKey}
      && ParseDecimal(p[ItemPageKey]) == Some(page as int)
      && QueryUnescape(p[KeywordsKey]) == Success(keywords)
      && p[SearchIndexKey] == index
      && p[ResponseGroupKey] == SearchResponseGroup
  {
    FormatIntRoundTrip(page);
    EscapeRoundTrip(keywords);
  }

  /** The decoded search response, or the first error. */
  function SearchOutcome(api: AmazonProductAPI, env: Collaborators, now: Instant, index: Str, keywords: Str, page: Int64): Result<ItemSearchResponse, Error>
  {
    match FetchOutcome(api, env, ItemSearchOperation, SearchParameters(index, keywords, page), now)
    case Failure(e) => Failure(e)
    case Success(body) => env.unmarshal(body)
  }

  /** AmazonProductAPI.Search: an ItemSearch request; a fetch error is returned before any decoding. */
  method Search(api: AmazonProductAPI, env: Collaborators, now: Instant, index: Str, keywords: Str, page: Int64)
    returns (r: Result<ItemSearchResponse, Error>)
    ensures r == SearchOutcome(api, env, now, index, keywords, page)
  {
    var params := SearchParameters(index, keywords, page);
    var result := GenSignAndFetch(api, env, now, ItemSearchOperation, params);
    if result.Failure? {
      return Failure(result.error);
    }
    r := env.unmarshal(result.value);
  }
}
